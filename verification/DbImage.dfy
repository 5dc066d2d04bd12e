/** The two flat files. An Image is what the bytes mean: pointer cells, index records and data
    extents by file offset. Each byte-level write of the library matches one update of the image. */
module DbImage {
  import opened Wrappers
  import opened DbCodec

  const NHASH := 137
  const FREE_OFF := 0
  const HASH_OFF := PTR_SZ
  /** Where the index records begin: free-list pointer, hash table and a newline come before. */
  const FIRST_REC := (NHASH + 1) * PTR_SZ + 1
  const REC_HDR := PTR_SZ + IDXLEN_SZ

  datatype Image = Image(
    offs: seq<nat>,          // offsets of the index records in file order
    ptr: map<nat, nat>,      // every pointer cell: free list, hash table, records
    rec: map<nat, Rec>,      // every index record
    iend: nat,               // length of the index file
    dat: map<nat, string>,   // every data extent, without its newline
    dend: nat)               // length of the data file

  function HeadOff(h: nat): (c: nat) { HASH_OFF + h * PTR_SZ }

  /** Where everything is in an index file: the free-list pointer at 0, the heads of the 137 chains after it,
      seven columns each, a newline at 966, and the records, each after eleven columns of pointer and length. */
  lemma Layout(h: nat)
    requires h < 137
    ensures FREE_OFF == 0 && HeadOff(h) == 7 * (h + 1) && HeadOff(136) + 7 == 966 && FIRST_REC == 967 && REC_HDR == 11
    ensures NHASH == 137 && PTR_SZ == 7 && IDXLEN_SZ == 4 && PTR_MAX == 9999999
  {
  }

  /** Offset just past the index record at o. */
  function RecEnd(img: Image, o: nat): nat
    requires o in img.rec
  {
    o + REC_HDR + BodyLen(img.rec[o])
  }

  predicate RecOk(r: Rec) {
    && CleanKey(r.key)
    && DATLEN_MIN <= r.datlen <= DATLEN_MAX
    && IDXLEN_MIN <= BodyLen(r) <= IDXLEN_MAX
  }

  predicate IsHeader(c: nat) { c % PTR_SZ == 0 && c < FIRST_REC - 1 }

  /** The index file is a header followed by whole records, end to end. */
  ghost predicate Tiled(img: Image) {
    && (if img.offs == [] then img.iend == FIRST_REC else img.offs[0] == FIRST_REC)
    && (forall o | o in img.offs :: o in img.rec)
    && (forall i {:trigger RecEnd(img, img.offs[i])} | 0 <= i < |img.offs| ::
          RecEnd(img, img.offs[i]) == (if i + 1 < |img.offs| then img.offs[i + 1] else img.iend))
  }

  /** Whole records at distinct places, whatever their order. */
  ghost predicate Spread(img: Image) {
    && FIRST_REC <= img.iend
    && (forall o | o in img.rec :: FIRST_REC <= o && RecEnd(img, o) <= img.iend)
    && (forall a, b {:trigger RecEnd(img, a), RecEnd(img, b)} | a in img.rec && b in img.rec && a < b ::
            RecEnd(img, a) <= b)
  }

  ghost predicate Cells(img: Image) {
    && (forall c | IsHeader(c) :: c in img.ptr)
    && (forall c | c in img.ptr :: (IsHeader(c) || c in img.rec) && img.ptr[c] <= PTR_MAX)
    && (forall o | o in img.rec :: o in img.ptr && o in img.offs && RecOk(img.rec[o]))
  }

  predicate DataOk(d: string) { DATLEN_MIN <= |d| + 1 <= DATLEN_MAX && NUL !in d }

  /** Data extents lie inside the data file and never overlap. */
  ghost predicate Extents(img: Image) {
    && (forall d | d in img.dat :: DataOk(img.dat[d]) && d + |img.dat[d]| + 1 <= img.dend)
    && (forall a, b | a in img.dat && b in img.dat && a < b :: a + |img.dat[a]| + 1 <= b)
  }

  ghost predicate Geometry(img: Image) {
    Tiled(img) && Spread(img) && Cells(img) && Extents(img)
  }

  // ----- bytes -----

  /** lseek to o, then write t: overwrites in place, extends the file when it passes the end. */
  function WriteAt(s: string, o: nat, t: string): (r: string)
    requires o <= |s|
    ensures |r| == if o + |t| <= |s| then |s| else o + |t|
  {
    s[..o] + t + (if o + |t| <= |s| then s[o + |t|..] else [])
  }

  /** s carries the text F[a] at a + k, for every a. */
  ghost predicate Holds(s: string, k: nat, F: map<nat, string>) {
    forall a | a in F :: a + k + |F[a]| <= |s| && s[a + k..a + k + |F[a]|] == F[a]
  }

  /** The n bytes at o touch no text of F, except perhaps that of entry a. */
  ghost predicate Clear(o: nat, n: nat, k: nat, F: map<nat, string>, a: nat) {
    forall b | b in F && b != a :: b + k + |F[b]| <= o || o + n <= b + k
  }

  lemma HoldsKept(s: string, o: nat, t: string, k: nat, F: map<nat, string>, a: nat)
    requires o <= |s| && Holds(s, k, F) && Clear(o, |t|, k, F, a) && a !in F
    ensures Holds(WriteAt(s, o, t), k, F)
  {
    var r := WriteAt(s, o, t);
    forall a | a in F ensures r[a + k..a + k + |F[a]|] == F[a] {
      assert r[a + k..a + k + |F[a]|] == s[a + k..a + k + |F[a]|];
    }
  }

  /** Writing t at o sets the text of entry a to u and leaves every other entry alone. */
  lemma HoldsSet(s: string, o: nat, t: string, k: nat, F: map<nat, string>, a: nat, u: string)
    requires o <= |s| && Holds(s, k, F)
    requires Clear(o, |t|, k, F, a)
    requires o <= a + k && a + k + |u| <= o + |t| && t[a + k - o..a + k - o + |u|] == u
    ensures Holds(WriteAt(s, o, t), k, F[a := u])
  {
    var r := WriteAt(s, o, t);
    HoldsKept(s, o, t, k, map b | b in F && b != a :: F[b], a);
    assert r[o..o + |t|] == t;
    assert r[a + k..a + k + |u|] == r[o..o + |t|][a + k - o..a + k - o + |u|];
  }

  function PtrText(v: nat): string { Padded(PTR_SZ, v) }

  function PtrTexts(ptr: map<nat, nat>): map<nat, string> { map c | c in ptr :: PtrText(ptr[c]) }

  function RecTexts(rec: map<nat, Rec>): map<nat, string> { map o | o in rec :: RecText(rec[o]) }

  function ExtentText(d: string): string { d + [NEWLINE] }

  function ExtentTexts(dat: map<nat, string>): map<nat, string> { map d | d in dat :: ExtentText(dat[d]) }

  lemma PtrTextsSet(ptr: map<nat, nat>, c: nat, v: nat)
    ensures PtrTexts(ptr[c := v]) == PtrTexts(ptr)[c := PtrText(v)]
  {
  }

  lemma RecTextsSet(rec: map<nat, Rec>, o: nat, r: Rec)
    ensures RecTexts(rec[o := r]) == RecTexts(rec)[o := RecText(r)]
  {
  }

  lemma ExtentTextsSet(dat: map<nat, string>, d: nat, t: string)
    ensures ExtentTexts(dat[d := t]) == ExtentTexts(dat)[d := ExtentText(t)]
  {
  }

  ghost predicate IdxBytes(idx: string, img: Image) {
    && |idx| == img.iend
    && FIRST_REC <= |idx| && idx[FIRST_REC - 1] == NEWLINE
    && Holds(idx, 0, PtrTexts(img.ptr))
    && Holds(idx, PTR_SZ, RecTexts(img.rec))
  }

  ghost predicate DatBytes(dat: string, img: Image) {
    |dat| == img.dend && Holds(dat, 0, ExtentTexts(img.dat))
  }

  // ----- reading bytes -----

  /** _db_readptr: seven bytes through atol, or a read error. */
  function PtrAt(idx: string, o: nat): Option<int> {
    if o + PTR_SZ <= |idx| then Some(Atol(idx[o..o + PTR_SZ])) else None
  }

  datatype IdxRead = Eof | Bad(e: Error) | Good(next: int, len: nat, r: Rec)

  /** _db_readidx: header, length check, body. */
  function RecAt(idx: string, o: nat): IdxRead {
    if o + REC_HDR > |idx| then (if o >= |idx| then Eof else Bad(ReadError))
    else RecFrom(Atol(idx[o..o + PTR_SZ]), Atol(idx[o + PTR_SZ..o + REC_HDR]), idx[o + REC_HDR..])
  }

  function RecFrom(next: int, len: int, rest: string): IdxRead {
    if len < IDXLEN_MIN || len > IDXLEN_MAX then Bad(BadIdxLen)
    else if len > |rest| then Bad(ReadError)
    else
      match ParseBody(rest[..len])
      case Malformed(e) => Bad(e)
      case Parsed(r) => Good(next, len, r)
  }

  /** _db_readdat: datlen bytes ending in a newline, which is dropped. */
  function DataAt(dat: string, o: nat, len: nat): Option<string> {
    if len >= 1 && o + len <= |dat| && dat[o + len - 1] == NEWLINE
    then Some(CString(dat[o..o + len - 1])) else None
  }

  /** What _db_readidx makes of any bytes: nothing at the end of the file; a record only if seven columns of pointer,
      four of a length from 6 to 1024, and that many bytes of a body it accepts are all there. */
  lemma RecAtIs(idx: string, o: nat)
    ensures RecAt(idx, o).Eof? <==> o >= |idx|
    ensures RecAt(idx, o).Good? <==>
              && o + 11 <= |idx| && 6 <= Atol(idx[o + 7..o + 11]) <= 1024
              && o + 11 + Atol(idx[o + 7..o + 11]) <= |idx|
              && ParseBody(idx[o + 11..o + 11 + Atol(idx[o + 7..o + 11])]).Parsed?
    ensures RecAt(idx, o).Good? ==>
              var (next, n, r) := (RecAt(idx, o).next, RecAt(idx, o).len, RecAt(idx, o).r);
              && next == Atol(idx[o..o + 7]) && n == Atol(idx[o + 7..o + 11])
              && ParseBody(idx[o + 11..o + 11 + n]) == Parsed(r)
  {
    hide ParseBody, Atol;
    if o + 11 <= |idx| {
      var n := Atol(idx[o + 7..o + 11]);
      if 6 <= n <= 1024 && o + 11 + n <= |idx| { assert idx[o + 11..][..n] == idx[o + 11..o + 11 + n]; }
    }
  }

  /** And _db_readdat: all the bytes must be there and the last be a newline, which is not part of the data. */
  lemma DataAtIs(dat: string, o: nat, len: nat)
    ensures DataAt(dat, o, len).Some? <==> len >= 1 && o + len <= |dat| && dat[o + len - 1] == '\n'
    ensures DataAt(dat, o, len).Some? && NUL !in dat[o..o + len - 1] ==>
              DataAt(dat, o, len).value == dat[o..o + len - 1]
  {
    if DataAt(dat, o, len).Some? && NUL !in dat[o..o + len - 1] { CStringWhole(dat[o..o + len - 1]); }
  }

  /** Every cell of the image reads back from the bytes. */
  lemma PtrReads(idx: string, img: Image, c: nat)
    requires IdxBytes(idx, img) && Cells(img) && c in img.ptr
    ensures PtrAt(idx, c) == Some(img.ptr[c])
  {
    PtrFieldWidth(img.ptr[c]);
    AtolPadded(PTR_SZ, img.ptr[c]);
    assert PtrTexts(img.ptr)[c] == PtrText(img.ptr[c]);
  }

  /** The text of a record, wherever it stands, passes all of _db_readidx's checks. */
  lemma RecTextReads(idx: string, o: nat, r: Rec)
    requires RecOk(r) && |RecText(r)| == IDXLEN_SZ + BodyLen(r)
    requires o + REC_HDR + BodyLen(r) <= |idx|
    requires idx[o + PTR_SZ..o + PTR_SZ + |RecText(r)|] == RecText(r)
    ensures RecAt(idx, o) == Good(Atol(idx[o..o + PTR_SZ]), BodyLen(r), r)
  {
    var n, t := BodyLen(r), RecText(r);
    LenFieldWidth(n);
    AtolPadded(IDXLEN_SZ, n);
    assert idx[o + PTR_SZ..o + REC_HDR] == t[..IDXLEN_SZ] == Padded(IDXLEN_SZ, n);
    BodyReads(idx[o + REC_HDR..], r) by {
      assert idx[o + REC_HDR..][..n] == t[IDXLEN_SZ..] == BodyText(r);
    }
  }

  lemma BodyReads(rest: string, r: Rec)
    requires RecOk(r) && BodyLen(r) <= |rest| && rest[..BodyLen(r)] == BodyText(r)
    ensures forall v :: RecFrom(v, BodyLen(r), rest) == Good(v, BodyLen(r), r)
  {
    ParseOfBody(r);
  }

  /** Every record of the image reads back from the bytes. */
  lemma RecReads(idx: string, img: Image, o: nat)
    requires IdxBytes(idx, img) && Cells(img) && o in img.rec
    ensures RecAt(idx, o) == Good(img.ptr[o], BodyLen(img.rec[o]), img.rec[o])
  {
    PtrReads(idx, img, o);
    LenFieldWidth(BodyLen(img.rec[o]));
    assert RecTexts(img.rec)[o] == RecText(img.rec[o]);
    RecTextReads(idx, o, img.rec[o]);
  }

  lemma DataReads(dat: string, img: Image, d: nat)
    requires DatBytes(dat, img) && Extents(img) && d in img.dat
    ensures DataAt(dat, d, |img.dat[d]| + 1) == Some(img.dat[d])
  {
    var t := dat[d..d + |img.dat[d]| + 1];
    assert t == ExtentTexts(img.dat)[d] == ExtentText(img.dat[d]);
    assert dat[d..d + |img.dat[d]|] == t[..|img.dat[d]|] == img.dat[d];
    assert t[|img.dat[d]|] == NEWLINE;
    CStringWhole(img.dat[d]);
  }

  // ----- writing bytes -----

  function SetPtr(img: Image, c: nat, v: nat): Image { img.(ptr := img.ptr[c := v]) }

  function SetRec(img: Image, o: nat, v: nat, r: Rec): Image {
    img.(ptr := img.ptr[o := v], rec := img.rec[o := r])
  }

  function AddRec(img: Image, v: nat, r: Rec): Image {
    img.(offs := img.offs + [img.iend], ptr := img.ptr[img.iend := v], rec := img.rec[img.iend := r],
         iend := img.iend + REC_HDR + BodyLen(r))
  }

  function SetDat(img: Image, d: nat, t: string): Image { img.(dat := img.dat[d := t]) }

  function AddDat(img: Image, t: string): Image {
    img.(dat := img.dat[img.dend := t], dend := img.dend + |t| + 1)
  }

  /** A record and its pointer as they are written in one go. */
  function FullText(v: nat, r: Rec): string { PtrText(v) + RecText(r) }

  lemma FullTextLength(v: nat, r: Rec)
    requires v <= PTR_MAX && BodyLen(r) <= IDXLEN_MAX
    ensures |PtrText(v)| == PTR_SZ && |RecText(r)| == IDXLEN_SZ + BodyLen(r)
    ensures |FullText(v, r)| == REC_HDR + BodyLen(r)
    ensures FullText(v, r)[..PTR_SZ] == PtrText(v) && FullText(v, r)[PTR_SZ..] == RecText(r)
  {
    PtrFieldWidth(v);
    LenFieldWidth(BodyLen(r));
  }

  lemma CellsApart(img: Image, c: nat, e: nat)
    requires Spread(img) && Cells(img) && c in img.ptr && e in img.ptr && c != e
    ensures c + PTR_SZ <= e || e + PTR_SZ <= c
  {
    if c in img.rec && e in img.rec { assert RecEnd(img, c) <= e || RecEnd(img, e) <= c; }
  }

  /** A pointer cell is apart from the other cells and from record bodies. */
  lemma CellClear(img: Image, c: nat)
    requires Spread(img) && Cells(img) && c in img.ptr
    ensures c + PTR_SZ <= FIRST_REC - 1 || FIRST_REC <= c
    ensures c + PTR_SZ <= img.iend
    ensures Clear(c, PTR_SZ, 0, PtrTexts(img.ptr), c)
  {
    forall e | e in img.ptr && e != c
      ensures e + |PtrTexts(img.ptr)[e]| <= c || c + PTR_SZ <= e
    {
      PtrFieldWidth(img.ptr[e]);
      CellsApart(img, c, e);
    }
  }

  lemma CellClearOfBodies(img: Image, c: nat)
    requires Spread(img) && Cells(img) && c in img.ptr
    ensures forall x :: x !in img.rec ==> Clear(c, PTR_SZ, PTR_SZ, RecTexts(img.rec), x)
  {
    forall e | e in img.rec
      ensures e + PTR_SZ + |RecTexts(img.rec)[e]| <= c || c + PTR_SZ <= e + PTR_SZ
    {
      LenFieldWidth(BodyLen(img.rec[e]));
      if c in img.rec { assert c == e || RecEnd(img, c) <= e || RecEnd(img, e) <= c; }
    }
  }

  /** The same for a whole record. */
  lemma RecordClear(img: Image, o: nat)
    requires Spread(img) && Cells(img) && o in img.rec
    ensures Clear(o, RecEnd(img, o) - o, 0, PtrTexts(img.ptr), o)
  {
    forall e | e in img.ptr && e != o
      ensures e + |PtrTexts(img.ptr)[e]| <= o || RecEnd(img, o) <= e
    {
      PtrFieldWidth(img.ptr[e]);
      if e in img.rec { assert RecEnd(img, o) <= e || RecEnd(img, e) <= o; }
    }
  }

  lemma RecordClearOfBodies(img: Image, o: nat)
    requires Spread(img) && Cells(img) && o in img.rec
    ensures Clear(o, RecEnd(img, o) - o, PTR_SZ, RecTexts(img.rec), o)
  {
    forall e | e in img.rec && e != o
      ensures e + PTR_SZ + |RecTexts(img.rec)[e]| <= o || RecEnd(img, o) <= e + PTR_SZ
    {
      LenFieldWidth(BodyLen(img.rec[e]));
      assert RecEnd(img, o) <= e || RecEnd(img, e) <= o;
    }
  }

  /** Everything lies before the end of the file. */
  lemma EndClear(img: Image, n: nat)
    requires Spread(img) && Cells(img)
    ensures Clear(img.iend, n, 0, PtrTexts(img.ptr), img.iend)
    ensures Clear(img.iend, n, PTR_SZ, RecTexts(img.rec), img.iend)
  {
    forall e | e in img.ptr ensures e + |PtrTexts(img.ptr)[e]| <= img.iend {
      PtrFieldWidth(img.ptr[e]);
    }
    forall e | e in img.rec ensures e + PTR_SZ + |RecTexts(img.rec)[e]| <= img.iend {
      LenFieldWidth(BodyLen(img.rec[e]));
    }
  }

  /** Rewriting one pointer cell. */
  lemma SetPtrBytes(idx: string, img: Image, c: nat, v: nat)
    requires Spread(img) && Cells(img) && IdxBytes(idx, img) && c in img.ptr && v <= PTR_MAX
    ensures c <= |idx| && IdxBytes(WriteAt(idx, c, PtrText(v)), SetPtr(img, c, v))
  {
    PtrFieldWidth(v);
    CellClear(img, c);
    CellClearOfBodies(img, c);
    var t := PtrText(v);
    assert t[0..PTR_SZ] == t;
    HoldsSet(idx, c, t, 0, PtrTexts(img.ptr), c, t);
    HoldsKept(idx, c, t, PTR_SZ, RecTexts(img.rec), FREE_OFF);
    PtrTextsSet(img.ptr, c, v);
  }

  lemma SetPtrGeometry(img: Image, c: nat, v: nat)
    requires Geometry(img) && c in img.ptr && v <= PTR_MAX
    ensures Geometry(SetPtr(img, c, v))
  {
    var img' := SetPtr(img, c, v);
    assert forall o | o in img.rec :: RecEnd(img', o) == RecEnd(img, o);
  }

  /** Where writing the full text of a record puts its two parts. */
  lemma HoldsFull(idx: string, o: nat, v: nat, r: Rec, P: map<nat, string>, B: map<nat, string>)
    requires o <= |idx| && v <= PTR_MAX && BodyLen(r) <= IDXLEN_MAX
    requires Holds(idx, 0, P) && Clear(o, REC_HDR + BodyLen(r), 0, P, o)
    requires Holds(idx, PTR_SZ, B) && Clear(o, REC_HDR + BodyLen(r), PTR_SZ, B, o)
    ensures Holds(WriteAt(idx, o, FullText(v, r)), 0, P[o := PtrText(v)])
    ensures Holds(WriteAt(idx, o, FullText(v, r)), PTR_SZ, B[o := RecText(r)])
  {
    FullTextLength(v, r);
    var t := FullText(v, r);
    assert t[0..PTR_SZ] == t[..PTR_SZ];
    assert t[PTR_SZ..|t|] == t[PTR_SZ..];
    HoldsSet(idx, o, t, 0, P, o, PtrText(v));
    HoldsSet(idx, o, t, PTR_SZ, B, o, RecText(r));
  }

  /** Rewriting a record in place with a body of the same length. */
  lemma SetRecBytes(idx: string, img: Image, o: nat, v: nat, r: Rec)
    requires Spread(img) && Cells(img) && IdxBytes(idx, img) && o in img.rec && v <= PTR_MAX
    requires RecOk(r) && BodyLen(r) == BodyLen(img.rec[o])
    ensures o <= |idx| && IdxBytes(WriteAt(idx, o, FullText(v, r)), SetRec(img, o, v, r))
  {
    RecordClear(img, o);
    RecordClearOfBodies(img, o);
    HoldsFull(idx, o, v, r, PtrTexts(img.ptr), RecTexts(img.rec));
    FullTextLength(v, r);
    PtrTextsSet(img.ptr, o, v);
    RecTextsSet(img.rec, o, r);
  }

  lemma SetRecSpread(img: Image, o: nat, v: nat, r: Rec)
    requires Spread(img) && Tiled(img) && o in img.rec && BodyLen(r) == BodyLen(img.rec[o])
    ensures Spread(SetRec(img, o, v, r)) && Tiled(SetRec(img, o, v, r))
  {
    var img' := SetRec(img, o, v, r);
    assert forall e | e in img.rec :: RecEnd(img', e) == RecEnd(img, e);
  }

  lemma SetRecCells(img: Image, o: nat, v: nat, r: Rec)
    requires Cells(img) && o in img.rec && v <= PTR_MAX && RecOk(r)
    ensures Cells(SetRec(img, o, v, r))
  {
  }

  lemma SetRecGeometry(img: Image, o: nat, v: nat, r: Rec)
    requires Geometry(img) && o in img.rec && v <= PTR_MAX
    requires RecOk(r) && BodyLen(r) == BodyLen(img.rec[o])
    ensures Geometry(SetRec(img, o, v, r))
  {
    SetRecSpread(img, o, v, r);
    SetRecCells(img, o, v, r);
    hide Spread, Tiled, Cells;
  }

  /** Appending a record. */
  lemma AddRecBytes(idx: string, img: Image, v: nat, r: Rec)
    requires Spread(img) && Cells(img) && IdxBytes(idx, img) && v <= PTR_MAX && RecOk(r)
    ensures IdxBytes(WriteAt(idx, |idx|, FullText(v, r)), AddRec(img, v, r))
  {
    EndClear(img, REC_HDR + BodyLen(r));
    HoldsFull(idx, |idx|, v, r, PtrTexts(img.ptr), RecTexts(img.rec));
    FullTextLength(v, r);
    PtrTextsSet(img.ptr, img.iend, v);
    RecTextsSet(img.rec, img.iend, r);
  }

  lemma AddRecGeometry(img: Image, v: nat, r: Rec)
    requires Geometry(img) && v <= PTR_MAX && RecOk(r)
    ensures img.iend !in img.rec && img.iend !in img.ptr
    ensures Geometry(AddRec(img, v, r))
  {
    AddRecSpread(img, v, r);
    AddRecTiled(img, v, r);
    AddRecCells(img, v, r);
  }

  lemma AddRecSpread(img: Image, v: nat, r: Rec)
    requires Spread(img)
    ensures img.iend !in img.rec && Spread(AddRec(img, v, r))
  {
    var img' := AddRec(img, v, r);
    assert forall e | e in img.rec :: RecEnd(img', e) == RecEnd(img, e) && e != img.iend;
  }

  lemma AddRecCells(img: Image, v: nat, r: Rec)
    requires Cells(img) && v <= PTR_MAX && RecOk(r) && img.iend !in img.rec && FIRST_REC <= img.iend
    ensures img.iend !in img.ptr && Cells(AddRec(img, v, r))
  {
    var img' := AddRec(img, v, r);
    assert img'.offs[|img.offs|] == img.iend;
    assert forall e | e in img.offs :: e in img'.offs;
  }

  lemma AddRecTiled(img: Image, v: nat, r: Rec)
    requires Tiled(img) && img.iend !in img.rec
    ensures Tiled(AddRec(img, v, r))
  {
    var img' := AddRec(img, v, r);
    assert forall e | e in img.rec :: RecEnd(img', e) == RecEnd(img, e);
    forall i | 0 <= i < |img'.offs|
      ensures RecEnd(img', img'.offs[i]) == (if i + 1 < |img'.offs| then img'.offs[i + 1] else img'.iend)
    {
      if i < |img.offs| { assert img'.offs[i] == img.offs[i] && img.offs[i] in img.rec; }
    }
  }

  /** The data file has no part in the shape of the index file. */
  lemma SameIndex(img: Image, img': Image)
    requires Tiled(img) && Spread(img) && Cells(img)
    requires img'.offs == img.offs && img'.ptr == img.ptr && img'.rec == img.rec && img'.iend == img.iend
    ensures Tiled(img') && Spread(img') && Cells(img')
  {
    assert forall e | e in img.rec :: RecEnd(img', e) == RecEnd(img, e);
  }

  /** Overwriting a data extent with data of the same length. */
  lemma SetDatBytes(dat: string, img: Image, d: nat, t: string)
    requires Extents(img) && DatBytes(dat, img) && d in img.dat && |t| == |img.dat[d]|
    ensures d <= |dat| && DatBytes(WriteAt(dat, d, ExtentText(t)), SetDat(img, d, t))
  {
    var u := ExtentText(t);
    assert u[0..|u|] == u;
    HoldsSet(dat, d, u, 0, ExtentTexts(img.dat), d, u);
    ExtentTextsSet(img.dat, d, t);
  }

  lemma SetDatGeometry(img: Image, d: nat, t: string)
    requires Geometry(img) && d in img.dat && |t| == |img.dat[d]| && NUL !in t
    ensures Geometry(SetDat(img, d, t))
  {
    var img' := SetDat(img, d, t);
    assert Extents(img') by {
      hide Spread, Tiled, Cells;
      assert forall e | e in img.dat :: |img'.dat[e]| == |img.dat[e]|;
    }
    SameIndex(img, img');
  }

  /** Appending a data extent. */
  lemma AddDatBytes(dat: string, img: Image, t: string)
    requires Extents(img) && DatBytes(dat, img) && DataOk(t)
    ensures DatBytes(WriteAt(dat, |dat|, ExtentText(t)), AddDat(img, t))
  {
    var u := ExtentText(t);
    assert u[0..|u|] == u;
    HoldsSet(dat, |dat|, u, 0, ExtentTexts(img.dat), |dat|, u);
    ExtentTextsSet(img.dat, img.dend, t);
  }

  lemma AddDatGeometry(img: Image, t: string)
    requires Geometry(img) && DataOk(t)
    ensures Geometry(AddDat(img, t)) && img.dend !in img.dat
  {
    SameIndex(img, AddDat(img, t));
  }

  // ----- both files -----

  /** The bytes of the two files are those of a well-formed image. */
  ghost predicate FilesOk(idx: string, dat: string, img: Image) {
    Geometry(img) && IdxBytes(idx, img) && DatBytes(dat, img)
  }

  lemma SetPtrFiles(idx: string, dat: string, img: Image, c: nat, v: nat)
    requires FilesOk(idx, dat, img) && c in img.ptr && v <= PTR_MAX
    ensures c <= |idx| && FilesOk(WriteAt(idx, c, PtrText(v)), dat, SetPtr(img, c, v))
  {
    SetPtrBytes(idx, img, c, v);
    SetPtrGeometry(img, c, v);
  }

  lemma SetRecFiles(idx: string, dat: string, img: Image, o: nat, v: nat, r: Rec)
    requires FilesOk(idx, dat, img) && o in img.rec && v <= PTR_MAX
    requires RecOk(r) && BodyLen(r) == BodyLen(img.rec[o])
    ensures o <= |idx| && FilesOk(WriteAt(idx, o, FullText(v, r)), dat, SetRec(img, o, v, r))
  {
    SetRecBytes(idx, img, o, v, r);
    SetRecGeometry(img, o, v, r);
  }

  lemma AddRecFiles(idx: string, dat: string, img: Image, v: nat, r: Rec)
    requires FilesOk(idx, dat, img) && v <= PTR_MAX && RecOk(r)
    ensures |idx| == img.iend >= FIRST_REC && img.iend !in img.rec && img.iend !in img.ptr
    ensures FilesOk(WriteAt(idx, |idx|, FullText(v, r)), dat, AddRec(img, v, r))
  {
    AddRecBytes(idx, img, v, r);
    AddRecGeometry(img, v, r);
  }

  lemma SetDatFiles(idx: string, dat: string, img: Image, d: nat, t: string)
    requires FilesOk(idx, dat, img) && d in img.dat && |t| == |img.dat[d]| && NUL !in t
    ensures d <= |dat| && FilesOk(idx, WriteAt(dat, d, ExtentText(t)), SetDat(img, d, t))
  {
    SetDatBytes(dat, img, d, t);
    SetDatGeometry(img, d, t);
  }

  lemma AddDatFiles(idx: string, dat: string, img: Image, t: string)
    requires FilesOk(idx, dat, img) && DataOk(t)
    ensures |dat| == img.dend && img.dend !in img.dat
    ensures FilesOk(idx, WriteAt(dat, |dat|, ExtentText(t)), AddDat(img, t))
  {
    AddDatBytes(dat, img, t);
    AddDatGeometry(img, t);
  }

  /** Reading any cell, record or extent of the image succeeds and gives what the image says. */
  lemma FilesPtr(idx: string, dat: string, img: Image, c: nat)
    requires FilesOk(idx, dat, img) && c in img.ptr
    ensures PtrAt(idx, c) == Some(img.ptr[c]) && img.ptr[c] <= PTR_MAX
  {
    PtrReads(idx, img, c);
  }

  lemma FilesRec(idx: string, dat: string, img: Image, o: nat)
    requires FilesOk(idx, dat, img) && o in img.rec
    ensures o in img.ptr && RecAt(idx, o) == Good(img.ptr[o], BodyLen(img.rec[o]), img.rec[o])
    ensures RecOk(img.rec[o]) && o >= FIRST_REC
  {
    RecReads(idx, img, o);
  }

  lemma FilesDat(idx: string, dat: string, img: Image, d: nat)
    requires FilesOk(idx, dat, img) && d in img.dat
    ensures DataAt(dat, d, |img.dat[d]| + 1) == Some(img.dat[d]) && DataOk(img.dat[d])
  {
    DataReads(dat, img, d);
  }

  /** The header cells are there. */
  lemma FilesHeads(idx: string, dat: string, img: Image)
    requires FilesOk(idx, dat, img)
    ensures FREE_OFF in img.ptr && forall h | 0 <= h < NHASH :: HeadOff(h) in img.ptr
  {
    assert IsHeader(FREE_OFF);
    forall h | 0 <= h < NHASH ensures HeadOff(h) in img.ptr { assert IsHeader(HeadOff(h)); }
  }

  /** The ends of the files are free. */
  lemma FilesEnds(idx: string, dat: string, img: Image)
    requires FilesOk(idx, dat, img)
    ensures img.dend !in img.dat && img.iend >= FIRST_REC && img.iend !in img.rec && img.iend !in img.ptr
    ensures RecAt(idx, img.iend) == Eof
  {
    assert img.iend !in img.rec;
    assert !IsHeader(img.iend);
  }
}
