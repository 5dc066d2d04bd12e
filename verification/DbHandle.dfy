/** One process working on a database: the DB handle and the operations on it, statement by
    statement over the bytes of the two files, refining a finite map. */
module DbHandle {
  import opened Links
  import opened Wrappers
  import opened DbCodec
  import opened DbImage
  import opened DbCatalog
  import opened DbMoves
  import opened DbListing

  /** Longest key whose record always fits: eleven digits at most and three separators come after it. */
  const MAX_KEY := IDXLEN_MAX - 14

  datatype Whence = SeekSet | SeekEnd

  /** A return code, or the process ended by err_quit or err_dump. */
  datatype Outcome = Rc(code: int) | Quit

  /** A free record of exactly these sizes exists. */
  ghost predicate HasFit(img: Image, g: Catalog, keylen: nat, datlen: nat) {
    exists o :: o in g.free && o in img.rec && |img.rec[o].key| == keylen && img.rec[o].datlen == datlen
  }

  /** The record at o has exactly these sizes. */
  predicate Fitting(img: Image, o: nat, keylen: nat, datlen: nat) {
    o in img.rec && |img.rec[o].key| == keylen && img.rec[o].datlen == datlen
  }

  /** The store has to append: the key is new and nothing free fits, or it exists with another length. */
  ghost predicate Appends(img: Image, g: Catalog, key: string, datlen: nat) {
    if key in g.loc then g.loc[key] in img.rec && img.rec[g.loc[key]].datlen != datlen
    else !HasFit(img, g, |key|, datlen)
  }

  /** Appending ends the process: the record text has an unusable length, or the index file has
      outgrown its pointers. */
  predicate AppendQuits(img: Image, key: string, datlen: nat) {
    !LengthOk(Rec(key, img.dend, datlen)) || img.iend > PTR_MAX
  }

  /** Where the two files end after an append: the data is always written, the record unless its length is
      refused. */
  ghost function AppendedEnds(img: Image, key: string, datlen: nat): (nat, nat) {
    var r := Rec(key, img.dend, datlen);
    (if LengthOk(r) then img.iend + REC_HDR + BodyLen(r) else img.iend, img.dend + datlen)
  }

  /** While offsets fit their pointers, a key of permitted length and permitted data can always be appended. */
  lemma RoomFor(img: Image, key: string, datlen: nat)
    requires 1 <= |key| <= MAX_KEY && DATLEN_MIN <= datlen <= DATLEN_MAX
    requires img.iend <= PTR_MAX && img.dend <= PTR_MAX
    ensures !AppendQuits(img, key, datlen)
    ensures var (i, d) := AppendedEnds(img, key, datlen);
            img.iend < i <= img.iend + REC_HDR + IDXLEN_MAX && img.dend < d <= img.dend + DATLEN_MAX
  {
    DecimalWidth(img.dend, PTR_SZ);
    DecimalWidth(datlen, 4);
    DecimalDigits(img.dend);
    DecimalDigits(datlen);
    assert Pow10(4) == 10000 && Pow10(7) == 1000 * Pow10(4);
  }

  ghost function IdxAfter(img: Image, offset: nat, whence: Whence, v: nat, r: Rec): Image {
    if whence == SeekEnd then AddRec(img, v, r) else SetRec(img, offset, v, r)
  }

  ghost function DatAfter(img: Image, offset: nat, whence: Whence, data: string): Image {
    if whence == SeekEnd then AddDat(img, data) else SetDat(img, offset, data)
  }

  /** The end of the index file is not yet a record. */
  ghost predicate FreshEnd(img: Image) {
    img.iend >= FIRST_REC && img.iend !in img.rec && img.iend !in img.ptr
  }

  class Db {
    var idx: string      // bytes of the index file
    var dat: string      // bytes of the data file
    var pos: nat         // file offset of the index descriptor
    var idxbuf: string
    var datbuf: string
    var idxoff: nat
    var idxlen: nat
    var datoff: nat
    var datlen: nat
    var ptrval: int
    var ptroff: nat
    var chainoff: nat
    ghost var img: Image
    ghost var cat: Catalog

    /** The bytes are those of a well-formed image. */
    ghost predicate Files()
      reads this
    {
      FilesOk(idx, dat, img)
    }

    ghost predicate Valid()
      reads this
    {
      Files() && CatInv(img, cat)
    }

    /** No pointer write is owed to any chain. */
    ghost predicate Settled()
      reads this
    {
      |cat.fix| == NHASH && forall h | 0 <= h < NHASH :: cat.fix[h] == None
    }

    ghost function Contents(): map<string, string>
      reads this
    {
      MapOf(img, cat)
    }

    /** db_open on an empty file: 138 zero pointers and a newline. */
    constructor ()
      ensures Valid() && Settled() && |cat.chains| == NHASH && Tidy(cat)
      ensures Contents() == map[] && pos == FIRST_REC
      ensures img.iend == FIRST_REC && img.dend == 0
    {
      hide FilesOk, CatInv, MapOf, Tidy, PtrText;
      var hash := Header();
      EmptyOk(hash);
      idx, dat, pos := hash, "", FIRST_REC;
      idxbuf, datbuf := "", "";
      idxoff, idxlen, datoff, datlen, ptrval, ptroff, chainoff := FIRST_REC, 0, 0, 0, 0, 0, 0;
      img, cat := EmptyImage(), EmptyCatalog();
    }

    /** db_open on the files of an existing database. */
    constructor Existing(idx: string, dat: string, ghost img: Image, ghost cat: Catalog)
      requires FilesOk(idx, dat, img) && CatInv(img, cat) && forall h | 0 <= h < |cat.fix| :: cat.fix[h] == None
      ensures Valid() && Settled() && |cat.chains| == NHASH
      ensures this.idx == idx && this.dat == dat && this.img == img && this.cat == cat
      ensures Contents() == MapOf(img, cat) && pos == FIRST_REC
    {
      hide FilesOk, MapOf;
      this.idx, this.dat, pos := idx, dat, FIRST_REC;
      idxbuf, datbuf := "", "";
      idxoff, idxlen, datoff, datlen, ptrval, ptroff, chainoff := FIRST_REC, 0, 0, 0, 0, 0, 0;
      this.img, this.cat := img, cat;
    }

    /** The text db_open writes into a new index file. */
    static method Header() returns (hash: string)
      ensures |hash| == FIRST_REC && hash[FIRST_REC - 1] == NEWLINE
      ensures forall j | 0 <= j < NHASH + 1 :: hash[j * PTR_SZ..j * PTR_SZ + PTR_SZ] == PtrText(0)
    {
      PtrFieldWidth(0);
      hash := "";
      var i := 0;
      while i < NHASH + 1
        invariant i <= NHASH + 1 && |hash| == i * PTR_SZ
        invariant forall j | 0 <= j < i :: hash[j * PTR_SZ..j * PTR_SZ + PTR_SZ] == PtrText(0)
      {
        ghost var was := hash;
        hash := hash + PtrText(0);
        forall j | 0 <= j < i + 1 ensures hash[j * PTR_SZ..j * PTR_SZ + PTR_SZ] == PtrText(0) {
          if j < i { assert hash[j * PTR_SZ..j * PTR_SZ + PTR_SZ] == was[j * PTR_SZ..j * PTR_SZ + PTR_SZ]; }
        }
        i := i + 1;
      }
      ghost var was := hash;
      hash := hash + [NEWLINE];
      forall j | 0 <= j < NHASH + 1 ensures hash[j * PTR_SZ..j * PTR_SZ + PTR_SZ] == PtrText(0) {
        assert hash[j * PTR_SZ..j * PTR_SZ + PTR_SZ] == was[j * PTR_SZ..j * PTR_SZ + PTR_SZ];
      }
    }

    // ----- files -----

    method ReadPtr(offset: nat) returns (r: Option<int>)
      modifies this`pos
      ensures r == PtrAt(idx, offset)
    {
      if offset + PTR_SZ <= |idx| {
        pos := offset + PTR_SZ;
        r := Some(Atol(idx[offset..pos]));
      } else {
        r := None;
      }
    }

    /** Offset 0 means "where the descriptor stands". */
    method ReadIdx(offset: nat) returns (r: IdxRead)
      modifies this`pos, this`idxoff, this`idxlen, this`idxbuf, this`datoff, this`datlen, this`ptrval
      ensures var o := if offset == 0 then old(pos) else offset;
              && r == (if offset != 0 && RecAt(idx, o) == Eof then Bad(ReadError) else RecAt(idx, o))
              && (r.Good? ==>
                    && idxoff == o && idxlen == r.len && pos == o + REC_HDR + r.len
                    && ptrval == r.next && idxbuf == r.r.key && datoff == r.r.datoff && datlen == r.r.datlen)
              && (r.Eof? ==> pos == o && idxoff == o)
    {
      idxoff := if offset == 0 then pos else offset;
      r := RecAt(idx, idxoff);
      match r {
        case Eof =>
          pos := idxoff;
          if offset != 0 { r := Bad(ReadError); }
        case Bad(_) =>
        case Good(next, len, rec) =>
          ptrval, idxlen, pos := next, len, idxoff + REC_HDR + len;
          idxbuf, datoff, datlen := rec.key, rec.datoff, rec.datlen;
      }
    }

    method ReadDat() returns (r: Option<string>)
      modifies this`datbuf
      ensures r == DataAt(dat, datoff, datlen)
      ensures r.Some? ==> datbuf == r.value
    {
      if datlen >= 1 && datoff + datlen <= |dat| && dat[datoff + datlen - 1] == NEWLINE {
        datbuf := CString(dat[datoff..datoff + datlen - 1]);
        r := Some(datbuf);
      } else {
        r := None;
      }
    }

    method WritePtr(offset: nat, v: int) returns (ok: bool)
      requires Files() && offset in img.ptr
      modifies this`idx, this`pos, this`img
      ensures ok <==> 0 <= v <= PTR_MAX
      ensures Files() && img == if ok then SetPtr(old(img), offset, v) else old(img)
    {
      ok := 0 <= v <= PTR_MAX;
      if ok {
        hide FilesOk;
        SetPtrFiles(idx, dat, img, offset, v);
        idx := WriteAt(idx, offset, PtrText(v));
        pos := offset + PTR_SZ;
        img := SetPtr(img, offset, v);
      }
    }

    method WriteDat(data: string, offset: nat, whence: Whence)
      requires Files() && DataOk(data)
      requires whence == SeekSet ==> offset in img.dat && |data| == |img.dat[offset]|
      modifies this`dat, this`datoff, this`datlen, this`img
      ensures Files() && datlen == |data| + 1
      ensures datoff == if whence == SeekEnd then old(img.dend) else offset
      ensures img == DatAfter(old(img), offset, whence, data)
      ensures whence == SeekEnd ==> old(img.dend) !in old(img.dat)
    {
      hide FilesOk;
      if whence == SeekEnd {
        AddDatFiles(idx, dat, img, data);
        datoff := |dat|;
      } else {
        SetDatFiles(idx, dat, img, offset, data);
        datoff := offset;
      }
      datlen := |data| + 1;
      dat := WriteAt(dat, datoff, ExtentText(data));
      img := DatAfter(img, offset, whence, data);
    }

    method WriteIdx(key: string, offset: nat, whence: Whence, v: int) returns (ok: bool)
      requires Files() && CleanKey(key) && DATLEN_MIN <= datlen <= DATLEN_MAX
      requires whence == SeekSet ==>
                 offset in img.rec && BodyLen(Rec(key, datoff, datlen)) == BodyLen(img.rec[offset])
      modifies this`idx, this`pos, this`idxoff, this`ptrval, this`idxbuf, this`img
      ensures ok <==> 0 <= v <= PTR_MAX && LengthOk(Rec(key, datoff, datlen))
      ensures Files()
      ensures img == if ok then IdxAfter(old(img), offset, whence, v, Rec(key, datoff, datlen)) else old(img)
      ensures ok ==> idxoff == if whence == SeekEnd then old(img.iend) else offset
      ensures whence == SeekEnd && ok ==> FreshEnd(old(img))
    {
      hide FilesOk, BodyText, BodyLen, FullText, WriteAt;
      var r := Rec(key, datoff, datlen);
      BodyTextLen(r);
      if v < 0 || v > PTR_MAX { return false; }
      ptrval, idxbuf := v, BodyText(r);
      var len := |idxbuf|;
      if len < IDXLEN_MIN || len > IDXLEN_MAX { return false; }
      if whence == SeekEnd {
        AddRecFiles(idx, dat, img, v, r);
        idxoff := |idx|;
      } else {
        SetRecFiles(idx, dat, img, offset, v, r);
        idxoff := offset;
      }
      idx := WriteAt(idx, idxoff, FullText(v, r));
      pos := idxoff + REC_HDR + len;
      img := IdxAfter(img, offset, whence, v, r);
      return true;
    }

    // ----- lookup -----

    /** _db_hash. */
    static method HashKey(key: string) returns (h: nat)
      ensures h == Hash(key) == Weighted(SignedBytes(key), 1) % 0x1_0000_0000_0000_0000 % 137
    {
      var hval, i := 0, 1;
      while i <= |key|
        invariant 1 <= i <= |key| + 1
        invariant hval == HashSum(key[..i - 1])
      {
        assert key[..i][..i - 1] == key[..i - 1];
        hval := (hval + SignedChar(key[i - 1]) * i) % ULONG;
        i := i + 1;
      }
      assert key[..i - 1] == key;
      HashIs(key);
      h := hval % NHASH;
    }

    /** _db_find_and_lock: on success the handle describes the record of the key, at place i of its
        chain, and ptroff is the cell that points to it. */
    method Find(key: string) returns (found: bool, ghost i: nat)
      requires Valid() && Settled() && |cat.chains| == NHASH
      modifies this`pos, this`idxoff, this`idxlen, this`idxbuf, this`datoff, this`datlen, this`ptrval,
               this`ptroff, this`chainoff
      ensures chainoff == HeadOff(Hash(key))
      ensures found <==> key in cat.loc
      ensures found ==> FoundAt(key, i)
    {
      hide FilesOk, CatInv, RecAt, PtrAt, Hash, HashSum, BodyLen;
      var h := HashKey(key);
      ghost var s := cat.chains[h];
      chainoff := h * PTR_SZ + HASH_OFF;
      ptroff := chainoff;
      i := 0;
      ChainCell(img, cat, h, 0);
      FilesPtr(idx, dat, img, ptroff);
      var p := ReadPtr(ptroff);
      var offset: nat := p.value;
      while offset != 0
        invariant i <= |s| && offset == Nth(s, i) && ptroff == CellOf(HeadOff(h), s, i)
        invariant chainoff == HeadOff(h)
        invariant forall j | 0 <= j < i :: s[j] in img.rec && img.rec[s[j]].key != key
        decreases |s| - i
      {
        ChainElem(img, cat, h, i);
        ChainCell(img, cat, h, i + 1);
        FilesRec(idx, dat, img, offset);
        var r := ReadIdx(offset);
        if idxbuf == key {
          return true, i;
        }
        ptroff := offset;
        offset := r.next;
        i := i + 1;
      }
      if i < |s| { ChainElem(img, cat, h, i); }
      if key in cat.loc { ghost var j := ChainHas(img, cat, key); }
      found := false;
    }

    /** The handle describes the record of the key. */
    ghost predicate FoundAt(key: string, i: nat)
      reads this
    {
      && key in cat.loc && |cat.chains| == NHASH
      && i < |cat.chains[Hash(key)]| && cat.chains[Hash(key)][i] == idxoff == cat.loc[key]
      && idxoff in img.rec && img.rec[idxoff] == Rec(idxbuf, datoff, datlen) && idxbuf == key
      && idxoff in img.ptr && ptrval == img.ptr[idxoff]
      && ptroff == CellOf(HeadOff(Hash(key)), cat.chains[Hash(key)], i)
    }

    // ----- delete -----

    /** A buffer of n blanks, filled in byte by byte. */
    static method FillBlanks(n: nat) returns (buf: string)
      ensures |buf| == n && AllBlank(buf)
    {
      buf := [];
      var i := 0;
      while i < n
        invariant i <= n && |buf| == i && AllBlank(buf)
      {
        buf := buf + [BLANK];
        i := i + 1;
      }
    }

    /** _db_dodelete: blank the data and the key, put the record on the free list, and point the cell
        before it past it. */
    method DoDelete(ghost key: string, ghost i: nat)
      requires Valid() && Settled() && FoundAt(key, i)
      modifies this`idx, this`dat, this`pos, this`idxbuf, this`datbuf, this`datoff, this`datlen,
               this`idxoff, this`ptrval, this`img, this`cat
      ensures Valid() && Settled() && |cat.chains| == NHASH
      ensures cat.loc == old(cat.loc) - {key} && cat.own == old(cat.own)[old(idxoff) := OnFree]
      ensures Contents() == old(Contents()) - {key}
      ensures img.iend == old(img.iend) && img.dend == old(img.dend)
    {
      hide FilesOk, CatInv, BodyLen, Hash, MapOf, PtrAt, RecAt, DataAt, DeletedCatalog;
      ghost var h, img0 := Hash(key), img;
      DeleteReady(idx, dat, img, cat, h, i);
      datbuf := FillBlanks(datlen - 1);
      var blankKey := FillBlanks(|idxbuf|);
      DeleteMoves(img, cat, 0, h, i, datbuf, blankKey);
      DeletedParts(img, cat, 0, h, i, datbuf, blankKey);
      SameLength(idxbuf, blankKey, datoff, datlen);
      idxbuf := blankKey;
      WriteDat(datbuf, datoff, SeekSet);

      FilesPtr(idx, dat, img, FREE_OFF);
      var p := ReadPtr(FREE_OFF);
      var freeptr, saveptr := p.value, ptrval;
      var ok := WriteIdx(idxbuf, idxoff, SeekSet, freeptr);
      ok := WritePtr(FREE_OFF, idxoff);
      ok := WritePtr(ptroff, saveptr);
      cat := DeletedCatalog(img0, cat, 0, h, i);
    }

    /** db_delete. */
    method Delete(key: string) returns (rc: int)
      requires Valid() && Settled() && |cat.chains| == NHASH
      modifies this
      ensures Valid() && Settled() && |cat.chains| == NHASH
      ensures Contents() == old(Contents()) - {key} && (old(Tidy(cat)) ==> Tidy(cat))
      ensures rc == if key in old(Contents()) then 0 else -1
      ensures img.iend == old(img.iend) && img.dend == old(img.dend)
    {
      hide FilesOk, CatInv, Hash, MapOf, Tidy;
      LiveKeys(img, cat);
      var found; ghost var i;
      found, i := Find(key);
      if found {
        ghost var was, o := cat, idxoff;
        DoDelete(key, i);
        if Tidy(was) { TidySet(was, cat, o, OnFree); }
        rc := 0;
      } else {
        rc := -1;
      }
    }

    // ----- fetch -----

    /** db_fetch. */
    method Fetch(key: string) returns (r: Option<string>)
      requires Valid() && Settled() && |cat.chains| == NHASH
      modifies this`pos, this`idxoff, this`idxlen, this`idxbuf, this`datbuf, this`datoff, this`datlen,
               this`ptrval, this`ptroff, this`chainoff
      ensures r == if key in Contents() then Some(Contents()[key]) else None
    {
      hide FilesOk, CatInv, Hash, MapOf;
      LiveKeys(img, cat);
      var found; ghost var i;
      found, i := Find(key);
      if found {
        RecExtent(img, cat, idxoff);
        FilesDat(idx, dat, img, datoff);
        r := ReadDat();
      } else {
        r := None;
      }
    }

    // ----- store -----

    /** _db_findfree: on success the handle describes a free record of exactly these sizes, taken off
        the free list; it alone is then in hand. */
    method FindFree(keylen: nat, dlen: nat) returns (found: bool)
      requires Valid() && Settled() && |cat.chains| == NHASH
      modifies this`idx, this`pos, this`idxoff, this`idxlen, this`idxbuf, this`datoff, this`datlen, this`ptrval,
               this`img, this`cat
      ensures found <==> old(HasFit(img, cat, keylen, dlen))
      ensures found ==> exists i | 0 <= i < |old(cat.free)| ::
                && old(cat.free)[i] == idxoff && cat.free == Without(old(cat.free), i)
                && forall j | 0 <= j < i :: !Fitting(old(img), old(cat.free)[j], keylen, dlen)
      ensures !found ==> forall o | o in old(cat.free) :: !Fitting(old(img), o, keylen, dlen)
      ensures Files() && SameButPtr(img, old(img))
      ensures !found ==> img == old(img) && cat == old(cat)
      ensures found ==>
                && CatInv(img, cat) && MapOf(img, cat) == old(MapOf(img, cat))
                && cat.loc == old(cat.loc) && cat.fix == old(cat.fix) && cat.chains == old(cat.chains)
                && cat.own == old(cat.own)[idxoff := Held(0)]
                && (forall h | 0 <= h < NHASH :: HeadOff(h) in img.ptr && HeadOff(h) in old(img.ptr)
                                              && img.ptr[HeadOff(h)] == old(img.ptr)[HeadOff(h)])
                && idxoff in img.rec && |img.rec[idxoff].key| == keylen && img.rec[idxoff].datlen == dlen
                && img.rec[idxoff].datoff == datoff && idxoff <= PTR_MAX
    {
      hide FilesOk, CatInv, MapOf, BodyLen, PtrAt, RecAt;
      ghost var s, i, saved := cat.free, 0, FREE_OFF;
      var saveoffset := FREE_OFF;
      FreeCell(img, cat, 0);
      FilesHeads(idx, dat, img);
      FilesPtr(idx, dat, img, FREE_OFF);
      var p := ReadPtr(saveoffset);
      var offset: nat := p.value;
      while offset != 0
        invariant i <= |s| && offset == Nth(s, i) && saveoffset == CellOf(FREE_OFF, s, i)
        invariant idx == old(idx) && img == old(img) && cat == old(cat)
        invariant saveoffset in img.ptr && offset <= PTR_MAX
        invariant forall j | 0 <= j < i ::
                    s[j] in img.rec && !(|img.rec[s[j]].key| == keylen && img.rec[s[j]].datlen == dlen)
        decreases |s| - i
      {
        FreeElem(img, cat, i);
        FreeCell(img, cat, i + 1);
        FilesRec(idx, dat, img, offset);
        FilesPtr(idx, dat, img, offset);
        var r := ReadIdx(offset);
        if |idxbuf| == keylen && datlen == dlen {
          assert offset in s;
          TakeFreeOk(img, cat, 0, i);
          HeadsKept(img, cat, i);
          var ok := WritePtr(saveoffset, ptrval);
          cat := TakeFree(cat, 0, i);
          return true;
        }
        saveoffset := offset;
        offset := r.next;
        i := i + 1;
      }
      if i < |s| { FreeElem(img, cat, i); }
      found := false;
    }

    /** Appending data, index record and chain pointer, the way db_store does it in both places.
        False when the process ends on the way. */
    method Append(key: string, data: string, v: nat) returns (ok: bool)
      requires Valid() && Settled() && |cat.chains| == NHASH
      requires CleanKey(key) && DataOk(data) && key !in cat.loc
      requires chainoff == HeadOff(Hash(key)) && chainoff in img.ptr && v == img.ptr[chainoff]
      modifies this`idx, this`dat, this`pos, this`idxbuf, this`datoff, this`datlen, this`idxoff, this`ptrval,
               this`img, this`cat
      ensures Valid() && Settled() && |cat.chains| == NHASH
      ensures ok <==> !AppendQuits(old(img), key, |data| + 1)
      ensures cat.own == if ok then old(cat.own)[old(img.iend) := Chain(Hash(key))]
                         else if LengthOk(Rec(key, old(img.dend), |data| + 1))
                         then old(cat.own)[old(img.iend) := Held(0)]
                         else old(cat.own)
      ensures Contents() == if ok then old(Contents())[key := data] else old(Contents())
      ensures (img.iend, img.dend) == AppendedEnds(old(img), key, |data| + 1)
    {
      hide FilesOk, CatInv, MapOf, Hash, BodyLen;
      ghost var h, img0, g0 := Hash(key), img, cat;
      FilesPtr(idx, dat, img, chainoff);
      FilesEnds(idx, dat, img);
      AppendParts(img, cat, 0, data, v, Rec(key, img.dend, |data| + 1));
      AppendMoves(img, cat, 0, h, key, data, v);
      WriteDat(data, 0, SeekEnd);
      cat := NewExtent(cat, 0, datoff);
      ok := WriteIdx(key, 0, SeekEnd, v);
      if !ok { return; }
      cat := NewRecord(cat, 0, idxoff, datoff);
      ok := WritePtr(chainoff, idxoff);
      if !ok { return; }
      cat := LinkFront(cat, h, idxoff, key);
    }

    /** Writing data, index record and chain pointer over the free record in hand. */
    method Reuse(key: string, data: string, v: nat)
      requires Valid() && Settled() && |cat.chains| == NHASH
      requires CleanKey(key) && DataOk(data) && key !in cat.loc
      requires chainoff == HeadOff(Hash(key)) && chainoff in img.ptr && v == img.ptr[chainoff]
      requires idxoff in cat.own && cat.own[idxoff].Held? && idxoff <= PTR_MAX
      requires idxoff in img.rec && |img.rec[idxoff].key| == |key| && img.rec[idxoff].datlen == |data| + 1
      requires img.rec[idxoff].datoff == datoff
      modifies this`idx, this`dat, this`pos, this`idxbuf, this`datoff, this`datlen, this`idxoff, this`ptrval,
               this`img, this`cat
      ensures Valid() && Settled() && |cat.chains| == NHASH
      ensures Contents() == old(Contents())[key := data] && cat.own == old(cat.own)[old(idxoff) := Chain(Hash(key))]
      ensures img.iend == old(img.iend) && img.dend == old(img.dend)
    {
      hide FilesOk, CatInv, MapOf, Hash, BodyLen;
      ghost var h := Hash(key);
      FilesPtr(idx, dat, img, chainoff);
      FilesRec(idx, dat, img, idxoff);
      RecExtent(img, cat, idxoff);
      ReuseMoves(img, cat, h, idxoff, key, data, v);
      SameLength(img.rec[idxoff].key, key, datoff, |data| + 1);
      WriteDat(data, datoff, SeekSet);
      var ok := WriteIdx(key, idxoff, SeekSet, v);
      ok := WritePtr(chainoff, idxoff);
      cat := LinkFront(cat, h, idxoff, key);
    }

    /** db_store of a key that is not there: in a free record of both sizes, or at the ends of the files. */
    method StoreNew(key: string, data: string) returns (ok: bool)
      requires Valid() && Settled() && |cat.chains| == NHASH
      requires CleanKey(key) && DataOk(data) && key !in cat.loc && chainoff == HeadOff(Hash(key))
      modifies this
      ensures Valid() && Settled() && |cat.chains| == NHASH
      ensures ok <==> !old(Stuck(img, cat, key, |data| + 1))
      ensures Contents() == if ok then old(Contents())[key := data] else old(Contents())
      ensures old(Tidy(cat)) ==> (Tidy(cat) <==> ok || !LengthOk(Rec(key, old(img.dend), |data| + 1)))
      ensures (img.iend, img.dend)
              == if old(Appends(img, cat, key, |data| + 1)) then AppendedEnds(old(img), key, |data| + 1)
                 else (old(img.iend), old(img.dend))
    {
      hide FilesOk, CatInv, MapOf, Hash, BodyLen, Tidy;
      ghost var g0 := cat;
      FilesHeads(idx, dat, img);
      FilesPtr(idx, dat, img, chainoff);
      var p := ReadPtr(chainoff);
      var v: nat := p.value;
      var fit := FindFree(|key|, |data| + 1);
      if !fit {
        ok := Append(key, data, v);
        AppendTidy(old(img), g0, cat, key, |data| + 1, ok);
      } else {
        ghost var taken := idxoff;
        Reuse(key, data, v);
        assert cat.own == g0.own[taken := Chain(Hash(key))];
        if Tidy(g0) { TidySet(g0, cat, taken, Chain(Hash(key))); }
        ok := true;
      }
    }

    /** db_store over data of another length: the record found is deleted and a new one appended. */
    method StoreLonger(key: string, data: string, ghost i: nat) returns (ok: bool)
      requires Valid() && Settled() && FoundAt(key, i) && chainoff == HeadOff(Hash(key))
      requires CleanKey(key) && DataOk(data) && |data| + 1 != datlen
      modifies this
      ensures Valid() && Settled() && |cat.chains| == NHASH
      ensures ok <==> !old(Stuck(img, cat, key, |data| + 1))
      ensures Contents() == if ok then old(Contents())[key := data] else old(Contents()) - {key}
      ensures old(Tidy(cat)) ==> (Tidy(cat) <==> ok || !LengthOk(Rec(key, old(img.dend), |data| + 1)))
      ensures (img.iend, img.dend) == AppendedEnds(old(img), key, |data| + 1)
    {
      hide FilesOk, CatInv, MapOf, Hash, BodyLen, Tidy;
      MapFacts(Contents(), key, data);
      ghost var g0, gone := cat, idxoff;
      DoDelete(key, i);
      if Tidy(g0) { TidySet(g0, cat, gone, OnFree); }
      ghost var g1 := cat;
      FilesHeads(idx, dat, img);
      FilesPtr(idx, dat, img, chainoff);
      var p := ReadPtr(chainoff);
      ok := Append(key, data, p.value);
      AppendTidy(old(img), g1, cat, key, |data| + 1, ok);
    }

    /** db_store. */
    method Store(key: string, data: string, flag: int) returns (r: Outcome)
      requires Valid() && Settled() && |cat.chains| == NHASH && CleanKey(key) && NUL !in data
      modifies this
      ensures Valid() && Settled() && |cat.chains| == NHASH
      ensures r == Rc(1) <==> 2 <= |data| + 1 <= 1024 && flag == 1 && key in old(Contents())
      ensures r == Rc(-1) <==>
                !(1 <= flag <= 3) || (2 <= |data| + 1 <= 1024 && flag == 2 && key !in old(Contents()))
      ensures r == Rc(0) ==> Contents() == old(Contents())[key := data]
      ensures r == Rc(1) || r == Rc(-1) ==> Contents() == old(Contents())
      ensures r == Rc(1) || r == Rc(-1) || r == Rc(0) || r == Quit
      ensures r == Quit ==> if 2 <= |data| + 1 <= 1024 then Contents() == old(Contents()) - {key}
                                                       else Contents() == old(Contents())
      ensures r == Quit && 2 <= |data| + 1 <= 1024 && 1 <= |key| <= 1010 ==>
                old(img.iend) > 9999999 || old(img.dend) > 9999999
      ensures (r, Contents()) == StoreSpec(old(Contents()), key, data, flag, old(Stuck(img, cat, key, |data| + 1)))
      ensures old(Tidy(cat)) ==> (Tidy(cat) <==> !(r == Quit && old(Orphans(img, cat, key, |data| + 1))))
      ensures (img.iend, img.dend)
              == if (r == Rc(0) || r == Quit) && DataOk(data) && old(Appends(img, cat, key, |data| + 1))
                 then AppendedEnds(old(img), key, |data| + 1)
                 else (old(img.iend), old(img.dend))
    {
      hide FilesOk, CatInv, MapOf, Hash, BodyLen, Tidy, LengthOk, AppendQuits, AppendedEnds;
      StoreMeans(img, cat, key, data, flag);
      if flag != DB_INSERT && flag != DB_REPLACE && flag != DB_STORE {
        return Rc(-1);
      }
      var keylen, dlen := |key|, |data| + 1;
      if dlen < DATLEN_MIN || dlen > DATLEN_MAX {
        return Quit;
      }
      LiveKeys(img, cat);
      MapFacts(Contents(), key, data);
      FilesHeads(idx, dat, img);
      var found; ghost var i;
      found, i := Find(key);
      if !found {
        if flag == DB_REPLACE {
          return Rc(-1);
        }
        var ok := StoreNew(key, data);
        if !ok { return Quit; }
      } else {
        if flag == DB_INSERT {
          return Rc(1);
        }
        if dlen != datlen {
          var ok := StoreLonger(key, data, i);
          if !ok { return Quit; }
        } else {
          OverwriteFound(img, cat, key, i, data);
          WriteDat(data, datoff, SeekSet);
        }
      }
      r := Rc(0);
    }

    // ----- sequential scan -----

    /** db_rewind. */
    method Rewind()
      modifies this`pos, this`idxoff
      ensures pos == FIRST_REC
    {
      idxoff := (NHASH + 1) * PTR_SZ + 1;
      pos := idxoff;
    }

    /** db_nextrec: the next record whose key is not all blank. */
    method NextRec() returns (r: Option<(string, string)>)
      requires Valid() && Boundary(img, pos)
      modifies this`pos, this`idxoff, this`idxlen, this`idxbuf, this`datbuf, this`datoff, this`datlen, this`ptrval
      ensures Boundary(img, pos)
      ensures var before, after := Listing(img, old(pos)), Listing(img, pos);
              if before == [] then r == None && after == []
              else r == Some(before[0]) && after == before[1..]
    {
      hide FilesOk, CatInv, RecAt, BodyLen;
      ScanStep(idx, dat, img, cat, pos);
      while true
        invariant Boundary(img, pos) && pos >= FIRST_REC && Listing(img, pos) == Listing(img, old(pos))
        decreases img.iend - pos
      {
        ScanStep(idx, dat, img, cat, pos);
        var rd := ReadIdx(0);
        if rd.Eof? {
          return None;
        }
        var k := 0;
        while k < |idxbuf| && idxbuf[k] == BLANK
          invariant k <= |idxbuf| && forall j | 0 <= j < k :: idxbuf[j] == BLANK
        {
          k := k + 1;
        }
        if k < |idxbuf| {
          var d := ReadDat();
          return Some((idxbuf, d.value));
        }
      }
    }

    /** How callers list a database: rewind, then db_nextrec until it gives nothing. The list is that of the
        contents exactly when no named record was left behind by a process that quit. */
    method ScanAll() returns (out: seq<(string, string)>)
      requires Valid()
      modifies this`pos, this`idxoff, this`idxlen, this`idxbuf, this`datbuf, this`datoff, this`datlen, this`ptrval
      ensures out == Listing(img, FIRST_REC)
      ensures Lists(out, Contents()) <==> NoneNamed(img, cat)
      ensures Tidy(cat) ==> Lists(out, Contents())
    {
      hide FilesOk, CatInv, BodyLen, Listing, Lists, NoneNamed, Tidy, MapOf;
      ScanReady(idx, dat, img, cat);
      Rewind();
      out := [];
      var r := NextRec();
      while r.Some?
        invariant Boundary(img, pos)
        invariant Listing(img, FIRST_REC) == out + (if r.Some? then [r.value] else []) + Listing(img, pos)
        invariant r.None? ==> Listing(img, pos) == []
        decreases |Listing(img, pos)|, r.Some?
      {
        out := out + [r.value];
        r := NextRec();
      }
    }
  }

  lemma ScanReady(idx: string, dat: string, img: Image, g: Catalog)
    requires FilesOk(idx, dat, img) && CatInv(img, g)
    ensures Boundary(img, FIRST_REC) && (Lists(Listing(img, FIRST_REC), MapOf(img, g)) <==> NoneNamed(img, g))
    ensures Tidy(g) ==> Lists(Listing(img, FIRST_REC), MapOf(img, g))
  {
    hide CatInv, Tiled, Spread, Cells, Extents, IdxBytes, DatBytes, Listing, Lists, NoneNamed, Tidy, MapOf;
    FirstBoundary(img);
    ScanIsMap(img, g);
  }

  /** What an append leaves in hand. */
  lemma AppendTidy(img: Image, g: Catalog, g': Catalog, key: string, datlen: nat, ok: bool)
    requires ok <==> !AppendQuits(img, key, datlen)
    requires g'.own == if ok then g.own[img.iend := Chain(Hash(key))]
                       else if LengthOk(Rec(key, img.dend, datlen)) then g.own[img.iend := Held(0)]
                       else g.own
    ensures Tidy(g) ==> (Tidy(g') <==> ok || !LengthOk(Rec(key, img.dend, datlen)))
  {
    if Tidy(g) {
      if ok { TidySet(g, g', img.iend, Chain(Hash(key))); }
      else if LengthOk(Rec(key, img.dend, datlen)) { TidySet(g, g', img.iend, Held(0)); }
    }
  }

  /** The store cannot be finished: it has to append, and appending ends the process. */
  ghost predicate Stuck(img: Image, g: Catalog, key: string, datlen: nat) {
    Appends(img, g, key, datlen) && AppendQuits(img, key, datlen)
  }

  /** And it ends it after the record is written: it stays in the file, on no list. */
  ghost predicate Orphans(img: Image, g: Catalog, key: string, datlen: nat) {
    Stuck(img, g, key, datlen) && DATLEN_MIN <= datlen <= DATLEN_MAX && LengthOk(Rec(key, img.dend, datlen))
  }

  /** What db_store does to a map. A process that ends in the middle has at worst lost the old value. */
  ghost function StoreSpec(m: map<string, string>, key: string, data: string, flag: int, stuck: bool)
    : (Outcome, map<string, string>)
  {
    if flag != DB_INSERT && flag != DB_REPLACE && flag != DB_STORE then (Rc(-1), m)
    else if !(DATLEN_MIN <= |data| + 1 <= DATLEN_MAX) then (Quit, m)
    else if key !in m && flag == DB_REPLACE then (Rc(-1), m)
    else if key in m && flag == DB_INSERT then (Rc(1), m)
    else if stuck then (Quit, m - {key})
    else (Rc(0), m[key := data])
  }

  /** What that amounts to, answer by answer. */
  lemma StoreMeans(img: Image, g: Catalog, key: string, data: string, flag: int)
    ensures var m := MapOf(img, g);
            var (r, m') := StoreSpec(m, key, data, flag, Stuck(img, g, key, |data| + 1));
            && (r == Rc(1) <==> 2 <= |data| + 1 <= 1024 && flag == 1 && key in m)
            && (r == Rc(-1) <==> !(1 <= flag <= 3) || (2 <= |data| + 1 <= 1024 && flag == 2 && key !in m))
            && (r == Rc(0) ==> m' == m[key := data]) && (r == Rc(1) || r == Rc(-1) ==> m' == m)
            && (r == Rc(1) || r == Rc(-1) || r == Rc(0) || r == Quit)
            && (r == Quit ==> if 2 <= |data| + 1 <= 1024 then m' == m - {key} else m' == m)
            && (r == Quit && 2 <= |data| + 1 <= 1024 && 1 <= |key| <= 1010 ==> img.iend > 9999999 || img.dend > 9999999)
  {
    hide MapOf, Appends, AppendQuits, LengthOk;
    if 2 <= |data| + 1 <= 1024 && 1 <= |key| <= 1010 && img.iend <= PTR_MAX && img.dend <= PTR_MAX {
      RoomFor(img, key, |data| + 1);
    }
  }

  /** The program of the book that loads a new database, followed by a listing: no store fails, and the list is
      what was stored. */
  method LoadAndList() returns (ok: bool, out: seq<(string, string)>)
    ensures ok && Lists(out, map["Alpha" := "data1", "beta" := "Data for beta", "gamma" := "record3"])
    ensures ("Alpha", "data1") in out && ("beta", "Data for beta") in out && ("gamma", "record3") in out
    ensures forall e | e in out ::
              e == ("Alpha", "data1") || e == ("beta", "Data for beta") || e == ("gamma", "record3")
    ensures forall i, j | 0 <= i < j < |out| :: out[i].0 != out[j].0
  {
    hide FilesOk, CatInv, MapOf, Hash, HashSum, BodyLen, Tidy, Lists, NoneNamed, Appends, AppendQuits, AppendedEnds,
         Orphans, LengthOk, AllBlank, EmptyImage;
    ok, out := false, [];
    var db := new Db();
    RoomFor(db.img, "Alpha", 6);
    var r := db.Store("Alpha", "data1", DB_INSERT);
    if r != Rc(0) { return; }
    RoomFor(db.img, "beta", 14);
    r := db.Store("beta", "Data for beta", DB_INSERT);
    if r != Rc(0) { return; }
    RoomFor(db.img, "gamma", 8);
    r := db.Store("gamma", "record3", DB_INSERT);
    if r != Rc(0) { return; }
    ok := true;
    out := db.ScanAll();
    ThreeListed(out);
    assert db.Contents() == map["Alpha" := "data1", "beta" := "Data for beta", "gamma" := "record3"];
  }

  lemma ThreeListed(out: seq<(string, string)>)
    ensures Lists(out, map["Alpha" := "data1", "beta" := "Data for beta", "gamma" := "record3"]) ==>
              && ("Alpha", "data1") in out && ("beta", "Data for beta") in out && ("gamma", "record3") in out
              && (forall e | e in out ::
                    e == ("Alpha", "data1") || e == ("beta", "Data for beta") || e == ("gamma", "record3"))
              && (forall i, j | 0 <= i < j < |out| :: out[i].0 != out[j].0)
  {
    assert "Alpha"[0] != BLANK && "beta"[0] != BLANK && "gamma"[0] != BLANK;
    forall e | Lists(out, map["Alpha" := "data1", "beta" := "Data for beta", "gamma" := "record3"]) && e in out
      ensures e == ("Alpha", "data1") || e == ("beta", "Data for beta") || e == ("gamma", "record3")
    {
      assert (e.0, e.1) in out;
    }
  }

  /** Every kind of answer db_store and db_delete give, and what a fetch finds after each. */
  method Session() returns (codes: seq<Outcome>, found: seq<Option<string>>)
    ensures codes == [Rc(0), Rc(1), Rc(-1), Rc(0), Rc(-1), Rc(0), Rc(-1)]
    ensures found == [Some("bc"), Some("bc"), None, Some("xyz"), Some("xyz"), None, None]
  {
    hide FilesOk, CatInv, MapOf, Hash, HashSum, BodyLen, Tidy, Appends, AppendQuits, AppendedEnds, Orphans, LengthOk,
         Stuck, EmptyImage, StoreSpec;
    var db := new Db();
    var c0, f0 := StoreAndFetch(db, "a", "bc", 1);
    var c1, f1 := StoreAndFetch(db, "a", "xyz", 1);
    var c2, f2 := StoreAndFetch(db, "b", "bc", 2);
    var c3, f3 := StoreAndFetch(db, "a", "xyz", 2);
    var c4, f4 := StoreAndFetch(db, "a", "bc", 4);
    var c5 := db.Delete("a");
    var f5 := db.Fetch("a");
    var c6 := db.Delete("a");
    var f6 := db.Fetch("a");
    codes := [c0, c1, c2, c3, c4, Rc(c5), Rc(c6)];
    found := [f0, f1, f2, f3, f4, f5, f6];
  }

  /** A store of a short key while there is room, and a fetch of the key. */
  method StoreAndFetch(db: Db, key: string, data: string, flag: int) returns (code: Outcome, found: Option<string>)
    requires db.Valid() && db.Settled() && |db.cat.chains| == NHASH && CleanKey(key) && NUL !in data
    requires 1 <= |key| <= 1010 && 2 <= |data| + 1 <= 1024 && db.img.iend <= 1000000 && db.img.dend <= 1000000
    modifies db
    ensures db.Valid() && db.Settled() && |db.cat.chains| == NHASH
    ensures db.img.iend <= old(db.img.iend) + 1035 && db.img.dend <= old(db.img.dend) + 1024
    ensures code == if !(1 <= flag <= 3) then Rc(-1)
                    else if flag == 1 && key in old(db.Contents()) then Rc(1)
                    else if flag == 2 && key !in old(db.Contents()) then Rc(-1) else Rc(0)
    ensures db.Contents() == if code == Rc(0) then old(db.Contents())[key := data] else old(db.Contents())
    ensures found == if key in db.Contents() then Some(db.Contents()[key]) else None
  {
    hide FilesOk, CatInv, MapOf, Hash, HashSum, BodyLen, Tidy, Appends, AppendQuits, AppendedEnds, Orphans, LengthOk,
         Stuck, EmptyImage, StoreSpec;
    RoomFor(db.img, key, |data| + 1);
    code := db.Store(key, data, flag);
    found := db.Fetch(key);
  }
}
