/** The same system on the bytes of the two files: every read parses what is on file and every write
    replaces bytes. It runs in step with the images, so all that is proved of those holds of it. */
module DbFiles {
  import opened Wrappers
  import opened DbCodec
  import opened DbImage
  import opened DbCatalog
  import opened DbListing
  import opened DbProcess
  import opened DbProtocol
  import opened DbWrites
  import opened DbRelinks
  import opened DbRuns
  import opened DbLinear
  import opened DbProgress
  import DbMoves
  import DbAppends

  datatype Disk = Disk(idx: string, dat: string)

  datatype System = System(disk: Disk, procs: seq<Pc>)

  // ----- one step on bytes -----

  function WritePtr(d: Disk, c: nat, v: nat): Disk {
    if c <= |d.idx| then d.(idx := WriteAt(d.idx, c, PtrText(v))) else d
  }

  function WriteRec(d: Disk, o: nat, v: nat, r: Rec): Disk {
    if o <= |d.idx| then d.(idx := WriteAt(d.idx, o, FullText(v, r))) else d
  }

  function WriteData(d: Disk, o: nat, t: string): Disk {
    if o <= |d.dat| then d.(dat := WriteAt(d.dat, o, ExtentText(t))) else d
  }

  function DiskEffect(d: Disk, op: Op, at: At): Disk {
    match at
    case BlankData(_, _, r, _) => WriteData(d, r.datoff, Blanks(if r.datlen > 0 then r.datlen - 1 else 0))
    case BlankIdx(_, off, r, _, fr) => WriteRec(d, off, fr, Rec(Blanks(|r.key|), r.datoff, r.datlen))
    case SetFree(_, off, _) => WritePtr(d, FREE_OFF, off)
    case Unlink(prev, nxt) => WritePtr(d, prev, nxt)
    case TakeFree(_, prev, _, _, nxt) => WritePtr(d, prev, nxt)
    case ReuseData(_, _, r) => if op.Store? then WriteData(d, r.datoff, op.data) else d
    case ReuseIdx(v, off, r) => WriteRec(d, off, v, Rec(op.key, r.datoff, r.datlen))
    case WriteDat(_, e) => if op.Store? then WriteData(d, e, op.data) else d
    case WriteIdx(v, e, off) => if op.Store? then WriteRec(d, off, v, NewRec(op, e)) else d
    case LinkHead(off) => if off > PTR_MAX then d else WritePtr(d, HeadOff(Hash(op.key)), off)
    case Overwrite(_, r) => if op.Store? then WriteData(d, r.datoff, op.data) else d
    case _ => d
  }

  /** A pointer field that reads as a number no file offset can be stops the process. */
  function CellAt(d: Disk, c: nat): Option<nat> {
    match PtrAt(d.idx, c) case Some(v) => if v >= 0 then Some(v) else None case None => None
  }

  function RecordAt(d: Disk, o: nat): Option<(nat, Rec)> {
    match RecAt(d.idx, o) case Good(v, _, r) => if v >= 0 then Some((v, r)) else None case _ => None
  }

  /** Where the step leads. */
  function DiskNext(d: Disk, op: Op, at: At): At {
    match at
    case ReadHead =>
      var c := HeadOff(Hash(op.key));
      (match CellAt(d, c) case Some(v) => Walk(c, v) case None => Halted(BadRead, None))
    case Walk(prev, off) =>
      if off == 0 then OnMiss(op)
      else (match RecordAt(d, off)
            case Some((v, r)) => if r.key == op.key then OnMatch(op, prev, off, r, v) else Walk(off, v)
            case None => Halted(BadRead, None))
    case ReadData(off, r) =>
      (match DataAt(d.dat, r.datoff, r.datlen) case Some(t) => UnlockChain(Hit(t)) case None => Halted(BadRead, None))
    case ReadFree(prev, off, r, nxt) =>
      (match CellAt(d, FREE_OFF) case Some(v) => BlankIdx(prev, off, r, nxt, v) case None => Halted(BadRead, Some(off)))
    case ReadPtrVal =>
      (match CellAt(d, HeadOff(Hash(op.key))) case Some(v) => LockFree(v) case None => Halted(BadRead, None))
    case RereadPtrVal =>
      (match CellAt(d, HeadOff(Hash(op.key))) case Some(v) => LockDat(v) case None => Halted(BadRead, None))
    case ReadFreeHead(v) =>
      (match CellAt(d, FREE_OFF) case Some(o) => WalkFree(v, FREE_OFF, o) case None => Halted(BadRead, None))
    case WalkFree(v, prev, off) =>
      if off == 0 then UnlockFree(v, None)
      else if !op.Store? then Halted(BadRead, None)
      else (match RecordAt(d, off)
            case Some((n, r)) =>
              if |r.key| == |op.key| && r.datlen == |op.data| + 1
              then TakeFree(v, prev, off, r, n) else WalkFree(v, off, n)
            case None => Halted(BadRead, None))
    case SeekDat(v) => WriteDat(v, |d.dat|)
    case SeekIdx(v, e) => WriteIdx(v, e, |d.idx|)
    case _ => Onward(op, at)
  }

  function DiskScan(d: Disk, sc: ScanAt): ScanAt {
    match sc
    case ScanLock(pos) => ScanRead(pos)
    case ScanRead(pos) =>
      (match RecAt(d.idx, pos)
       case Eof => ScanUnlock(pos, None)
       case Bad(_) => ScanHalted(pos)
       case Good(_, len, r) => if AllBlank(r.key) then ScanRead(pos + REC_HDR + len) else ScanData(pos, r))
    case ScanData(pos, r) =>
      (match DataAt(d.dat, r.datoff, r.datlen)
       case Some(t) => ScanUnlock(pos + REC_HDR + BodyLen(r), Some((r.key, t)))
       case None => ScanHalted(pos))
    case ScanUnlock(pos, out) => ScanReturned(pos, out)
    case _ => sc
  }

  function DiskEffectOf(d: Disk, pc: Pc): Disk { if pc.Run? then DiskEffect(d, pc.op, pc.at) else d }

  function DiskNextOf(d: Disk, pc: Pc): Pc {
    match pc
    case Idle => Idle
    case Run(op, at) => Run(op, DiskNext(d, op, at))
    case Scan(sc) => Scan(DiskScan(d, sc))
  }

  // ----- reads agree -----

  lemma CellAgrees(d: Disk, img: Image, c: nat)
    requires FilesOk(d.idx, d.dat, img) && c in img.ptr
    ensures CellAt(d, c) == Some(img.ptr[c])
  {
    hide FilesOk;
    FilesPtr(d.idx, d.dat, img, c);
  }

  lemma RecordAgrees(d: Disk, img: Image, o: nat)
    requires FilesOk(d.idx, d.dat, img) && o in img.rec
    ensures o in img.ptr && RecordAt(d, o) == Some((img.ptr[o], img.rec[o]))
  {
    hide FilesOk;
    FilesRec(d.idx, d.dat, img, o);
  }

  lemma DataAgrees(d: Disk, img: Image, cat: Catalog, o: nat)
    requires FilesOk(d.idx, d.dat, img) && CatInv(img, cat) && o in img.rec
    ensures img.rec[o].datoff in img.dat
    ensures DataAt(d.dat, img.rec[o].datoff, img.rec[o].datlen) == Some(img.dat[img.rec[o].datoff])
  {
    hide FilesOk, CatInv;
    RecExtent(img, cat, o);
    FilesDat(d.idx, d.dat, img, img.rec[o].datoff);
  }

  lemma EndsAgree(d: Disk, img: Image)
    requires FilesOk(d.idx, d.dat, img)
    ensures |d.idx| == img.iend && |d.dat| == img.dend
  {
  }

  predicate Reads(at: At) {
    at.ReadHead? || at.Walk? || at.ReadData? || at.ReadFree? || at.ReadPtrVal? || at.RereadPtrVal? || at.ReadFreeHead?
    || at.WalkFree? || at.SeekDat? || at.SeekIdx?
  }

  lemma BlindNext(d: Disk, img: Image, op: Op, at: At)
    requires !Reads(at)
    ensures DiskNext(d, op, at) == Next(img, op, at)
  {
    hide Onward;
  }

  /** At every place, reading the bytes leads where reading the image leads. */
  lemma NextAgrees(d: Disk, img: Image, g: Ghost, p: nat, op: Op, at: At)
    requires FilesOk(d.idx, d.dat, img) && CatInv(img, g.cat) && Local(img, g, p, Run(op, at))
    requires Next(img, op, at).Halted? ==> Next(img, op, at).why != BadRead
    ensures DiskNext(d, op, at) == Next(img, op, at)
  {
    hide FilesOk, CatInv, Hash, Local;
    if !Reads(at) {
      BlindNext(d, img, op, at);
    } else if at.SeekDat? || at.SeekIdx? {
      EndsAgree(d, img);
    } else if at.ReadData? {
      ReadDataRec(img, g, p, op, at.off, at.r);
      DataAgrees(d, img, g.cat, at.off);
    } else if at.Walk? || at.WalkFree? {
      WalksAgree(d, img, op, at);
    } else {
      CellsAgree(d, img, op, at);
    }
  }

  lemma WalksAgree(d: Disk, img: Image, op: Op, at: At)
    requires FilesOk(d.idx, d.dat, img) && (at.Walk? || at.WalkFree?)
    requires Next(img, op, at).Halted? ==> Next(img, op, at).why != BadRead
    ensures DiskNext(d, op, at) == Next(img, op, at)
  {
    hide FilesOk, RecordAt;
    if at.off != 0 && (at.WalkFree? ==> op.Store?) { RecordAgrees(d, img, at.off); }
  }

  lemma CellsAgree(d: Disk, img: Image, op: Op, at: At)
    requires FilesOk(d.idx, d.dat, img)
    requires at.ReadHead? || at.ReadFree? || at.ReadPtrVal? || at.RereadPtrVal? || at.ReadFreeHead?
    requires Next(img, op, at).Halted? ==> Next(img, op, at).why != BadRead
    ensures DiskNext(d, op, at) == Next(img, op, at)
  {
    hide FilesOk, CellAt, Hash;
    CellAgrees(d, img, if at.ReadFree? || at.ReadFreeHead? then FREE_OFF else HeadOff(Hash(op.key)));
  }

  lemma ReadDataRec(img: Image, g: Ghost, p: nat, op: Op, off: nat, r: Rec)
    requires Local(img, g, p, Run(op, ReadData(off, r)))
    ensures off in img.rec && img.rec[off] == r
  {
    hide Hash;
  }

  lemma ScanAgrees(d: Disk, img: Image, g: Ghost, p: nat, sc: ScanAt)
    requires FilesOk(d.idx, d.dat, img) && CatInv(img, g.cat) && Local(img, g, p, Scan(sc))
    ensures DiskScan(d, sc) == ScanNext(img, sc)
  {
    hide FilesOk, CatInv, RecAt, DataAt, AllBlank, BodyLen;
    FilesEnds(d.idx, d.dat, img);
    if sc.ScanRead? && sc.pos in img.rec { FilesRec(d.idx, d.dat, img, sc.pos); }
    if sc.ScanData? { DataAgrees(d, img, g.cat, sc.pos); }
  }

  // ----- writes agree -----

  lemma PtrAgrees(d: Disk, img: Image, c: nat, v: nat)
    requires FilesOk(d.idx, d.dat, img) && c in img.ptr && v <= PTR_MAX
    ensures FilesOk(WritePtr(d, c, v).idx, WritePtr(d, c, v).dat, SetPtr(img, c, v))
  {
    hide FilesOk;
    SetPtrFiles(d.idx, d.dat, img, c, v);
  }

  lemma RecAgrees(d: Disk, img: Image, o: nat, v: nat, r: Rec)
    requires FilesOk(d.idx, d.dat, img) && o in img.rec && v <= PTR_MAX && RecOk(r) && BodyLen(r) == BodyLen(img.rec[o])
    ensures FilesOk(WriteRec(d, o, v, r).idx, WriteRec(d, o, v, r).dat, SetRec(img, o, v, r))
  {
    hide FilesOk, RecOk, BodyLen;
    SetRecFiles(d.idx, d.dat, img, o, v, r);
  }

  lemma DatAgrees(d: Disk, img: Image, o: nat, t: string)
    requires FilesOk(d.idx, d.dat, img) && o in img.dat && |t| == |img.dat[o]| && NUL !in t
    ensures FilesOk(WriteData(d, o, t).idx, WriteData(d, o, t).dat, SetDat(img, o, t))
  {
    hide FilesOk;
    SetDatFiles(d.idx, d.dat, img, o, t);
  }

  lemma DeleteAgrees(d: Disk, img: Image, g: Ghost, p: nat, op: Op, at: At)
    requires FilesOk(d.idx, d.dat, img) && Ready(img, g, p, op, at)
    requires at.BlankData? || at.BlankIdx? || at.SetFree? || at.Unlink?
    ensures FilesOk(DiskEffect(d, op, at).idx, DiskEffect(d, op, at).dat, Effect(img, op, at))
  {
    hide FilesOk, Ready, CatInv, Geometry, Local, Hash, ChainSays, AbsentSays, AllBlank, OpSays, MapOf, SameAt, Hands,
         WritePtr, WriteRec, WriteData, RecOk, BodyLen;
    Unpack(img, g, p, op, at);
    match at {
      case BlankData(prev, off, r, nxt) =>
        TargetFound(img, g.cat, op.key, prev, off, r, nxt);
        DatAgrees(d, img, r.datoff, Blanks(r.datlen - 1));
      case BlankIdx(prev, off, r, nxt, fr) =>
        FilesRec(d.idx, d.dat, img, off);
        FilesPtr(d.idx, d.dat, img, FREE_OFF);
        BlankRec(r);
        RecAgrees(d, img, off, fr, Rec(Blanks(|r.key|), r.datoff, r.datlen));
      case SetFree(prev, off, nxt) => PtrAgrees(d, img, FREE_OFF, off);
      case Unlink(prev, nxt) =>
        OwedCell(img, g.cat, op.key, prev, nxt);
        PtrAgrees(d, img, prev, nxt);
    }
  }

  lemma BlankRec(r: Rec)
    requires RecOk(r)
    ensures RecOk(Rec(Blanks(|r.key|), r.datoff, r.datlen))
            && BodyLen(Rec(Blanks(|r.key|), r.datoff, r.datlen)) == BodyLen(r)
  {
    DbMoves.SameLength(r.key, Blanks(|r.key|), r.datoff, r.datlen);
  }

  lemma OwedCell(img: Image, cat: Catalog, key: string, prev: nat, nxt: nat)
    requires ChainSays(img, cat, key, Owes(prev, nxt))
    ensures prev in img.ptr && nxt <= PTR_MAX
  {
    hide Hash;
  }

  lemma ReuseAgrees(d: Disk, img: Image, g: Ghost, p: nat, op: Op, at: At)
    requires FilesOk(d.idx, d.dat, img) && Ready(img, g, p, op, at)
    requires at.TakeFree? || at.ReuseData? || at.ReuseIdx? || (at.LinkHead? && at.off <= PTR_MAX) || at.Overwrite?
    ensures FilesOk(DiskEffect(d, op, at).idx, DiskEffect(d, op, at).dat, Effect(img, op, at))
  {
    hide FilesOk, Ready, CatInv, Geometry, Local, Hash, ChainSays, AbsentSays, AllBlank, MapOf, SameAt, Hands,
         WritePtr, WriteRec, WriteData, RecOk, BodyLen, PlaceOk, CleanKey;
    Unpack(img, g, p, op, at);
    match at {
      case TakeFree(v, prev, off, r, nxt) => PtrAgrees(d, img, prev, nxt);
      case ReuseData(v, off, r) =>
        RecExtent(img, g.cat, off);
        DatAgrees(d, img, r.datoff, op.data);
      case ReuseIdx(v, off, r) =>
        HeadBound(img, g, op, v);
        FilesRec(d.idx, d.dat, img, off);
        NamedRec(r, op.key);
        RecAgrees(d, img, off, v, Rec(op.key, r.datoff, r.datlen));
      case LinkHead(off) => PtrAgrees(d, img, HeadOff(Hash(op.key)), off);
      case Overwrite(off, r) =>
        FoundRec(img, g.cat, op.key, off, r);
        DatAgrees(d, img, r.datoff, op.data);
    }
  }

  lemma NamedRec(r: Rec, key: string)
    requires RecOk(r) && CleanKey(key) && |key| == |r.key|
    ensures RecOk(Rec(key, r.datoff, r.datlen)) && BodyLen(Rec(key, r.datoff, r.datlen)) == BodyLen(r)
  {
    DbMoves.SameLength(r.key, key, r.datoff, r.datlen);
  }

  lemma AppendAgrees(d: Disk, img: Image, g: Ghost, p: nat, op: Op, at: At)
    requires FilesOk(d.idx, d.dat, img) && Ready(img, g, p, op, at) && (at.WriteDat? || at.WriteIdx?)
    ensures FilesOk(DiskEffect(d, op, at).idx, DiskEffect(d, op, at).dat, Effect(img, op, at))
  {
    hide FilesOk, Ready, CatInv, Geometry, Local, Hash, ChainSays, AbsentSays, MapOf, SameAt, Hands, RecOk, LengthOk;
    Unpack(img, g, p, op, at);
    EndsAgree(d, img);
    match at {
      case WriteDat(v, e) =>
        assert WriteDatAt(img, e, op.data) == AddDat(img, op.data);
        AddDatFiles(d.idx, d.dat, img, op.data);
      case WriteIdx(v, e, off) =>
        HeadBound(img, g, op, v);
        DbAppends.NewRecGood(op, e);
        assert WriteRecAt(img, off, v, NewRec(op, e)) == AddRec(img, v, NewRec(op, e));
        AddRecFiles(d.idx, d.dat, img, v, NewRec(op, e));
    }
  }

  /** At every place, writing the bytes does to the files what the step does to the image. */
  lemma EffectAgrees(d: Disk, img: Image, g: Ghost, p: nat, op: Op, at: At)
    requires FilesOk(d.idx, d.dat, img) && Ready(img, g, p, op, at)
    ensures FilesOk(DiskEffect(d, op, at).idx, DiskEffect(d, op, at).dat, Effect(img, op, at))
  {
    if at.BlankData? || at.BlankIdx? || at.SetFree? || at.Unlink? {
      hide FilesOk, Ready, DiskEffect, Effect;
      DeleteAgrees(d, img, g, p, op, at);
    } else if at.TakeFree? || at.ReuseData? || at.ReuseIdx? || (at.LinkHead? && at.off <= PTR_MAX) || at.Overwrite? {
      hide FilesOk, Ready, DiskEffect, Effect;
      ReuseAgrees(d, img, g, p, op, at);
    } else if at.WriteDat? || at.WriteIdx? {
      hide FilesOk, Ready, DiskEffect, Effect;
      AppendAgrees(d, img, g, p, op, at);
    } else {
      hide FilesOk, Ready;
    }
  }

  // ----- the system on files -----

  ghost predicate DiskEnabled(f: System, p: nat) {
    && p < |f.procs| && !Resting(f.procs[p]) && !Gone(f.procs[p])
    && CompatibleWithOthers(f.procs, p, DiskNextOf(f.disk, f.procs[p]))
  }

  /** A call of fetch, delete or store, or of db_nextrec where db_rewind or the last call left off. */
  predicate DiskInvoked(pc: Pc, pc': Pc) {
    || (pc'.Run? && pc'.at.Begin? && OpOk(pc'.op))
    || (pc'.Scan? && pc'.sc.ScanLock? && (pc'.sc.pos == FIRST_REC || (pc.Scan? && pc'.sc.pos == pc.sc.pos)))
  }

  ghost predicate DiskStep(f: System, f': System, p: nat) {
    && p < |f.procs| == |f'.procs| && f'.procs == f.procs[p := f'.procs[p]]
    && (|| (Resting(f.procs[p]) && DiskInvoked(f.procs[p], f'.procs[p]) && f'.disk == f.disk)
        || (DiskEnabled(f, p) && f'.disk == DiskEffectOf(f.disk, f.procs[p])
            && f'.procs[p] == DiskNextOf(f.disk, f.procs[p])))
  }

  /** db_open has written the header, and no process has called yet. */
  ghost predicate DiskInitial(f: System) {
    && |f.disk.idx| == FIRST_REC && f.disk.idx[FIRST_REC - 1] == NEWLINE && f.disk.dat == ""
    && (forall j | 0 <= j < NHASH + 1 :: f.disk.idx[j * PTR_SZ..j * PTR_SZ + PTR_SZ] == PtrText(0))
    && (forall p | 0 <= p < |f.procs| :: f.procs[p] == Idle)
  }

  ghost predicate Matches(f: System, s: State) { s.procs == f.procs && FilesOk(f.disk.idx, f.disk.dat, s.img) }

  /** The image after a step on files. */
  ghost function Follow(s: State, f': System, p: nat): State
    requires p < |s.procs|
  {
    State(if Resting(s.procs[p]) then s.img else EffectOf(s.img, s.procs[p]), f'.procs)
  }

  /** No read ever fails. */
  lemma NeverBadRead(s: State, g: Ghost, p: nat, op: Op, at: At)
    requires Inv(s, g) && p < |s.procs| && s.procs[p] == Run(op, at) && !at.Returned? && !at.Halted?
    ensures Next(s.img, op, at).Halted? ==> Next(s.img, op, at).why != BadRead
  {
    hide CatInv, Geometry, HeldOk, FixOk, MapOk, MapOf, Locals, Exclusive, Next, Asks, CompatibleWithOthers;
    if Asks(s.procs[p]) {
      AskingNext(s.img, op, at);
    } else {
      FreeToGo(s, p);
      NextArgs(s, g, p, op, at);
    }
  }

  lemma AskingNext(img: Image, op: Op, at: At)
    requires Asks(Run(op, at))
    ensures !Next(img, op, at).Halted?
  {
  }

  lemma NextOfAgrees(f: System, s: State, g: Ghost, p: nat)
    requires Matches(f, s) && Inv(s, g) && p < |s.procs| && !Resting(s.procs[p]) && !Gone(s.procs[p])
    ensures DiskNextOf(f.disk, s.procs[p]) == NextOf(s.img, s.procs[p])
    ensures FilesOk(DiskEffectOf(f.disk, s.procs[p]).idx, DiskEffectOf(f.disk, s.procs[p]).dat,
            EffectOf(s.img, s.procs[p]))
  {
    hide FilesOk, CatInv, Geometry, HeldOk, FixOk, MapOk, MapOf, Next, DiskNext, ScanNext, DiskScan, Local,
         DiskEffect, Effect, Ready;
    assert Local(s.img, g, p, s.procs[p]);
    match s.procs[p] {
      case Run(op, at) =>
        NeverBadRead(s, g, p, op, at);
        NextAgrees(f.disk, s.img, g, p, op, at);
        GetReady(s, g, p, op, at);
        EffectAgrees(f.disk, s.img, g, p, op, at);
      case Scan(sc) => ScanAgrees(f.disk, s.img, g, p, sc);
    }
  }

  /** A step on files is a step on images. */
  lemma DiskStepMatches(f: System, f': System, p: nat, s: State, g: Ghost)
    requires Matches(f, s) && Inv(s, g) && DiskStep(f, f', p)
    ensures Matches(f', Follow(s, f', p)) && Step(s, Follow(s, f', p), p)
  {
    hide FilesOk, CatInv, Geometry, HeldOk, FixOk, MapOk, MapOf, DiskNextOf, NextOf, DiskEffectOf, EffectOf,
         CompatibleWithOthers, Local, CleanKey;
    if Resting(s.procs[p]) {
      assert Local(s.img, g, p, s.procs[p]);
      FilesStart(f.disk, s.img);
      InvokedAgrees(s.img, g, p, s.procs[p], f'.procs[p]);
    } else {
      NextOfAgrees(f, s, g, p);
    }
  }

  lemma FilesStart(d: Disk, img: Image)
    requires FilesOk(d.idx, d.dat, img)
    ensures Boundary(img, FIRST_REC)
  {
    hide Tiled;
    FirstBoundary(img);
  }

  lemma InvokedAgrees(img: Image, g: Ghost, p: nat, pc: Pc, pc': Pc)
    requires Resting(pc) && Local(img, g, p, pc) && DiskInvoked(pc, pc') && Boundary(img, FIRST_REC)
    ensures Invoked(img, pc')
  {
    hide Hash, CleanKey;
  }

  ghost predicate IsDiskRun(run: seq<System>, who: seq<nat>) {
    && |run| == |who| + 1 && DiskInitial(run[0])
    && forall i {:trigger who[i]} | 0 <= i < |who| :: DiskStep(run[i], run[i + 1], who[i])
  }

  ghost predicate Tracks(run: seq<System>, ss: seq<State>) {
    |ss| == |run| && forall i | 0 <= i < |run| :: Matches(run[i], ss[i])
  }

  /** Every run on the bytes of the files is a run of the atomic map. */
  lemma {:induction false} FilesLinearizable(run: seq<System>, who: seq<nat>)
    requires IsDiskRun(run, who)
    ensures exists ss, gs :: Tracks(run, ss) && IsRun(ss, who) && Explains(ss, who, gs)
    decreases |who|
  {
    hide Matches, DiskInitial, DiskStep, Explains, IsRun;
    if who == [] {
      StartMatches(run[0]);
      var s := State(EmptyImage(), run[0].procs);
      StartRun(s);
      Linearizable([s], []);
      var gs :| Explains([s], [], gs);
      assert Tracks(run, [s]) && IsRun([s], who);
    } else {
      var n := |who| - 1;
      DiskPrefix(run, who, n);
      FilesLinearizable(run[..n + 1], who[..n]);
      var ss, gs :| Tracks(run[..n + 1], ss) && IsRun(ss, who[..n]) && Explains(ss, who[..n], gs);
      FilesOneMore(run, who, ss, gs);
    }
  }

  lemma StartMatches(f: System)
    requires DiskInitial(f)
    ensures Matches(f, State(EmptyImage(), f.procs)) && Initial(State(EmptyImage(), f.procs))
  {
    hide FilesOk, CatInv, MapOf, Tidy;
    EmptyOk(f.disk.idx);
  }

  lemma StartRun(s: State)
    requires Initial(s)
    ensures IsRun([s], [])
  {
  }

  lemma DiskPrefix(run: seq<System>, who: seq<nat>, n: nat)
    requires IsDiskRun(run, who) && n <= |who|
    ensures IsDiskRun(run[..n + 1], who[..n])
  {
    hide DiskStep, DiskInitial;
    forall i | 0 <= i < n ensures DiskStep(run[..n + 1][i], run[..n + 1][i + 1], who[..n][i]) {
      assert DiskStep(run[i], run[i + 1], who[i]);
    }
  }

  lemma FilesOneMore(run: seq<System>, who: seq<nat>, ss: seq<State>, gs: seq<Ghost>)
    requires IsDiskRun(run, who) && who != []
    requires Tracks(run[..|who|], ss) && IsRun(ss, who[..|who| - 1]) && Explains(ss, who[..|who| - 1], gs)
    ensures exists ss', gs' :: Tracks(run, ss') && IsRun(ss', who) && Explains(ss', who, gs')
  {
    hide Matches, DiskInitial, DiskStep, Inv, Step, Initial, SpecStep, View;
    var n := |who| - 1;
    assert DiskStep(run[n], run[n + 1], who[n]);
    assert run[..n + 1][n] == run[n] && Matches(run[n], ss[n]) && Inv(ss[n], gs[n]);
    DiskProcess(run[n], run[n + 1], who[n], ss[n]);
    DiskStepMatches(run[n], run[n + 1], who[n], ss[n], gs[n]);
    var ss' := ss + [Follow(ss[n], run[n + 1], who[n])];
    forall i | 0 <= i < |run| ensures Matches(run[i], ss'[i]) {
      if i <= n { assert run[..n + 1][i] == run[i] && ss'[i] == ss[i]; }
    }
    forall i | 0 <= i < |who| ensures Step(ss'[i], ss'[i + 1], who[i]) {
      if i < n { assert who[..n][i] == who[i] && ss'[i] == ss[i] && ss'[i + 1] == ss[i + 1]; }
    }
    Linearizable(ss', who);
    var gs' :| Explains(ss', who, gs');
    assert Tracks(run, ss') && IsRun(ss', who);
  }

  lemma DiskProcess(f: System, f': System, p: nat, s: State)
    requires DiskStep(f, f', p) && Matches(f, s)
    ensures p < |s.procs|
  {
  }

  /** And no reachable state of the files and processes is a deadlock. */
  lemma FilesNoDeadlock(f: System, s: State, g: Ghost, p: nat)
    requires Matches(f, s) && Inv(s, g) && p < |f.procs| && Active(f.procs[p])
    ensures exists q :: DiskEnabled(f, q)
  {
    hide Inv, FilesOk, CompatibleWithOthers, NextOf, DiskNextOf, Active;
    NoDeadlock(s, g, p);
    var q :| Enabled(s, q);
    NextOfAgrees(f, s, g, q);
    assert DiskEnabled(f, q);
  }
}
