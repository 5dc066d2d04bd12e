/** Many processes on one database. A process is its place in the code, with the handle fields that
    are live there; one step reads or writes one pointer, one record or one extent, or takes or drops
    one fcntl lock. */
module DbProcess {
  import opened Wrappers
  import opened DbCodec
  import opened DbImage
  import opened DbCatalog
  import opened DbListing

  datatype Op = Fetch(key: string) | Delete(key: string) | Store(key: string, data: string, flag: int)

  datatype Res = Miss | Hit(data: string) | Code(rc: int)

  datatype Why = BadLength | BadPointer | BadRead

  datatype At =
    | Begin
    // _db_find_and_lock
    | LockChain
    | ReadHead
    | Walk(prev: nat, off: nat)
    | ReadData(off: nat, r: Rec)
    // _db_dodelete
    | LockFreeDel(prev: nat, off: nat, r: Rec, nxt: nat)
    | BlankData(prev: nat, off: nat, r: Rec, nxt: nat)
    | ReadFree(prev: nat, off: nat, r: Rec, nxt: nat)
    | BlankIdx(prev: nat, off: nat, r: Rec, nxt: nat, fr: nat)
    | SetFree(prev: nat, off: nat, nxt: nat)
    | Unlink(prev: nat, nxt: nat)
    | UnlockFreeDel
    // db_store, key not found: head pointer, then _db_findfree
    | ReadPtrVal
    | LockFree(v: nat)
    | ReadFreeHead(v: nat)
    | WalkFree(v: nat, prev: nat, off: nat)
    | TakeFree(v: nat, prev: nat, off: nat, r: Rec, nxt: nat)
    | UnlockFree(v: nat, got: Option<(nat, Rec)>)
    | ReuseData(v: nat, off: nat, r: Rec)
    | ReuseIdx(v: nat, off: nat, r: Rec)
    // db_store, record deleted first
    | RereadPtrVal
    // appending data and index record
    | LockDat(v: nat)
    | SeekDat(v: nat)
    | WriteDat(v: nat, d: nat)
    | UnlockDat(v: nat, d: nat)
    | LockIdx(v: nat, d: nat)
    | SeekIdx(v: nat, d: nat)
    | WriteIdx(v: nat, d: nat, off: nat)
    | UnlockIdx(off: nat)
    // new chain head; same-length overwrite
    | LinkHead(off: nat)
    | Overwrite(off: nat, r: Rec)
    | UnlockChain(res: Res)
    | Returning(res: Res)
    | Returned(res: Res)
    | Halted(why: Why, held: Option<nat>)

  /** Places in db_nextrec; pos is the file offset of the descriptor. */
  datatype ScanAt =
    | ScanLock(pos: nat)
    | ScanRead(pos: nat)
    | ScanData(pos: nat, r: Rec)
    | ScanUnlock(pos: nat, out: Option<(string, string)>)
    | ScanReturned(pos: nat, out: Option<(string, string)>)
    | ScanHalted(pos: nat)

  datatype Pc = Idle | Run(op: Op, at: At) | Scan(sc: ScanAt)

  predicate FlagOk(flag: int) { flag == DB_INSERT || flag == DB_REPLACE || flag == DB_STORE }

  predicate OpOk(op: Op) {
    CleanKey(op.key) && (op.Store? ==> NUL !in op.data)
  }

  predicate SizesOk(op: Op) {
    op.Store? ==> FlagOk(op.flag) && DATLEN_MIN <= |op.data| + 1 <= DATLEN_MAX
  }

  function NewRec(op: Op, d: nat): Rec
    requires op.Store?
  {
    Rec(op.key, d, |op.data| + 1)
  }

  /** Where the process is not inside a call. */
  predicate Resting(pc: Pc) {
    pc.Idle? || (pc.Run? && pc.at.Returned?) || (pc.Scan? && pc.sc.ScanReturned?)
  }

  predicate Gone(pc: Pc) { (pc.Run? && pc.at.Halted?) || (pc.Scan? && pc.sc.ScanHalted?) }

  // ----- locks -----

  /** Places between taking and dropping the lock of the chain. */
  predicate AtChain(at: At) {
    !(at.Begin? || at.LockChain? || at.Returning? || at.Returned? || at.Halted?)
  }

  predicate InChain(pc: Pc) { pc.Run? && AtChain(pc.at) }

  /** Fetch locks its chain for reading, the others for writing. */
  predicate HoldsChain(pc: Pc, h: nat) { InChain(pc) && Hash(pc.op.key) == h }

  predicate WritesChain(pc: Pc, h: nat) { HoldsChain(pc, h) && !pc.op.Fetch? }

  predicate AtFree(at: At) {
    at.BlankData? || at.ReadFree? || at.BlankIdx? || at.SetFree? || at.Unlink? || at.UnlockFreeDel?
    || at.ReadFreeHead? || at.WalkFree? || at.TakeFree? || at.UnlockFree?
  }

  predicate WritesFree(pc: Pc) { pc.Run? && AtFree(pc.at) }

  predicate ReadsFree(pc: Pc) { pc.Scan? && (pc.sc.ScanRead? || pc.sc.ScanData? || pc.sc.ScanUnlock?) }

  predicate LocksDat(pc: Pc) { pc.Run? && (pc.at.SeekDat? || pc.at.WriteDat? || pc.at.UnlockDat?) }

  predicate LocksIdx(pc: Pc) { pc.Run? && (pc.at.SeekIdx? || pc.at.WriteIdx? || pc.at.UnlockIdx?) }

  /** The locks two processes hold are compatible. */
  predicate Compatible(a: Pc, b: Pc) {
    && (InChain(a) && InChain(b) && Hash(a.op.key) == Hash(b.op.key) ==> a.op.Fetch? && b.op.Fetch?)
    && !(WritesFree(a) && (WritesFree(b) || ReadsFree(b)))
    && !(WritesFree(b) && ReadsFree(a))
    && !(LocksDat(a) && LocksDat(b))
    && !(LocksIdx(a) && LocksIdx(b))
  }

  // ----- one step -----

  /** After the walk ran off the chain. */
  function OnMiss(op: Op): At {
    match op
    case Fetch(_) => UnlockChain(Miss)
    case Delete(_) => UnlockChain(Code(-1))
    case Store(_, _, flag) => if flag == DB_REPLACE then UnlockChain(Code(-1)) else ReadPtrVal
  }

  /** After the walk found the key. */
  function OnMatch(op: Op, prev: nat, off: nat, r: Rec, nxt: nat): At {
    match op
    case Fetch(_) => ReadData(off, r)
    case Delete(_) => LockFreeDel(prev, off, r, nxt)
    case Store(_, data, flag) =>
      if flag == DB_INSERT then UnlockChain(Code(1))
      else if |data| + 1 != r.datlen then LockFreeDel(prev, off, r, nxt)
      else Overwrite(off, r)
  }

  /** What the next step of an operation does to the files. */
  function Effect(img: Image, op: Op, at: At): Image {
    match at
    case BlankData(_, _, r, _) => SetDat(img, r.datoff, Blanks(if r.datlen > 0 then r.datlen - 1 else 0))
    case BlankIdx(_, off, r, _, fr) => SetRec(img, off, fr, Rec(Blanks(|r.key|), r.datoff, r.datlen))
    case SetFree(_, off, _) => SetPtr(img, FREE_OFF, off)
    case Unlink(prev, nxt) => SetPtr(img, prev, nxt)
    case TakeFree(_, prev, _, _, nxt) => SetPtr(img, prev, nxt)
    case ReuseData(_, _, r) => if op.Store? then SetDat(img, r.datoff, op.data) else img
    case ReuseIdx(v, off, r) => SetRec(img, off, v, Rec(op.key, r.datoff, r.datlen))
    case WriteDat(_, d) => if op.Store? then WriteDatAt(img, d, op.data) else img
    case WriteIdx(v, d, off) => if op.Store? then WriteRecAt(img, off, v, NewRec(op, d)) else img
    case LinkHead(off) => if off > PTR_MAX then img else SetPtr(img, HeadOff(Hash(op.key)), off)
    case Overwrite(_, r) => if op.Store? then SetDat(img, r.datoff, op.data) else img
    case _ => img
  }

  /** Where a step that reads nothing leads. Taking a lock needs Compatible as well. */
  function Onward(op: Op, at: At): At {
    match at
    case Begin =>
      if op.Store? && !FlagOk(op.flag) then Returning(Code(-1))
      else if !SizesOk(op) then Halted(BadLength, None) else LockChain
    case LockChain => ReadHead
    // _db_dodelete
    case LockFreeDel(prev, off, r, nxt) => BlankData(prev, off, r, nxt)
    case BlankData(prev, off, r, nxt) => ReadFree(prev, off, r, nxt)
    case BlankIdx(prev, off, r, nxt, fr) => SetFree(prev, off, nxt)
    case SetFree(prev, off, nxt) => Unlink(prev, nxt)
    case Unlink(prev, nxt) => UnlockFreeDel
    case UnlockFreeDel => if op.Store? then RereadPtrVal else UnlockChain(Code(0))
    // a free record
    case LockFree(v) => ReadFreeHead(v)
    case TakeFree(v, prev, off, r, nxt) => UnlockFree(v, Some((off, r)))
    case UnlockFree(v, got) => (match got case None => LockDat(v) case Some((off, r)) => ReuseData(v, off, r))
    case ReuseData(v, off, r) => ReuseIdx(v, off, r)
    case ReuseIdx(v, off, r) => LinkHead(off)
    // appending
    case LockDat(v) => SeekDat(v)
    case WriteDat(v, d) => UnlockDat(v, d)
    case UnlockDat(v, d) =>
      if op.Store? && LengthOk(NewRec(op, d)) then LockIdx(v, d) else Halted(BadLength, None)
    case LockIdx(v, d) => SeekIdx(v, d)
    case WriteIdx(v, d, off) => UnlockIdx(off)
    case UnlockIdx(off) => LinkHead(off)
    case LinkHead(off) => if off > PTR_MAX then Halted(BadPointer, Some(off)) else UnlockChain(Code(0))
    case Overwrite(off, r) => UnlockChain(Code(0))
    case UnlockChain(res) => Returning(res)
    case Returning(res) => Returned(res)
    case _ => at
  }

  /** Where the next step of an operation leads. */
  function Next(img: Image, op: Op, at: At): At {
    match at
    case ReadHead =>
      var c := HeadOff(Hash(op.key));
      if c in img.ptr then Walk(c, img.ptr[c]) else Halted(BadRead, None)
    case Walk(prev, off) =>
      if off == 0 then OnMiss(op)
      else if off !in img.rec || off !in img.ptr then Halted(BadRead, None)
      else if img.rec[off].key == op.key then OnMatch(op, prev, off, img.rec[off], img.ptr[off])
      else Walk(off, img.ptr[off])
    case ReadData(off, r) =>
      if r.datoff in img.dat then UnlockChain(Hit(img.dat[r.datoff])) else Halted(BadRead, None)
    case ReadFree(prev, off, r, nxt) =>
      if FREE_OFF in img.ptr then BlankIdx(prev, off, r, nxt, img.ptr[FREE_OFF]) else Halted(BadRead, Some(off))
    case ReadPtrVal =>
      var c := HeadOff(Hash(op.key));
      if c in img.ptr then LockFree(img.ptr[c]) else Halted(BadRead, None)
    case ReadFreeHead(v) =>
      if FREE_OFF in img.ptr then WalkFree(v, FREE_OFF, img.ptr[FREE_OFF]) else Halted(BadRead, None)
    case WalkFree(v, prev, off) =>
      if off == 0 then UnlockFree(v, None)
      else if off !in img.rec || off !in img.ptr || !op.Store? then Halted(BadRead, None)
      else if |img.rec[off].key| == |op.key| && img.rec[off].datlen == |op.data| + 1
        then TakeFree(v, prev, off, img.rec[off], img.ptr[off])
      else WalkFree(v, off, img.ptr[off])
    case RereadPtrVal =>
      var c := HeadOff(Hash(op.key));
      if c in img.ptr then LockDat(img.ptr[c]) else Halted(BadRead, None)
    case SeekDat(v) => WriteDat(v, img.dend)
    case SeekIdx(v, d) => WriteIdx(v, d, img.iend)
    case _ => Onward(op, at)
  }

  /** A step of db_nextrec; it writes nothing. */
  function ScanNext(img: Image, sc: ScanAt): ScanAt {
    match sc
    case ScanLock(pos) => ScanRead(pos)
    case ScanRead(pos) =>
      if pos !in img.rec then (if pos >= img.iend then ScanUnlock(pos, None) else ScanHalted(pos))
      else if AllBlank(img.rec[pos].key) then ScanRead(RecEnd(img, pos))
      else ScanData(pos, img.rec[pos])
    case ScanData(pos, r) =>
      if r.datoff in img.dat then ScanUnlock(pos + REC_HDR + BodyLen(r), Some((r.key, img.dat[r.datoff])))
      else ScanHalted(pos)
    case ScanUnlock(pos, out) => ScanReturned(pos, out)
    case _ => sc
  }

  /** Writes at the place where the process last saw the end of the file. */
  function WriteDatAt(img: Image, d: nat, t: string): Image { img.(dat := img.dat[d := t], dend := d + |t| + 1) }

  function WriteRecAt(img: Image, o: nat, v: nat, r: Rec): Image {
    img.(offs := img.offs + [o], ptr := img.ptr[o := v], rec := img.rec[o := r], iend := o + REC_HDR + BodyLen(r))
  }

  function EffectOf(img: Image, pc: Pc): Image { if pc.Run? then Effect(img, pc.op, pc.at) else img }

  function NextOf(img: Image, pc: Pc): Pc {
    match pc
    case Idle => Idle
    case Run(op, at) => Run(op, Next(img, op, at))
    case Scan(sc) => Scan(ScanNext(img, sc))
  }

  // ----- the system -----

  datatype State = State(img: Image, procs: seq<Pc>)

  ghost predicate CompatibleWithOthers(procs: seq<Pc>, p: nat, pc': Pc) {
    forall q | 0 <= q < |procs| && q != p :: Compatible(pc', procs[q])
  }

  /** Process p may take its step: any lock it asks for is free for it. */
  ghost predicate Enabled(s: State, p: nat) {
    && p < |s.procs| && !Resting(s.procs[p]) && !Gone(s.procs[p])
    && CompatibleWithOthers(s.procs, p, NextOf(s.img, s.procs[p]))
  }

  predicate Invoked(img: Image, pc: Pc) {
    || (pc.Run? && pc.at.Begin? && OpOk(pc.op))
    || (pc.Scan? && pc.sc.ScanLock? && Boundary(img, pc.sc.pos))
  }

  ghost function After(s: State, p: nat, img': Image, pc': Pc): State
    requires p < |s.procs|
  {
    State(img', s.procs[p := pc'])
  }

  /** A process at rest calls the library, or a process inside it takes one step. */
  ghost predicate Step(s: State, s': State, p: nat) {
    && p < |s.procs| == |s'.procs|
    && (|| (Resting(s.procs[p]) && Invoked(s.img, s'.procs[p]) && s' == After(s, p, s.img, s'.procs[p]))
        || (Enabled(s, p) && s' == After(s, p, EffectOf(s.img, s.procs[p]), NextOf(s.img, s.procs[p]))))
  }
}
