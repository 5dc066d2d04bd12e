/** What every process may rely on at its place in the code. */
module DbProtocol {
  import opened Links
  import opened Wrappers
  import opened DbCodec
  import opened DbImage
  import opened DbCatalog
  import opened DbListing
  import opened DbProcess

  /** The catalog and the abstract map, kept beside the files for the proof. */
  datatype Ghost = Ghost(cat: Catalog, m: map<string, string>)

  // ----- claims by place in the code -----

  datatype ChainClaim =
    | NoClaim
    | Calm
    | AtWalk(prev: nat, off: nat)
    | OnRec(off: nat, r: Rec)
    | Target(prev: nat, off: nat, r: Rec, nxt: nat)
    | Owes(prev: nat, nxt: nat)

  function ChainClaimOf(at: At): ChainClaim {
    match at
    case Walk(prev, off) => AtWalk(prev, off)
    case ReadData(off, r) => OnRec(off, r)
    case Overwrite(off, r) => OnRec(off, r)
    case LockFreeDel(prev, off, r, nxt) => Target(prev, off, r, nxt)
    case BlankData(prev, off, r, nxt) => Target(prev, off, r, nxt)
    case ReadFree(prev, _, _, nxt) => Owes(prev, nxt)
    case BlankIdx(prev, _, _, nxt, _) => Owes(prev, nxt)
    case SetFree(prev, _, nxt) => Owes(prev, nxt)
    case Unlink(prev, nxt) => Owes(prev, nxt)
    case _ => if AtChain(at) then Calm else NoClaim
  }

  /** The value a store has read from its chain head and will write into the new record. */
  function HeadVal(at: At): Option<nat> {
    match at
    case LockFree(v) => Some(v)
    case ReadFreeHead(v) => Some(v)
    case WalkFree(v, _, _) => Some(v)
    case TakeFree(v, _, _, _, _) => Some(v)
    case UnlockFree(v, _) => Some(v)
    case ReuseData(v, _, _) => Some(v)
    case ReuseIdx(v, _, _) => Some(v)
    case LockDat(v) => Some(v)
    case SeekDat(v) => Some(v)
    case WriteDat(v, _) => Some(v)
    case UnlockDat(v, _) => Some(v)
    case LockIdx(v, _) => Some(v)
    case SeekIdx(v, _) => Some(v)
    case WriteIdx(v, _, _) => Some(v)
    case _ => None
  }

  /** Places only a store reaches, on its way to a new record. */
  predicate Storing(at: At) {
    at.ReadPtrVal? || at.RereadPtrVal? || HeadVal(at).Some? || at.UnlockIdx? || at.LinkHead?
  }

  /** Between the deletion of the key's record, or the failed search, and the new chain head. */
  predicate Absent(at: At) { ChainClaimOf(at).Owes? || at.UnlockFreeDel? || Storing(at) }

  datatype FreeClaim =
    | NoFree
    | FreeHeadIs(fr: nat)
    | FreeWalk(prev: nat, off: nat)
    | FreeTarget(prev: nat, off: nat, r: Rec, nxt: nat)

  function FreeClaimOf(at: At): FreeClaim {
    match at
    case BlankIdx(_, _, _, _, fr) => FreeHeadIs(fr)
    case WalkFree(_, prev, off) => FreeWalk(prev, off)
    case TakeFree(_, prev, off, r, nxt) => FreeTarget(prev, off, r, nxt)
    case _ => NoFree
  }

  /** The record a process has in hand, and how far it is. */
  datatype HeldClaim =
    | NoHeld
    | HeldGone(off: nat, r: Rec)     // data blanked, key still there
    | HeldBlank(off: nat)            // blanked, pointing to the head of the free list
    | HeldFree(off: nat, r: Rec)     // taken from the free list
    | HeldFilled(off: nat, r: Rec)   // and filled with the new data
    | HeldReady(off: nat)            // complete, pointing to the head of the chain
    | HeldStuck(off: nat)            // complete, never to be linked

  function HeldClaimOf(at: At): HeldClaim {
    match at
    case ReadFree(_, off, r, _) => HeldGone(off, r)
    case BlankIdx(_, off, r, _, _) => HeldGone(off, r)
    case SetFree(_, off, _) => HeldBlank(off)
    case UnlockFree(_, got) => (match got case None => NoHeld case Some((off, r)) => HeldFree(off, r))
    case ReuseData(_, off, r) => HeldFree(off, r)
    case ReuseIdx(_, off, r) => HeldFilled(off, r)
    case UnlockIdx(off) => HeldReady(off)
    case LinkHead(off) => HeldReady(off)
    case Halted(_, held) => (match held case None => NoHeld case Some(off) => HeldStuck(off))
    case _ => NoHeld
  }

  /** The record in hand, if any. */
  function InHand(pc: Pc): Option<nat> {
    if !pc.Run? || HeldClaimOf(pc.at).NoHeld? then None else Some(HeldClaimOf(pc.at).off)
  }

  datatype EndClaim = NoEnd | DatEnd(d: nat) | LooseAt(d: nat) | LooseIdxEnd(d: nat, o: nat)

  function EndClaimOf(at: At): EndClaim {
    match at
    case WriteDat(_, d) => DatEnd(d)
    case UnlockDat(_, d) => LooseAt(d)
    case LockIdx(_, d) => LooseAt(d)
    case SeekIdx(_, d) => LooseAt(d)
    case WriteIdx(_, d, o) => LooseIdxEnd(d, o)
    case _ => NoEnd
  }

  // ----- what the claims say -----

  /** The process has walked its chain up to the cell prev, which points to off. */
  ghost predicate WalkOk(rec: map<nat, Rec>, from: nat, s: seq<nat>, key: string, prev: nat, off: nat) {
    exists i :: 0 <= i <= |s| && prev == CellOf(from, s, i) && off == Nth(s, i)
                && forall j | 0 <= j < i :: s[j] in rec && rec[s[j]].key != key
  }

  /** off is a record of the list, prev the cell before it, nxt what comes after. */
  ghost predicate PlaceOk(from: nat, s: seq<nat>, prev: nat, off: nat, nxt: nat) {
    exists i :: 0 <= i < |s| && s[i] == off && prev == CellOf(from, s, i) && nxt == Nth(s, i + 1)
  }

  /** The cell of an owed write is the head of the chain or a record on it. */
  ghost predicate CellOn(own: map<nat, Owner>, h: nat, c: nat) {
    c == HeadOff(h) || (c in own && own[c] == Chain(h))
  }

  ghost predicate ChainSays(img: Image, cat: Catalog, key: string, c: ChainClaim) {
    var h := Hash(key);
    && |cat.chains| == |cat.fix| == NHASH
    && match c
       case NoClaim => true
       case Calm => cat.fix[h] == None
       case AtWalk(prev, off) =>
         cat.fix[h] == None && WalkOk(img.rec, HeadOff(h), cat.chains[h], key, prev, off)
       case OnRec(off, r) =>
         && cat.fix[h] == None && off in cat.chains[h] && off in img.rec && img.rec[off] == r && r.key == key
       case Target(prev, off, r, nxt) =>
         && cat.fix[h] == None && PlaceOk(HeadOff(h), cat.chains[h], prev, off, nxt)
         && off in img.rec && img.rec[off] == r && r.key == key
       case Owes(prev, nxt) =>
         && cat.fix[h] == Some((prev, nxt)) && CellOn(cat.own, h, prev) && nxt <= PTR_MAX && prev in img.ptr
  }

  /** A free record that fits this store. */
  predicate Fits(op: Op, r: Rec) {
    op.Store? && |r.key| == |op.key| && r.datlen == |op.data| + 1 && AllBlank(r.key)
  }

  ghost predicate FreeSays(img: Image, cat: Catalog, op: Op, c: FreeClaim) {
    match c
    case NoFree => true
    case FreeHeadIs(fr) => FREE_OFF in img.ptr && img.ptr[FREE_OFF] == fr
    case FreeWalk(prev, off) =>
      exists i :: 0 <= i <= |cat.free| && prev == CellOf(FREE_OFF, cat.free, i) && off == Nth(cat.free, i)
    case FreeTarget(prev, off, r, nxt) =>
      && PlaceOk(FREE_OFF, cat.free, prev, off, nxt) && off in img.rec && img.rec[off] == r && Fits(op, r)
      && nxt <= PTR_MAX && off <= PTR_MAX && prev in img.ptr
  }

  ghost predicate HeldSays(img: Image, op: Op, c: HeldClaim) {
    match c
    case NoHeld => true
    case HeldGone(off, r) =>
      && off in img.rec && off in img.ptr && img.rec[off] == r && off <= PTR_MAX
      && r.datoff in img.dat && AllBlank(img.dat[r.datoff])
    case HeldBlank(off) =>
      && off in img.rec && off in img.ptr && FREE_OFF in img.ptr && img.ptr[off] == img.ptr[FREE_OFF] && off <= PTR_MAX
      && AllBlank(img.rec[off].key) && img.rec[off].datoff in img.dat && AllBlank(img.dat[img.rec[off].datoff])
    case HeldFree(off, r) => off in img.rec && img.rec[off] == r && off <= PTR_MAX && Fits(op, r)
    case HeldFilled(off, r) =>
      && off in img.rec && img.rec[off] == r && off <= PTR_MAX && Fits(op, r)
      && r.datoff in img.dat && img.dat[r.datoff] == op.data
    case HeldReady(off) =>
      && Completed(img, op, off) && off in img.ptr && HeadOff(Hash(op.key)) in img.ptr
      && img.ptr[off] == img.ptr[HeadOff(Hash(op.key))]
    case HeldStuck(off) => Completed(img, op, off)
  }

  /** The record at off carries the key and the data of this store. */
  ghost predicate Completed(img: Image, op: Op, off: nat) {
    && op.Store? && off in img.rec && img.rec[off].key == op.key
    && img.rec[off].datoff in img.dat && img.dat[img.rec[off].datoff] == op.data
  }

  ghost predicate EndSays(img: Image, cat: Catalog, p: nat, op: Op, at: At, c: EndClaim) {
    match c
    case NoEnd => true
    case DatEnd(d) => d == img.dend
    case LooseAt(d) => LooseSays(img, cat, p, op, d) && (at.UnlockDat? || LengthOk(NewRec(op, d)))
    case LooseIdxEnd(d, o) => LooseSays(img, cat, p, op, d) && LengthOk(NewRec(op, d)) && o == img.iend
  }

  ghost predicate LooseSays(img: Image, cat: Catalog, p: nat, op: Op, d: nat) {
    op.Store? && d in cat.ext && cat.ext[d] == Loose(p) && d in img.dat && img.dat[d] == op.data
  }

  /** The bearing of the abstract map on an operation under way whose key has no record. */
  ghost predicate AbsentSays(img: Image, cat: Catalog, m: map<string, string>, op: Op, v: Option<nat>) {
    && op.key !in cat.loc
    && (op.Store? && op.flag == DB_INSERT ==> op.key !in m)
    && (op.Store? && op.flag == DB_REPLACE ==> op.key in m)
    && (op.Store? && op.key in m ==> |m[op.key]| != |op.data|)
    && (v.Some? ==>
          && HeadOff(Hash(op.key)) in img.ptr && v.value == img.ptr[HeadOff(Hash(op.key))] && v.value <= PTR_MAX)
  }

  /** What is known of the arguments by then. */
  predicate OpSays(op: Op, at: At) {
    && OpOk(op)
    && (AtChain(at) || at.LockChain? ==> SizesOk(op))
    && (at.ReadData? ==> op.Fetch?)
    && (at.Overwrite? ==> op.Store? && |op.data| + 1 == at.r.datlen && op.flag != DB_INSERT)
    && (ChainClaimOf(at).Target? || ChainClaimOf(at).Owes? || at.UnlockFreeDel? ==>
          !op.Fetch? && (op.Store? ==> op.flag != DB_INSERT))
    && ((at.LockFreeDel? || at.BlankData?) && op.Store? ==> |op.data| + 1 != at.r.datlen)
    && (Storing(at) ==> op.Store?)
    && (at.Halted? ==> at.why != BadRead)
  }

  /** A record db_nextrec has settled on keeps its name while the free list is locked. */
  ghost predicate ScanSays(img: Image, sc: ScanAt) {
    match sc
    case ScanData(pos, r) => pos in img.rec && img.rec[pos] == r && !AllBlank(r.key)
    case ScanHalted(_) => false
    case _ => Boundary(img, sc.pos)
  }

  ghost predicate Local(img: Image, g: Ghost, p: nat, pc: Pc) {
    match pc
    case Idle => true
    case Run(op, at) =>
      && OpSays(op, at)
      && ChainSays(img, g.cat, op.key, ChainClaimOf(at))
      && FreeSays(img, g.cat, op, FreeClaimOf(at))
      && HeldSays(img, op, HeldClaimOf(at))
      && EndSays(img, g.cat, p, op, at, EndClaimOf(at))
      && (Absent(at) ==> AbsentSays(img, g.cat, g.m, op, HeadVal(at)))
    case Scan(sc) => ScanSays(img, sc)
  }

  // ----- the invariant -----

  ghost predicate Exclusive(procs: seq<Pc>) {
    forall p, q | 0 <= p < |procs| && 0 <= q < |procs| && p != q :: Compatible(procs[p], procs[q])
  }

  /** A record is in process p's hands exactly when p says so. */
  ghost predicate HeldOk(own: map<nat, Owner>, procs: seq<Pc>) {
    && (forall o | o in own && own[o].Held? :: own[o].p < |procs| && InHand(procs[own[o].p]) == Some(o))
    && (forall p | 0 <= p < |procs| && InHand(procs[p]).Some? ::
          InHand(procs[p]).value in own && own[InHand(procs[p]).value] == Held(p))
  }

  predicate OwesFix(pc: Pc) { pc.Run? && ChainClaimOf(pc.at).Owes? }

  /** A pointer write is owed to a chain only while a process that holds its lock owes it. */
  ghost predicate FixOk(fix: seq<Option<(nat, nat)>>, procs: seq<Pc>) {
    |fix| == NHASH &&
    forall h | 0 <= h < NHASH && fix[h] != None ::
      exists p :: 0 <= p < |procs| && OwesFix(procs[p]) && WritesChain(procs[p], h)
  }

  predicate SameAt(a: map<string, string>, b: map<string, string>, k: string) {
    (k in a <==> k in b) && (k in a ==> a[k] == b[k])
  }

  /** A store has taken the old record of key k away and not yet put the new one in. */
  predicate Gap(pc: Pc, k: string) { pc.Run? && pc.op.Store? && Absent(pc.at) && pc.op.key == k }

  /** The files represent the abstract map, but for keys some store is in the middle of replacing. */
  ghost predicate MapOk(cur: map<string, string>, m: map<string, string>, procs: seq<Pc>) {
    forall k {:trigger SameAt(cur, m, k)} | (forall p | 0 <= p < |procs| :: !Gap(procs[p], k)) :: SameAt(cur, m, k)
  }

  ghost predicate Locals(s: State, g: Ghost) {
    forall p | 0 <= p < |s.procs| :: Local(s.img, g, p, s.procs[p])
  }

  ghost predicate Inv(s: State, g: Ghost) {
    && Geometry(s.img) && CatInv(s.img, g.cat)
    && Exclusive(s.procs)
    && HeldOk(g.cat.own, s.procs)
    && FixOk(g.cat.fix, s.procs)
    && MapOk(MapOf(s.img, g.cat), g.m, s.procs)
    && Locals(s, g)
  }
}
