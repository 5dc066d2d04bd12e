/** foo_alloc, foo_hold, foo_find and foo_rele under two levels of locks: hashlock for the table, f_lock
    in each object for its count. Any number of threads, any interleaving. */
module FooTwoLocks {
  import opened Links
  import opened Wrappers
  import opened FooTable
  import opened FooChains

  // ----- threads -----

  datatype AllocAt = ALockHash | ASetNext | ASetHead | ALockObj | AUnlockHash | AUnlockObj

  datatype HoldAt = HLockObj | HAdd | HUnlockObj

  datatype FindAt =
    | FLockHash
    | FReadHead
    | FWalk(cur: nat)
    | FLockObj(o: nat)
    | FAdd(o: nat)
    | FUnlockObj(o: nat)
    | FUnlockHash(res: Option<nat>)

  datatype ReleAt =
    | RLockObj
    | RTest
    | RSub          // not the last reference
    | RUnlockObj
    | RPause        // maybe the last: give up f_lock to take hashlock first
    | RLockHash
    | RLockBoth
    | RRetest
    | RSubAfter     // it was not, after all
    | RUnlockObjAfter
    | RUnlockHashAfter
    | RReadHead     // it is: unlink and free
    | RCutHead
    | RScan(t: nat)
    | RCut(t: nat)
    | RUnlockHash
    | RUnlockLast
    | RFree

  datatype Pc =
    | Idle
    | Alloc(o: nat, id: int, a: AllocAt)
    | Hold(o: nat, w: HoldAt)
    | Find(id: int, f: FindAt)
    | Rele(o: nat, r: ReleAt)
    | Crashed       // used memory that was freed

  /** owned[t] are the references thread t has and may still hold or release. */
  datatype State = State(mem: Mem, owned: seq<multiset<nat>>, procs: seq<Pc>)

  // ----- locks -----

  predicate HasHash(pc: Pc) {
    match pc
    case Alloc(_, _, a) => a.ASetNext? || a.ASetHead? || a.ALockObj? || a.AUnlockHash?
    case Find(_, f) => !f.FLockHash?
    case Rele(_, r) =>
      r.RLockBoth? || r.RRetest? || r.RSubAfter? || r.RUnlockObjAfter? || r.RUnlockHashAfter?
      || r.RReadHead? || r.RCutHead? || r.RScan? || r.RCut? || r.RUnlockHash?
    case _ => false
  }

  /** The object whose f_lock the thread holds. */
  function Locked(pc: Pc): Option<nat> {
    match pc
    case Alloc(o, _, a) => if a.AUnlockHash? || a.AUnlockObj? then Some(o) else None
    case Hold(o, w) => if w.HLockObj? then None else Some(o)
    case Find(_, f) => if f.FAdd? || f.FUnlockObj? then Some(f.o) else None
    case Rele(o, r) =>
      if r.RLockObj? || r.RLockHash? || r.RLockBoth? || r.RUnlockHashAfter? || r.RFree? then None else Some(o)
    case _ => None
  }

  predicate Compatible(a: Pc, b: Pc) {
    !(HasHash(a) && HasHash(b)) && !(Locked(a).Some? && Locked(a) == Locked(b))
  }

  // ----- one step -----

  /** The objects a thread is about to use or to come back to. */
  function Names(pc: Pc): set<nat> {
    match pc
    case Alloc(o, _, _) => {o}
    case Hold(o, _) => {o}
    case Find(_, f) =>
      (match f
       case FWalk(cur) => if cur == 0 then {} else {cur}
       case FLockObj(o) => {o}
       case FAdd(o) => {o}
       case FUnlockObj(o) => {o}
       case _ => {})
    case Rele(o, r) =>
      (match r
       case RUnlockHashAfter => {}
       case RScan(t) => {o, t}
       case RCut(t) => {o, t}
       case _ => {o})
    case _ => {}
  }

  function AllocNext(o: nat, id: int, a: AllocAt): Pc {
    match a
    case ALockHash => Alloc(o, id, ASetNext)
    case ASetNext => Alloc(o, id, ASetHead)
    case ASetHead => Alloc(o, id, ALockObj)
    case ALockObj => Alloc(o, id, AUnlockHash)
    case AUnlockHash => Alloc(o, id, AUnlockObj)
    case AUnlockObj => Idle
  }

  function FindNext(mem: Mem, id: int, f: FindAt): Pc {
    match f
    case FLockHash => Find(id, FReadHead)
    case FReadHead => Find(id, FWalk(if HashOf(id) < |mem.heads| then mem.heads[HashOf(id)] else 0))
    case FWalk(cur) =>
      if cur == 0 || cur !in mem.heap then Find(id, FUnlockHash(None))
      else if mem.heap[cur].id == id then Find(id, FLockObj(cur))
      else Find(id, FWalk(mem.heap[cur].next))
    case FLockObj(o) => Find(id, FAdd(o))
    case FAdd(o) => Find(id, FUnlockObj(o))
    case FUnlockObj(o) => Find(id, FUnlockHash(Some(o)))
    case FUnlockHash(_) => Idle
  }

  function ReleNext(mem: Mem, o: nat, r: ReleAt): Pc {
    match r
    case RLockObj => Rele(o, RTest)
    case RTest => if o in mem.heap && mem.heap[o].count == 1 then Rele(o, RPause) else Rele(o, RSub)
    case RSub => Rele(o, RUnlockObj)
    case RUnlockObj => Idle
    case RPause => Rele(o, RLockHash)
    case RLockHash => Rele(o, RLockBoth)
    case RLockBoth => Rele(o, RRetest)
    case RRetest => if o in mem.heap && mem.heap[o].count != 1 then Rele(o, RSubAfter) else Rele(o, RReadHead)
    case RSubAfter => Rele(o, RUnlockObjAfter)
    case RUnlockObjAfter => Rele(o, RUnlockHashAfter)
    case RUnlockHashAfter => Idle
    case RReadHead => if HeadOfObj(mem, o) == o then Rele(o, RCutHead) else Rele(o, RScan(HeadOfObj(mem, o)))
    case RCutHead => Rele(o, RUnlockHash)
    case RScan(t) =>
      if t !in mem.heap then Crashed
      else if mem.heap[t].next != o then Rele(o, RScan(mem.heap[t].next)) else Rele(o, RCut(t))
    case RCut(_) => Rele(o, RUnlockHash)
    case RUnlockHash => Rele(o, RUnlockLast)
    case RUnlockLast => Rele(o, RFree)
    case RFree => Idle
  }

  function NextOf(mem: Mem, pc: Pc): Pc {
    if !(Names(pc) <= mem.heap.Keys) then Crashed
    else
      match pc
      case Alloc(o, id, a) => AllocNext(o, id, a)
      case Hold(o, w) =>
        (match w case HLockObj => Hold(o, HAdd) case HAdd => Hold(o, HUnlockObj) case HUnlockObj => Idle)
      case Find(id, f) => FindNext(mem, id, f)
      case Rele(o, r) => ReleNext(mem, o, r)
      case _ => pc
  }

  function EffectOf(mem: Mem, pc: Pc): Mem {
    if !(Names(pc) <= mem.heap.Keys) then mem
    else
      match pc
      case Alloc(o, id, a) =>
        (match a
         case ASetNext => SetNext(mem, o, HeadOfObj(mem, o))
         case ASetHead => SetHead(mem, HashOf(mem.heap[o].id), o)
         case _ => mem)
      case Hold(o, w) => if w.HAdd? then SetCount(mem, o, 1) else mem
      case Find(_, f) => if f.FAdd? then SetCount(mem, f.o, 1) else mem
      case Rele(o, r) =>
        (match r
         case RSub => SetCount(mem, o, -1)
         case RSubAfter => SetCount(mem, o, -1)
         case RCutHead => SetHead(mem, HashOf(mem.heap[o].id), mem.heap[o].next)
         case RCut(t) => SetNext(mem, t, mem.heap[o].next)
         case RFree => mem.(heap := mem.heap - {o})
         case _ => mem)
      case _ => mem
  }

  /** The thread's references after the step. */
  function OwnedAfter(own: multiset<nat>, pc: Pc): multiset<nat> {
    match pc
    case Hold(o, w) => if w.HAdd? then own + multiset{o} else own
    case Find(_, f) => if f.FAdd? then own + multiset{f.o} else own
    case Rele(o, r) => if r.RSub? || r.RSubAfter? || r.RFree? then own - multiset{o} else own
    case _ => own
  }

  ghost predicate CompatibleWithOthers(procs: seq<Pc>, t: nat, pc': Pc) {
    forall u | 0 <= u < |procs| && u != t :: Compatible(pc', procs[u])
  }

  predicate Busy(pc: Pc) { !pc.Idle? && !pc.Crashed? }

  ghost predicate Enabled(s: State, t: nat) {
    t < |s.procs| && Busy(s.procs[t]) && CompatibleWithOthers(s.procs, t, NextOf(s.mem, s.procs[t]))
  }

  ghost function After(s: State, t: nat): State
    requires t < |s.procs| && t < |s.owned|
  {
    State(EffectOf(s.mem, s.procs[t]), s.owned[t := OwnedAfter(s.owned[t], s.procs[t])],
          s.procs[t := NextOf(s.mem, s.procs[t])])
  }

  /** Callers hold and release only references of their own; an idle thread may hand one over. */
  ghost predicate Begin(s: State, s': State, t: nat)
    requires t < |s.procs| == |s.owned| == |s'.procs|
  {
    && s.procs[t].Idle? && s'.mem == s.mem && s'.owned == s.owned && s'.procs == s.procs[t := s'.procs[t]]
    && match s'.procs[t]
       case Hold(o, w) => w.HLockObj? && o in s.owned[t]
       case Find(_, f) => f.FLockHash?
       case Rele(o, r) => r.RLockObj? && o in s.owned[t]
       case _ => false
  }

  /** malloc: an address not in use; count and identity are set before anyone else can see it. */
  ghost predicate Malloc(s: State, s': State, t: nat, o: nat, id: int, junk: nat)
    requires t < |s.procs| == |s.owned|
  {
    && s.procs[t].Idle? && o != 0 && o !in s.mem.heap
    && s' == State(s.mem.(heap := s.mem.heap[o := Obj(id, 1, junk)]), s.owned[t := s.owned[t] + multiset{o}],
                   s.procs[t := Alloc(o, id, ALockHash)])
  }

  ghost predicate Give(s: State, s': State, t: nat, u: nat, o: nat)
    requires t < |s.procs| == |s.owned|
  {
    && u < |s.procs| && u != t && s.procs[t].Idle? && s.procs[u].Idle? && o in s.owned[t]
    && s' == s.(owned := s.owned[t := s.owned[t] - multiset{o}][u := s.owned[u] + multiset{o}])
  }

  ghost predicate Step(s: State, s': State, t: nat) {
    && t < |s.procs| == |s.owned| == |s'.procs| == |s'.owned|
    && (|| Begin(s, s', t)
        || (exists o, id, junk :: Malloc(s, s', t, o, id, junk))
        || (exists u, o :: Give(s, s', t, u, o))
        || (Enabled(s, t) && s' == After(s, t)))
  }

  // ----- what each thread may rely on -----

  datatype Ghost = Ghost(order: seq<nat>, out: map<nat, nat>)

  /** Places with the object not, or no longer, on its chain. */
  function Apart(pc: Pc): Option<nat> {
    match pc
    case Alloc(o, _, a) => if a.ALockHash? || a.ASetNext? || a.ASetHead? then Some(o) else None
    case Rele(o, r) => if r.RUnlockHash? || r.RUnlockLast? || r.RFree? then Some(o) else None
    case _ => None
  }

  /** Places at which nobody else can have the object: it is not listed yet, or going to be freed. */
  predicate Sole(pc: Pc) {
    || (pc.Alloc? && Apart(pc).Some?)
    || (pc.Rele? && (pc.r.RReadHead? || pc.r.RCutHead? || pc.r.RScan? || pc.r.RCut? || Apart(pc).Some?))
  }

  /** Between the first test of foo_rele and its recheck. */
  predicate InWindow(pc: Pc) {
    pc.Rele? && (pc.r.RPause? || pc.r.RLockHash? || pc.r.RLockBoth? || pc.r.RRetest?)
  }

  /** Places that still have the reference the call is about. */
  predicate NeedsRef(pc: Pc) {
    match pc
    case Alloc(_, _, _) => true
    case Hold(_, _) => true
    case Rele(_, r) => !r.RUnlockObj? && !r.RUnlockObjAfter? && !r.RUnlockHashAfter?
    case _ => false
  }

  ghost predicate AllocSays(mem: Mem, o: nat, id: int, a: AllocAt) {
    && o in mem.heap && o != 0 && mem.heap[o].id == id && |mem.heads| == NHASH
    && (a.ASetHead? ==> mem.heap[o].next == mem.heads[HashOf(id)])
  }

  ghost predicate FindSays(mem: Mem, order: seq<nat>, id: int, f: FindAt) {
    match f
    case FWalk(cur) => WalkClaim(mem.heap, Chain(order, mem.heap, HashOf(id)), id, cur)
    case FLockObj(o) => o in order && FindFirst(order, mem.heap, id) == Some(o)
    case FAdd(o) => o in order && FindFirst(order, mem.heap, id) == Some(o)
    case _ => true
  }

  ghost predicate ReleSays(mem: Mem, order: seq<nat>, o: nat, r: ReleAt) {
    match r
    case RSub => o in mem.heap && mem.heap[o].count >= 2
    case RSubAfter => o in mem.heap && mem.heap[o].count >= 2
    case RReadHead => o in mem.heap && mem.heap[o].count == 1 && o in order
    case RCutHead =>
      o in mem.heap && mem.heap[o].count == 1 && o in order && |mem.heads| == NHASH
      && mem.heads[HashOf(mem.heap[o].id)] == o
    case RScan(t) =>
      o in mem.heap && mem.heap[o].count == 1 && o in order
      && ScanClaim(Chain(order, mem.heap, HashOf(mem.heap[o].id)), o, t)
    case RCut(t) =>
      && o in mem.heap && mem.heap[o].count == 1 && o in order && t in mem.heap && mem.heap[t].next == o
      && ScanClaim(Chain(order, mem.heap, HashOf(mem.heap[o].id)), o, t)
    case _ => true
  }

  ghost predicate Local(mem: Mem, order: seq<nat>, own: multiset<nat>, pc: Pc) {
    && Names(pc) <= mem.heap.Keys && !pc.Crashed?
    && (NeedsRef(pc) ==> pc.o in own)
    && (Sole(pc) ==> own[pc.o] == 1)
    && match pc
       case Alloc(o, id, a) => AllocSays(mem, o, id, a)
       case Find(id, f) => FindSays(mem, order, id, f)
       case Rele(o, r) => ReleSays(mem, order, o, r)
       case _ => true
  }

  // ----- the invariant -----

  ghost predicate Exclusive(procs: seq<Pc>) {
    forall t, u | 0 <= t < |procs| && 0 <= u < |procs| && t != u :: Compatible(procs[t], procs[u])
  }

  /** An object is listed unless one thread is inserting it or has taken it out. */
  ghost predicate OutOk(keys: set<nat>, order: seq<nat>, out: map<nat, nat>, procs: seq<Pc>) {
    && (forall o | o in keys :: o in order <==> o !in out)
    && (forall o | o in out :: o in keys && out[o] < |procs| && Apart(procs[out[o]]) == Some(o))
    && (forall t | 0 <= t < |procs| && Apart(procs[t]).Some? ::
          Apart(procs[t]).value in out && out[Apart(procs[t]).value] == t)
  }

  /** f_count is the number of references owned. */
  ghost predicate CountsOk(heap: map<nat, Obj>, owned: seq<multiset<nat>>) {
    && (forall o | o in heap :: heap[o].count == Total(owned, o))
    && (forall t, o | 0 <= t < |owned| && o in owned[t] :: o in heap)
  }

  /** Nobody else has an object that is not listed yet or going to be freed. */
  ghost predicate SoleOk(owned: seq<multiset<nat>>, procs: seq<Pc>)
    requires |owned| == |procs|
  {
    forall t, u | 0 <= t < |procs| && 0 <= u < |procs| && t != u && Sole(procs[t]) ::
      procs[t].o !in Names(procs[u]) && procs[t].o !in owned[u]
  }

  ghost predicate WindowOk(procs: seq<Pc>) {
    forall t, u | 0 <= t < |procs| && 0 <= u < |procs| && t != u && InWindow(procs[t]) && InWindow(procs[u]) ::
      procs[t].o != procs[u].o
  }

  ghost predicate Locals(s: State, order: seq<nat>)
    requires |s.owned| == |s.procs|
  {
    forall t | 0 <= t < |s.procs| :: Local(s.mem, order, s.owned[t], s.procs[t])
  }

  ghost predicate Inv(s: State, g: Ghost) {
    && |s.owned| == |s.procs|
    && Exclusive(s.procs)
    && ChainsOk(s.mem, g.order)
    && OutOk(s.mem.heap.Keys, g.order, g.out, s.procs)
    && CountsOk(s.mem.heap, s.owned)
    && SoleOk(s.owned, s.procs)
    && WindowOk(s.procs)
    && Locals(s, g.order)
  }

  /** Objects enter the list with the write of the head, and leave it with the write of the pointer
      to them. */
  ghost function GhostNext(g: Ghost, t: nat, pc: Pc): Ghost {
    match pc
    case Alloc(o, _, a) => if a.ASetHead? then Ghost([o] + g.order, g.out - {o}) else g
    case Rele(o, r) =>
      if r.RCutHead? || r.RCut? then Ghost(Remove(g.order, o), g.out[o := t])
      else if r.RFree? then Ghost(g.order, g.out - {o})
      else g
    case _ => g
  }

  // ----- the stepping thread's own claims -----

  /** An object some thread names or owns is listed, unless that thread is linking or has cut it. */
  lemma Listed(s: State, g: Ghost, t: nat, o: nat)
    requires Inv(s, g) && t < |s.procs| && o in s.mem.heap && (o in s.owned[t] || o in Names(s.procs[t]))
    requires Apart(s.procs[t]) != Some(o)
    ensures o in g.order
  {
    hide ChainsOk, CountsOk, WindowOk, Exclusive, Locals, Names;
    if o in g.out { SoleKept(s, g.out[o], t); }
  }

  lemma FindLocal(mem: Mem, order: seq<nat>, own: multiset<nat>, id: int, f: FindAt)
    requires ChainsOk(mem, order) && Local(mem, order, own, Find(id, f))
    ensures var pc := Find(id, f); Local(EffectOf(mem, pc), order, OwnedAfter(own, pc), NextOf(mem, pc))
  {
    hide Path, Chain, FindFirst, NoDup;
    match f {
      case FReadHead =>
        HeadWalk(mem, order, id);
      case FWalk(cur) => WalkNext(mem, order, id, cur);
      case _ =>
    }
  }

  lemma ReleLocal(mem: Mem, order: seq<nat>, own: multiset<nat>, o: nat, r: ReleAt)
    requires ChainsOk(mem, order) && Local(mem, order, own, Rele(o, r))
    requires NeedsRef(Rele(o, r)) ==> mem.heap[o].count >= 1
    requires r.RRetest? && mem.heap[o].count == 1 ==> o in order && own[o] == 1
    requires !r.RCut? && !r.RCutHead? && !r.RFree?
    ensures var pc := Rele(o, r); Local(EffectOf(mem, pc), order, OwnedAfter(own, pc), NextOf(mem, pc))
  {
    hide Path, Chain, FindFirst, NoDup, ChainsOk;
    if r.RReadHead? || r.RScan? {
      hide Local, EffectOf, NextOf, OwnedAfter;
      ScanLocal(mem, order, own, o, r);
    } else if r.RTest? || r.RRetest? {
      hide ScanClaim, HeadOfObj, HashOf;
    } else {
      hide Local, EffectOf, NextOf, OwnedAfter;
      PlainLocal(mem, order, own, o, r);
    }
  }

  lemma PlainLocal(mem: Mem, order: seq<nat>, own: multiset<nat>, o: nat, r: ReleAt)
    requires Local(mem, order, own, Rele(o, r))
    requires !r.RCut? && !r.RCutHead? && !r.RFree? && !r.RReadHead? && !r.RScan? && !r.RTest? && !r.RRetest?
    ensures var pc := Rele(o, r); Local(EffectOf(mem, pc), order, OwnedAfter(own, pc), NextOf(mem, pc))
  {
    hide ScanClaim, HeadOfObj, HashOf, Chain, AllocSays, FindSays;
    if r.RSub? || r.RSubAfter? {
      assert NextOf(mem, Rele(o, r)).r.RUnlockObj? || NextOf(mem, Rele(o, r)).r.RUnlockObjAfter?;
      assert EffectOf(mem, Rele(o, r)).heap.Keys == mem.heap.Keys;
    } else {
      assert EffectOf(mem, Rele(o, r)) == mem && OwnedAfter(own, Rele(o, r)) == own;
      hide EffectOf, OwnedAfter;
    }
  }

  lemma ScanLocal(mem: Mem, order: seq<nat>, own: multiset<nat>, o: nat, r: ReleAt)
    requires ChainsOk(mem, order) && Local(mem, order, own, Rele(o, r)) && (r.RReadHead? || r.RScan?)
    ensures var pc := Rele(o, r); Local(EffectOf(mem, pc), order, OwnedAfter(own, pc), NextOf(mem, pc))
  {
    hide Path, Chain, FindFirst, NoDup, ScanClaim;
    match r {
      case RReadHead => ScanStart(mem, order, o);
      case RScan(t) => ScanNext(mem, order, o, t);
    }
  }

  /** Unlinking, linking and freeing make no claim on the list. */
  lemma CutLocal(mem: Mem, order: seq<nat>, order': seq<nat>, own: multiset<nat>, o: nat, r: ReleAt)
    requires Local(mem, order, own, Rele(o, r)) && (r.RCut? || r.RCutHead? || r.RFree?)
    ensures var pc := Rele(o, r); Local(EffectOf(mem, pc), order', OwnedAfter(own, pc), NextOf(mem, pc))
  {
    hide Path, Chain, FindFirst, NoDup;
  }

  lemma AllocLocal(mem: Mem, order: seq<nat>, order': seq<nat>, own: multiset<nat>, o: nat, id: int, a: AllocAt)
    requires Local(mem, order, own, Alloc(o, id, a))
    ensures var pc := Alloc(o, id, a); Local(EffectOf(mem, pc), order', OwnedAfter(own, pc), NextOf(mem, pc))
  {
    hide Path, Chain, FindFirst, NoDup;
  }

  lemma HoldLocal(mem: Mem, order: seq<nat>, own: multiset<nat>, o: nat, w: HoldAt)
    requires Local(mem, order, own, Hold(o, w))
    ensures var pc := Hold(o, w); Local(EffectOf(mem, pc), order, OwnedAfter(own, pc), NextOf(mem, pc))
  {
    hide Path, Chain, FindFirst, NoDup;
  }

  lemma OwnLocal(s: State, g: Ghost, t: nat)
    requires Inv(s, g) && t < |s.procs| && Busy(s.procs[t])
    ensures var pc := s.procs[t];
            Local(EffectOf(s.mem, pc), GhostNext(g, t, pc).order, OwnedAfter(s.owned[t], pc), NextOf(s.mem, pc))
  {
    hide Path, Chain, FindFirst, NoDup, EffectOf, NextOf, OwnedAfter, ChainsOk;
    assert Local(s.mem, g.order, s.owned[t], s.procs[t]);
    match s.procs[t] {
      case Alloc(o, id, a) => AllocLocal(s.mem, g.order, GhostNext(g, t, s.procs[t]).order, s.owned[t], o, id, a);
      case Hold(o, w) => HoldLocal(s.mem, g.order, s.owned[t], o, w);
      case Find(id, f) => FindLocal(s.mem, g.order, s.owned[t], id, f);
      case Rele(o, r) =>
        if r.RCut? || r.RCutHead? || r.RFree? {
          CutLocal(s.mem, g.order, GhostNext(g, t, s.procs[t]).order, s.owned[t], o, r);
        } else {
          if NeedsRef(Rele(o, r)) { CountPositive(s, g, t, o); }
          if r.RRetest? && s.mem.heap[o].count == 1 { Listed(s, g, t, o); TotalAtLeast(s.owned, t, o); }
          ReleLocal(s.mem, g.order, s.owned[t], o, r);
        }
    }
  }

  /** A thread in foo_rele that still has its reference sees a positive count. */
  lemma CountPositive(s: State, g: Ghost, t: nat, o: nat)
    requires Inv(s, g) && t < |s.procs| && o in s.mem.heap && (NeedsRef(s.procs[t]) ==> o in s.owned[t])
    ensures NeedsRef(s.procs[t]) ==> s.mem.heap[o].count >= 1
  {
    TotalAtLeast(s.owned, t, o);
  }

  // ----- what the other threads keep -----

  /** Identities never change, and only freeing takes an object away. */
  lemma EffectIds(mem: Mem, pc: Pc)
    ensures forall x | x in EffectOf(mem, pc).heap :: x in mem.heap && EffectOf(mem, pc).heap[x].id == mem.heap[x].id
    ensures forall x | x in mem.heap :: x in EffectOf(mem, pc).heap || (pc.Rele? && pc.r.RFree? && pc.o == x)
    ensures |EffectOf(mem, pc).heads| == |mem.heads|
  {
  }

  /** Counts change under the object's lock. */
  lemma EffectCounts(mem: Mem, pc: Pc, x: nat)
    requires x in mem.heap && x in EffectOf(mem, pc).heap && Locked(pc) != Some(x)
    ensures EffectOf(mem, pc).heap[x].count == mem.heap[x].count
  {
  }

  /** The list changes under the hash lock. */
  lemma EffectLists(mem: Mem, g: Ghost, t: nat, pc: Pc)
    requires !HasHash(pc)
    ensures EffectOf(mem, pc).heads == mem.heads && GhostNext(g, t, pc).order == g.order
    ensures forall x | x in EffectOf(mem, pc).heap ::
              x in mem.heap && EffectOf(mem, pc).heap[x].next == mem.heap[x].next
  {
  }

  lemma ListsKept(s: State, g: Ghost, t: nat)
    requires Inv(s, g) && t < |s.procs| && !HasHash(s.procs[t])
    ensures var mem' := EffectOf(s.mem, s.procs[t]);
            && mem'.heads == s.mem.heads && GhostNext(g, t, s.procs[t]).order == g.order
            && (forall x | x in g.order :: x in s.mem.heap && x in mem'.heap && mem'.heap[x].next == s.mem.heap[x].next
                                           && mem'.heap[x].id == s.mem.heap[x].id)
            && (forall h | 0 <= h < NHASH :: Chain(g.order, mem'.heap, h) == Chain(g.order, s.mem.heap, h))
  {
    hide Path, Chain, Local, EffectOf, Locals, CountsOk, SoleOk;
    EffectIds(s.mem, s.procs[t]);
    EffectLists(s.mem, g, t, s.procs[t]);
    forall h | 0 <= h < NHASH
      ensures Chain(g.order, EffectOf(s.mem, s.procs[t]).heap, h) == Chain(g.order, s.mem.heap, h)
    {
      ChainFrame(g.order, s.mem.heap, EffectOf(s.mem, s.procs[t]).heap, h);
    }
  }

  lemma NamesKept(s: State, g: Ghost, t: nat, u: nat)
    requires Inv(s, g) && t < |s.procs| && u < |s.procs| && t != u
    ensures Names(s.procs[u]) <= EffectOf(s.mem, s.procs[t]).heap.Keys
  {
    hide Path, Chain, EffectOf, ChainsOk, CountsOk, OutOk, Names;
    assert Local(s.mem, g.order, s.owned[u], s.procs[u]);
    EffectIds(s.mem, s.procs[t]);
  }

  lemma OtherLocal(s: State, g: Ghost, t: nat, u: nat)
    requires Inv(s, g) && t < |s.procs| && u < |s.procs| && t != u
    ensures Local(EffectOf(s.mem, s.procs[t]), GhostNext(g, t, s.procs[t]).order, s.owned[u], s.procs[u])
  {
    hide Path, Chain, EffectOf, ChainsOk, CountsOk, OutOk, SoleOk, WindowOk, FindFirst, GhostNext, HasHash, Locked;
    assert Local(s.mem, g.order, s.owned[u], s.procs[u]) && Compatible(s.procs[t], s.procs[u]);
    NamesKept(s, g, t, u);
    EffectIds(s.mem, s.procs[t]);
    match s.procs[u] {
      case Alloc(o, id, a) => OtherAlloc(s, g, t, u, o, id, a);
      case Find(id, f) => OtherFind(s, g, t, u, id, f);
      case Rele(o, r) => OtherRele(s, g, t, u, o, r);
      case _ =>
    }
  }

  lemma OtherAlloc(s: State, g: Ghost, t: nat, u: nat, o: nat, id: int, a: AllocAt)
    requires Inv(s, g) && t < |s.procs| && u < |s.procs| && t != u && s.procs[u] == Alloc(o, id, a)
    requires Compatible(s.procs[t], s.procs[u]) && Local(s.mem, g.order, s.owned[u], s.procs[u])
    ensures AllocSays(EffectOf(s.mem, s.procs[t]), o, id, a)
  {
    NamesKept(s, g, t, u);
    EffectIds(s.mem, s.procs[t]);
    hide Path, Chain, EffectOf, ChainsOk, CountsOk, OutOk, SoleOk, WindowOk, FindFirst, GhostNext, Locals, Exclusive;
    if a.ASetHead? { EffectLists(s.mem, g, t, s.procs[t]); }
  }

  lemma OtherFind(s: State, g: Ghost, t: nat, u: nat, id: int, f: FindAt)
    requires Inv(s, g) && t < |s.procs| && u < |s.procs| && t != u && s.procs[u] == Find(id, f)
    requires Compatible(s.procs[t], s.procs[u]) && Local(s.mem, g.order, s.owned[u], s.procs[u])
    ensures FindSays(EffectOf(s.mem, s.procs[t]), GhostNext(g, t, s.procs[t]).order, id, f)
  {
    if !f.FLockHash? {
      hide Path, Chain, EffectOf, CountsOk, OutOk, SoleOk, WindowOk, FindFirst, GhostNext, Locals, Exclusive;
      ListsKept(s, g, t);
      var mem' := EffectOf(s.mem, s.procs[t]);
      FindFrame(g.order, s.mem.heap, mem'.heap, id);
      if f.FWalk? { WalkFrame(s.mem, mem', g.order, id, f.cur); }
    }
  }

  lemma OtherRele(s: State, g: Ghost, t: nat, u: nat, o: nat, r: ReleAt)
    requires Inv(s, g) && t < |s.procs| && u < |s.procs| && t != u && s.procs[u] == Rele(o, r)
    requires Compatible(s.procs[t], s.procs[u]) && Local(s.mem, g.order, s.owned[u], s.procs[u])
    ensures ReleSays(EffectOf(s.mem, s.procs[t]), GhostNext(g, t, s.procs[t]).order, o, r)
  {
    NamesKept(s, g, t, u);
    EffectIds(s.mem, s.procs[t]);
    hide Path, Chain, EffectOf, CountsOk, OutOk, SoleOk, WindowOk, FindFirst, GhostNext, Locals, Exclusive, ScanClaim;
    if Locked(s.procs[u]).Some? && o in s.mem.heap { EffectCounts(s.mem, s.procs[t], o); }
    if HasHash(s.procs[u]) { ListsKept(s, g, t); EffectLists(s.mem, g, t, s.procs[t]); }
  }

  // ----- the shared parts of the invariant -----

  lemma ApartUnlisted(s: State, g: Ghost, t: nat)
    requires Inv(s, g) && t < |s.procs| && Apart(s.procs[t]).Some?
    ensures Apart(s.procs[t]).value in g.out && Apart(s.procs[t]).value !in g.order
  {
  }

  lemma ChainsNext(s: State, g: Ghost, t: nat)
    requires Inv(s, g) && t < |s.procs|
    ensures ChainsOk(EffectOf(s.mem, s.procs[t]), GhostNext(g, t, s.procs[t]).order)
  {
    assert Local(s.mem, g.order, s.owned[t], s.procs[t]);
    if Apart(s.procs[t]).Some? { ApartUnlisted(s, g, t); }
    hide Path, Chain, FindFirst, ChainsOk;
    ChainsStep(s.mem, g, s.owned[t], t, s.procs[t]);
  }

  lemma ChainsStep(mem: Mem, g: Ghost, own: multiset<nat>, t: nat, pc: Pc)
    requires ChainsOk(mem, g.order) && Local(mem, g.order, own, pc)
    requires Apart(pc).Some? ==> Apart(pc).value !in g.order
    ensures ChainsOk(EffectOf(mem, pc), GhostNext(g, t, pc).order)
  {
    hide Path, Chain, FindFirst, ChainsOk, NoDup;
    match pc {
      case Alloc(o, id, a) =>
        if a.ASetHead? { LinkChains(mem, g.order, o); } else { Unlisted(mem, EffectOf(mem, pc), g.order, o); }
      case Rele(o, r) =>
        if r.RCutHead? { CutHeadChains(mem, g.order, o); }
        else if r.RCut? { CutChains(mem, g.order, o, r.t); }
        else { Unlisted(mem, EffectOf(mem, pc), g.order, o); }
      case Hold(o, w) => Unlisted(mem, EffectOf(mem, pc), g.order, o);
      case Find(id, f) => Unlisted(mem, EffectOf(mem, pc), g.order, if f.FAdd? then f.o else 0);
      case _ =>
    }
  }

  lemma OutNext(s: State, g: Ghost, t: nat)
    requires Inv(s, g) && t < |s.procs| && Busy(s.procs[t])
    ensures var pc := s.procs[t];
            OutOk(EffectOf(s.mem, pc).heap.Keys, GhostNext(g, t, pc).order, GhostNext(g, t, pc).out,
                  s.procs[t := NextOf(s.mem, pc)])
  {
    assert Local(s.mem, g.order, s.owned[t], s.procs[t]);
    assert NoDup(g.order);
    if s.procs[t].Rele? { RemoveElements(g.order, s.procs[t].o); }
    hide Path, Chain, FindFirst, ChainsOk, NoDup, CountsOk, SoleOk, WindowOk, Locals, Exclusive, Remove;
    OutStep(s.mem, g, s.procs, t);
  }

  lemma OutStep(mem: Mem, g: Ghost, procs: seq<Pc>, t: nat)
    requires t < |procs| && Busy(procs[t]) && OutOk(mem.heap.Keys, g.order, g.out, procs)
    requires Names(procs[t]) <= mem.heap.Keys
    requires procs[t].Rele? && (procs[t].r.RCut? || procs[t].r.RCutHead?) ==> procs[t].o in g.order
    requires procs[t].Rele? ==> forall e :: e in Remove(g.order, procs[t].o) <==> e in g.order && e != procs[t].o
    ensures OutOk(EffectOf(mem, procs[t]).heap.Keys, GhostNext(g, t, procs[t]).order, GhostNext(g, t, procs[t]).out,
                  procs[t := NextOf(mem, procs[t])])
  {
    var pc, pc' := procs[t], NextOf(mem, procs[t]);
    var keys', g' := EffectOf(mem, pc).heap.Keys, GhostNext(g, t, pc);
    if pc.Alloc? && pc.a.ASetHead? {
      hide Remove;
      assert keys' == mem.heap.Keys;
      OutLinked(mem.heap.Keys, g, procs, t, pc');
    } else if pc.Rele? && (pc.r.RCut? || pc.r.RCutHead?) {
      hide Remove;
      assert keys' == mem.heap.Keys;
      OutCut(mem.heap.Keys, g, procs, t, pc');
    } else if pc.Rele? && pc.r.RFree? {
      hide Remove;
      assert keys' == mem.heap.Keys - {pc.o};
      OutFreed(mem.heap.Keys, g, procs, t, pc');
    } else {
      hide OutOk;
      SameShape(mem, pc);
      hide NextOf, EffectOf, Apart;
      OutSame(mem.heap.Keys, g, procs, t, pc');
    }
  }

  /** Only linking, cutting and freeing concern who is on the list. */
  lemma SameShape(mem: Mem, pc: Pc)
    requires Names(pc) <= mem.heap.Keys
    requires !(pc.Alloc? && pc.a.ASetHead?) && !(pc.Rele? && (pc.r.RCut? || pc.r.RCutHead? || pc.r.RFree?))
    ensures EffectOf(mem, pc).heap.Keys == mem.heap.Keys && Apart(NextOf(mem, pc)) == Apart(pc)
  {
  }

  lemma OutSame(keys: set<nat>, g: Ghost, procs: seq<Pc>, t: nat, pc': Pc)
    requires t < |procs| && OutOk(keys, g.order, g.out, procs) && Apart(pc') == Apart(procs[t])
    ensures OutOk(keys, g.order, g.out, procs[t := pc'])
  {
    hide Apart;
  }

  lemma OutLinked(keys: set<nat>, g: Ghost, procs: seq<Pc>, t: nat, pc': Pc)
    requires t < |procs| && OutOk(keys, g.order, g.out, procs) && Apart(procs[t]).Some? && Apart(pc') == None
    ensures var o := Apart(procs[t]).value; OutOk(keys, [o] + g.order, g.out - {o}, procs[t := pc'])
  {
    hide Apart;
  }

  lemma OutCut(keys: set<nat>, g: Ghost, procs: seq<Pc>, t: nat, pc': Pc)
    requires t < |procs| && OutOk(keys, g.order, g.out, procs) && Apart(procs[t]) == None && Apart(pc').Some?
    requires Apart(pc').value in g.order && Apart(pc').value in keys
    requires forall e :: e in Remove(g.order, Apart(pc').value) <==> e in g.order && e != Apart(pc').value
    ensures var o := Apart(pc').value; OutOk(keys, Remove(g.order, o), g.out[o := t], procs[t := pc'])
  {
    hide Apart, Remove;
  }

  lemma OutFreed(keys: set<nat>, g: Ghost, procs: seq<Pc>, t: nat, pc': Pc)
    requires t < |procs| && OutOk(keys, g.order, g.out, procs) && Apart(procs[t]).Some? && Apart(pc') == None
    ensures var o := Apart(procs[t]).value; OutOk(keys - {o}, g.order, g.out - {o}, procs[t := pc'])
  {
    hide Apart;
  }

  /** Counts and references move together. */
  lemma CountMoves(mem: Mem, order: seq<nat>, own: multiset<nat>, pc: Pc, x: nat)
    requires Local(mem, order, own, pc) && x in EffectOf(mem, pc).heap
    ensures x in mem.heap && EffectOf(mem, pc).heap[x].count + own[x] == mem.heap[x].count + OwnedAfter(own, pc)[x]
  {
    hide HashOf, FindSays, AllocSays, ReleSays, HeadOfObj;
    match pc {
      case Alloc(o, id, a) =>
      case Rele(o, r) => CountMovesRele(mem, own, o, r, x);
      case _ =>
    }
  }

  lemma CountMovesRele(mem: Mem, own: multiset<nat>, o: nat, r: ReleAt, x: nat)
    requires NeedsRef(Rele(o, r)) ==> o in own
    requires Names(Rele(o, r)) <= mem.heap.Keys && x in EffectOf(mem, Rele(o, r)).heap
    ensures x in mem.heap
    ensures EffectOf(mem, Rele(o, r)).heap[x].count + own[x] == mem.heap[x].count + OwnedAfter(own, Rele(o, r))[x]
  {
    hide HashOf;
  }

  lemma OwnedLive(mem: Mem, order: seq<nat>, own: multiset<nat>, pc: Pc, x: nat)
    requires Local(mem, order, own, pc) && x in OwnedAfter(own, pc) && (x in own ==> x in mem.heap)
    ensures x in EffectOf(mem, pc).heap
  {
    EffectIds(mem, pc);
    OwnedGrows(own, pc, x);
    hide EffectOf, HashOf, FindSays, AllocSays, ReleSays, Names;
    assert x in mem.heap;
  }

  lemma CountsNext(s: State, g: Ghost, t: nat)
    requires Inv(s, g) && t < |s.procs|
    ensures CountsOk(EffectOf(s.mem, s.procs[t]).heap, s.owned[t := OwnedAfter(s.owned[t], s.procs[t])])
  {
    assert Local(s.mem, g.order, s.owned[t], s.procs[t]);
    var mem', own' := EffectOf(s.mem, s.procs[t]), OwnedAfter(s.owned[t], s.procs[t]);
    var owned' := s.owned[t := own'];
    hide ChainsOk, OutOk, WindowOk, Locals, Exclusive, Total, Local, EffectOf, OwnedAfter;
    forall x | x in mem'.heap ensures mem'.heap[x].count == Total(owned', x) {
      CountMoves(s.mem, g.order, s.owned[t], s.procs[t], x);
      TotalUpdate(s.owned, t, own', x);
    }
    forall u, x | 0 <= u < |owned'| && x in owned'[u] ensures x in mem'.heap {
      if u == t {
        OwnedLive(s.mem, g.order, s.owned[t], s.procs[t], x);
      } else {
        EffectIds(s.mem, s.procs[t]);
        assert x in s.owned[u];
        if Sole(s.procs[t]) { SoleKept(s, t, u); }
      }
    }
  }

  /** A thread that names an object has a reference to it, or its lock, or the hash lock. */
  lemma NamesCovered(pc: Pc, o: nat)
    requires o in Names(pc)
    ensures (NeedsRef(pc) && pc.o == o) || Locked(pc) == Some(o) || HasHash(pc)
  {
  }

  /** A thread comes by new names on the list, under the hash lock. */
  lemma NewNames(mem: Mem, order: seq<nat>, own: multiset<nat>, pc: Pc, o: nat)
    requires ChainsOk(mem, order) && Local(mem, order, own, pc) && o in Names(NextOf(mem, pc)) && o !in Names(pc)
    ensures HasHash(pc) && o in order
  {
    hide Path, Chain, FindFirst, NoDup, ChainsOk, ScanClaim, WalkClaim;
    match pc {
      case Find(id, f) =>
        if f.FReadHead? { HeadWalk(mem, order, id); }
        if f.FWalk? { WalkNext(mem, order, id, f.cur); }
      case Rele(e, r) =>
        if r.RReadHead? { ScanStart(mem, order, e); }
        if r.RScan? { ScanNext(mem, order, e, r.t); }
      case _ =>
    }
  }

  lemma SoleNext(s: State, g: Ghost, t: nat)
    requires Inv(s, g) && t < |s.procs| && Busy(s.procs[t])
    ensures SoleOk(s.owned[t := OwnedAfter(s.owned[t], s.procs[t])], s.procs[t := NextOf(s.mem, s.procs[t])])
  {
    var procs', owned' := s.procs[t := NextOf(s.mem, s.procs[t])], s.owned[t := OwnedAfter(s.owned[t], s.procs[t])];
    forall a, b | 0 <= a < |procs'| && 0 <= b < |procs'| && a != b && Sole(procs'[a])
      ensures procs'[a].o !in Names(procs'[b]) && procs'[a].o !in owned'[b]
    {
      hide Names, NextOf, OwnedAfter, ChainsOk, OutOk, CountsOk, WindowOk, Exclusive, Locals, Sole, SoleOk;
      if a == t { SoleBySelf(s, g, t, b); } else if b == t { SoleByOther(s, g, t, a); } else { SoleKept(s, a, b); }
    }
  }

  lemma SoleKept(s: State, a: nat, b: nat)
    requires |s.owned| == |s.procs| && SoleOk(s.owned, s.procs) && a < |s.procs| && b < |s.procs| && a != b
             && Sole(s.procs[a])
    ensures s.procs[a].o !in Names(s.procs[b]) && s.procs[a].o !in s.owned[b]
  {
  }

  lemma SoleBySelf(s: State, g: Ghost, t: nat, b: nat)
    requires Inv(s, g) && t < |s.procs| && b < |s.procs| && b != t && Sole(NextOf(s.mem, s.procs[t]))
    ensures NextOf(s.mem, s.procs[t]).o !in Names(s.procs[b]) && NextOf(s.mem, s.procs[t]).o !in s.owned[b]
  {
    var o := NextOf(s.mem, s.procs[t]).o;
    SoleStart(s.mem, s.procs[t]);
    hide Names, NextOf, ChainsOk, OutOk, WindowOk, Chain, Path, Sole, ReleSays, FindSays, AllocSays;
    assert Local(s.mem, g.order, s.owned[t], s.procs[t]) && Local(s.mem, g.order, s.owned[b], s.procs[b]);
    if Sole(s.procs[t]) {
      SoleKept(s, t, b);
    } else {
      if o in s.owned[b] { TotalTwo(s.owned, t, b, o); }
      assert Compatible(s.procs[t], s.procs[b]);
      if o in Names(s.procs[b]) { NamesCovered(s.procs[b], o); }
    }
  }

  /** Inside a call, a thread becomes the sole one at the recheck, with both locks and count 1. */
  lemma SoleStart(mem: Mem, pc: Pc)
    requires Sole(NextOf(mem, pc))
    ensures (pc.Rele? || pc.Alloc?) && NextOf(mem, pc).o == pc.o && NeedsRef(pc)
    ensures Sole(pc) || (HasHash(pc) && Locked(pc) == Some(pc.o) && pc.o in mem.heap && mem.heap[pc.o].count == 1)
  {
  }

  lemma SoleByOther(s: State, g: Ghost, t: nat, a: nat)
    requires Inv(s, g) && t < |s.procs| && a < |s.procs| && a != t && Sole(s.procs[a])
    ensures s.procs[a].o !in Names(NextOf(s.mem, s.procs[t])) && s.procs[a].o !in OwnedAfter(s.owned[t], s.procs[t])
  {
    var o := s.procs[a].o;
    SoleKept(s, a, t);
    assert Local(s.mem, g.order, s.owned[t], s.procs[t]) && Compatible(s.procs[t], s.procs[a]);
    OwnedGrows(s.owned[t], s.procs[t], o);
    hide NextOf, OwnedAfter, Names, ChainsOk, CountsOk, WindowOk, Local;
    if !HasHash(s.procs[a]) { SoleUnlisted(s, g, a); }
    if o in Names(NextOf(s.mem, s.procs[t])) { NewNames(s.mem, g.order, s.owned[t], s.procs[t], o); }
  }

  lemma SoleUnlisted(s: State, g: Ghost, a: nat)
    requires Inv(s, g) && a < |s.procs| && Sole(s.procs[a]) && !HasHash(s.procs[a])
    ensures s.procs[a].o !in g.order
  {
    ApartUnlisted(s, g, a);
  }

  lemma OwnedGrows(own: multiset<nat>, pc: Pc, o: nat)
    ensures o in OwnedAfter(own, pc) ==> o in own || o in Names(pc)
  {
  }

  lemma WindowNext(s: State, g: Ghost, t: nat)
    requires Inv(s, g) && t < |s.procs| && Busy(s.procs[t])
    ensures WindowOk(s.procs[t := NextOf(s.mem, s.procs[t])])
  {
    hide ChainsOk, OutOk, Exclusive, Chain, Path, SoleOk, NextOf;
    forall u | 0 <= u < |s.procs| && u != t && InWindow(NextOf(s.mem, s.procs[t])) && InWindow(s.procs[u])
      ensures NextOf(s.mem, s.procs[t]).o != s.procs[u].o
    {
      WindowStart(s.mem, s.procs[t]);
      assert Local(s.mem, g.order, s.owned[t], s.procs[t]) && Local(s.mem, g.order, s.owned[u], s.procs[u]);
      if s.procs[t].o == s.procs[u].o { TotalTwo(s.owned, t, u, s.procs[t].o); }
    }
  }

  lemma WindowStart(mem: Mem, pc: Pc)
    requires InWindow(NextOf(mem, pc))
    ensures pc.Rele? && NextOf(mem, pc).o == pc.o
    ensures InWindow(pc) || (pc.r.RTest? && pc.o in mem.heap && mem.heap[pc.o].count == 1)
  {
  }

  // ----- every step -----

  ghost function GhostStep(s: State, s': State, g: Ghost, t: nat): Ghost
    requires t < |s.procs| && t < |s'.procs|
  {
    if s.procs[t].Idle? then (if s'.procs[t].Alloc? then g.(out := g.out[s'.procs[t].o := t]) else g)
    else GhostNext(g, t, s.procs[t])
  }

  lemma ExclusiveStep(procs: seq<Pc>, t: nat, pc': Pc)
    requires t < |procs| && Exclusive(procs) && CompatibleWithOthers(procs, t, pc')
    ensures Exclusive(procs[t := pc'])
  {
    hide HasHash, Locked;
  }

  lemma RunKeeps(s: State, g: Ghost, t: nat)
    requires Inv(s, g) && |s.owned| == |s.procs| && Enabled(s, t)
    ensures Inv(After(s, t), GhostNext(g, t, s.procs[t]))
  {
    hide ChainsOk, OutOk, CountsOk, SoleOk, WindowOk, Local, Exclusive, EffectOf, NextOf, OwnedAfter, GhostNext,
         CompatibleWithOthers;
    var pc := s.procs[t];
    ExclusiveStep(s.procs, t, NextOf(s.mem, pc));
    ChainsNext(s, g, t);
    OutNext(s, g, t);
    CountsNext(s, g, t);
    SoleNext(s, g, t);
    WindowNext(s, g, t);
    OwnLocal(s, g, t);
    var s', g' := After(s, t), GhostNext(g, t, pc);
    forall u | 0 <= u < |s'.procs| ensures Local(s'.mem, g'.order, s'.owned[u], s'.procs[u]) {
      if u != t { OtherLocal(s, g, t, u); }
    }
  }

  lemma BeginKeeps(s: State, g: Ghost, s': State, t: nat)
    requires Inv(s, g) && t < |s.procs| == |s'.procs| && Begin(s, s', t)
    ensures Inv(s', g)
  {
    hide ChainsOk, CountsOk, Names, Local, OutOk, Exclusive, InWindow, Apart, HasHash, Locked;
    BeginFresh(s, s', t);
    BeginLocal(s, g, s', t);
    OutSame(s.mem.heap.Keys, g, s.procs, t, s'.procs[t]);
    ExclusiveStep(s.procs, t, s'.procs[t]);
    forall a, b | 0 <= a < |s.procs| && 0 <= b < |s.procs| && a != b && Sole(s'.procs[a])
      ensures s'.procs[a].o !in Names(s'.procs[b]) && s'.procs[a].o !in s.owned[b]
    {
      SoleKept(s, a, b);
    }
    forall a | 0 <= a < |s.procs| ensures Local(s'.mem, g.order, s'.owned[a], s'.procs[a]) {
      if a != t { assert Local(s.mem, g.order, s.owned[a], s.procs[a]); }
    }
  }

  /** A call begins without locks, outside the window, and names only what the thread owns. */
  lemma BeginFresh(s: State, s': State, t: nat)
    requires t < |s.procs| == |s.owned| == |s'.procs| && Begin(s, s', t)
    ensures var pc' := s'.procs[t];
            && !Sole(pc') && !InWindow(pc') && Apart(pc') == Apart(s.procs[t]) && !HasHash(pc') && Locked(pc') == None
            && forall o | o in Names(pc') :: o in s.owned[t]
  {
  }

  lemma BeginLocal(s: State, g: Ghost, s': State, t: nat)
    requires Inv(s, g) && t < |s.procs| == |s'.procs| && Begin(s, s', t)
    ensures Local(s.mem, g.order, s.owned[t], s'.procs[t])
  {
    hide ChainsOk, OutOk, Exclusive, SoleOk, WindowOk, Locals, Chain, FindFirst;
  }

  lemma GiveKeeps(s: State, g: Ghost, s': State, t: nat, u: nat, o: nat)
    requires Inv(s, g) && t < |s.procs| == |s'.procs| && Give(s, s', t, u, o)
    ensures Inv(s', g)
  {
    GiveCounts(s, t, u, o);
    hide ChainsOk, CountsOk, ReleSays, FindSays, AllocSays, OutOk, Exclusive, Sole, Names;
    forall a, b | 0 <= a < |s.procs| && 0 <= b < |s.procs| && a != b && Sole(s.procs[a])
      ensures s.procs[a].o !in Names(s.procs[b]) && s.procs[a].o !in s'.owned[b]
    {
      SoleKept(s, a, b);
      IdleNotSole(s.procs[t]);
      SoleKept(s, a, t);
    }
    forall a | 0 <= a < |s.procs| ensures Local(s'.mem, g.order, s'.owned[a], s'.procs[a]) {
      assert Local(s.mem, g.order, s.owned[a], s.procs[a]);
    }
  }

  lemma IdleNotSole(pc: Pc)
    requires pc.Idle?
    ensures !Sole(pc)
  {
  }

  lemma GiveCounts(s: State, t: nat, u: nat, o: nat)
    requires |s.owned| == |s.procs| && CountsOk(s.mem.heap, s.owned) && t < |s.procs| && u < |s.procs| && t != u
             && o in s.owned[t]
    ensures CountsOk(s.mem.heap, s.owned[t := s.owned[t] - multiset{o}][u := s.owned[u] + multiset{o}])
  {
    hide Total;
    var one := s.owned[t := s.owned[t] - multiset{o}];
    var two := one[u := s.owned[u] + multiset{o}];
    forall x | x in s.mem.heap ensures Total(two, x) == Total(s.owned, x) {
      TotalUpdate(s.owned, t, s.owned[t] - multiset{o}, x);
      TotalUpdate(one, u, s.owned[u] + multiset{o}, x);
    }
  }

  lemma MallocKeeps(s: State, g: Ghost, s': State, t: nat, o: nat, id: int, junk: nat)
    requires Inv(s, g) && t < |s.procs| && Malloc(s, s', t, o, id, junk)
    ensures Inv(s', g.(out := g.out[o := t]))
  {
    hide ChainsOk, CountsOk, Names, Local, OutOk, Exclusive, InWindow, Apart, HasHash, Locked;
    MallocChains(s, g, s', t, o, id, junk);
    MallocCounts(s, o, t, id, junk);
    MallocOut(s, g, t, o, id);
    assert s'.mem.heap.Keys == s.mem.heap.Keys + {o};
    MallocFresh(o, id);
    ExclusiveStep(s.procs, t, s'.procs[t]);
    var g' := g.(out := g.out[o := t]);
    forall a, b | 0 <= a < |s.procs| && 0 <= b < |s.procs| && a != b && Sole(s'.procs[a])
      ensures s'.procs[a].o !in Names(s'.procs[b]) && s'.procs[a].o !in s'.owned[b]
    {
      if b != t { NamesAllocated(s, g, b); }
      if a != t {
        SoleKept(s, a, b);
        SoleAllocated(s, g, a);
      }
    }
    forall a | 0 <= a < |s.procs| ensures Local(s'.mem, g.order, s'.owned[a], s'.procs[a]) {
      if a == t { MallocLocal(s, g, s', t, o, id, junk); } else { MallocOther(s, g, s', t, o, id, junk, a); }
    }
  }

  lemma MallocFresh(o: nat, id: int)
    ensures var pc := Alloc(o, id, ALockHash);
            !InWindow(pc) && Apart(pc) == Some(o) && !HasHash(pc) && Locked(pc) == None && Names(pc) == {o}
  {
  }

  lemma SoleAllocated(s: State, g: Ghost, a: nat)
    requires Inv(s, g) && a < |s.procs|
    ensures Sole(s.procs[a]) ==> s.procs[a].o in s.mem.heap
  {
    hide ChainsOk, OutOk, Exclusive, SoleOk, WindowOk, Chain, FindFirst, CountsOk, ReleSays, FindSays, AllocSays;
    assert Local(s.mem, g.order, s.owned[a], s.procs[a]);
  }

  lemma NamesAllocated(s: State, g: Ghost, b: nat)
    requires Inv(s, g) && b < |s.procs|
    ensures Names(s.procs[b]) <= s.mem.heap.Keys && forall o | o in s.owned[b] :: o in s.mem.heap
  {
    hide ChainsOk, OutOk, Exclusive, SoleOk, WindowOk, Chain, FindFirst, ReleSays, FindSays, AllocSays;
    assert Local(s.mem, g.order, s.owned[b], s.procs[b]);
  }

  lemma MallocChains(s: State, g: Ghost, s': State, t: nat, o: nat, id: int, junk: nat)
    requires Inv(s, g) && t < |s.procs| && Malloc(s, s', t, o, id, junk)
    ensures ChainsOk(s'.mem, g.order)
  {
    hide Chain, Path, OutOk, CountsOk, SoleOk, WindowOk, Locals, Exclusive;
    ChainsFrame(s.mem, s'.mem, g.order);
  }

  lemma MallocCounts(s: State, o: nat, t: nat, id: int, junk: nat)
    requires |s.owned| == |s.procs| && CountsOk(s.mem.heap, s.owned) && t < |s.procs| && o !in s.mem.heap
    ensures CountsOk(s.mem.heap[o := Obj(id, 1, junk)], s.owned[t := s.owned[t] + multiset{o}])
  {
    hide Total;
    NoneOwned(s.owned, o);
    forall x ensures Total(s.owned[t := s.owned[t] + multiset{o}], x) == Total(s.owned, x) + (if x == o then 1 else 0) {
      TotalUpdate(s.owned, t, s.owned[t] + multiset{o}, x);
    }
  }

  lemma MallocOut(s: State, g: Ghost, t: nat, o: nat, id: int)
    requires Inv(s, g) && t < |s.procs| && s.procs[t].Idle? && o !in s.mem.heap
    ensures OutOk(s.mem.heap.Keys + {o}, g.order, g.out[o := t], s.procs[t := Alloc(o, id, ALockHash)])
  {
    hide Path, CountsOk, SoleOk, WindowOk, Locals, Exclusive;
  }

  lemma MallocLocal(s: State, g: Ghost, s': State, t: nat, o: nat, id: int, junk: nat)
    requires Inv(s, g) && t < |s.procs| && Malloc(s, s', t, o, id, junk)
    ensures Local(s'.mem, g.order, s'.owned[t], s'.procs[t])
  {
    NamesAllocated(s, g, t);
    hide Path, Chain, CountsOk, SoleOk, WindowOk, Locals, Exclusive, OutOk;
  }

  lemma MallocOther(s: State, g: Ghost, s': State, t: nat, o: nat, id: int, junk: nat, u: nat)
    requires Inv(s, g) && t < |s.procs| && Malloc(s, s', t, o, id, junk) && u < |s.procs| && u != t
    ensures Local(s'.mem, g.order, s'.owned[u], s'.procs[u])
  {
    assert Local(s.mem, g.order, s.owned[u], s.procs[u]);
    hide Path, Chain, CountsOk, SoleOk, WindowOk, Locals, Exclusive, OutOk, FindFirst, ScanClaim;
    forall h ensures Chain(g.order, s'.mem.heap, h) == Chain(g.order, s.mem.heap, h) {
      ChainFrame(g.order, s.mem.heap, s'.mem.heap, h);
    }
    if s.procs[u].Find? {
      FindFrame(g.order, s.mem.heap, s'.mem.heap, s.procs[u].id);
      if s.procs[u].f.FWalk? { WalkFrame(s.mem, s'.mem, g.order, s.procs[u].id, s.procs[u].f.cur); }
    }
  }

  /** Every step of every thread keeps the invariant. */
  lemma StepKeeps(s: State, g: Ghost, s': State, t: nat)
    requires Inv(s, g) && Step(s, s', t)
    ensures Inv(s', GhostStep(s, s', g, t))
  {
    hide Inv, EffectOf, NextOf, OwnedAfter, GhostNext, CompatibleWithOthers;
    assert |s.procs| == |s.owned|;
    if Begin(s, s', t) {
      BeginKeeps(s, g, s', t);
    } else if o, id, junk :| Malloc(s, s', t, o, id, junk) {
      MallocKeeps(s, g, s', t, o, id, junk);
    } else if u, o :| Give(s, s', t, u, o) {
      GiveKeeps(s, g, s', t, u, o);
    } else {
      RunKeeps(s, g, t);
    }
  }
}
