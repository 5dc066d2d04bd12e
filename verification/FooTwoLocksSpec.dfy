/** The table under two levels of locks is the atomic table; it never deadlocks, never uses freed memory. */
module FooTwoLocksSpec {
  import opened Links
  import opened Wrappers
  import opened FooTable
  import opened FooChains
  import opened FooTwoLocks

  // ----- refinement -----

  function PhaseOf(pc: Pc): Phase {
    match pc
    case Alloc(o, id, a) => if Apart(pc).Some? then Pending(AllocOp(o, id)) else Decided(AllocOp(o, id), Some(o))
    case Hold(o, w) => if w.HUnlockObj? then Decided(HoldOp(o), None) else Pending(HoldOp(o))
    case Find(id, f) =>
      (match f
       case FUnlockObj(o) => Decided(FindOp(id), Some(o))
       case FUnlockHash(res) => Decided(FindOp(id), res)
       case _ => Pending(FindOp(id)))
    case Rele(o, r) =>
      if r.RUnlockObj? || r.RUnlockObjAfter? || r.RUnlockHashAfter? || Apart(pc).Some? then Decided(ReleOp(o), None)
      else Pending(ReleOp(o))
    case _ => Rest
  }

  function Phases(procs: seq<Pc>): seq<Phase> { seq(|procs|, i requires 0 <= i < |procs| => PhaseOf(procs[i])) }

  ghost function View(s: State, g: Ghost): Spec { Spec(Entries(g.order, s.mem.heap), Phases(s.procs)) }

  /** Changes that the listed objects' identities and counts do not see. */
  lemma UnseenStep(s: State, g: Ghost, t: nat)
    requires Inv(s, g) && t < |s.procs|
    requires var pc := s.procs[t];
             !(pc.Alloc? && pc.a.ASetHead?) && !(pc.Hold? && pc.w.HAdd?) && !(pc.Find? && pc.f.FAdd?)
             && !(pc.Rele? && (pc.r.RSub? || pc.r.RSubAfter? || pc.r.RCut? || pc.r.RCutHead?))
    ensures Entries(GhostNext(g, t, s.procs[t]).order, EffectOf(s.mem, s.procs[t]).heap) == Entries(g.order, s.mem.heap)
  {
    hide Inv, Entries;
    ListedHeap(s, g);
    if Apart(s.procs[t]).Some? { ApartUnlisted(s, g, t); }
    UnseenEffect(s.mem, g, t, s.procs[t]);
    EntriesFrame(g.order, s.mem.heap, EffectOf(s.mem, s.procs[t]).heap);
  }

  lemma UnseenEffect(mem: Mem, g: Ghost, t: nat, pc: Pc)
    requires !(pc.Alloc? && pc.a.ASetHead?) && !(pc.Hold? && pc.w.HAdd?) && !(pc.Find? && pc.f.FAdd?)
             && !(pc.Rele? && (pc.r.RSub? || pc.r.RSubAfter? || pc.r.RCut? || pc.r.RCutHead?))
    requires Apart(pc).Some? ==> Apart(pc).value !in g.order
    ensures GhostNext(g, t, pc).order == g.order
    ensures forall o | o in g.order && o in mem.heap ::
              o in EffectOf(mem, pc).heap && EffectOf(mem, pc).heap[o] == mem.heap[o]
  {
  }

  lemma ListedHeap(s: State, g: Ghost)
    requires Inv(s, g)
    ensures NoDup(g.order) && forall o | o in g.order :: o in s.mem.heap
  {
  }

  /** A thread about to change the count of o, which is listed, adds or drops one reference there. */
  lemma CountStep(s: State, g: Ghost, t: nat, o: nat, d: int)
    requires Inv(s, g) && t < |s.procs| && o in s.mem.heap && (o in s.owned[t] || o in Names(s.procs[t]))
    requires Apart(s.procs[t]) != Some(o) && (d == 1 || (d == -1 && s.mem.heap[o].count != 1))
    ensures Entries(g.order, SetCount(s.mem, o, d).heap)
            == if d == 1 then Bump(Entries(g.order, s.mem.heap), o) else Drop(Entries(g.order, s.mem.heap), o)
  {
    hide Inv, Entries, Bump, Drop, NoDup, Names, Apart;
    Listed(s, g, t, o);
    ListedHeap(s, g);
    if d == 1 { EntriesBump(g.order, s.mem.heap, o); } else { EntriesDrop(g.order, s.mem.heap, o); }
  }

  lemma AllocMoves(s: State, g: Ghost, t: nat, o: nat, id: int)
    requires Inv(s, g) && t < |s.procs| && s.procs[t] == Alloc(o, id, ASetHead)
    ensures var pc := s.procs[t];
            Moves(Entries(g.order, s.mem.heap), Entries(GhostNext(g, t, pc).order, EffectOf(s.mem, pc).heap),
                  PhaseOf(pc), PhaseOf(NextOf(s.mem, pc)))
  {
    AllocFacts(s, g, t, o, id);
    EntriesOf(g.order, s.mem.heap);
    hide Inv, EffectOf, NextOf, GhostNext;
    LinkEffect(s.mem, g, t, o, id);
    assert ([o] + g.order)[1..] == g.order;
  }

  lemma AllocFacts(s: State, g: Ghost, t: nat, o: nat, id: int)
    requires Inv(s, g) && t < |s.procs| && s.procs[t] == Alloc(o, id, ASetHead)
    ensures o in s.mem.heap && s.mem.heap[o].id == id && s.mem.heap[o].count == 1 && o !in g.order
  {
    ApartUnlisted(s, g, t);
    assert Local(s.mem, g.order, s.owned[t], s.procs[t]);
    hide ChainsOk, OutOk, WindowOk, Exclusive, Locals, Total;
    forall u | 0 <= u < |s.owned| && u != t ensures o !in s.owned[u] { SoleKept(s, t, u); }
    TotalSole(s.owned, t, o);
  }

  lemma LinkEffect(mem: Mem, g: Ghost, t: nat, o: nat, id: int)
    requires o in mem.heap
    ensures var pc := Alloc(o, id, ASetHead);
            && EffectOf(mem, pc).heap == mem.heap && GhostNext(g, t, pc).order == [o] + g.order
            && NextOf(mem, pc) == Alloc(o, id, ALockObj)
  {
  }

  lemma HoldMoves(s: State, g: Ghost, t: nat, o: nat)
    requires Inv(s, g) && t < |s.procs| && s.procs[t] == Hold(o, HAdd)
    ensures var pc := s.procs[t];
            Moves(Entries(g.order, s.mem.heap), Entries(GhostNext(g, t, pc).order, EffectOf(s.mem, pc).heap),
                  PhaseOf(pc), PhaseOf(NextOf(s.mem, pc)))
  {
    assert Local(s.mem, g.order, s.owned[t], s.procs[t]);
    hide Inv, Entries, Bump;
    CountStep(s, g, t, o, 1);
  }

  lemma FindMoves(s: State, g: Ghost, t: nat, id: int, o: nat)
    requires Inv(s, g) && t < |s.procs| && s.procs[t] == Find(id, FAdd(o))
    ensures var pc := s.procs[t];
            Moves(Entries(g.order, s.mem.heap), Entries(GhostNext(g, t, pc).order, EffectOf(s.mem, pc).heap),
                  PhaseOf(pc), PhaseOf(NextOf(s.mem, pc)))
  {
    assert Local(s.mem, g.order, s.owned[t], s.procs[t]);
    hide Inv, Entries, Bump, FindFirst;
    LookupIsFind(g.order, s.mem.heap, id);
    CountStep(s, g, t, o, 1);
  }

  lemma WalkMoves(s: State, g: Ghost, t: nat, id: int, cur: nat)
    requires Inv(s, g) && t < |s.procs| && s.procs[t] == Find(id, FWalk(cur))
    ensures var pc := s.procs[t];
            Moves(Entries(g.order, s.mem.heap), Entries(GhostNext(g, t, pc).order, EffectOf(s.mem, pc).heap),
                  PhaseOf(pc), PhaseOf(NextOf(s.mem, pc)))
  {
    assert Local(s.mem, g.order, s.owned[t], s.procs[t]);
    assert ChainsOk(s.mem, g.order);
    hide Inv, Entries, FindFirst, Chain, ChainsOk;
    LookupIsFind(g.order, s.mem.heap, id);
    WalkNext(s.mem, g.order, id, cur);
  }

  lemma LocalOf(s: State, g: Ghost, t: nat)
    requires Inv(s, g) && t < |s.procs|
    ensures |s.owned| == |s.procs| && Local(s.mem, g.order, s.owned[t], s.procs[t])
  {
    hide OutOk, CountsOk, SoleOk, WindowOk, Exclusive, ChainsOk, Local;
  }

  lemma DropReady(mem: Mem, order: seq<nat>, own: multiset<nat>, o: nat, r: ReleAt)
    requires Local(mem, order, own, Rele(o, r)) && (r.RSub? || r.RSubAfter?)
    ensures o in mem.heap && o in own && mem.heap[o].count >= 2 && Names(Rele(o, r)) <= mem.heap.Keys
  {
  }

  lemma DropMoves(s: State, g: Ghost, t: nat, o: nat, r: ReleAt)
    requires Inv(s, g) && t < |s.procs| && s.procs[t] == Rele(o, r) && (r.RSub? || r.RSubAfter?)
    ensures var pc := s.procs[t];
            Moves(Entries(g.order, s.mem.heap), Entries(GhostNext(g, t, pc).order, EffectOf(s.mem, pc).heap),
                  PhaseOf(pc), PhaseOf(NextOf(s.mem, pc)))
  {
    hide Inv, Entries, Drop, Local;
    LocalOf(s, g, t);
    DropReady(s.mem, g.order, s.owned[t], o, r);
    CountStep(s, g, t, o, -1);
  }

  lemma CutMoves(s: State, g: Ghost, t: nat, o: nat, r: ReleAt)
    requires Inv(s, g) && t < |s.procs| && s.procs[t] == Rele(o, r) && (r.RCut? || r.RCutHead?)
    ensures var pc := s.procs[t];
            Moves(Entries(g.order, s.mem.heap), Entries(GhostNext(g, t, pc).order, EffectOf(s.mem, pc).heap),
                  PhaseOf(pc), PhaseOf(NextOf(s.mem, pc)))
  {
    hide Inv, Entries, Drop, Remove, NoDup, Chain, Local;
    LocalOf(s, g, t);
    ListedHeap(s, g);
    RemoveElements(g.order, o);
    CutEffect(s.mem, g, s.owned[t], t, o, r);
    EntriesRemove(g.order, s.mem.heap, o);
    EntriesFrame(Remove(g.order, o), s.mem.heap, EffectOf(s.mem, s.procs[t]).heap);
  }

  lemma CutEffect(mem: Mem, g: Ghost, own: multiset<nat>, t: nat, o: nat, r: ReleAt)
    requires Local(mem, g.order, own, Rele(o, r)) && (r.RCut? || r.RCutHead?)
    ensures o in g.order && o in mem.heap && mem.heap[o].count == 1
    ensures forall x | x in mem.heap :: x in EffectOf(mem, Rele(o, r)).heap
              && EffectOf(mem, Rele(o, r)).heap[x].id == mem.heap[x].id
              && EffectOf(mem, Rele(o, r)).heap[x].count == mem.heap[x].count
    ensures GhostNext(g, t, Rele(o, r)).order == Remove(g.order, o)
    ensures NextOf(mem, Rele(o, r)) == Rele(o, RUnlockHash)
  {
    hide Remove, ScanClaim;
  }

  lemma RunMoves(s: State, g: Ghost, t: nat)
    requires Inv(s, g) && t < |s.procs| && Busy(s.procs[t])
    ensures var pc := s.procs[t];
            Moves(Entries(g.order, s.mem.heap), Entries(GhostNext(g, t, pc).order, EffectOf(s.mem, pc).heap),
                  PhaseOf(pc), PhaseOf(NextOf(s.mem, pc)))
  {
    hide Inv, Entries, Apply, Moves, Local, EffectOf, NextOf, GhostNext;
    var pc := s.procs[t];
    LocalOf(s, g, t);
    if pc.Alloc? && pc.a.ASetHead? { AllocMoves(s, g, t, pc.o, pc.id); }
    else if pc.Hold? && pc.w.HAdd? { HoldMoves(s, g, t, pc.o); }
    else if pc.Find? && pc.f.FAdd? { FindMoves(s, g, t, pc.id, pc.f.o); }
    else if pc.Find? && pc.f.FWalk? { WalkMoves(s, g, t, pc.id, pc.f.cur); }
    else if pc.Rele? && (pc.r.RSub? || pc.r.RSubAfter?) { DropMoves(s, g, t, pc.o, pc.r); }
    else if pc.Rele? && (pc.r.RCut? || pc.r.RCutHead?) { CutMoves(s, g, t, pc.o, pc.r); }
    else { QuietMoves(s, g, t); }
  }

  lemma LocalNames(mem: Mem, order: seq<nat>, own: multiset<nat>, pc: Pc)
    requires Local(mem, order, own, pc)
    ensures Names(pc) <= mem.heap.Keys && !pc.Crashed?
  {
  }

  lemma QuietMoves(s: State, g: Ghost, t: nat)
    requires Inv(s, g) && t < |s.procs| && Busy(s.procs[t])
    requires var pc := s.procs[t];
             !(pc.Alloc? && pc.a.ASetHead?) && !(pc.Hold? && pc.w.HAdd?) && !(pc.Find? && (pc.f.FAdd? || pc.f.FWalk?))
             && !(pc.Rele? && (pc.r.RSub? || pc.r.RSubAfter? || pc.r.RCut? || pc.r.RCutHead?))
    ensures var pc := s.procs[t];
            Moves(Entries(g.order, s.mem.heap), Entries(GhostNext(g, t, pc).order, EffectOf(s.mem, pc).heap),
                  PhaseOf(pc), PhaseOf(NextOf(s.mem, pc)))
  {
    hide Inv, Entries, Apply, EffectOf, NextOf, GhostNext, PhaseOf, Local, Apart;
    LocalOf(s, g, t);
    OwnLocal(s, g, t);
    UnseenStep(s, g, t);
    LocalNames(s.mem, g.order, s.owned[t], s.procs[t]);
    LocalNames(EffectOf(s.mem, s.procs[t]), GhostNext(g, t, s.procs[t]).order, OwnedAfter(s.owned[t], s.procs[t]),
        NextOf(s.mem, s.procs[t]));
    QuietPhase(s.mem, s.procs[t]);
  }

  /** No other step decides anything. */
  lemma QuietPhase(mem: Mem, pc: Pc)
    requires Names(pc) <= mem.heap.Keys && Busy(pc) && !NextOf(mem, pc).Crashed?
    requires !(pc.Alloc? && pc.a.ASetHead?) && !(pc.Hold? && pc.w.HAdd?) && !(pc.Find? && (pc.f.FAdd? || pc.f.FWalk?))
             && !(pc.Rele? && (pc.r.RSub? || pc.r.RSubAfter? || pc.r.RCut? || pc.r.RCutHead?))
    ensures PhaseOf(NextOf(mem, pc)) == PhaseOf(pc) || (PhaseOf(pc).Decided? && PhaseOf(NextOf(mem, pc)).Rest?)
  {
  }

  lemma ViewAfter(s: State, t: nat, pc': Pc)
    requires t < |s.procs|
    ensures Phases(s.procs[t := pc']) == Phases(s.procs)[t := PhaseOf(pc')]
  {
    hide PhaseOf;
  }

  /** Every step of the system is a step of the atomic table. */
  lemma StepRefines(s: State, g: Ghost, s': State, t: nat)
    requires Inv(s, g) && Step(s, s', t)
    ensures SpecStep(View(s, g), View(s', GhostStep(s, s', g, t)), t)
  {
    hide Inv, Entries, Moves, EffectOf, NextOf, GhostNext, OwnedAfter, PhaseOf, CompatibleWithOthers;
    LocalOf(s, g, t);
    if Begin(s, s', t) {
      ViewAfter(s, t, s'.procs[t]);
      CallMoves(Entries(g.order, s.mem.heap), s.procs[t], s'.procs[t]);
    } else if o, id, junk :| Malloc(s, s', t, o, id, junk) {
      ViewAfter(s, t, s'.procs[t]);
      MallocUnseen(s, g, o, id, junk);
      CallMoves(Entries(g.order, s.mem.heap), s.procs[t], s'.procs[t]);
    } else if u, o :| Give(s, s', t, u, o) {
      SameMoves(Entries(g.order, s.mem.heap), PhaseOf(s.procs[t]));
      assert View(s', g).phases == View(s, g).phases;
    } else {
      ViewAfter(s, t, s'.procs[t]);
      RunMoves(s, g, t);
    }
  }

  lemma CallMoves(m: seq<Entry>, pc: Pc, pc': Pc)
    requires pc.Idle? && !pc'.Idle?
    requires (pc'.Alloc? && pc'.a.ALockHash?) || (pc'.Hold? && pc'.w.HLockObj?) || (pc'.Find? && pc'.f.FLockHash?)
             || (pc'.Rele? && pc'.r.RLockObj?)
    ensures Moves(m, m, PhaseOf(pc), PhaseOf(pc'))
  {
  }

  lemma SameMoves(m: seq<Entry>, x: Phase)
    ensures Moves(m, m, x, x)
  {
  }

  lemma MallocUnseen(s: State, g: Ghost, o: nat, id: int, junk: nat)
    requires Inv(s, g) && o !in s.mem.heap
    ensures Entries(g.order, s.mem.heap[o := Obj(id, 1, junk)]) == Entries(g.order, s.mem.heap)
  {
    hide Inv, Entries;
    ListedHeap(s, g);
    EntriesFrame(g.order, s.mem.heap, s.mem.heap[o := Obj(id, 1, junk)]);
  }

  // ----- runs -----

  /** An empty table and any number of threads with nothing. */
  ghost predicate Initial(s: State) {
    && s.mem == Mem(seq(NHASH, _ => 0), map[]) && |s.owned| == |s.procs|
    && forall t | 0 <= t < |s.procs| :: s.procs[t] == Idle && s.owned[t] == multiset{}
  }

  ghost predicate IsRun(run: seq<State>, who: seq<nat>) {
    && |run| == |who| + 1 && Initial(run[0])
    && forall i {:trigger who[i]} | 0 <= i < |who| :: Step(run[i], run[i + 1], who[i])
  }

  /** Beside each state of the run, a state of the atomic table, at first empty. */
  ghost predicate Explains(run: seq<State>, who: seq<nat>, gs: seq<Ghost>) {
    && |run| == |who| + 1 == |gs| && View(run[0], gs[0]).entries == []
    && (forall i | 0 <= i < |run| :: Inv(run[i], gs[i]))
    && (forall i {:trigger who[i]} | 0 <= i < |who| ::
            SpecStep(View(run[i], gs[i]), View(run[i + 1], gs[i + 1]), who[i]))
  }

  lemma InitialInv(s: State)
    requires Initial(s)
    ensures Inv(s, Ghost([], map[]))
  {
    hide Total;
  }

  /** Every run keeps the invariant and is a run of the atomic table. */
  lemma {:induction false} Linearizable(run: seq<State>, who: seq<nat>)
    requires IsRun(run, who)
    ensures exists gs :: Explains(run, who, gs)
    decreases |who|
  {
    hide Inv, SpecStep, View, Step, Initial;
    if who == [] {
      InitialInv(run[0]);
      EmptyView(run[0]);
      assert Explains(run, who, [Ghost([], map[])]);
    } else {
      var n := |who| - 1;
      RunPrefix(run, who, n);
      Linearizable(run[..n + 1], who[..n]);
      var gs :| Explains(run[..n + 1], who[..n], gs);
      ExplainsOneMore(run, who, gs);
    }
  }

  lemma EmptyView(s: State)
    ensures View(s, Ghost([], map[])).entries == []
  {
  }

  lemma RunPrefix(run: seq<State>, who: seq<nat>, n: nat)
    requires IsRun(run, who) && n <= |who|
    ensures IsRun(run[..n + 1], who[..n])
  {
    hide Step;
    forall i | 0 <= i < n ensures Step(run[..n + 1][i], run[..n + 1][i + 1], who[..n][i]) {
      assert Step(run[i], run[i + 1], who[i]);
    }
  }

  lemma StepProcess(s: State, s': State, t: nat)
    requires Step(s, s', t)
    ensures t < |s.procs| == |s'.procs|
  {
  }

  lemma ExplainsOneMore(run: seq<State>, who: seq<nat>, gs: seq<Ghost>)
    requires IsRun(run, who) && who != [] && Explains(run[..|who|], who[..|who| - 1], gs)
    ensures exists gs' :: Explains(run, who, gs')
  {
    hide Inv, SpecStep, View, Step, Initial, GhostStep;
    var n := |who| - 1;
    assert Step(run[n], run[n + 1], who[n]);
    assert run[..n + 1][n] == run[n] && Inv(run[n], gs[n]);
    StepProcess(run[n], run[n + 1], who[n]);
    StepKeeps(run[n], gs[n], run[n + 1], who[n]);
    StepRefines(run[n], gs[n], run[n + 1], who[n]);
    var gs' := gs + [GhostStep(run[n], run[n + 1], gs[n], who[n])];
    forall i | 0 <= i < |run| ensures Inv(run[i], gs'[i]) {
      if i <= n { assert run[..n + 1][i] == run[i] && gs'[i] == gs[i]; }
    }
    forall i | 0 <= i < |who| ensures SpecStep(View(run[i], gs'[i]), View(run[i + 1], gs'[i + 1]), who[i]) {
      if i < n {
        assert who[..n][i] == who[i] && run[..n + 1][i] == run[i] && run[..n + 1][i + 1] == run[i + 1];
      }
    }
    assert Explains(run, who, gs');
  }

  /** Whenever an operation is decided in a run, its answer and what becomes of the table are those of the
      operation, entry by entry: a find answers the newest object with the identity, counted once more, a release
      removes the entry with its last reference. */
  lemma AnswersMean(run: seq<State>, who: seq<nat>, gs: seq<Ghost>, i: nat)
    requires IsRun(run, who) && Explains(run, who, gs) && i < |who|
    ensures who[i] < |run[i].procs| == |run[i + 1].procs|
    ensures var x, y := PhaseOf(run[i].procs[who[i]]), PhaseOf(run[i + 1].procs[who[i]]);
            var s, s' := Entries(gs[i].order, run[i].mem.heap), Entries(gs[i + 1].order, run[i + 1].mem.heap);
            x.Pending? && y.Decided? ==> y.op == x.op && Means(x.op, s, s', y.res)
  {
    assert Step(run[i], run[i + 1], who[i]) && Inv(run[i], gs[i]);
    assert SpecStep(View(run[i], gs[i]), View(run[i + 1], gs[i + 1]), who[i]);
    StepProcess(run[i], run[i + 1], who[i]);
    ListedHeap(run[i], gs[i]);
    hide Inv, Step, Initial, PhaseOf, Apply, Means, Entries;
    EntriesNoTwice(gs[i].order, run[i].mem.heap);
    var x := PhaseOf(run[i].procs[who[i]]);
    if x.Pending? { ApplyMeans(x.op, Entries(gs[i].order, run[i].mem.heap)); }
  }

  // ----- safety -----

  /** In every reachable state: no thread has crashed or names freed memory; each object's count is the
      number of references to it; it sits on the chain it hashes to, and on no other, unless one thread
      is linking it or has cut it; and at most one thread is in the window of any object. */
  lemma Safe(s: State, g: Ghost)
    requires Inv(s, g)
    ensures |s.owned| == |s.procs|
    ensures forall t | 0 <= t < |s.procs| :: !s.procs[t].Crashed? && Names(s.procs[t]) <= s.mem.heap.Keys
    ensures forall o | o in s.mem.heap :: s.mem.heap[o].count == Total(s.owned, o)
    ensures forall o, h | o in s.mem.heap && 0 <= h < NHASH && o in Chain(g.order, s.mem.heap, h) ::
              h == HashOf(s.mem.heap[o].id)
    ensures forall o | o in s.mem.heap && (forall t | 0 <= t < |s.procs| :: Apart(s.procs[t]) != Some(o)) ::
              o in Chain(g.order, s.mem.heap, HashOf(s.mem.heap[o].id))
    ensures forall h {:trigger Chain(g.order, s.mem.heap, h)} | 0 <= h < NHASH ::
              |s.mem.heads| == NHASH && Path(s.mem.heap, s.mem.heads[h], Chain(g.order, s.mem.heap, h))
    ensures forall t, u | 0 <= t < |s.procs| && 0 <= u < |s.procs| && InWindow(s.procs[t]) && InWindow(s.procs[u])
              && s.procs[t].o == s.procs[u].o :: t == u
  {
    forall t | 0 <= t < |s.procs| ensures !s.procs[t].Crashed? && Names(s.procs[t]) <= s.mem.heap.Keys {
      LocalOf(s, g, t);
      LocalNames(s.mem, g.order, s.owned[t], s.procs[t]);
    }
    assert NoDup(g.order);
    forall h ensures forall o :: o in Chain(g.order, s.mem.heap, h) <==>
                       o in g.order && o in s.mem.heap && HashOf(s.mem.heap[o].id) == h
    {
      ChainElements(g.order, s.mem.heap, h);
    }
    hide Chain, Path, HashOf, Locals, SoleOk, Exclusive, Names, NoDup;
  }

  // ----- no deadlock -----

  predicate Asks(pc: Pc) {
    match pc
    case Alloc(_, _, a) => a.ALockHash? || a.ALockObj?
    case Hold(_, w) => w.HLockObj?
    case Find(_, f) => f.FLockHash? || f.FLockObj?
    case Rele(_, r) => r.RLockObj? || r.RLockHash? || r.RLockBoth?
    case _ => false
  }

  predicate AsksHash(pc: Pc) {
    (pc.Alloc? && pc.a.ALockHash?) || (pc.Find? && pc.f.FLockHash?) || (pc.Rele? && pc.r.RLockHash?)
  }

  /** hashlock before f_lock: who asks for the first holds neither, who asks for the second does not
      hold the second, and who holds the second asks for nothing. */
  lemma LockOrder(pc: Pc)
    ensures AsksHash(pc) ==> Asks(pc) && !HasHash(pc) && Locked(pc) == None
    ensures Asks(pc) ==> Locked(pc) == None
    ensures Locked(pc).Some? ==> Busy(pc) && !Asks(pc)
    ensures HasHash(pc) ==> Busy(pc) && !AsksHash(pc)
  {
  }

  lemma NoNewLock(mem: Mem, pc: Pc, other: Pc)
    requires !Asks(pc) && Compatible(pc, other) && !NextOf(mem, pc).Crashed?
    ensures Compatible(NextOf(mem, pc), other)
  {
    assert HasHash(NextOf(mem, pc)) ==> HasHash(pc);
    assert Locked(NextOf(mem, pc)).Some? ==> Locked(NextOf(mem, pc)) == Locked(pc);
  }

  /** A thread that asks for an object's lock gets no other, and one that asks for the hash lock that alone. */
  lemma Asked(mem: Mem, pc: Pc)
    requires Asks(pc) && Names(pc) <= mem.heap.Keys
    ensures AsksHash(pc) ==> Locked(NextOf(mem, pc)) == None
    ensures !AsksHash(pc) ==> (HasHash(NextOf(mem, pc)) <==> HasHash(pc)) && Locked(NextOf(mem, pc)).Some?
  {
  }

  lemma Goes(s: State, g: Ghost, t: nat)
    requires Inv(s, g) && t < |s.procs| && Busy(s.procs[t]) && !Asks(s.procs[t])
    ensures Enabled(s, t)
  {
    assert Exclusive(s.procs);
    hide Inv, Exclusive, NextOf, Asks, Compatible, Local, EffectOf, GhostNext, OwnedAfter;
    LocalOf(s, g, t);
    OwnLocal(s, g, t);
    LocalNames(EffectOf(s.mem, s.procs[t]), GhostNext(g, t, s.procs[t]).order, OwnedAfter(s.owned[t], s.procs[t]),
        NextOf(s.mem, s.procs[t]));
    ExclusiveFrom(s, t);
  }

  lemma ExclusiveFrom(s: State, t: nat)
    requires Exclusive(s.procs) && t < |s.procs| && Busy(s.procs[t]) && !Asks(s.procs[t])
             && !NextOf(s.mem, s.procs[t]).Crashed?
    ensures Enabled(s, t)
  {
    hide NextOf, Asks, Compatible;
    forall u | 0 <= u < |s.procs| && u != t ensures Compatible(NextOf(s.mem, s.procs[t]), s.procs[u]) {
      NoNewLock(s.mem, s.procs[t], s.procs[u]);
    }
  }

  /** Who asks for an object's lock gets it, or the thread that holds it can go on. */
  lemma ObjLockGoes(s: State, g: Ghost, t: nat)
    requires Inv(s, g) && t < |s.procs| && Asks(s.procs[t]) && !AsksHash(s.procs[t])
    ensures exists q :: Enabled(s, q)
  {
    assert Exclusive(s.procs);
    LocalOf(s, g, t);
    LocalNames(s.mem, g.order, s.owned[t], s.procs[t]);
    hide Inv, NextOf, Asks, Local, HasHash, Locked, Names, AsksHash;
    var pc' := NextOf(s.mem, s.procs[t]);
    Asked(s.mem, s.procs[t]);
    AskerBusy(s.procs[t]);
    if q :| 0 <= q < |s.procs| && q != t && Locked(s.procs[q]) == Locked(pc') {
      LockOrder(s.procs[q]);
      Goes(s, g, q);
    } else {
      forall u | 0 <= u < |s.procs| && u != t ensures Compatible(pc', s.procs[u]) {
        assert Compatible(s.procs[t], s.procs[u]);
      }
      assert Enabled(s, t);
    }
  }

  lemma AskerBusy(pc: Pc)
    requires Asks(pc)
    ensures Busy(pc)
  {
  }

  /** In no reachable state are all threads that are inside a call stuck. */
  lemma NoDeadlock(s: State, g: Ghost, t: nat)
    requires Inv(s, g) && t < |s.procs| && Busy(s.procs[t])
    ensures exists q :: Enabled(s, q)
  {
    LocalOf(s, g, t);
    LocalNames(s.mem, g.order, s.owned[t], s.procs[t]);
    hide Inv, NextOf, Asks, Local, HasHash, Locked, Names, AsksHash, Busy;
    if !Asks(s.procs[t]) {
      Goes(s, g, t);
    } else if !AsksHash(s.procs[t]) {
      ObjLockGoes(s, g, t);
    } else if q :| 0 <= q < |s.procs| && q != t && HasHash(s.procs[q]) {
      LockOrder(s.procs[q]);
      if Asks(s.procs[q]) { ObjLockGoes(s, g, q); } else { Goes(s, g, q); }
    } else {
      Asked(s.mem, s.procs[t]);
      assert Enabled(s, t);
    }
  }
}
