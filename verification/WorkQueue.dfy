/** The message queue behind a condition variable, with any number of producers and consumers. */
module WorkQueue {
  import opened Links
  import opened Wrappers

  /** The cell of workq; a message's own cell is its m_next. */
  const WORKQ := 0

  datatype Pc =
    // enqueue_msg
    | Ready
    | PLock(mp: nat)
    | PNext(mp: nat)
    | PHead(mp: nat)
    | PUnlock
    | PSignal
    // process_msg
    | CLock
    | CTest
    | CAsleep
    | CRead(mp: nat)
    | CUnlock(mp: nat)
    | CProcess(mp: nat)

  /** out: messages handed to the queue and not yet processed, which nobody may enqueue. */
  datatype State = State(mem: map<nat, nat>, out: set<nat>, procs: seq<Pc>)

  /** What is on the queue, and the history so far: messages given to enqueue_msg, linked into the queue,
      taken off it, and processed, each as often as that happened. */
  datatype Ghost = Ghost(
    q: seq<nat>, given: multiset<nat>, sent: multiset<nat>, taken: multiset<nat>, done: multiset<nat>)

  const NOTHING := Ghost([], multiset{}, multiset{}, multiset{}, multiset{})

  predicate HasLock(pc: Pc) { pc.PNext? || pc.PHead? || pc.PUnlock? || pc.CTest? || pc.CRead? || pc.CUnlock? }

  /** pthread_cond_wait gives up the lock and sleeps at once; a sleeper has to be woken. */
  predicate CanStep(pc: Pc) { !pc.Ready? && !pc.CAsleep? }

  function Head(mem: map<nat, nat>): nat { if WORKQ in mem then mem[WORKQ] else 0 }

  function NextOf(mem: map<nat, nat>, pc: Pc): Pc {
    match pc
    case PLock(mp) => PNext(mp)
    case PNext(mp) => PHead(mp)
    case PHead(mp) => PUnlock
    case PUnlock => PSignal
    case PSignal => Ready
    case CLock => CTest
    case CTest => if Head(mem) == 0 then CAsleep else CRead(Head(mem))
    case CRead(mp) => CUnlock(mp)
    case CUnlock(mp) => CProcess(mp)
    case CProcess(mp) => CLock
    case _ => pc
  }

  function EffectOf(mem: map<nat, nat>, pc: Pc): map<nat, nat> {
    match pc
    case PNext(mp) => mem[mp := Head(mem)]
    case PHead(mp) => mem[WORKQ := mp]
    case CRead(mp) => if mp in mem then mem[WORKQ := mem[mp]] else mem
    case _ => mem
  }

  ghost predicate LockFree(procs: seq<Pc>, t: nat) { forall u | 0 <= u < |procs| && u != t :: !HasLock(procs[u]) }

  ghost predicate Enabled(s: State, t: nat) {
    t < |s.procs| && CanStep(s.procs[t]) && (s.procs[t].PLock? || s.procs[t].CLock? ==> LockFree(s.procs, t))
  }

  ghost predicate Begin(s: State, s': State, t: nat, mp: nat)
    requires t < |s.procs|
  {
    s.procs[t].Ready? && mp != 0 && mp !in s.out && s' == State(s.mem, s.out + {mp}, s.procs[t := PLock(mp)])
  }

  /** A sleeper wakes, with or without cause. */
  ghost predicate Wake(s: State, s': State, t: nat)
    requires t < |s.procs|
  {
    s.procs[t].CAsleep? && s' == s.(procs := s.procs[t := CLock])
  }

  /** pthread_cond_signal wakes a sleeper if there is one. */
  ghost predicate Signal(s: State, s': State, t: nat)
    requires t < |s.procs|
  {
    && s.procs[t].PSignal?
    && if exists u :: 0 <= u < |s.procs| && s.procs[u].CAsleep?
       then exists u :: 0 <= u < |s.procs| && s.procs[u].CAsleep? && s' == s.(procs := s.procs[t := Ready][u := CLock])
       else s' == s.(procs := s.procs[t := Ready])
  }

  ghost predicate Work(s: State, s': State, t: nat)
    requires t < |s.procs|
  {
    && Enabled(s, t) && !s.procs[t].PSignal?
    && s' == State(EffectOf(s.mem, s.procs[t]), if s.procs[t].CProcess? then s.out - {s.procs[t].mp} else s.out,
                   s.procs[t := NextOf(s.mem, s.procs[t])])
  }

  ghost predicate Step(s: State, s': State, t: nat) {
    t < |s.procs| && ((exists mp :: Begin(s, s', t, mp)) || Wake(s, s', t) || Signal(s, s', t) || Work(s, s', t))
  }

  // ----- the invariant -----

  /** The message a thread has and the queue does not. */
  function Hand(pc: Pc): Option<nat> {
    if pc.PLock? || pc.PNext? || pc.PHead? || pc.CUnlock? || pc.CProcess? then Some(pc.mp) else None
  }

  /** Consumers that are awake and have taken nothing yet, producers between their unlock and their signal. */
  function Awake(procs: seq<Pc>): nat {
    if procs == [] then 0 else Weight(procs[0]) + Awake(procs[1..])
  }

  function Weight(pc: Pc): nat {
    if pc.CLock? || pc.CTest? || pc.CRead? || pc.PUnlock? || pc.PSignal? then 1 else 0
  }

  lemma {:induction false} AwakeUpdate(procs: seq<Pc>, t: nat, pc: Pc)
    requires t < |procs|
    ensures Awake(procs[t := pc]) + Weight(procs[t]) == Awake(procs) + Weight(pc)
  {
    if t == 0 {
      assert procs[0 := pc][1..] == procs[1..];
    } else {
      assert procs[t := pc][1..] == procs[1..][t - 1 := pc];
      AwakeUpdate(procs[1..], t - 1, pc);
    }
  }

  ghost predicate QueueOk(mem: map<nat, nat>, q: seq<nat>) { Linked(mem, WORKQ, q) && NoDup(q) }

  ghost predicate Says(mem: map<nat, nat>, q: seq<nat>, pc: Pc) {
    && (pc.PHead? ==> pc.mp in mem && mem[pc.mp] == Head(mem))
    && (pc.CRead? ==> q != [] && pc.mp == q[0])
  }

  /** Some thread has the message. */
  ghost predicate InSomeHand(procs: seq<Pc>, m: nat) { exists t :: 0 <= t < |procs| && Hand(procs[t]) == Some(m) }

  /** Every message handed over and not yet processed is on the queue or in the hands of one thread, and never
      in two places. */
  ghost predicate HandsOk(q: seq<nat>, out: set<nat>, procs: seq<Pc>) {
    && (forall m | m in q :: m in out)
    && (forall m | m in out :: m in q || InSomeHand(procs, m))
    && (forall t | 0 <= t < |procs| && Hand(procs[t]).Some? ::
          Hand(procs[t]).value != 0 && Hand(procs[t]).value !in q && Hand(procs[t]).value in out)
    && (forall t, u | 0 <= t < |procs| && 0 <= u < |procs| && t != u && Hand(procs[t]).Some? ::
            Hand(procs[t]) != Hand(procs[u]))
  }

  ghost predicate OneLock(procs: seq<Pc>) {
    forall t, u | 0 <= t < |procs| && 0 <= u < |procs| && HasLock(procs[t]) && HasLock(procs[u]) :: t == u
  }

  /** While anyone sleeps, every message on the queue has someone awake on its account. */
  ghost predicate NoneLost(q: seq<nat>, procs: seq<Pc>) {
    (exists t :: 0 <= t < |procs| && procs[t].CAsleep?) ==> |q| <= Awake(procs)
  }

  ghost predicate Inv(s: State, g: Ghost) {
    && QueueOk(s.mem, g.q) && HandsOk(g.q, s.out, s.procs) && OneLock(s.procs)
    && (forall t | 0 <= t < |s.procs| :: Says(s.mem, g.q, s.procs[t]))
    && NoneLost(g.q, s.procs)
    && g.sent == multiset(g.q) + g.taken
    && g.given == multiset(s.out) + g.done
  }

  ghost function GhostNext(g: Ghost, pc: Pc): Ghost {
    match pc
    case PHead(mp) => g.(q := [mp] + g.q, sent := g.sent + multiset{mp})
    case CRead(mp) => g.(q := if g.q == [] then [] else g.q[1..], taken := g.taken + multiset{mp})
    case CProcess(mp) => g.(done := g.done + multiset{mp})
    case _ => g
  }

  // ----- steps -----

  lemma PushQueue(mem: map<nat, nat>, q: seq<nat>, mp: nat)
    requires QueueOk(mem, q) && mp in mem && mem[mp] == mem[WORKQ] && mp != 0 && mp !in q
    ensures QueueOk(mem[WORKQ := mp], [mp] + q)
  {
    LinkedPush(mem, WORKQ, q, mp);
  }

  lemma PopQueue(mem: map<nat, nat>, q: seq<nat>)
    requires QueueOk(mem, q) && q != []
    ensures q[0] in mem && mem[WORKQ] == q[0] && mem[q[0]] == Nth(q, 1)
    ensures QueueOk(mem[WORKQ := mem[q[0]]], q[1..])
  {
    assert q[0] in q && mem[q[0]] == Nth(q, 1);
    LinkedRemove(mem, WORKQ, q, 0);
    assert Without(q, 0) == q[1..];
  }

  lemma NextQueue(mem: map<nat, nat>, q: seq<nat>, mp: nat, v: nat)
    requires QueueOk(mem, q) && mp != 0 && mp !in q
    ensures QueueOk(mem[mp := v], q)
  {
    LinkedFrame(mem, mem[mp := v], WORKQ, q);
  }

  lemma WorkQueueOk(s: State, g: Ghost, t: nat)
    requires Inv(s, g) && t < |s.procs|
    ensures QueueOk(EffectOf(s.mem, s.procs[t]), GhostNext(g, s.procs[t]).q)
  {
    assert Says(s.mem, g.q, s.procs[t]);
    hide QueueOk, NoneLost, OneLock;
    if Hand(s.procs[t]).Some? { assert Hand(s.procs[t]).value != 0 && Hand(s.procs[t]).value !in g.q; }
    hide HandsOk;
    match s.procs[t] {
      case PNext(mp) => NextQueue(s.mem, g.q, mp, Head(s.mem));
      case PHead(mp) =>
        HeadRead(s.mem, g.q);
        PushQueue(s.mem, g.q, mp);
      case CRead(mp) =>
        PopQueue(s.mem, g.q);
      case _ =>
    }
  }

  /** What is linked in comes off or stays; what is given is processed or still out. */
  lemma Conserved(s: State, g: Ghost, t: nat)
    requires Inv(s, g) && t < |s.procs|
    ensures var pc := s.procs[t];
            && GhostNext(g, pc).sent == multiset(GhostNext(g, pc).q) + GhostNext(g, pc).taken
            && GhostNext(g, pc).given
               == multiset(if pc.CProcess? then s.out - {pc.mp} else s.out) + GhostNext(g, pc).done
  {
    var pc := s.procs[t];
    assert Says(s.mem, g.q, pc);
    if pc.CProcess? { assert Hand(pc).value in s.out; }
    hide QueueOk, HandsOk, NoneLost, OneLock;
    LinkedConserved(g, pc);
    GivenConserved(g, s.out, pc);
    hide GhostNext, Says, Hand;
  }

  lemma LinkedConserved(g: Ghost, pc: Pc)
    requires g.sent == multiset(g.q) + g.taken && (pc.CRead? ==> g.q != [] && pc.mp == g.q[0])
    ensures GhostNext(g, pc).sent == multiset(GhostNext(g, pc).q) + GhostNext(g, pc).taken
  {
    if pc.CRead? { assert g.q == [g.q[0]] + g.q[1..]; }
  }

  lemma GivenConserved(g: Ghost, out: set<nat>, pc: Pc)
    requires g.given == multiset(out) + g.done && (pc.CProcess? ==> pc.mp in out)
    ensures GhostNext(g, pc).given == multiset(if pc.CProcess? then out - {pc.mp} else out) + GhostNext(g, pc).done
  {
    if pc.CProcess? { OneLess(out, pc.mp); }
  }

  lemma OneLess(out: set<nat>, m: nat)
    requires m in out
    ensures multiset(out) == multiset(out - {m}) + multiset{m}
  {
  }

  lemma OneMore(out: set<nat>, m: nat)
    requires m !in out
    ensures multiset(out + {m}) == multiset(out) + multiset{m}
  {
  }

  lemma HeadRead(mem: map<nat, nat>, q: seq<nat>)
    requires QueueOk(mem, q)
    ensures WORKQ in mem && mem[WORKQ] == Nth(q, 0) == Head(mem) && (Head(mem) == 0 <==> q == [])
  {
    if q != [] { assert q[0] in q; }
  }

  /** Changes of head and links are made under the lock; so nobody else's claim is touched. */
  lemma SaysNext(s: State, g: Ghost, t: nat, u: nat)
    requires Inv(s, g) && t < |s.procs| && u < |s.procs| && Enabled(s, t)
    ensures var pc := s.procs[t];
            Says(EffectOf(s.mem, pc), GhostNext(g, pc).q, if u == t then NextOf(s.mem, pc) else s.procs[u])
  {
    HeadRead(s.mem, g.q);
    assert Says(s.mem, g.q, s.procs[t]) && Says(s.mem, g.q, s.procs[u]);
    assert HasLock(s.procs[t]) && HasLock(s.procs[u]) ==> t == u;
    hide *;
    if u == t { OwnSays(s.mem, g, s.procs[t]); } else { OtherSays(s.mem, g, s.procs[t], s.procs[u]); }
  }

  lemma OwnSays(mem: map<nat, nat>, g: Ghost, pc: Pc)
    requires Says(mem, g.q, pc) && WORKQ in mem && Nth(g.q, 0) == Head(mem) && (Head(mem) == 0 <==> g.q == [])
    ensures Says(EffectOf(mem, pc), GhostNext(g, pc).q, NextOf(mem, pc))
  {
    if pc.PNext? && pc.mp == WORKQ { assert Head(mem[pc.mp := Head(mem)]) == Head(mem); }
  }

  lemma OtherSays(mem: map<nat, nat>, g: Ghost, pc: Pc, other: Pc)
    requires Says(mem, g.q, other) && !(HasLock(pc) && HasLock(other))
    ensures Says(EffectOf(mem, pc), GhostNext(g, pc).q, other)
  {
  }

  lemma HandsNext(s: State, g: Ghost, t: nat)
    requires Inv(s, g) && t < |s.procs| && Enabled(s, t)
    ensures var pc := s.procs[t];
            HandsOk(GhostNext(g, pc).q, if pc.CProcess? then s.out - {pc.mp} else s.out,
                    s.procs[t := NextOf(s.mem, pc)])
  {
    assert Says(s.mem, g.q, s.procs[t]) && NoDup(g.q);
    if g.q != [] { assert g.q[0] in g.q && g.q[0] != 0; }
    hide Linked, NoneLost, OneLock, HandsOk, QueueOk;
    var pc, pc' := s.procs[t], NextOf(s.mem, s.procs[t]);
    match pc {
      case PHead(mp) => HandsPushed(g.q, s.out, s.procs, t, pc');
      case CRead(mp) => HandsPopped(g.q, s.out, s.procs, t, pc');
      case CProcess(mp) => HandsDone(g.q, s.out, s.procs, t, pc');
      case _ => HandsSame(g.q, s.out, s.procs, t, pc');
    }
  }

  lemma HandsSame(q: seq<nat>, out: set<nat>, procs: seq<Pc>, t: nat, pc': Pc)
    requires t < |procs| && HandsOk(q, out, procs) && Hand(pc') == Hand(procs[t])
    ensures HandsOk(q, out, procs[t := pc'])
  {
    hide Hand;
    HeldStill(procs, t, pc');
  }

  /** Whoever else has a message still has it. */
  lemma HeldStill(procs: seq<Pc>, t: nat, pc': Pc)
    requires t < |procs|
    ensures forall m: nat | InSomeHand(procs, m) && Hand(procs[t]) != Some(m) :: InSomeHand(procs[t := pc'], m)
    ensures Hand(pc').Some? ==> InSomeHand(procs[t := pc'], Hand(pc').value)
  {
    hide Hand;
    var procs' := procs[t := pc'];
    forall m: nat | InSomeHand(procs, m) && Hand(procs[t]) != Some(m) ensures InSomeHand(procs', m) {
      var u :| 0 <= u < |procs| && Hand(procs[u]) == Some(m);
      assert procs'[u] == procs[u];
    }
    assert procs'[t] == pc';
  }

  lemma HandsPushed(q: seq<nat>, out: set<nat>, procs: seq<Pc>, t: nat, pc': Pc)
    requires t < |procs| && HandsOk(q, out, procs) && Hand(procs[t]).Some? && Hand(pc') == None
    ensures HandsOk([Hand(procs[t]).value] + q, out, procs[t := pc'])
  {
    HeldStill(procs, t, pc');
    hide Hand, InSomeHand;
  }

  lemma HandsPopped(q: seq<nat>, out: set<nat>, procs: seq<Pc>, t: nat, pc': Pc)
    requires t < |procs| && HandsOk(q, out, procs) && NoDup(q) && q != [] && Hand(procs[t]) == None
             && Hand(pc') == Some(q[0])
    requires q[0] != 0
    ensures HandsOk(q[1..], out, procs[t := pc'])
  {
    HeldStill(procs, t, pc');
    hide Hand, InSomeHand;
    assert forall m :: m in q <==> m == q[0] || m in q[1..];
    assert q[0] !in q[1..];
  }

  lemma HandsDone(q: seq<nat>, out: set<nat>, procs: seq<Pc>, t: nat, pc': Pc)
    requires t < |procs| && HandsOk(q, out, procs) && Hand(procs[t]).Some? && Hand(pc') == None
    ensures HandsOk(q, out - {Hand(procs[t]).value}, procs[t := pc'])
  {
    HeldStill(procs, t, pc');
    hide Hand, InSomeHand;
  }

  lemma LockNext(s: State, g: Ghost, t: nat)
    requires Inv(s, g) && t < |s.procs| && Enabled(s, t)
    ensures OneLock(s.procs[t := NextOf(s.mem, s.procs[t])])
  {
    hide Linked, NoneLost, QueueOk, HandsOk, Says;
  }

  lemma NoneLostWork(s: State, g: Ghost, t: nat)
    requires Inv(s, g) && t < |s.procs| && Enabled(s, t) && !s.procs[t].PSignal?
    ensures NoneLost(GhostNext(g, s.procs[t]).q, s.procs[t := NextOf(s.mem, s.procs[t])])
  {
    assert Says(s.mem, g.q, s.procs[t]);
    HeadRead(s.mem, g.q);
    AwakeUpdate(s.procs, t, NextOf(s.mem, s.procs[t]));
    hide Linked, OneLock, QueueOk, HandsOk, Awake;
    var procs' := s.procs[t := NextOf(s.mem, s.procs[t])];
    if u :| 0 <= u < |procs'| && procs'[u].CAsleep? {
      if u != t { assert s.procs[u].CAsleep?; }
    }
  }

  /** The history after a step of thread t. */
  ghost function GhostStep(s: State, g: Ghost, s': State, t: nat): Ghost {
    if t >= |s.procs| || t >= |s'.procs| then g
    else if CanStep(s.procs[t]) then GhostNext(g, s.procs[t])
    else if s.procs[t].Ready? && s'.procs[t].PLock? then g.(given := g.given + multiset{s'.procs[t].mp})
    else g
  }

  /** Every step keeps the invariant. */
  lemma StepKeeps(s: State, g: Ghost, s': State, t: nat)
    requires Inv(s, g) && Step(s, s', t)
    ensures Inv(s', GhostStep(s, g, s', t))
  {
    if mp :| Begin(s, s', t, mp) {
      BeginKeeps(s, g, s', t, mp);
    } else if Wake(s, s', t) {
      WakeKeeps(s, g, s', t);
    } else if Signal(s, s', t) {
      SignalKeeps(s, g, s', t);
    } else {
      hide QueueOk, HandsOk, OneLock, NoneLost, EffectOf, NextOf, GhostNext, Says, Enabled;
      WorkQueueOk(s, g, t);
      Conserved(s, g, t);
      HandsNext(s, g, t);
      LockNext(s, g, t);
      NoneLostWork(s, g, t);
      forall u | 0 <= u < |s'.procs| ensures Says(s'.mem, GhostNext(g, s.procs[t]).q, s'.procs[u]) {
        SaysNext(s, g, t, u);
      }
    }
  }

  lemma BeginKeeps(s: State, g: Ghost, s': State, t: nat, mp: nat)
    requires Inv(s, g) && t < |s.procs| && Begin(s, s', t, mp)
    ensures Inv(s', g.(given := g.given + multiset{mp}))
  {
    AwakeUpdate(s.procs, t, PLock(mp));
    OneMore(s.out, mp);
    HandsBegun(g.q, s.out, s.procs, t, mp);
    hide QueueOk, HandsOk, Awake;
  }

  lemma HandsBegun(q: seq<nat>, out: set<nat>, procs: seq<Pc>, t: nat, mp: nat)
    requires t < |procs| && HandsOk(q, out, procs) && Hand(procs[t]) == None && mp != 0 && mp !in out
    ensures HandsOk(q, out + {mp}, procs[t := PLock(mp)])
  {
    HeldStill(procs, t, PLock(mp));
    assert Hand(PLock(mp)) == Some(mp);
    hide Hand, InSomeHand;
  }

  lemma WakeKeeps(s: State, g: Ghost, s': State, t: nat)
    requires Inv(s, g) && t < |s.procs| && Wake(s, s', t)
    ensures Inv(s', g)
  {
    AwakeUpdate(s.procs, t, CLock);
    EmptyHanded(s.mem, g.q, s.out, s.procs, t, CLock);
    hide QueueOk, HandsOk, OneLock, Says, Awake;
  }

  lemma SignalKeeps(s: State, g: Ghost, s': State, t: nat)
    requires Inv(s, g) && t < |s.procs| && Signal(s, s', t)
    ensures Inv(s', g)
  {
    hide QueueOk, HandsOk, OneLock, Says, NoneLost;
    EmptyHanded(s.mem, g.q, s.out, s.procs, t, Ready);
    if exists u :: 0 <= u < |s.procs| && s.procs[u].CAsleep? {
      var u :| 0 <= u < |s.procs| && s.procs[u].CAsleep? && s' == s.(procs := s.procs[t := Ready][u := CLock]);
      WokenKeeps(g.q, s.procs, t, u);
      EmptyHanded(s.mem, g.q, s.out, s.procs[t := Ready], u, CLock);
    } else {
      NobodyToWake(g.q, s.procs, t);
    }
  }

  /** The one woken counts for the signal. */
  lemma WokenKeeps(q: seq<nat>, procs: seq<Pc>, t: nat, u: nat)
    requires t < |procs| && u < |procs| && procs[t].PSignal? && procs[u].CAsleep? && NoneLost(q, procs)
    ensures NoneLost(q, procs[t := Ready][u := CLock])
  {
    AwakeUpdate(procs, t, Ready);
    AwakeUpdate(procs[t := Ready], u, CLock);
    hide Awake;
  }

  lemma NobodyToWake(q: seq<nat>, procs: seq<Pc>, t: nat)
    requires t < |procs| && forall u | 0 <= u < |procs| :: !procs[u].CAsleep?
    ensures NoneLost(q, procs[t := Ready])
  {
    hide Awake;
  }

  /** A thread without message and lock moves to a place without either. */
  lemma EmptyHanded(mem: map<nat, nat>, q: seq<nat>, out: set<nat>, procs: seq<Pc>, t: nat, pc': Pc)
    requires t < |procs| && HandsOk(q, out, procs) && OneLock(procs)
             && forall u | 0 <= u < |procs| :: Says(mem, q, procs[u])
    requires Hand(pc') == None && Hand(procs[t]) == None && !HasLock(pc')
    ensures HandsOk(q, out, procs[t := pc']) && OneLock(procs[t := pc'])
    ensures var procs' := procs[t := pc']; forall u | 0 <= u < |procs'| :: Says(mem, q, procs'[u])
  {
    HeldStill(procs, t, pc');
    hide Hand, InSomeHand;
  }

  // ----- runs -----

  /** An empty queue; threads not yet in enqueue_msg or at the top of process_msg. */
  ghost predicate Initial(s: State) {
    s.mem == map[WORKQ := 0] && s.out == {} && forall t | 0 <= t < |s.procs| :: s.procs[t].Ready? || s.procs[t].CLock?
  }

  ghost predicate IsRun(run: seq<State>, who: seq<nat>) {
    && |run| == |who| + 1 && Initial(run[0])
    && forall i {:trigger who[i]} | 0 <= i < |who| :: Step(run[i], run[i + 1], who[i])
  }

  /** The history of the first n steps of a run. */
  ghost function History(run: seq<State>, who: seq<nat>, n: nat): Ghost
    requires n <= |who| && |run| == |who| + 1
  {
    if n == 0 then NOTHING else GhostStep(run[n - 1], History(run, who, n - 1), run[n], who[n - 1])
  }

  /** After every step of every run: the links spell the stack of what was linked in and not taken off;
      each message was linked in exactly as often as it was taken or is still there, and given to
      enqueue_msg exactly as often as it was processed or is still out, in one place; while anyone sleeps,
      the messages waiting are no more than those awake for them. */
  lemma {:induction false} AlwaysSafe(run: seq<State>, who: seq<nat>, n: nat)
    requires IsRun(run, who) && n <= |who|
    ensures Inv(run[n], History(run, who, n))
    decreases n
  {
    hide Inv, Step, GhostStep;
    if n == 0 {
      Start(run[0]);
    } else {
      AlwaysSafe(run, who, n - 1);
      assert Step(run[n - 1], run[n], who[n - 1]);
      StepKeeps(run[n - 1], History(run, who, n - 1), run[n], who[n - 1]);
    }
  }

  /** The last message linked in is the first to be taken: linking puts it in front of those waiting, a take removes
      the one in front, and no other step changes which ones wait. */
  lemma TakesNewest(run: seq<State>, who: seq<nat>, n: nat)
    requires IsRun(run, who) && n < |who|
    ensures who[n] < |run[n].procs|
    ensures var pc, q, q' := run[n].procs[who[n]], History(run, who, n).q, History(run, who, n + 1).q;
            if pc.PHead? then q' == [pc.mp] + q else if pc.CRead? then q == [pc.mp] + q' else q' == q
  {
    AlwaysSafe(run, who, n);
    assert Step(run[n], run[n + 1], who[n]);
    hide Inv, Step, GhostStep, IsRun;
    StepTakes(run[n], History(run, who, n), run[n + 1], who[n]);
  }

  lemma StepTakes(s: State, g: Ghost, s': State, t: nat)
    requires Inv(s, g) && Step(s, s', t)
    ensures t < |s.procs|
    ensures var pc, q, q' := s.procs[t], g.q, GhostStep(s, g, s', t).q;
            if pc.PHead? then q' == [pc.mp] + q else if pc.CRead? then q == [pc.mp] + q' else q' == q
  {
    assert t < |s.procs| == |s'.procs|;
    assert Says(s.mem, g.q, s.procs[t]);
    hide Inv, Step;
    if s.procs[t].CRead? { assert g.q == [g.q[0]] + g.q[1..]; }
  }

  /** Where a message is: on the queue, in one thread's hands, or with its owner; never in two places. */
  predicate OnePlace(q: seq<nat>, procs: seq<Pc>, m: nat) {
    && (m in q ==> forall t | 0 <= t < |procs| :: Hand(procs[t]) != Some(m))
    && (forall t, u | 0 <= t < |procs| && 0 <= u < |procs| && t != u ::
          !(Hand(procs[t]) == Some(m) && Hand(procs[u]) == Some(m)))
  }

  /** No message is lost, and none is processed twice for one enqueue_msg: one that was given more often than it
      was processed is so by exactly one, and is on the queue once or with exactly one thread; any other is in
      neither place. */
  lemma NoMessageLost(run: seq<State>, who: seq<nat>, n: nat, m: nat)
    requires IsRun(run, who) && n <= |who|
    ensures var g, procs := History(run, who, n), run[n].procs;
            && g.done[m] <= g.given[m] <= g.done[m] + 1 && g.taken[m] <= g.sent[m] <= g.taken[m] + 1
            && (g.given[m] == g.done[m] + 1 <==> m in g.q || InSomeHand(procs, m))
            && (g.sent[m] == g.taken[m] + 1 <==> m in g.q)
            && OnePlace(g.q, procs, m)
  {
    AlwaysSafe(run, who, n);
    var g := History(run, who, n);
    OnceInSeq(g.q, m);
    hide History, Says, NoneLost, OneLock, Linked, Hand;
  }

  lemma {:induction false} OnceInSeq(q: seq<nat>, m: nat)
    requires NoDup(q)
    ensures multiset(q)[m] == if m in q then 1 else 0
    decreases |q|
  {
    if q != [] {
      assert q == [q[0]] + q[1..];
      forall i, j | 0 <= i < j < |q[1..]| ensures q[1..][i] != q[1..][j] { }
      OnceInSeq(q[1..], m);
    }
  }

  /** The bound on messages waiting holds after every step, whoever takes it. */
  lemma NoneLostNext(s: State, g: Ghost, s': State, t: nat)
    requires Inv(s, g) && Step(s, s', t)
    ensures NoneLost(GhostStep(s, g, s', t).q, s'.procs)
  {
    hide Step, GhostStep, QueueOk, HandsOk, OneLock, Says, NoneLost;
    StepKeeps(s, g, s', t);
  }

  lemma Start(s: State)
    requires Initial(s)
    ensures Inv(s, NOTHING)
  {
  }

  /** No lost wakeup: in no state of a run is a message left on the queue with a consumer asleep, every other
      one too or busy, and no producer about to signal. */
  lemma NoLostWakeup(run: seq<State>, who: seq<nat>, n: nat)
    requires IsRun(run, who) && n <= |who| && Head(run[n].mem) != 0
    requires forall t | 0 <= t < |run[n].procs| :: Weight(run[n].procs[t]) == 0
    ensures forall t | 0 <= t < |run[n].procs| :: !run[n].procs[t].CAsleep?
  {
    AlwaysSafe(run, who, n);
    HeadRead(run[n].mem, History(run, who, n).q);
    NobodyAwake(run[n].procs);
    hide History, QueueOk, HandsOk, OneLock, Says, Awake, Weight;
  }

  lemma {:induction false} NobodyAwake(procs: seq<Pc>)
    requires forall t | 0 <= t < |procs| :: Weight(procs[t]) == 0
    ensures Awake(procs) == 0
  {
    if procs != [] { NobodyAwake(procs[1..]); }
  }
}
