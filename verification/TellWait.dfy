/** Parent and child take turns at a counter in shared memory, by bytes on two pipes. */
module TellWait {
  datatype Parent =
    | PTest(i: nat)
    | PRead(i: nat)               // update: read, then write back
    | PWrite(i: nat, v: int)
    | PTell(i: nat)
    | PWait(i: nat)
    | PDone
    | PQuit                       // expected something else

  datatype Child =
    | CTest(i: nat)
    | CWait(i: nat)
    | CRead(i: nat)
    | CWrite(i: nat, v: int)
    | CTell(i: nat)
    | CDone
    | CQuit

  datatype Who = FromParent | FromChild

  /** pfd1 carries bytes to the child, pfd2 to the parent; log has the values update returned. */
  datatype State = State(counter: int, pfd1: string, pfd2: string, parent: Parent, child: Child, log: seq<(Who, int)>)

  /** Nobody can step where the table is silent: the end of a program, or a read of an empty pipe. */
  function ParentStep(s: State, n: nat): State {
    match s.parent
    case PTest(i) => s.(parent := if i < n then PRead(i) else PDone)
    case PRead(i) => s.(parent := PWrite(i, s.counter))
    case PWrite(i, v) => s.(counter := v + 1, parent := if v == i then PTell(i) else PQuit,
                           log := s.log + [(FromParent, v)])
    case PTell(i) => s.(pfd1 := s.pfd1 + "p", parent := PWait(i))
    case PWait(i) =>
      if s.pfd2 == "" then s else s.(pfd2 := s.pfd2[1..], parent := if s.pfd2[0] == 'c' then PTest(i + 2) else PQuit)
    case _ => s
  }

  function ChildStep(s: State, n: nat): State {
    match s.child
    case CTest(i) => s.(child := if i < n + 1 then CWait(i) else CDone)
    case CWait(i) =>
      if s.pfd1 == "" then s else s.(pfd1 := s.pfd1[1..], child := if s.pfd1[0] == 'p' then CRead(i) else CQuit)
    case CRead(i) => s.(child := CWrite(i, s.counter))
    case CWrite(i, v) => s.(counter := v + 1, child := if v == i then CTell(i) else CQuit,
                           log := s.log + [(FromChild, v)])
    case CTell(i) => s.(pfd2 := s.pfd2 + "c", child := CTest(i + 2))
    case _ => s
  }

  predicate Step(s: State, s': State, n: nat) { s' != s && (s' == ParentStep(s, n) || s' == ChildStep(s, n)) }

  function Start(): State { State(0, "", "", PTest(0), CTest(1), []) }

  // ----- the invariant -----

  /** Parent and child in turn, each with its own loop index. */
  function Turns(k: nat): seq<(Who, int)> { seq(k, i => (if i % 2 == 0 then FromParent else FromChild, i)) }

  /** The child has not started the turn j, or there is none. */
  predicate Behind(c: Child, j: nat, n: nat) {
    c == CTest(j) || (c == CWait(j) && j < n + 1) || (c == CDone && j >= n + 1)
  }

  /** The turn is the parent's i-th, on its way to the child, the child's, or on its way back. */
  predicate Inv(s: State, n: nat) {
    && s.log == Turns(|s.log|)
    && match s.parent
       case PTest(i) => i % 2 == 0 && i < n + 2 && Idle(s) && s.counter == i == |s.log| && Behind(s.child, i + 1, n)
       case PRead(i) => i % 2 == 0 && i < n && Idle(s) && s.counter == i == |s.log| && Behind(s.child, i + 1, n)
       case PWrite(i, v) => i % 2 == 0 && i < n && Idle(s) && v == s.counter == i == |s.log|
                            && Behind(s.child, i + 1, n)
       case PTell(i) => i % 2 == 0 && i < n && Idle(s) && s.counter == i + 1 == |s.log| && Behind(s.child, i + 1, n)
       case PWait(i) => i % 2 == 0 && i < n && Waiting(s, i, n)
       case PDone => Idle(s) && s.counter == |s.log| == (n + 1) / 2 * 2 && Behind(s.child, (n + 1) / 2 * 2 + 1, n)
       case PQuit => false
  }

  predicate Idle(s: State) { s.pfd1 == "" && s.pfd2 == "" }

  predicate Waiting(s: State, i: nat, n: nat) {
    || (s.pfd1 == "p" && s.pfd2 == "" && s.counter == i + 1 == |s.log| && Behind(s.child, i + 1, n))
    || (Idle(s) && s.counter == i + 1 == |s.log| && (s.child == CRead(i + 1) || s.child == CWrite(i + 1, i + 1)))
    || (Idle(s) && s.counter == i + 2 == |s.log| && s.child == CTell(i + 1))
    || (s.pfd1 == "" && s.pfd2 == "c" && s.counter == i + 2 == |s.log| && Behind(s.child, i + 3, n))
  }

  lemma ParentKeeps(s: State, n: nat)
    requires Inv(s, n)
    ensures Inv(ParentStep(s, n), n)
  {
    TurnsNext(|s.log|);
    hide Turns;
  }

  lemma ChildKeeps(s: State, n: nat)
    requires Inv(s, n)
    ensures Inv(ChildStep(s, n), n) && !s.child.CQuit?
  {
    TurnsNext(|s.log|);
    hide Turns;
  }

  lemma TurnsNext(k: nat)
    ensures Turns(k + 1) == Turns(k) + [(if k % 2 == 0 then FromParent else FromChild, k as int)]
  {
  }

  // ----- runs -----

  predicate IsRun(run: seq<State>, n: nat) {
    && |run| > 0 && run[0] == Start()
    && forall k {:trigger run[k]} | 0 <= k < |run| - 1 :: Step(run[k], run[k + 1], n)
  }

  lemma {:induction false} AlwaysInv(run: seq<State>, n: nat, k: nat)
    requires IsRun(run, n) && k < |run|
    ensures Inv(run[k], n)
    decreases k
  {
    if k == 0 {
      assert Turns(0) == [];
    } else {
      AlwaysInv(run, n, k - 1);
      hide Inv, ParentStep, ChildStep;
      assert Step(run[k - 1], run[k], n);
      ParentKeeps(run[k - 1], n);
      ChildKeeps(run[k - 1], n);
    }
  }

  /** Every step is progress. */
  function Left(s: State, n: nat): int { ParentLeft(s.parent, n) + ChildLeft(s.child, n) }

  function ParentLeft(p: Parent, n: nat): int {
    match p
    case PTest(i) => 5 * (n + 2 - i) + 4
    case PRead(i) => 5 * (n + 2 - i) + 3
    case PWrite(i, _) => 5 * (n + 2 - i) + 2
    case PTell(i) => 5 * (n + 2 - i) + 1
    case PWait(i) => 5 * (n + 2 - i)
    case _ => 0
  }

  function ChildLeft(c: Child, n: nat): int {
    match c
    case CTest(i) => 5 * (n + 3 - i) + 4
    case CWait(i) => 5 * (n + 3 - i) + 3
    case CRead(i) => 5 * (n + 3 - i) + 2
    case CWrite(i, _) => 5 * (n + 3 - i) + 1
    case CTell(i) => 5 * (n + 3 - i)
    case _ => 0
  }

  lemma Progress(s: State, s': State, n: nat)
    requires Inv(s, n) && Step(s, s', n)
    ensures 0 <= Left(s', n) < Left(s, n)
  {
    ParentKeeps(s, n);
    ChildKeeps(s, n);
  }

  lemma {:induction false} RunLength(run: seq<State>, n: nat, k: nat)
    requires IsRun(run, n) && k < |run|
    ensures Left(run[k], n) + k <= Left(Start(), n) && Left(run[k], n) >= 0
    decreases k
  {
    if k > 0 {
      RunLength(run, n, k - 1);
      AlwaysInv(run, n, k - 1);
      hide Inv, Left, ParentStep, ChildStep;
      assert Step(run[k - 1], run[k], n);
      Progress(run[k - 1], run[k], n);
    }
  }

  /** No state is stuck before both have ended. */
  lemma NoDeadlock(s: State, n: nat)
    requires Inv(s, n) && ParentStep(s, n) == s && ChildStep(s, n) == s
    ensures s.parent == PDone && s.child == CDone
  {
  }

  /** For every loop bound and every interleaving: runs are no longer than a fixed bound, and one that can
      go no further has ended with both processes done, the pipes empty, parent and child having taken
      turns, each update having returned its own loop index. */
  lemma Alternate(run: seq<State>, n: nat)
    requires IsRun(run, n)
    ensures |run| <= Left(Start(), n) + 1
    ensures var s := run[|run| - 1];
            && !s.parent.PQuit? && !s.child.CQuit? && s.log == Turns(|s.log|)
            && (ParentStep(s, n) == s && ChildStep(s, n) == s ==>
                  && s.parent == PDone && s.child == CDone && s.pfd1 == "" && s.pfd2 == ""
                  && s.counter == |s.log| == (n + 1) / 2 * 2)
  {
    var s := run[|run| - 1];
    AlwaysInv(run, n, |run| - 1);
    RunLength(run, n, |run| - 1);
    ChildKeeps(s, n);
    if ParentStep(s, n) == s && ChildStep(s, n) == s { NoDeadlock(s, n); }
    hide Turns, ParentStep, ChildStep, Left;
  }
}
