/** What callers see of fetch, delete and store in runs of many processes: every answer, and when one call
    shows in another. */
module DbAnswers {
  import opened DbProcess
  import opened DbProtocol
  import opened DbRuns
  import opened DbLinear

  /** From step j to step i process p is in this call. */
  predicate During(run: seq<State>, p: nat, op: Op, j: nat, i: nat)
    requires i < |run|
  {
    forall k | j <= k <= i :: p < |run[k].procs| && run[k].procs[p].Run? && run[k].procs[p].op == op
  }

  /** Process p's operation happens at step j of that call. */
  lemma HappensAt(run: seq<State>, who: seq<nat>, gs: seq<Ghost>, p: nat, i: nat, op: Op, res: Res) returns (j: nat)
    requires IsRun(run, who) && Explains(run, who, gs) && i < |run| && p < |run[i].procs|
    requires run[i].procs[p] == Run(op, Returned(res))
    ensures j < i && who[j] == p && During(run, p, op, j, i)
    ensures p < |run[j].procs| && PhaseOf(run[j].procs[p]) == Pending(op)
    ensures (gs[j + 1].m, res) == Apply(op, gs[j].m)
    ensures forall k | j < k <= i :: p < |run[k].procs| && !PhaseOf(run[k].procs[p]).Pending?
  {
    hide Inv, Step, Initial, Apply, SpecStep, View, Stands, During;
    CommitPoint(run, who, gs, p, i, op, res);
    j :| 0 <= j < i && Commits(run, who, gs, p, j, op, res) && Stands(run, p, j + 1, i, op, res);
    StandsDuring(run, p, j, i, op, res);
  }

  lemma StandsDuring(run: seq<State>, p: nat, j: nat, i: nat, op: Op, res: Res)
    requires j < i < |run| && p < |run[j].procs| && PhaseOf(run[j].procs[p]) == Pending(op)
    requires Stands(run, p, j + 1, i, op, res)
    ensures During(run, p, op, j, i)
    ensures forall k | j < k <= i :: p < |run[k].procs| && !PhaseOf(run[k].procs[p]).Pending?
  {
    forall k | j <= k <= i ensures p < |run[k].procs| && run[k].procs[p].Run? && run[k].procs[p].op == op {
      assert k > j ==> PhaseOf(run[k].procs[p]).Decided? || PhaseOf(run[k].procs[p]).Replied?;
    }
  }

  lemma Lengths(run: seq<State>, who: seq<nat>, gs: seq<Ghost>)
    requires Explains(run, who, gs)
    ensures |run| == |who| + 1 == |gs|
  {
    hide Inv, SpecStep, View;
  }

  // ----- the answers -----

  lemma DeleteMeans(m: map<string, string>, key: string)
    ensures var (m', res) := Apply(Delete(key), m);
            m' == m - {key} && (res == Code(0) <==> key in m) && (res == Code(-1) <==> key !in m)
  {
    assert key !in m ==> m - {key} == m;
  }

  lemma FetchMeans(m: map<string, string>, key: string)
    ensures var (m', res) := Apply(Fetch(key), m);
            m' == m && (key in m ==> res == Hit(m[key])) && (key !in m ==> res == Miss)
  {
  }

  lemma StoreMeans(m: map<string, string>, key: string, data: string, flag: int)
    ensures var (m', res) := Apply(Store(key, data, flag), m);
            && (res == Code(1) <==> flag == 1 && key in m)
            && (res == Code(-1) <==> !(1 <= flag <= 3) || (flag == 2 && key !in m))
            && (res == Code(0) || res == Code(1) || res == Code(-1))
            && m' == if res == Code(0) then m[key := data] else m
  {
  }

  /** db_delete answers 0 if its key is there at one step of the call and -1 if not, and takes the key away. */
  lemma DeleteAnswers(run: seq<State>, who: seq<nat>, gs: seq<Ghost>, p: nat, i: nat, key: string, res: Res)
    requires IsRun(run, who) && Explains(run, who, gs) && i < |run| && p < |run[i].procs|
    requires run[i].procs[p] == Run(Delete(key), Returned(res))
    ensures exists j {:trigger who[j]} | 0 <= j < i && who[j] == p :: During(run, p, Delete(key), j, i)
              && (res == Code(0) <==> key in gs[j].m) && (res == Code(-1) <==> key !in gs[j].m)
              && gs[j + 1].m == gs[j].m - {key}
  {
    hide *;
    Lengths(run, who, gs);
    var j := HappensAt(run, who, gs, p, i, Delete(key), res);
    DeleteMeans(gs[j].m, key);
  }

  /** db_fetch answers the data its key has at one step of the call, or NULL, and changes nothing. */
  lemma FetchAnswers(run: seq<State>, who: seq<nat>, gs: seq<Ghost>, p: nat, i: nat, key: string, res: Res)
    requires IsRun(run, who) && Explains(run, who, gs) && i < |run| && p < |run[i].procs|
    requires run[i].procs[p] == Run(Fetch(key), Returned(res))
    ensures exists j {:trigger who[j]} | 0 <= j < i && who[j] == p :: During(run, p, Fetch(key), j, i)
              && (key in gs[j].m ==> res == Hit(gs[j].m[key])) && (key !in gs[j].m ==> res == Miss)
              && gs[j + 1].m == gs[j].m
  {
    hide *;
    Lengths(run, who, gs);
    var j := HappensAt(run, who, gs, p, i, Fetch(key), res);
    FetchMeans(gs[j].m, key);
  }

  /** db_store answers 1 for an insertion of a key that is there, -1 for a replacement of one that is not or a
      flag that is none, and otherwise 0, with the key set to the data. */
  lemma StoreAnswers(run: seq<State>, who: seq<nat>, gs: seq<Ghost>, p: nat, i: nat,
                     key: string, data: string, flag: int, res: Res)
    requires IsRun(run, who) && Explains(run, who, gs) && i < |run| && p < |run[i].procs|
    requires run[i].procs[p] == Run(Store(key, data, flag), Returned(res))
    ensures exists j {:trigger who[j]} | 0 <= j < i && who[j] == p :: During(run, p, Store(key, data, flag), j, i)
              && (res == Code(1) <==> flag == 1 && key in gs[j].m)
              && (res == Code(-1) <==> !(1 <= flag <= 3) || (flag == 2 && key !in gs[j].m))
              && (res == Code(0) || res == Code(1) || res == Code(-1))
              && gs[j + 1].m == if res == Code(0) then gs[j].m[key := data] else gs[j].m
  {
    hide *;
    Lengths(run, who, gs);
    var j := HappensAt(run, who, gs, p, i, Store(key, data, flag), res);
    StoreMeans(gs[j].m, key, data, flag);
  }

  // ----- what one call leaves for another -----

  /** The process may be about to change what the map has for the key. */
  predicate Changing(pc: Pc, key: string) {
    pc.Run? && !pc.op.Fetch? && pc.op.key == key && PhaseOf(pc).Pending?
  }

  /** Only such a step changes it. */
  lemma OthersKeep(run: seq<State>, who: seq<nat>, gs: seq<Ghost>, k: nat, key: string)
    requires IsRun(run, who) && Explains(run, who, gs) && k < |who|
    requires who[k] < |run[k].procs| ==> !Changing(run[k].procs[who[k]], key)
    ensures SameAt(gs[k].m, gs[k + 1].m, key)
  {
    hide Inv, Step, Initial, PhaseAt;
    var a, b, p := View(run[k], gs[k]), View(run[k + 1], gs[k + 1]), who[k];
    assert SpecStep(a, b, p);
    assert a.phases[p] == PhaseOf(run[k].procs[p]);
    PhaseIsOp(run[k].procs[p]);
    StepKeepsKey(a, b, p, key);
  }

  lemma PhaseIsOp(pc: Pc)
    ensures PhaseOf(pc).Pending? ==> pc.Run? && PhaseOf(pc).op == pc.op
  {
  }

  lemma StepKeepsKey(a: Spec, b: Spec, p: nat, key: string)
    requires SpecStep(a, b, p)
    requires a.phases[p].Pending? ==> a.phases[p].op.Fetch? || a.phases[p].op.key != key
    ensures SameAt(a.m, b.m, key)
  {
    hide NoRoom, SizesOk;
  }

  /** What no step changes is the same after all of them. */
  lemma {:induction false} Untouched(gs: seq<Ghost>, i: nat, n: nat, key: string)
    requires i <= n < |gs| && forall k {:trigger gs[k]} | i <= k < n :: SameAt(gs[k].m, gs[k + 1].m, key)
    ensures SameAt(gs[i].m, gs[n].m, key)
    decreases n
  {
    hide SameAt;
    if i < n {
      Untouched(gs, i, n - 1, key);
      SameTwice(gs[i].m, gs[n - 1].m, gs[n].m, key);
    } else {
      SameAgain(gs[i].m, key);
    }
  }

  lemma SameTwice(a: map<string, string>, b: map<string, string>, c: map<string, string>, key: string)
    requires SameAt(a, b, key) && SameAt(b, c, key)
    ensures SameAt(a, c, key)
  {
  }

  lemma SameAgain(a: map<string, string>, key: string)
    ensures SameAt(a, a, key)
  {
  }

  /** From step b on process q is in one call, which returns at step l. */
  predicate OneCall(run: seq<State>, q: nat, op: Op, b: nat, l: nat, res: Res)
    requires l < |run|
  {
    && During(run, q, op, b, l) && b < l && run[b].procs[q].at.Begin?
    && (forall k | b <= k < l :: !run[k].procs[q].at.Returned?)
    && run[l].procs[q].at == Returned(res)
  }

  /** Until it happens the operation is pending. */
  lemma {:induction false} PendingBack(run: seq<State>, who: seq<nat>, gs: seq<Ghost>, q: nat, op: Op,
                                       b: nat, l: nat, res: Res, k: nat, n: nat)
    requires IsRun(run, who) && Explains(run, who, gs) && l < |run| && OneCall(run, q, op, b, l, res)
    requires b <= k <= n < l && PhaseOf(run[n].procs[q]) == Pending(op)
    ensures PhaseOf(run[k].procs[q]) == Pending(op)
    decreases n - k
  {
    hide Inv, Step, Initial, PhaseAt, View, SpecStep;
    if k < n {
      PendingBack(run, who, gs, q, op, b, l, res, k + 1, n);
      assert Step(run[k], run[k + 1], who[k]) && SpecStep(View(run[k], gs[k]), View(run[k + 1], gs[k + 1]), who[k]);
      ViewAt(run[k], gs[k], q);
      ViewAt(run[k + 1], gs[k + 1], q);
      PhaseBefore(View(run[k], gs[k]), View(run[k + 1], gs[k + 1]), who[k], q, op);
      NotReplied(run[k].procs[q]);
    }
  }

  lemma PhaseBefore(a: Spec, b: Spec, p: nat, q: nat, op: Op)
    requires SpecStep(a, b, p) && q < |b.phases| && b.phases[q] == Pending(op)
    ensures |a.phases| == |b.phases|
    ensures a.phases[q] == Pending(op) || a.phases[q].Rest? || a.phases[q].Replied?
  {
    hide Dies, Sized;
  }

  lemma NotReplied(pc: Pc)
    requires pc.Run? && !pc.at.Returned?
    ensures !PhaseOf(pc).Rest? && !PhaseOf(pc).Replied?
  {
  }

  lemma ViewAt(s: State, g: Ghost, q: nat)
    requires q < |s.procs|
    ensures |View(s, g).phases| == |s.procs| && View(s, g).phases[q] == PhaseOf(s.procs[q])
  {
    hide PhaseOf;
  }

  /** A step that leaves an operation pending leaves the map alone. */
  lemma PendingKeeps(run: seq<State>, who: seq<nat>, gs: seq<Ghost>, k: nat, q: nat, op: Op)
    requires IsRun(run, who) && Explains(run, who, gs) && k < |who| && who[k] == q
    requires q < |run[k].procs| && q < |run[k + 1].procs|
    requires PhaseOf(run[k].procs[q]) == Pending(op) && PhaseOf(run[k + 1].procs[q]) == Pending(op)
    ensures gs[k + 1].m == gs[k].m
  {
    hide Inv, Step, Initial, PhaseOf, View, SpecStep;
    assert SpecStep(View(run[k], gs[k]), View(run[k + 1], gs[k + 1]), who[k]);
    ViewAt(run[k], gs[k], q);
    ViewAt(run[k + 1], gs[k + 1], q);
    ViewMap(run[k], gs[k]);
    ViewMap(run[k + 1], gs[k + 1]);
    StillPending(View(run[k], gs[k]), View(run[k + 1], gs[k + 1]), q, op);
  }

  lemma ViewMap(s: State, g: Ghost)
    ensures View(s, g).m == g.m
  {
  }

  lemma StillPending(a: Spec, b: Spec, p: nat, op: Op)
    requires SpecStep(a, b, p) && a.phases[p] == b.phases[p] == Pending(op)
    ensures b.m == a.m
  {
  }

  /** The only steps up to l about to change the key are those of p before i and of q from b on. */
  predicate NoOthers(run: seq<State>, who: seq<nat>, p: nat, i: nat, q: nat, b: nat, l: nat, key: string)
    requires l <= |who| <= |run|
  {
    forall k {:trigger who[k]} | 0 <= k < l && who[k] < |run[k].procs| && Changing(run[k].procs[who[k]], key) ::
      (who[k] == p && k < i) || (who[k] == q && b <= k)
  }

  /** What each kind of call answers when it finds the key with these data. */
  predicate AnswerHit(op: Op, data: string, res: Res) {
    match op
    case Fetch(_) => res == Hit(data)
    case Delete(_) => res == Code(0)
    case Store(_, _, flag) => res == if flag == 1 then Code(1) else if flag == 2 || flag == 3 then Code(0) else Code(-1)
  }

  /** And when the key is not there. */
  predicate AnswerMiss(op: Op, res: Res) {
    match op
    case Fetch(_) => res == Miss
    case Delete(_) => res == Code(-1)
    case Store(_, _, flag) => res == if flag == 1 || flag == 3 then Code(0) else Code(-1)
  }

  /** A call begun after another on the same key returned, with nobody else about to change the key: after a store
      that answered 0 it finds that data, after a delete it does not find the key. So a second delete answers -1. */
  lemma CallAfter(run: seq<State>, who: seq<nat>, gs: seq<Ghost>, p: nat, i: nat, op: Op, code: Res,
                  q: nat, b: nat, l: nat, op': Op, res: Res)
    requires IsRun(run, who) && Explains(run, who, gs) && |run| == |who| + 1 == |gs|
    requires i <= b < l < |run| && p < |run[i].procs| && run[i].procs[p] == Run(op, Returned(code))
    requires OneCall(run, q, op', b, l, res) && op'.key == op.key
    requires NoOthers(run, who, p, i, q, b, l, op.key)
    ensures op.Store? && code == Code(0) ==> AnswerHit(op', op.data, res)
    ensures op.Delete? ==> AnswerMiss(op', res)
  {
    hide *;
    var j := HappensAt(run, who, gs, p, i, op, code);
    CallShape(run, q, op', b, l, res);
    var n := HappensAt(run, who, gs, q, l, op', res);
    HappensLate(run, who, gs, q, op', b, l, res, n);
    forall k {:trigger gs[k]} | j + 1 <= k < n ensures SameAt(gs[k].m, gs[k + 1].m, op.key) {
      if b <= k && who[k] == q {
        PendingBack(run, who, gs, q, op', b, l, res, k, n);
        PendingBack(run, who, gs, q, op', b, l, res, k + 1, n);
        PendingAt(run, q, op', b, l, res, k);
        PendingAt(run, q, op', b, l, res, k + 1);
        PendingKeeps(run, who, gs, k, q, op');
        SameAgain(gs[k].m, op.key);
      } else {
        NotChanging(run, who, p, i, j, q, b, l, op.key, k);
        OthersKeep(run, who, gs, k, op.key);
      }
    }
    Untouched(gs, j + 1, n, op.key);
    LeftBy(op, gs[j].m, gs[j + 1].m, code, gs[n].m);
    AnswerMeans(op', gs[n].m);
  }

  lemma CallShape(run: seq<State>, q: nat, op: Op, b: nat, l: nat, res: Res)
    requires l < |run| && OneCall(run, q, op, b, l, res)
    ensures q < |run[l].procs| && run[l].procs[q] == Run(op, Returned(res))
  {
    assert b <= l;
  }

  lemma PendingAt(run: seq<State>, q: nat, op: Op, b: nat, l: nat, res: Res, k: nat)
    requires l < |run| && OneCall(run, q, op, b, l, res) && b <= k <= l
    ensures q < |run[k].procs|
  {
  }

  /** It happens after the call has begun. */
  lemma HappensLate(run: seq<State>, who: seq<nat>, gs: seq<Ghost>, q: nat, op: Op, b: nat, l: nat, res: Res, n: nat)
    requires IsRun(run, who) && l < |run| && OneCall(run, q, op, b, l, res) && n < l
    requires forall k | n < k <= l :: q < |run[k].procs| && !PhaseOf(run[k].procs[q]).Pending?
    ensures b <= n
  {
    hide IsRun;
    assert b <= b;
  }

  lemma NotChanging(run: seq<State>, who: seq<nat>, p: nat, i: nat, j: nat, q: nat, b: nat, l: nat, key: string, k: nat)
    requires l <= |who| <= |run| && NoOthers(run, who, p, i, q, b, l, key) && j < k < l && i < |run|
    requires forall k | j < k <= i :: p < |run[k].procs| && !PhaseOf(run[k].procs[p]).Pending?
    requires !(b <= k && who[k] == q)
    ensures who[k] < |run[k].procs| ==> !Changing(run[k].procs[who[k]], key)
  {
    hide PhaseOf;
  }

  /** What the map has for the key after a store that answered 0, or after a delete. */
  lemma LeftBy(op: Op, m: map<string, string>, m': map<string, string>, code: Res, later: map<string, string>)
    requires (m', code) == Apply(op, m) && SameAt(m', later, op.key)
    ensures op.Store? && code == Code(0) ==> op.key in later && later[op.key] == op.data
    ensures op.Delete? ==> op.key !in later
  {
  }

  lemma AnswerMeans(op: Op, m: map<string, string>)
    ensures if op.key in m then AnswerHit(op, m[op.key], Apply(op, m).1) else AnswerMiss(op, Apply(op, m).1)
  {
  }
}
