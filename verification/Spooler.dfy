/** The print spooler: client threads number their jobs and append them, the printer thread takes the
    first, and puts it back at the head when the printer cannot be reached. A critical section of
    joblock is one step, with the list operations of JobQueue on the sequence of pending jobs. */
module Spooler {
  import opened Wrappers

  const INT32_MAX := 0x7fff_ffff

  datatype Job = Job(id: int, req: int)

  datatype Outcome = Printed | Cancelled

  datatype Client = Idle | Numbered(id: int) | Signalling

  datatype Printer = Testing | Asleep | Hand(job: Job) | Deferring(job: Job)

  /** added: jobs in the order of their add_job; finished: jobs the printer is done with, in that order. */
  datatype State = State(
    nextjob: int,
    queue: seq<Job>,
    clients: seq<Client>,
    printer: Printer,
    added: seq<Job>,
    finished: seq<(Job, Outcome)>)

  /** nextjob++, and back to 1 when that is no longer positive. */
  function NextJob(n: int): int { if n >= INT32_MAX then 1 else n + 1 }

  ghost predicate ClientStep(s: State, s': State, c: nat) {
    && c < |s.clients|
    && match s.clients[c]
       case Idle =>   // get_newjobno
         s' == s.(nextjob := NextJob(s.nextjob), clients := s.clients[c := Numbered(s.nextjob)])
       case Numbered(id) =>   // the client gives up, or add_job
         || s' == s.(clients := s.clients[c := Idle])
         || (exists req :: s' == s.(queue := s.queue + [Job(id, req)], added := s.added + [Job(id, req)],
                                    clients := s.clients[c := Signalling]))
       case Signalling =>
         s' == s.(clients := s.clients[c := Idle], printer := if s.printer.Asleep? then Testing else s.printer)
  }

  ghost predicate PrinterStep(s: State, s': State) {
    match s.printer
    case Testing =>
      if s.queue == [] then s' == s.(printer := Asleep)
      else s' == s.(printer := Hand(s.queue[0]), queue := s.queue[1..])
    case Asleep => s' == s.(printer := Testing)   // without cause
    case Hand(job) =>
      || s' == s.(printer := Testing, finished := s.finished + [(job, Printed)])
      || s' == s.(printer := Testing, finished := s.finished + [(job, Cancelled)])
      || s' == s.(printer := Deferring(job))
    case Deferring(job) => s' == s.(printer := Testing, queue := [job] + s.queue)   // replace_job
  }

  /** None for the printer thread. */
  ghost predicate Step(s: State, s': State, who: Option<nat>) {
    if who.Some? then ClientStep(s, s', who.value) else PrinterStep(s, s')
  }

  // ----- the invariant -----

  function Jobs(f: seq<(Job, Outcome)>): seq<Job> { seq(|f|, i requires 0 <= i < |f| => f[i].0) }

  function InHand(p: Printer): seq<Job> { if p.Hand? || p.Deferring? then [p.job] else [] }

  ghost predicate Inv(s: State) {
    && 1 <= s.nextjob <= INT32_MAX
    && s.added == Jobs(s.finished) + InHand(s.printer) + s.queue
    && (s.printer.Asleep? ==> s.queue == [] || exists c :: 0 <= c < |s.clients| && s.clients[c].Signalling?)
  }

  lemma ClientKeeps(s: State, s': State, c: nat)
    requires Inv(s) && ClientStep(s, s', c)
    ensures Inv(s')
  {
    match s.clients[c] {
      case Idle => OthersSignal(s.clients, c, Numbered(s.nextjob));
      case Numbered(id) =>
        if s'.clients == s.clients[c := Idle] && s'.queue == s.queue {
          OthersSignal(s.clients, c, Idle);
        } else {
          assert s'.clients[c].Signalling?;
        }
      case Signalling =>
    }
  }

  lemma OthersSignal(clients: seq<Client>, c: nat, x: Client)
    requires c < |clients| && !clients[c].Signalling?
    ensures var after := clients[c := x];
            (exists d :: 0 <= d < |clients| && clients[d].Signalling?) ==>
              exists d :: 0 <= d < |after| && after[d].Signalling?
  {
    if d :| 0 <= d < |clients| && clients[d].Signalling? { assert clients[c := x][d].Signalling?; }
  }

  lemma PrinterKeeps(s: State, s': State)
    requires Inv(s) && PrinterStep(s, s')
    ensures Inv(s')
  {
    match s.printer {
      case Testing => if s.queue != [] { assert s.queue == [s.queue[0]] + s.queue[1..]; }
      case Asleep =>
      case Hand(job) => assert s'.finished != s.finished ==> Jobs(s'.finished) == Jobs(s.finished) + [job];
      case Deferring(job) =>
    }
  }

  // ----- runs -----

  /** At start the jobs found in the spool directory are on the queue; no client is connected yet. */
  ghost predicate Initial(s: State) {
    && 1 <= s.nextjob <= INT32_MAX && s.printer == Testing && s.added == s.queue && s.finished == []
    && forall c | 0 <= c < |s.clients| :: s.clients[c] == Idle
  }

  ghost predicate IsRun(run: seq<State>, who: seq<Option<nat>>) {
    && |run| == |who| + 1 && Initial(run[0])
    && forall i {:trigger who[i]} | 0 <= i < |who| :: Step(run[i], run[i + 1], who[i])
  }

  lemma {:induction false} AlwaysInv(run: seq<State>, who: seq<Option<nat>>)
    requires IsRun(run, who)
    ensures Inv(run[|who|])
    decreases |who|
  {
    hide Step;
    if who != [] {
      var n := |who| - 1;
      forall i | 0 <= i < n ensures Step(run[..n + 1][i], run[..n + 1][i + 1], who[..n][i]) {
        assert Step(run[i], run[i + 1], who[i]);
      }
      AlwaysInv(run[..n + 1], who[..n]);
      assert Step(run[n], run[n + 1], who[n]);
      StepKeeps(run[n], run[n + 1], who[n]);
    }
  }

  lemma StepKeeps(s: State, s': State, who: Option<nat>)
    requires Inv(s) && Step(s, s', who)
    ensures Inv(s')
  {
    hide Inv, ClientStep, PrinterStep;
    if who.Some? { ClientKeeps(s, s', who.value); } else { PrinterKeeps(s, s'); }
  }

  /** In every run, every job added is in exactly one place, finished jobs are the first added, in order,
      and the printer never sleeps with a job waiting and no client about to signal. */
  lemma FirstComeFirstServed(run: seq<State>, who: seq<Option<nat>>)
    requires IsRun(run, who)
    ensures var s := run[|who|];
            && multiset(s.added) == multiset(Jobs(s.finished)) + multiset(InHand(s.printer)) + multiset(s.queue)
            && Jobs(s.finished) <= s.added
            && (InHand(s.printer) != [] ==> |s.finished| < |s.added| && s.added[|s.finished|] == InHand(s.printer)[0])
            && (s.printer.Asleep? && s.queue != [] ==> exists c :: 0 <= c < |s.clients| && s.clients[c].Signalling?)
  {
    AlwaysInv(run, who);
  }

  // ----- job numbers -----

  /** The k-th number given out from n on. */
  function NumberAt(n: int, k: nat): int
    decreases k
  {
    if k == 0 then n else NumberAt(NextJob(n), k - 1)
  }

  lemma {:induction false} NumberIs(n: int, k: nat)
    requires 1 <= n <= 2147483647
    ensures NumberAt(n, k) == (n - 1 + k) % 2147483647 + 1
    decreases k
  {
    if k > 0 { NumberIs(NextJob(n), k - 1); }
  }

  /** Two jobs get the same number exactly when a multiple of INT32_MAX numbers lies between them. */
  lemma NumbersDistinct(n: int, i: nat, j: nat)
    requires 1 <= n <= 2147483647 && i <= j
    ensures NumberAt(n, i) == NumberAt(n, j) <==> (j - i) % 2147483647 == 0
  {
    NumberIs(n, i);
    NumberIs(n, j);
    var a, b := n - 1 + i, n - 1 + j;
    assert a % INT32_MAX == b % INT32_MAX <==> (b - a) % INT32_MAX == 0;
  }
}
