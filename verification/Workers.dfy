/** The spooler's list of worker threads. add_worker does not make a new worker the head of a list that
    has one already; these contracts say exactly what becomes of the list then. */
module Workers {
  class Worker {
    var next: Worker?
    var prev: Worker?
    const tid: int

    constructor (tid: int)
      ensures this.tid == tid
    {
      this.tid := tid;
      next, prev := null, null;
    }
  }

  class WorkerList {
    var workers: Worker?
    ghost var list: seq<Worker>   // what is reached from workers

    ghost function Nodes(): set<Worker>
      reads this
    {
      set w | w in list
    }

    /** Following next from workers visits the list; prev agrees, but for the head's. */
    ghost predicate Reached()
      reads this, Nodes()
    {
      && workers == (if list == [] then null else list[0])
      && (forall i {:trigger list[i].next} | 0 <= i < |list| ::
              list[i].next == if i + 1 < |list| then list[i + 1] else null)
      && (forall i {:trigger list[i].prev} | 1 <= i < |list| :: list[i].prev == list[i - 1])
      && (forall i, j | 0 <= i < j < |list| :: list[i] != list[j])
    }

    /** A proper doubly linked list. */
    ghost predicate Proper()
      reads this, Nodes()
    {
      Reached() && (list != [] ==> list[0].prev == null)
    }

    constructor ()
      ensures Proper() && list == []
    {
      workers, list := null, [];
    }

    /** The new worker is on the list if and only if the list was empty; otherwise the list stays what
        it was, with a head that has a predecessor nobody can reach. */
    method AddWorker(wtp: Worker)
      requires Reached() && wtp !in list
      modifies this, Nodes(), wtp
      ensures Reached() && (wtp in list <==> old(list) == [])
      ensures list == if old(list) == [] then [wtp] else old(list)
      ensures Proper() <==> old(list) == []
      ensures old(list) != [] ==> workers.prev == wtp
    {
      wtp.prev := null;
      wtp.next := workers;
      if workers == null {
        workers := wtp;
        list := [wtp];
      } else {
        workers.prev := wtp;
      }
    }

    /** The first worker with this id is taken off the list, unless it is the head of an improper list:
        then workers still points to it, although the caller frees it. */
    method ClientCleanup(tid: int) returns (wtp: Worker?, ghost k: nat)
      requires Reached() && (list != [] && list[0].prev != null ==> list[0].prev !in list)
      modifies this, Nodes(), if workers != null && workers.prev != null then {workers.prev} else {}
      ensures k <= old(|list|) && forall i | 0 <= i < k :: old(list)[i].tid != tid
      ensures wtp == if k < old(|list|) then old(list)[k] else null
      ensures k < old(|list|) ==> old(list)[k].tid == tid
      ensures k == old(|list|) ==> Reached() && list == old(list)
      ensures k < old(|list|) && (k > 0 || old(Proper())) ==>
                Reached() && list == old(list[..k] + list[k + 1..]) && (old(Proper()) ==> Proper())
      ensures k == 0 < old(|list|) && !old(Proper()) ==> workers == wtp && list == old(list[1..])
    {
      wtp, k := workers, 0;
      while wtp != null
        invariant k <= |list| && wtp == (if k < |list| then list[k] else null)
        invariant forall i | 0 <= i < k :: list[i].tid != tid
        decreases |list| - k
      {
        if wtp.tid == tid {
          if wtp.next != null { wtp.next.prev := wtp.prev; }
          if wtp.prev != null { wtp.prev.next := wtp.next; } else { workers := wtp.next; }
          list := list[..k] + list[k + 1..];
          return;
        }
        wtp := wtp.next;
        k := k + 1;
      }
    }
  }

  /** Two workers at once are enough: the second is never on the list, and when the first is done
      workers points to it still. */
  method TwoWorkers(s: int, t: int) returns (l: WorkerList, first: Worker, second: Worker)
    requires s != t
    ensures second !in l.list && l.workers == first && first !in l.list
  {
    l := new WorkerList();
    first := new Worker(s);
    second := new Worker(t);
    l.AddWorker(first);
    l.AddWorker(second);
    ghost var k;
    var gone;
    gone, k := l.ClientCleanup(s);
  }
}
