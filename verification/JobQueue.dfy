/** The doubly linked job list, as rwlock.c and the print spooler each keep it. */
module JobQueue {
  class Job {
    var next: Job?
    var prev: Job?
    const id: int

    constructor (id: int)
      ensures this.id == id
    {
      this.id := id;
      next, prev := null, null;
    }
  }

  class Queue {
    var head: Job?
    var tail: Job?
    ghost var jobs: seq<Job>   // what the links spell out

    ghost function Nodes(): set<Job>
      reads this
    {
      set j | j in jobs
    }

    /** next, prev, head and tail agree on one sequence. */
    ghost predicate Valid()
      reads this, Nodes()
    {
      && head == (if jobs == [] then null else jobs[0])
      && tail == (if jobs == [] then null else jobs[|jobs| - 1])
      && (forall i {:trigger jobs[i].next} | 0 <= i < |jobs| ::
              jobs[i].next == if i + 1 < |jobs| then jobs[i + 1] else null)
      && (forall i {:trigger jobs[i].prev} | 0 <= i < |jobs| :: jobs[i].prev == if i > 0 then jobs[i - 1] else null)
      && (forall i, j | 0 <= i < j < |jobs| :: jobs[i] != jobs[j])
    }

    /** queue_init */
    constructor ()
      ensures Valid() && jobs == []
    {
      head, tail, jobs := null, null, [];
    }

    /** job_insert: at the head. */
    method Insert(jp: Job)
      requires Valid() && jp !in jobs
      modifies this, Nodes(), jp
      ensures Valid() && jobs == [jp] + old(jobs)
    {
      jp.next := head;
      jp.prev := null;
      if head != null { head.prev := jp; } else { tail := jp; }
      head := jp;
      jobs := [jp] + jobs;
    }

    /** job_append: at the tail. */
    method Append(jp: Job)
      requires Valid() && jp !in jobs
      modifies this, Nodes(), jp
      ensures Valid() && jobs == old(jobs) + [jp]
    {
      jp.next := null;
      jp.prev := tail;
      if tail != null { tail.next := jp; } else { head := jp; }
      tail := jp;
      jobs := jobs + [jp];
    }

    /** job_remove: head, tail and middle are told apart. */
    method Remove(jp: Job, ghost k: nat)
      requires Valid() && k < |jobs| && jobs[k] == jp
      modifies this, Nodes()
      ensures Valid() && jobs == old(jobs[..k] + jobs[k + 1..])
    {
      if jp == head {
        head := jp.next;
        if tail == jp { tail := null; } else { jp.next.prev := jp.prev; }
      } else if jp == tail {
        tail := jp.prev;
        jp.prev.next := jp.next;
      } else {
        jp.prev.next := jp.next;
        jp.next.prev := jp.prev;
      }
      jobs := jobs[..k] + jobs[k + 1..];
    }

    /** remove_job of the spooler: what comes after and what comes before are told apart. */
    method RemoveJob(target: Job, ghost k: nat)
      requires Valid() && k < |jobs| && jobs[k] == target
      modifies this, Nodes()
      ensures Valid() && jobs == old(jobs[..k] + jobs[k + 1..])
    {
      if target.next != null { target.next.prev := target.prev; } else { tail := target.prev; }
      if target.prev != null { target.prev.next := target.next; } else { head := target.next; }
      jobs := jobs[..k] + jobs[k + 1..];
    }

    /** The printer takes the first job; put back at the head, it is first again. */
    method Pick() returns (jp: Job)
      requires Valid() && jobs != []
      modifies this, Nodes()
      ensures Valid() && old(jobs) == [jp] + jobs
    {
      jp := head;
      RemoveJob(jp, 0);
    }

    /** job_find: the first job with this id; NULL too when the read lock cannot be had (locked is false), so
        that a job can be in the queue and not be found. */
    method FindJob(id: int, locked: bool) returns (jp: Job?)
      requires Valid()
      ensures jp == null <==> !locked || forall i | 0 <= i < |jobs| :: jobs[i].id != id
      ensures jp != null ==>
                jp.id == id && exists k :: 0 <= k < |jobs| && jobs[k] == jp && forall i | 0 <= i < k :: jobs[i].id != id
    {
      if !locked { return null; }
      jp := head;
      ghost var k := 0;
      while jp != null
        invariant k <= |jobs| && jp == (if k < |jobs| then jobs[k] else null)
        invariant forall i | 0 <= i < k :: jobs[i].id != id
        decreases |jobs| - k
      {
        if jp.id == id { return; }
        jp := jp.next;
        k := k + 1;
      }
    }
  }
}
