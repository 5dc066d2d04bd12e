/** What one pass of an event loop does for the clients that are ready. */
module ServerLog {
  /** A client is closed, or its request is handled, under some uid. */
  datatype Event = Closed(fd: int, uid: int) | Request(fd: int, uid: int, nread: nat)

  function LogFds(log: seq<Event>): set<int> { set k | 0 <= k < |log| :: log[k].fd }

  function ClosedFds(log: seq<Event>): set<int> { set k | 0 <= k < |log| && log[k].Closed? :: log[k].fd }

  /** No client is served twice. */
  ghost predicate OnceEach(log: seq<Event>) { forall a, b | 0 <= a < b < |log| :: log[a].fd != log[b].fd }

  lemma LogMore(log: seq<Event>, e: Event)
    ensures LogFds(log + [e]) == LogFds(log) + {e.fd}
    ensures ClosedFds(log + [e]) == if e.Closed? then ClosedFds(log) + {e.fd} else ClosedFds(log)
    ensures OnceEach(log) && e.fd !in LogFds(log) ==> OnceEach(log + [e])
  {
    var l := log + [e];
    forall x | x in LogFds(log) ensures x in LogFds(l) {
      var k :| 0 <= k < |log| && log[k].fd == x;
      assert l[k] == log[k];
    }
    forall x | x in ClosedFds(log) ensures x in ClosedFds(l) {
      var k :| 0 <= k < |log| && log[k].Closed? && log[k].fd == x;
      assert l[k] == log[k];
    }
    assert l[|log|] == e;
    forall a, b | OnceEach(log) && e.fd !in LogFds(log) && 0 <= a < b < |l| ensures l[a].fd != l[b].fd {
      if b == |log| { assert log[a].fd in LogFds(log); }
    }
  }
}
