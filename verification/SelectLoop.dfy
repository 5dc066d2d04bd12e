/** The event loop of the open server over select: a set of descriptors and two upper bounds beside the
    client table. */
module SelectLoop {
  import opened ClientTable
  import opened ServerLog

  /** Entries 0..i of the table as it was have been served if their descriptor was ready, in order and
      under the uid recorded for it; nothing else has been. */
  ghost predicate Scanned(orig: seq<Client>, rset: set<int>, i: nat, log: seq<Event>) {
    && i <= |orig|
    && OnceEach(log)
    && (forall k | 0 <= k < i && orig[k].fd != -1 && orig[k].fd in rset :: orig[k].fd in LogFds(log))
    && (forall a | 0 <= a < |log| :: log[a].fd in rset && Among(orig, i, log[a]))
  }

  /** The event is for one of the first i clients, with its descriptor and its uid. */
  ghost predicate Among(orig: seq<Client>, i: nat, e: Event)
    requires i <= |orig|
  {
    e.fd != -1 && exists k :: 0 <= k < i && orig[k] == Client(e.fd, e.uid)
  }

  /** The table after that: entries closed so far are free, all others as they were. */
  ghost predicate Kept(orig: seq<Client>, cur: seq<Client>, log: seq<Event>) {
    |cur| == |orig| && forall k {:trigger cur[k]} | 0 <= k < |orig| ::
      cur[k] == if orig[k].fd != -1 && orig[k].fd in ClosedFds(log) then Client(-1, orig[k].uid) else orig[k]
  }

  lemma ScanStep(orig: seq<Client>, rset: set<int>, i: nat, log: seq<Event>, e: Event)
    requires Distinct(orig) && i < |orig| && Scanned(orig, rset, i, log)
    requires orig[i] == Client(e.fd, e.uid) && e.fd != -1 && e.fd in rset
    ensures Scanned(orig, rset, i + 1, log + [e])
  {
    LogMore(log, e);
    hide LogFds, ClosedFds;
    var l := log + [e];
    forall a | 0 <= a < |l| ensures l[a].fd in rset && Among(orig, i + 1, l[a]) {
      if a == |log| {
        assert orig[i] == Client(l[a].fd, l[a].uid);
      } else {
        assert l[a] == log[a] && Among(orig, i, log[a]);
      }
    }
    forall a | 0 <= a < |log| ensures log[a].fd != e.fd {
      assert Among(orig, i, log[a]);
      var k :| 0 <= k < i && orig[k] == Client(log[a].fd, log[a].uid);
      assert orig[k].fd != orig[i].fd;
    }
  }

  lemma ScanSkip(orig: seq<Client>, rset: set<int>, i: nat, log: seq<Event>)
    requires i < |orig| && Scanned(orig, rset, i, log) && (orig[i].fd == -1 || orig[i].fd !in rset)
    ensures Scanned(orig, rset, i + 1, log)
  {
    hide LogFds;
  }

  /** An entry not yet reached is still as it was. */
  lemma NotYet(orig: seq<Client>, rset: set<int>, i: nat, log: seq<Event>)
    requires Distinct(orig) && i < |orig| && Scanned(orig, rset, i, log) && orig[i].fd != -1
    ensures orig[i].fd !in ClosedFds(log)
  {
    forall a | 0 <= a < |log| ensures log[a].fd != orig[i].fd {
      assert Among(orig, i, log[a]);
      var k :| 0 <= k < i && orig[k] == Client(log[a].fd, log[a].uid);
      assert orig[k].fd != orig[i].fd;
    }
  }

  /** A client from which a read gives nothing is closed; the n bytes of any other are handled. */
  predicate Kind(e: Event, input: int -> int) {
    if input(e.fd) == 0 then e == Closed(e.fd, e.uid) else input(e.fd) > 0 && e == Request(e.fd, e.uid, input(e.fd))
  }

  /** A read fails for some client that is ready. */
  ghost predicate ReadFails(orig: seq<Client>, rset: set<int>, input: int -> int) {
    exists k :: 0 <= k < |orig| && orig[k].fd != -1 && orig[k].fd in rset && input(orig[k].fd) < 0
  }

  lemma NoneFailed(orig: seq<Client>, rset: set<int>, log: seq<Event>, input: int -> int)
    requires Scanned(orig, rset, |orig|, log) && forall a | 0 <= a < |log| :: Kind(log[a], input)
    ensures !ReadFails(orig, rset, input)
  {
    forall k | 0 <= k < |orig| && orig[k].fd != -1 && orig[k].fd in rset ensures input(orig[k].fd) >= 0 {
      var a :| 0 <= a < |log| && log[a].fd == orig[k].fd;
    }
  }

  class Server {
    const table: Table
    const listenfd: int
    var allset: set<int>
    var maxfd: int
    var maxi: int

    ghost predicate Valid()
      reads this, table, table.client
    {
      && table.Valid() && listenfd >= 0 && listenfd !in Fds(table.client[..])
      && allset == {listenfd} + Fds(table.client[..])
      && (forall fd | fd in allset :: fd <= maxfd)
      && -1 <= maxi < table.client.Length
      && (forall k | maxi < k < table.client.Length :: table.client[k].fd == -1)
    }

    constructor (listenfd: int)
      requires listenfd >= 0
      ensures Valid() && fresh(table) && fresh(table.client) && allset == {listenfd} && maxfd == listenfd && maxi == -1
    {
      this.table := new Table();
      this.listenfd, allset, maxfd, maxi := listenfd, {listenfd}, listenfd, -1;
    }

    /** A new connection is in the table, in the set, and below both bounds. */
    method Accept(clifd: int, uid: int) returns (i: nat)
      requires Valid() && clifd >= 0 && clifd !in allset
      modifies this`allset, this`maxfd, this`maxi, table, table.client
      ensures Valid() && allset == old(allset) + {clifd}
      ensures i < table.client.Length && table.client[i] == Client(clifd, uid)
    {
      i := table.Add(clifd, uid);
      allset := allset + {clifd};
      if clifd > maxfd { maxfd := clifd; }
      if i > maxi { maxi := i; }
    }

    /** Closing one client. */
    method Close(clifd: int)
      requires Valid() && clifd in Fds(table.client[..]) && clifd >= 0
      modifies this`allset, table.client
      ensures Valid() && allset == old(allset) - {clifd}
              && Fds(table.client[..]) == old(Fds(table.client[..])) - {clifd}
      ensures forall k | 0 <= k < table.client.Length :: table.client[k]
                == if old(table.client[k].fd) == clifd then Client(-1, old(table.client[k].uid))
                   else old(table.client[k])
    {
      var ok := table.Del(clifd);
      allset := allset - {clifd};
    }

    /** The pass over the client table: every ready client is served once, under the uid recorded for its
        descriptor, no other is, and the closed ones leave the table and the set. */
    method Scan(rset: set<int>, input: int -> int) returns (ok: bool, ghost log: seq<Event>)
      requires Valid()
      modifies this`allset, table.client
      ensures ok <==> !ReadFails(old(table.client[..]), rset, input)
      ensures ok ==> forall a | 0 <= a < |log| :: Kind(log[a], input)
      ensures ok ==> Valid() && Scanned(old(table.client[..]), rset, old(table.client.Length), log)
      ensures ok ==> Kept(old(table.client[..]), table.client[..], log)
    {
      ghost var orig := table.client[..];
      log := [];
      var i := 0;
      while i <= maxi
        invariant Valid() && 0 <= i <= maxi + 1 && table.client == old(table.client) && maxi == old(maxi)
        invariant Scanned(orig, rset, i, log) && Kept(orig, table.client[..], log)
        invariant forall a | 0 <= a < |log| :: Kind(log[a], input)
        decreases maxi + 1 - i
      {
        if table.client[i].fd >= 0 { StillThere(orig, table.client[..], rset, i, log); }
        ok, log := Serve(i, rset, input, orig, log);
        if !ok { return; }
        i := i + 1;
      }
      ok := true;
      ScanRest(orig, rset, i, log);
      NoneFailed(orig, rset, log, input);
    }

    method Serve(i: nat, rset: set<int>, input: int -> int, ghost orig: seq<Client>, ghost log: seq<Event>)
      returns (ok: bool, ghost log': seq<Event>)
      requires Valid() && Distinct(orig) && i < |orig| && Scanned(orig, rset, i, log)
               && Kept(orig, table.client[..], log)
      modifies this`allset, table.client
      ensures ok <==> !(old(table.client[i].fd) >= 0 && old(table.client[i].fd) in rset
                        && input(old(table.client[i].fd)) < 0)
      ensures ok ==> log' == log || (|log'| == |log| + 1 && log' == log + [log'[|log|]] && Kind(log'[|log|], input))
      ensures ok ==> Valid() && Scanned(orig, rset, i + 1, log') && Kept(orig, table.client[..], log')
    {
      hide Scanned, LogFds, ClosedFds;
      log' := log;
      var c := table.client[i];
      assert table.client[..][i] == c;
      if orig[i].fd != -1 { NotYet(orig, rset, i, log); }
      if c.fd < 0 || c.fd !in rset {
        ScanSkip(orig, rset, i, log);
        return true, log;
      }
      var nread := input(c.fd);
      if nread < 0 { return false, log; }
      ghost var e := if nread == 0 then Closed(c.fd, c.uid) else Request(c.fd, c.uid, nread);
      log' := log + [e];
      ScanStep(orig, rset, i, log, e);
      LogMore(log, e);
      if nread == 0 {
        ghost var was := table.client[..];
        assert was[i].fd in Fds(was);
        Close(c.fd);
        KeptClosed(orig, was, table.client[..], log, i, e);
      }
      ok := true;
    }
  }

  lemma StillThere(orig: seq<Client>, cur: seq<Client>, rset: set<int>, i: nat, log: seq<Event>)
    requires Kept(orig, cur, log) && i < |cur| && cur[i].fd >= 0
    ensures orig[i].fd == cur[i].fd
  {
  }

  lemma KeptClosed(orig: seq<Client>, was: seq<Client>, cur: seq<Client>, log: seq<Event>, i: nat, e: Event)
    requires Distinct(orig) && i < |orig| && Kept(orig, was, log) && |cur| == |was| && e.Closed? && e.fd != -1
    requires orig[i].fd == e.fd && was[i] == orig[i]
    requires forall k | 0 <= k < |was| :: cur[k] == if was[k].fd == e.fd then Client(-1, was[k].uid) else was[k]
    ensures Kept(orig, cur, log + [e])
  {
    LogMore(log, e);
    forall k | 0 <= k < |orig|
      ensures cur[k] == if orig[k].fd != -1 && orig[k].fd in ClosedFds(log + [e]) then Client(-1, orig[k].uid)
                        else orig[k]
    {
      assert was[k] == if orig[k].fd != -1 && orig[k].fd in ClosedFds(log) then Client(-1, orig[k].uid) else orig[k];
      assert k != i ==> orig[k].fd != orig[i].fd;
    }
  }

  /** Beyond maxi there is nobody. */
  lemma ScanRest(orig: seq<Client>, rset: set<int>, i: nat, log: seq<Event>)
    requires Scanned(orig, rset, i, log) && forall k | i <= k < |orig| :: orig[k].fd == -1
    ensures Scanned(orig, rset, |orig|, log)
  {
    forall k | 0 <= k < |orig| && orig[k].fd != -1 && orig[k].fd in rset ensures orig[k].fd in LogFds(log) {
      assert k < i;
    }
    forall a | 0 <= a < |log| ensures Among(orig, |orig|, log[a]) { assert Among(orig, i, log[a]); }
  }
}
