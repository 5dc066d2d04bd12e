/** The event loop of the open server over poll: a packed array of descriptors beside the client table. */
module PollLoop {
  import opened ClientTable
  import opened ServerLog

  const POLL_NALLOC := 10

  /** struct pollfd with the two bits of revents the loop looks at; events is POLLIN throughout. */
  datatype PollFd = PollFd(fd: int, hup: bool, pollin: bool)

  predicate Ready(e: PollFd) { e.hup || e.pollin }

  // ----- the packed array -----

  predicate AllDistinct(s: seq<PollFd>) {
    && (forall i | 0 <= i < |s| :: s[i].fd >= 0)
    && (forall i, j | 0 <= i < j < |s| :: s[i].fd != s[j].fd)
  }

  function FdSet(s: seq<PollFd>): set<int> { set i | 0 <= i < |s| :: s[i].fd }

  /** Entry i is replaced by the last one, or dropped if it is the last. */
  function Packed(s: seq<PollFd>, i: nat): seq<PollFd>
    requires i < |s|
  {
    s[i := s[|s| - 1]][..|s| - 1]
  }

  lemma PackedSet(s: seq<PollFd>, i: nat)
    requires AllDistinct(s) && i < |s|
    ensures AllDistinct(Packed(s, i)) && FdSet(Packed(s, i)) == FdSet(s) - {s[i].fd}
    ensures |Packed(s, i)| == |s| - 1
    ensures forall k | 0 <= k < |s| - 1 :: Packed(s, i)[k] == if k == i then s[|s| - 1] else s[k]
  {
    var t, n := Packed(s, i), |s| - 1;
    forall x | x in FdSet(s) && x != s[i].fd ensures x in FdSet(t) {
      var k :| 0 <= k < |s| && s[k].fd == x;
      assert (if k == n then t[i] else t[k]) == s[k];
    }
    forall x | x in FdSet(t) ensures x in FdSet(s) && x != s[i].fd {
      var k :| 0 <= k < |t| && t[k].fd == x;
      assert t[k] == (if k == i then s[n] else s[k]);
    }
  }

  lemma AppendSet(s: seq<PollFd>, e: PollFd)
    requires AllDistinct(s) && e.fd >= 0 && e.fd !in FdSet(s)
    ensures AllDistinct(s + [e]) && FdSet(s + [e]) == FdSet(s) + {e.fd}
  {
    var t := s + [e];
    forall x | x in FdSet(s) ensures x in FdSet(t) {
      var k :| 0 <= k < |s| && s[k].fd == x;
      assert t[k] == s[k];
    }
    assert t[|s|] == e;
  }

  lemma {:induction false} DistinctCount(s: seq<PollFd>)
    requires AllDistinct(s)
    ensures |FdSet(s)| == |s|
    decreases |s|
  {
    if s != [] {
      var n := |s| - 1;
      DistinctCount(s[..n]);
      assert s == s[..n] + [s[n]];
      forall k | 0 <= k < n ensures s[..n][k].fd != s[n].fd { assert s[..n][k] == s[k]; }
      AppendSet(s[..n], s[n]);
    }
  }

  // ----- array and table -----

  /** Entry k of the table is for the descriptor in entry k of the array. */
  ghost predicate SameOrder(s: seq<PollFd>, clients: seq<Client>) {
    |s| <= |clients| && forall k | 0 <= k < |s| :: clients[k].fd == s[k].fd
  }

  /** The two orders part company when a client other than the last of the array is closed. */
  lemma ClosedOrder(s: seq<PollFd>, clients: seq<Client>, i: nat, clients': seq<Client>)
    requires AllDistinct(s) && i < |s| && SameOrder(s, clients) && |clients'| == |clients|
    requires forall k | 0 <= k < |clients| ::
               clients'[k] == if clients[k].fd == s[i].fd then Client(-1, clients[k].uid) else clients[k]
    ensures SameOrder(Packed(s, i), clients') <==> i == |s| - 1
  {
    var t, n := Packed(s, i), |s| - 1;
    forall k | 0 <= k < n ensures t[k] == if k == i then s[n] else s[k] { }
    if i < n { assert clients'[i].fd == -1 && t[i].fd == s[n].fd; }
  }

  /** While they agree the table is free beyond the clients of the array. */
  lemma FreeBeyond(s: seq<PollFd>, clients: seq<Client>)
    requires AllDistinct(s) && Distinct(clients) && FdSet(s) == Fds(clients) && SameOrder(s, clients)
    ensures forall k | 0 <= k < |clients| :: clients[k].fd == -1 <==> |s| <= k
  {
    forall k | |s| <= k < |clients| ensures clients[k].fd !in FdSet(s) {
      forall m | 0 <= m < |s| ensures s[m].fd != clients[k].fd { assert s[m].fd == clients[m].fd; }
    }
    forall k | |s| <= k < |clients| ensures clients[k].fd == -1 {
      assert clients[k].fd !in Fds(clients);
    }
  }

  /** So a new client, given the first free entry, gets the same place in both. */
  lemma AcceptedOrder(s: seq<PollFd>, clients: seq<Client>, i: nat, e: PollFd, uid: int, clients': seq<Client>)
    requires AllDistinct(s) && Distinct(clients) && FdSet(s) == Fds(clients) && SameOrder(s, clients)
    requires i <= |clients| && forall k | 0 <= k < i :: clients[k].fd != -1
    requires i < |clients| ==> clients[i].fd == -1
    requires |clients| <= |clients'| && i < |clients'| && clients'[i] == Client(e.fd, uid)
    requires forall k | 0 <= k < |clients| && k != i :: clients'[k] == clients[k]
    ensures i == |s| && SameOrder(s + [e], clients')
    ensures forall k | 0 <= k < |s| :: clients'[k] == clients[k]
  {
    FreeBeyond(s, clients);
    if i > 0 { assert clients[i - 1].fd != -1; }
    hide AllDistinct, Distinct, FdSet, Fds;
  }

  // ----- what one scan has done -----

  ghost predicate Among(orig: seq<PollFd>, e: PollFd) { exists m :: 1 <= m < |orig| && orig[m] == e }

  /** Of the entries orig[1..], those at i or later in cur are still to be looked at, as they were; the
      others have been served if they were ready, once each, and nothing else has been. */
  ghost predicate Scanned(orig: seq<PollFd>, cur: seq<PollFd>, i: nat, log: seq<Event>) {
    && i <= |cur| && OnceEach(log)
    && (forall k | i <= k < |cur| :: Among(orig, cur[k]))
    && (forall fd | fd in LogFds(log) :: fd !in FdSet(cur[i..]) && exists m :: 1 <= m < |orig| && orig[m].fd == fd)
    && (forall m {:trigger orig[m]} | 1 <= m < |orig| ::
          orig[m].fd in LogFds(log) <==> Ready(orig[m]) && orig[m].fd !in FdSet(cur[i..]))
    && (forall m {:trigger orig[m]} | 1 <= m < |orig| && orig[m].hup && orig[m].fd in LogFds(log) ::
            orig[m].fd in ClosedFds(log))
  }

  /** What is left after entry i is looked at: all the rest, whether it was packed away or passed over. */
  lemma RestSet(cur: seq<PollFd>, i: nat)
    requires AllDistinct(cur) && i < |cur|
    ensures FdSet(cur[i + 1..]) == FdSet(cur[i..]) - {cur[i].fd}
    ensures FdSet(Packed(cur, i)[i..]) == FdSet(cur[i..]) - {cur[i].fd}
  {
    var r := cur[i..];
    assert forall k | 0 <= k < |r| :: r[k] == cur[i + k];
    assert AllDistinct(r);
    assert Packed(cur, i)[i..] == Packed(r, 0);
    PackedSet(r, 0);
    assert cur[i + 1..] == r[1..];
    forall x | x in FdSet(r) && x != r[0].fd ensures x in FdSet(r[1..]) {
      var k :| 0 <= k < |r| && r[k].fd == x;
      assert r[1..][k - 1] == r[k];
    }
  }

  /** A hung-up client is closed; one with input is closed or its request is handled. */
  predicate Serves(e: Event, p: PollFd) { e.fd == p.fd && (p.hup ==> e.Closed?) }

  /** What is done for an entry: a client that hung up, or from which a read gives nothing, is closed; the n bytes
      of any other are handled. */
  predicate ServedAs(e: Event, p: PollFd, n: int) {
    && e.fd == p.fd && (p.hup || p.pollin)
    && if p.hup || n == 0 then e == Closed(p.fd, e.uid) else n > 0 && e == Request(p.fd, e.uid, n)
  }

  ghost predicate Kind(e: Event, orig: seq<PollFd>, input: int -> int) {
    exists m :: 1 <= m < |orig| && ServedAs(e, orig[m], input(orig[m].fd))
  }

  /** A read fails for some entry that did not hang up. */
  ghost predicate ReadFails(orig: seq<PollFd>, input: int -> int) {
    exists m :: 1 <= m < |orig| && orig[m].pollin && !orig[m].hup && input(orig[m].fd) < 0
  }

  lemma KindsMore(orig: seq<PollFd>, cur: seq<PollFd>, i: nat, log: seq<Event>, log': seq<Event>, input: int -> int)
    requires i < |cur| && Scanned(orig, cur, i, log) && forall a | 0 <= a < |log| :: Kind(log[a], orig, input)
    requires log' == log || (|log'| == |log| + 1 && log' == log + [log'[|log|]]
                             && ServedAs(log'[|log|], cur[i], input(cur[i].fd)))
    ensures forall a | 0 <= a < |log'| :: Kind(log'[a], orig, input)
  {
    hide ServedAs;
    assert Among(orig, cur[i]);
    var m :| 1 <= m < |orig| && orig[m] == cur[i];
    if log' != log { assert Kind(log'[|log|], orig, input); }
    forall a | 0 <= a < |log'| ensures Kind(log'[a], orig, input) {
      if a < |log| { assert log'[a] == log[a]; }
    }
  }

  /** When every ready entry has its event, no read has failed. */
  lemma NoneFailed(orig: seq<PollFd>, log: seq<Event>, input: int -> int)
    requires AllDistinct(orig) && forall a | 0 <= a < |log| :: Kind(log[a], orig, input)
    requires forall m | 1 <= m < |orig| && Ready(orig[m]) :: orig[m].fd in LogFds(log)
    ensures !ReadFails(orig, input)
  {
    forall m | 1 <= m < |orig| && orig[m].pollin && !orig[m].hup ensures input(orig[m].fd) >= 0 {
      assert Ready(orig[m]);
      var a :| 0 <= a < |log| && log[a].fd == orig[m].fd;
      var k :| 1 <= k < |orig| && ServedAs(log[a], orig[k], input(orig[k].fd));
      assert k == m;
    }
  }

  /** An entry is looked at: served if ready, and then passed over or packed away. */
  lemma ScanStep(orig: seq<PollFd>, cur: seq<PollFd>, i: nat, log: seq<Event>, cur': seq<PollFd>, i': nat,
                 log': seq<Event>)
    requires AllDistinct(orig) && AllDistinct(cur) && 1 <= i < |cur| && Scanned(orig, cur, i, log)
    requires if Ready(cur[i]) then |log'| > 0 && log' == log + [log'[|log'| - 1]] && Serves(log'[|log'| - 1], cur[i])
             else log' == log
    requires (cur' == cur && i' == i + 1) || (cur' == Packed(cur, i) && i' == i)
    ensures Scanned(orig, cur', i', log')
  {
    RestSet(cur, i);
    var m :| 1 <= m < |orig| && orig[m] == cur[i];
    assert cur[i..][0] == cur[i];
    assert cur[i].fd in FdSet(cur[i..]);
    if Ready(cur[i]) {
      LogMore(log, log'[|log'| - 1]);
    }
    forall k | i' <= k < |cur'| ensures Among(orig, cur'[k]) {
      var k0 := if cur' == cur then k else if k == i then |cur| - 1 else k;
      assert cur'[k] == cur[k0];
    }
    assert FdSet(cur'[i'..]) == FdSet(cur[i..]) - {cur[i].fd};
    SameEntry(orig, cur[i], m);
  }

  lemma SameEntry(orig: seq<PollFd>, e: PollFd, m: nat)
    requires AllDistinct(orig) && m < |orig| && orig[m] == e
    ensures forall k | 0 <= k < |orig| && orig[k].fd == e.fd :: orig[k] == e
  {
  }

  lemma ScanStart(orig: seq<PollFd>)
    requires AllDistinct(orig) && |orig| >= 1
    ensures Scanned(orig, orig, 1, [])
  {
    forall m | 1 <= m < |orig| ensures orig[m].fd in FdSet(orig[1..]) { assert orig[1..][m - 1] == orig[m]; }
    assert LogFds([]) == {};
    forall k | 1 <= k < |orig| ensures Among(orig, orig[k]) { assert 1 <= k < |orig| && orig[k] == orig[k]; }
  }

  /** At the end every ready entry has been served once, and no other. */
  lemma ScanEnd(orig: seq<PollFd>, cur: seq<PollFd>, log: seq<Event>)
    requires AllDistinct(orig) && Scanned(orig, cur, |cur|, log)
    ensures OnceEach(log)
    ensures forall fd :: fd in LogFds(log) <==> exists m :: 1 <= m < |orig| && orig[m].fd == fd && Ready(orig[m])
    ensures forall m | 1 <= m < |orig| && orig[m].hup :: orig[m].fd in ClosedFds(log)
  {
    assert cur[|cur|..] == [];
    forall fd | fd in LogFds(log) ensures exists m :: 1 <= m < |orig| && orig[m].fd == fd && Ready(orig[m]) {
      var m :| 1 <= m < |orig| && orig[m].fd == fd;
      assert orig[m].fd in LogFds(log);
    }
  }

  // ----- under whose uid -----

  /** The first event of the pass at its place in the array. */
  predicate First(at: seq<nat>, a: nat)
    requires a < |at|
  {
    a == 0 || at[a - 1] < at[a]
  }

  /** Event a came after those before it, and at the same place only if its entry was packed there. */
  predicate Follows(log: seq<Event>, at: seq<nat>, a: nat)
    requires a < |at| == |log|
  {
    a == 0 || at[a - 1] < at[a] || (at[a - 1] == at[a] && log[a - 1].Closed?)
  }

  /** Event a happened at place at[a], under the uid of the table's entry with that number. It was for the
      client that was there at the start of the pass if and only if it is the first one there; otherwise that
      client has been closed and another packed into its place. */
  ghost predicate PlacedAt(log: seq<Event>, at: seq<nat>, orig: seq<PollFd>, clients: seq<Client>, a: nat)
    requires a < |at| == |log|
  {
    && 1 <= at[a] < |orig| && at[a] < |clients| && log[a].uid == clients[at[a]].uid
    && (log[a].fd == orig[at[a]].fd <==> First(at, a))
    && (!First(at, a) ==> orig[at[a]].fd in ClosedFds(log))
    && Follows(log, at, a)
  }

  ghost predicate Placed(log: seq<Event>, at: seq<nat>, orig: seq<PollFd>, clients: seq<Client>) {
    |at| == |log| && forall a | 0 <= a < |log| :: PlacedAt(log, at, orig, clients, a)
  }

  /** Entries after i are as they were; the one at i too, unless another was packed there just now. */
  ghost predicate Standing(orig: seq<PollFd>, cur: seq<PollFd>, i: nat, log: seq<Event>, at: seq<nat>) {
    && |at| == |log| && |cur| <= |orig| && (forall k | i < k < |cur| :: cur[k] == orig[k])
    && if at != [] && at[|at| - 1] == i
       then log[|log| - 1].Closed? && orig != [] && i < |orig| && orig[i].fd in ClosedFds(log)
            && (i < |cur| ==> cur[i].fd != orig[i].fd)
       else (at != [] ==> at[|at| - 1] < i) && (i < |cur| ==> cur[i] == orig[i])
  }

  lemma PlacedMore(orig: seq<PollFd>, cur: seq<PollFd>, clients: seq<Client>, i: nat, log: seq<Event>, at: seq<nat>,
                   e: Event)
    requires AllDistinct(orig) && 1 <= i < |cur| && i < |clients|
    requires Placed(log, at, orig, clients) && Standing(orig, cur, i, log, at)
    requires e.fd == cur[i].fd && e.uid == clients[i].uid
    ensures Placed(log + [e], at + [i], orig, clients)
  {
    hide PlacedAt, Standing, AllDistinct;
    var log', at' := log + [e], at + [i];
    forall a | 0 <= a < |log'| ensures PlacedAt(log', at', orig, clients, a) {
      if a < |log| {
        assert PlacedAt(log, at, orig, clients, a);
        PlacedKept(orig, clients, i, log, at, e, a);
      } else {
        PlacedLast(orig, cur, clients, i, log, at, e);
      }
    }
  }

  lemma PlacedKept(orig: seq<PollFd>, clients: seq<Client>, i: nat, log: seq<Event>, at: seq<nat>, e: Event, a: nat)
    requires a < |at| == |log| && PlacedAt(log, at, orig, clients, a)
    ensures PlacedAt(log + [e], at + [i], orig, clients, a)
  {
    LogMore(log, e);
    hide ClosedFds, LogFds, OnceEach;
    assert (at + [i])[a] == at[a] && (log + [e])[a] == log[a];
    if a > 0 { assert (at + [i])[a - 1] == at[a - 1] && (log + [e])[a - 1] == log[a - 1]; }
  }

  lemma PlacedLast(orig: seq<PollFd>, cur: seq<PollFd>, clients: seq<Client>, i: nat, log: seq<Event>, at: seq<nat>,
                   e: Event)
    requires 1 <= i < |cur| && i < |clients| && Standing(orig, cur, i, log, at)
    requires e.fd == cur[i].fd && e.uid == clients[i].uid
    ensures PlacedAt(log + [e], at + [i], orig, clients, |log|)
  {
    LogMore(log, e);
    hide ClosedFds, LogFds, OnceEach;
    var n := |log|;
    assert (at + [i])[n] == i && (log + [e])[n] == e;
    if n > 0 { assert (at + [i])[n - 1] == at[n - 1] && (log + [e])[n - 1] == log[n - 1]; }
  }

  /** A request leaves the array alone, a closing packs it. */
  lemma StandingNext(orig: seq<PollFd>, cur: seq<PollFd>, i: nat, log: seq<Event>, at: seq<nat>, e: Event)
    requires AllDistinct(orig) && 1 <= i < |cur| && Standing(orig, cur, i, log, at) && e.fd == cur[i].fd
    ensures Standing(orig, cur, i + 1, log, at) && Standing(orig, cur, i + 1, log + [e], at + [i])
    ensures e.Closed? ==> Standing(orig, Packed(cur, i), i, log + [e], at + [i])
  {
    LogMore(log, e);
    hide ClosedFds, LogFds, OnceEach;
    var n := |cur| - 1;
    if i < n { assert cur[n] == orig[n] && orig[n].fd != orig[i].fd; }
  }

  /** With array and table in the same order at the start, every event that is the first at its place is under
      the uid recorded for its own client. */
  ghost predicate OwnUids(log: seq<Event>, at: seq<nat>, clients: seq<Client>)
    requires |at| == |log|
  {
    forall a | 0 <= a < |log| && First(at, a) :: Client(log[a].fd, log[a].uid) in clients
  }

  lemma PlacedOwn(log: seq<Event>, at: seq<nat>, orig: seq<PollFd>, clients: seq<Client>)
    requires Placed(log, at, orig, clients) && SameOrder(orig, clients)
    ensures OwnUids(log, at, clients)
  {
    forall a | 0 <= a < |log| && First(at, a) ensures Client(log[a].fd, log[a].uid) in clients {
      assert PlacedAt(log, at, orig, clients, a);
      assert clients[at[a]] == Client(log[a].fd, log[a].uid);
    }
  }

  // ----- the server -----

  class Server {
    const table: Table
    const listenfd: int
    var pollfd: array<PollFd>   // maxfd is its length
    var numfd: nat

    ghost predicate Valid()
      reads this, table, table.client, pollfd
    {
      && table.Valid() && 1 <= numfd <= pollfd.Length
      && AllDistinct(pollfd[..numfd]) && pollfd[0].fd == listenfd
      && FdSet(pollfd[..numfd]) == Fds(table.client[..])
    }

    /** Entry k of the table is for entry k of the array. */
    ghost predicate InOrder()
      reads this, table, table.client, pollfd
    {
      numfd <= pollfd.Length && SameOrder(pollfd[..numfd], table.client[..])
    }

    /** The table has an entry under every number the array uses, if not always the same client's. */
    lemma Covered()
      requires Valid()
      ensures numfd <= table.client.Length
    {
      DistinctCount(pollfd[..numfd]);
      FdsCount(table.client[..]);
    }

    /** loop() up to the first poll: the listening descriptor is a client too. */
    constructor (listenfd: int)
      requires listenfd >= 0
      ensures Valid() && fresh(table) && fresh(table.client) && fresh(pollfd) && numfd == 1
      ensures Fds(table.client[..]) == {listenfd} && InOrder() && this.listenfd == listenfd
    {
      var t := new Table();
      this.table, this.listenfd := t, listenfd;
      pollfd := new PollFd[POLL_NALLOC](_ => PollFd(-1, false, false));
      numfd := 1;
      new;
      var i := table.Add(listenfd, 0);
      AcceptedOrder([], [], i, PollFd(listenfd, false, false), 0, table.client[..]);
      pollfd[0] := PollFd(listenfd, false, false);
      assert pollfd[..1] == [PollFd(listenfd, false, false)];
    }

    /** A new connection: the table and the array both get its descriptor. */
    method Accept(clifd: int, uid: int)
      requires Valid() && clifd >= 0 && clifd !in Fds(table.client[..])
      modifies this`pollfd, this`numfd, table, table.client, pollfd
      ensures Valid() && (pollfd == old(pollfd) || fresh(pollfd))
              && (table.client == old(table.client) || fresh(table.client))
      ensures pollfd[..numfd] == old(pollfd[..numfd]) + [PollFd(clifd, false, false)]
      ensures Fds(table.client[..]) == old(Fds(table.client[..])) + {clifd}
      ensures old(InOrder()) ==> InOrder() && table.client[numfd - 1] == Client(clifd, uid)
      ensures old(InOrder()) ==> forall k | 0 <= k < old(numfd) :: table.client[k] == old(table.client[..])[k]
    {
      hide FdSet, AllDistinct, Distinct, Fds, SameOrder;
      ghost var was, clients := pollfd[..numfd], table.client[..];
      var i := table.Add(clifd, uid);
      ghost var e := PollFd(clifd, false, false);
      if SameOrder(was, clients) { AcceptedOrder(was, clients, i, e, uid, table.client[..]); }
      if numfd == pollfd.Length { Grow(); }
      AppendSet(was, PollFd(clifd, false, false));
      pollfd[numfd] := PollFd(clifd, false, false);
      numfd := numfd + 1;
      assert pollfd[..numfd] == was + [PollFd(clifd, false, false)];
      assert pollfd[0] == pollfd[..numfd][0] == was[0];
    }

    /** grow_pollfd */
    method Grow()
      requires numfd == pollfd.Length
      modifies this`pollfd
      ensures fresh(pollfd) && pollfd.Length == numfd + 10 && pollfd[..numfd] == old(pollfd[..numfd])
    {
      var p := new PollFd[numfd + POLL_NALLOC](_ => PollFd(-1, false, false));
      forall k | 0 <= k < numfd { p[k] := pollfd[k]; }
      assert p[..numfd] == pollfd[..numfd];
      pollfd := p;
    }

    /** hungup: the client's entries go, the array is packed, the table is not. client_del always finds its
        entry. */
    method Hangup(i: nat)
      requires Valid() && 1 <= i < numfd
      modifies this`numfd, table.client, pollfd
      ensures Valid() && pollfd[..numfd] == Packed(old(pollfd[..numfd]), i)
      ensures Fds(table.client[..]) == old(Fds(table.client[..])) - {old(pollfd[i].fd)}
      ensures forall k | 0 <= k < table.client.Length :: table.client[k]
                == if old(table.client[k].fd) == old(pollfd[i].fd) then Client(-1, old(table.client[k].uid))
                   else old(table.client[k])
      ensures old(InOrder()) ==> (InOrder() <==> i == old(numfd) - 1)
    {
      ghost var was, clients := pollfd[..numfd], table.client[..];
      assert was[i] == pollfd[i] && was[0] == pollfd[0];
      PackedSet(was, i);
      assert was[i].fd in FdSet(was);
      var ok := table.Del(pollfd[i].fd);
      assert ok;
      if i < numfd - 1 { pollfd[i] := pollfd[numfd - 1]; }
      numfd := numfd - 1;
      assert pollfd[..numfd] == Packed(was, i);
      assert pollfd[0] == was[0];
      if SameOrder(was, clients) { ClosedOrder(was, clients, i, table.client[..]); }
    }

    /** Entry i: hung up, or readable, or neither. A read of nothing is a hang-up; a read error ends the
        server. The entry is looked at again when another was packed into its place. What is done is done
        under the uid in entry i of the table. */
    method Serve(i: nat, nread: int, ghost orig: seq<PollFd>, ghost log: seq<Event>)
      returns (ok: bool, next: nat, ghost log': seq<Event>)
      requires Valid() && AllDistinct(orig) && 1 <= i < numfd && Scanned(orig, pollfd[..numfd], i, log)
      modifies this`numfd, table.client, pollfd
      ensures ok <==> !(old(pollfd[i].pollin) && !old(pollfd[i].hup) && nread < 0)
      ensures ok ==> var e := old(pollfd[i]);
                if e.hup || e.pollin then |log'| == |log| + 1 && ServedAs(log'[|log|], e, nread) else log' == log
      ensures ok ==> Valid() && 1 <= next <= numfd && Scanned(orig, pollfd[..numfd], next, log')
      ensures ok ==> numfd - next < old(numfd) - i
      ensures ok ==> log <= log' && ClosedFds(log) <= ClosedFds(log')
      ensures ok ==> Fds(table.client[..]) == old(Fds(table.client[..])) - (ClosedFds(log') - ClosedFds(log))
      ensures ok ==> i < old(table.client.Length) && Served(log, log', old(pollfd[i].fd), old(table.client[i].uid))
      ensures ok ==> var was := old(pollfd[..numfd]);
                if log' != log && log'[|log|].Closed? then next == i && pollfd[..numfd] == Packed(was, i)
                else next == i + 1 && pollfd[..numfd] == was
      ensures ok ==> forall k | 0 <= k < table.client.Length :: table.client[k].uid == old(table.client[k].uid)
    {
      hide Scanned;
      Covered();
      ghost var cur := pollfd[..numfd];
      assert cur[i] == pollfd[i];
      log', next := log, i;
      if pollfd[i].hup || (pollfd[i].pollin && nread == 0) {
        ghost var e := Closed(pollfd[i].fd, table.client[i].uid);
        log' := log + [e];
        LogMore(log, e);
        NotYet(orig, cur, i, log);
        Hangup(i);
      } else {
        if pollfd[i].pollin {
          if nread < 0 { return false, i, log; }
          ghost var e := Request(pollfd[i].fd, table.client[i].uid, nread);
          log' := log + [e];
          LogMore(log, e);
        }
        next := i + 1;
      }
      ScanStep(orig, cur, i, log, pollfd[..numfd], next, log');
      ok := true;
    }

    /** One pass over the array after poll returned, where a read from a descriptor gives input of it: every ready
        entry is served once, no other is, and the closed ones are gone. at says where in the array each event
        happened, and so under whose uid. */
    method Scan(input: int -> int) returns (ok: bool, ghost log: seq<Event>, ghost at: seq<nat>)
      requires Valid()
      modifies this`numfd, table.client, pollfd
      ensures ok <==> !ReadFails(old(pollfd[..numfd]), input)
      ensures ok ==> Valid() && OnceEach(log) && forall a | 0 <= a < |log| :: Kind(log[a], old(pollfd[..numfd]), input)
      ensures ok ==> forall fd :: fd in LogFds(log) <==>
                exists m :: 1 <= m < old(numfd) && old(pollfd[..])[m].fd == fd
                            && (old(pollfd[..])[m].hup || old(pollfd[..])[m].pollin)
      ensures ok ==> forall m | 1 <= m < old(numfd) && old(pollfd[..])[m].hup :: old(pollfd[..])[m].fd in ClosedFds(log)
      ensures ok ==> Fds(table.client[..]) == old(Fds(table.client[..])) - ClosedFds(log)
      ensures ok ==> Placed(log, at, old(pollfd[..numfd]), old(table.client[..]))
      ensures ok && old(InOrder()) ==> OwnUids(log, at, old(table.client[..]))
    {
      ghost var orig, all, clients := pollfd[..numfd], pollfd[..], table.client[..];
      assert AllDistinct(orig) && forall m | 0 <= m < numfd :: orig[m] == all[m];
      ScanStart(orig);
      log, at := [], [];
      var i := 1;
      hide Scanned, FdSet, LogFds, ClosedFds, OnceEach, Fds, AllDistinct, Distinct, Placed, Follows, Kind;
      assert Placed(log, at, orig, clients) by { NothingPlaced(orig, clients); }
      assert ClosedFds([]) == {} by { EmptyLog(); }
      while i < numfd
        invariant Valid() && 1 <= i <= numfd && Scanned(orig, pollfd[..numfd], i, log)
        invariant Fds(table.client[..]) == old(Fds(table.client[..])) - ClosedFds(log)
        invariant |table.client[..]| == |clients|
                  && forall k | 0 <= k < |clients| :: table.client[k].uid == clients[k].uid
        invariant forall a | 0 <= a < |log| :: Kind(log[a], orig, input)
        invariant Placed(log, at, orig, clients) && Standing(orig, pollfd[..numfd], i, log, at)
        decreases numfd - i
      {
        ghost var was := log;
        ghost var cur, j := pollfd[..numfd], i;
        Covered();
        ScannedAmong(orig, cur, i, log);
        ok, i, log := Serve(i, input(pollfd[i].fd), orig, log);
        if !ok { return; }
        KindsMore(orig, cur, j, was, log, input);
        at := PlacedStep(orig, cur, clients, j, was, at, log, pollfd[..numfd], i);
        Removed(old(Fds(table.client[..])), ClosedFds(was), ClosedFds(log));
      }
      ok := true;
      assert i == |pollfd[..numfd]|;
      ScanEnd(orig, pollfd[..numfd], log);
      assert !ReadFails(orig, input) by { NoneFailed(orig, log, input); }
      if SameOrder(orig, clients) { PlacedOwn(log, at, orig, clients); }
    }
  }

  lemma ScannedAmong(orig: seq<PollFd>, cur: seq<PollFd>, i: nat, log: seq<Event>)
    requires Scanned(orig, cur, i, log) && i < |cur|
    ensures exists m :: 1 <= m < |orig| && orig[m] == cur[i]
  {
    assert Among(orig, cur[i]);
  }

  lemma NothingPlaced(orig: seq<PollFd>, clients: seq<Client>)
    ensures Placed([], [], orig, clients)
  {
  }

  lemma EmptyLog()
    ensures ClosedFds([]) == {}
  {
  }

  /** At most one event, for this descriptor under this uid. */
  predicate Served(log: seq<Event>, log': seq<Event>, fd: int, uid: int) {
    log' == log
    || (|log'| == |log| + 1 && log' == log + [log'[|log|]] && log'[|log|].fd == fd && log'[|log|].uid == uid)
  }

  lemma PlacedStep(orig: seq<PollFd>, cur: seq<PollFd>, clients: seq<Client>, i: nat, log: seq<Event>, at: seq<nat>,
                   log': seq<Event>, cur': seq<PollFd>, i': nat) returns (at': seq<nat>)
    requires AllDistinct(orig) && 1 <= i < |cur| && i < |clients|
    requires Placed(log, at, orig, clients) && Standing(orig, cur, i, log, at)
    requires Served(log, log', cur[i].fd, clients[i].uid)
    requires if log' != log && log'[|log|].Closed? then i' == i && cur' == Packed(cur, i)
             else i' == i + 1 && cur' == cur
    ensures Placed(log', at', orig, clients) && Standing(orig, cur', i', log', at')
  {
    hide Placed, Standing, AllDistinct, Packed;
    if log' == log {
      at' := at;
      StandingNext(orig, cur, i, log, at, Closed(cur[i].fd, 0));
    } else {
      at' := at + [i];
      PlacedMore(orig, cur, clients, i, log, at, log'[|log|]);
      StandingNext(orig, cur, i, log, at, log'[|log|]);
    }
  }

  lemma Removed(a: set<int>, c: set<int>, d: set<int>)
    requires c <= d
    ensures (a - c) - (d - c) == a - d
  {
  }

  lemma NotYet(orig: seq<PollFd>, cur: seq<PollFd>, i: nat, log: seq<Event>)
    requires i < |cur| && Scanned(orig, cur, i, log)
    ensures cur[i].fd !in LogFds(log) && cur[i].fd !in ClosedFds(log)
  {
    assert cur[i..][0] == cur[i];
    assert cur[i].fd in FdSet(cur[i..]);
    forall fd | fd in ClosedFds(log) ensures fd in LogFds(log) { }
  }

  /** Two clients connect and the first hangs up: from then on whatever the second asks for is done under the
      uid of the first. */
  method WrongUid() returns (server: Server)
    ensures fresh(server) && server.Valid() && server.numfd == 2
    ensures server.pollfd[1].fd == 5 && Client(5, 200) in server.table.client[..]
    ensures 1 < server.table.client.Length && server.table.client[1].uid == 100
  {
    hide FdSet, AllDistinct, Distinct, SameOrder;
    server := new Server(3);
    assert Fds(server.table.client[..]) == {3};
    server.Accept(4, 100);
    server.Accept(5, 200);
    ghost var fds, clients := server.pollfd[..server.numfd], server.table.client[..];
    assert fds[1].fd == 4 && fds[2].fd == 5 && clients[1] == Client(4, 100) && clients[2] == Client(5, 200);
    server.Hangup(1);
    assert server.pollfd[..server.numfd] == Packed(fds, 1);
    assert server.pollfd[1] == server.pollfd[..server.numfd][1];
  }
}
