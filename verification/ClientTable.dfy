/** The open server's table of connected clients. */
module ClientTable {
  const NALLOC := 10

  /** fd is -1 in an entry that is available. */
  datatype Client = Client(fd: int, uid: int)

  const FREE := Client(-1, 0)

  /** No descriptor is in two entries. */
  predicate Distinct(s: seq<Client>) {
    && (forall i | 0 <= i < |s| :: s[i].fd >= -1)
    && (forall i, j | 0 <= i < j < |s| && s[i].fd != -1 :: s[i].fd != s[j].fd)
  }

  function Fds(s: seq<Client>): set<int> { set i | 0 <= i < |s| && s[i].fd != -1 :: s[i].fd }

  lemma FdsSet(s: seq<Client>, i: nat, fd: int, uid: int)
    requires Distinct(s) && i < |s| && s[i].fd == -1 && fd >= 0 && fd !in Fds(s)
    ensures Distinct(s[i := Client(fd, uid)]) && Fds(s[i := Client(fd, uid)]) == Fds(s) + {fd}
  {
    var t := s[i := Client(fd, uid)];
    forall x | x in Fds(s) ensures x in Fds(t) {
      var k :| 0 <= k < |s| && s[k].fd != -1 && s[k].fd == x;
      assert t[k] == s[k];
    }
    assert t[i].fd == fd;
    forall k | 0 <= k < |s| && s[k].fd != -1 ensures s[k].fd != fd { assert s[k].fd in Fds(s); }
  }

  lemma FdsClear(s: seq<Client>, i: nat, uid: int)
    requires Distinct(s) && i < |s| && s[i].fd != -1
    ensures Distinct(s[i := Client(-1, uid)]) && Fds(s[i := Client(-1, uid)]) == Fds(s) - {s[i].fd}
  {
    var t := s[i := Client(-1, uid)];
    forall x | x in Fds(s) && x != s[i].fd ensures x in Fds(t) {
      var k :| 0 <= k < |s| && s[k].fd != -1 && s[k].fd == x;
      assert t[k] == s[k];
    }
  }

  lemma FdsGrown(s: seq<Client>, t: seq<Client>)
    requires Distinct(s) && |s| <= |t| && t[..|s|] == s && forall k | |s| <= k < |t| :: t[k].fd == -1
    ensures Distinct(t) && Fds(t) == Fds(s)
  {
    assert forall k | 0 <= k < |s| :: t[k] == t[..|s|][k];
    forall x | x in Fds(s) ensures x in Fds(t) {
      var k :| 0 <= k < |s| && s[k].fd != -1 && s[k].fd == x;
      assert t[k] == s[k];
    }
  }

  /** There are at most as many descriptors as entries. */
  lemma {:induction false} FdsCount(s: seq<Client>)
    ensures |Fds(s)| <= |s|
    decreases |s|
  {
    if s != [] {
      var n := |s| - 1;
      FdsCount(s[..n]);
      var all := Fds(s[..n]) + {s[n].fd};
      forall x | x in Fds(s) ensures x in all {
        var k :| 0 <= k < |s| && s[k].fd != -1 && s[k].fd == x;
        if k < n { assert s[..n][k] == s[k]; }
      }
      Subset(Fds(s), all);
    }
  }

  lemma Subset(a: set<int>, b: set<int>)
    requires a <= b
    ensures |a| <= |b|
  {
    assert b == a + (b - a);
  }

  class Table {
    var client: array<Client>   // client_size is its length

    ghost predicate Valid()
      reads this, client
    {
      Distinct(client[..])
    }

    constructor ()
      ensures Valid() && fresh(client) && client.Length == 0
    {
      client := new Client[0];
    }

    /** client_alloc */
    method Alloc()
      requires Valid()
      modifies this
      ensures Valid() && fresh(client) && client.Length == old(client.Length) + 10
      ensures client[..old(client.Length)] == old(client[..])
      ensures forall k | old(client.Length) <= k < client.Length :: client[k].fd == -1
    {
      var size := client.Length;
      var c := new Client[size + NALLOC](_ => FREE);
      forall k | 0 <= k < size { c[k] := client[k]; }
      ghost var was := client[..];
      client := c;
      assert client[..size] == was;
      FdsGrown(was, client[..]);
    }

    /** The search of client_add: the first available entry. */
    method FirstFree() returns (found: bool, i: nat)
      ensures i <= client.Length && (found <==> i < client.Length)
      ensures (forall k | 0 <= k < i :: client[k].fd != -1) && (found ==> client[i].fd == -1)
    {
      i := 0;
      while i < client.Length
        invariant i <= client.Length && forall k | 0 <= k < i :: client[k].fd != -1
      {
        if client[i].fd == -1 { return true, i; }
        i := i + 1;
      }
      found := false;
    }

    /** client_add: the first available entry, in a larger table if there is none; all others stay. */
    method Add(fd: int, uid: int) returns (i: nat)
      requires Valid() && fd >= 0 && fd !in Fds(client[..])
      modifies this, client
      ensures Valid() && (client == old(client) || fresh(client))
      ensures i < client.Length && client[i] == Client(fd, uid) && i <= old(client.Length) <= client.Length
      ensures forall k | 0 <= k < i :: old(client[..])[k].fd != -1
      ensures forall k | 0 <= k < client.Length && k != i ::
                if k < old(client.Length) then client[k] == old(client[..])[k] else client[k].fd == -1
      ensures i < old(client.Length) ==> old(client[..])[i].fd == -1
      ensures Fds(client[..]) == old(Fds(client[..])) + {fd}
    {
      var found;
      found, i := FirstFree();
      ghost var first := client[..];
      if !found {
        Alloc();
        FdsGrown(first, client[..]);
        assert forall k | 0 <= k < |first| :: client[k] == client[..|first|][k];
        found, i := FirstFree();
        assert client[|first|].fd == -1;
      }
      FdsSet(client[..], i, fd, uid);
      ghost var was := client[..];
      client[i] := Client(fd, uid);
      assert client[..] == was[i := Client(fd, uid)];
    }

    /** client_del: frees the entry with this descriptor; without one the server quits. */
    method Del(fd: int) returns (ok: bool)
      requires Valid() && fd >= 0
      modifies client
      ensures Valid() && (ok <==> fd in old(Fds(client[..])))
      ensures Fds(client[..]) == old(Fds(client[..])) - {fd}
      ensures forall k | 0 <= k < client.Length ::
                client[k] == if old(client[k].fd) == fd then Client(-1, old(client[k].uid)) else old(client[k])
    {
      for i := 0 to client.Length
        invariant client[..] == old(client[..]) && forall k | 0 <= k < i :: client[k].fd != fd
      {
        if client[i].fd == fd {
          FdsClear(client[..], i, client[i].uid);
          ghost var was := client[..];
          assert forall k | 0 <= k < |was| && k != i :: was[k].fd != fd;
          client[i] := client[i].(fd := -1);
          assert client[..] == was[i := Client(-1, was[i].uid)];
          return true;
        }
      }
      ok := false;
    }
  }
}
