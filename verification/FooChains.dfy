/** The memory of the table and what single writes do to its chains. */
module FooChains {
  import opened Links
  import opened Wrappers
  import opened FooTable

  datatype Mem = Mem(heads: seq<nat>, heap: map<nat, Obj>)

  function HeadOfObj(mem: Mem, o: nat): nat {
    if o in mem.heap && HashOf(mem.heap[o].id) < |mem.heads| then mem.heads[HashOf(mem.heap[o].id)] else 0
  }

  function SetCount(mem: Mem, o: nat, d: int): Mem
    requires o in mem.heap
  {
    mem.(heap := mem.heap[o := mem.heap[o].(count := mem.heap[o].count + d)])
  }

  function SetNext(mem: Mem, o: nat, n: nat): Mem
    requires o in mem.heap
  {
    mem.(heap := mem.heap[o := mem.heap[o].(next := n)])
  }

  function SetHead(mem: Mem, h: nat, n: nat): Mem { if h < |mem.heads| then mem.(heads := mem.heads[h := n]) else mem }

  /** Each chain holds exactly the listed objects that hash to it. */
  ghost predicate ChainsOk(mem: Mem, order: seq<nat>) {
    && |mem.heads| == NHASH && NoDup(order) && (forall o | o in order :: o in mem.heap && o != 0)
    && forall h {:trigger mem.heads[h]} | 0 <= h < NHASH :: Path(mem.heap, mem.heads[h], Chain(order, mem.heap, h))
  }

  // ----- chains -----

  /** The chain of a listed object and its place on it. */
  lemma OnChain(mem: Mem, order: seq<nat>, o: nat) returns (i: nat)
    requires ChainsOk(mem, order) && o in order
    ensures o in mem.heap && o != 0
    ensures var s := Chain(order, mem.heap, HashOf(mem.heap[o].id));
            i < |s| && s[i] == o && NoDup(s) && Path(mem.heap, mem.heads[HashOf(mem.heap[o].id)], s)
  {
    var s := Chain(order, mem.heap, HashOf(mem.heap[o].id));
    ChainElements(order, mem.heap, HashOf(mem.heap[o].id));
    assert o in s;
    i :| 0 <= i < |s| && s[i] == o;
  }

  /** Writes that leave identities and the listed objects' next fields alone. */
  lemma ChainsFrame(mem: Mem, mem': Mem, order: seq<nat>)
    requires ChainsOk(mem, order) && mem'.heads == mem.heads
    requires forall o | o in order ::
               o in mem'.heap && mem'.heap[o].id == mem.heap[o].id && mem'.heap[o].next == mem.heap[o].next
    ensures ChainsOk(mem', order)
  {
    forall h | 0 <= h < NHASH ensures Path(mem'.heap, mem'.heads[h], Chain(order, mem'.heap, h)) {
      ChainFrame(order, mem.heap, mem'.heap, h);
      ChainElements(order, mem.heap, h);
      PathFrame(mem.heap, mem'.heap, mem.heads[h], Chain(order, mem.heap, h));
    }
  }

  lemma LinkChains(mem: Mem, order: seq<nat>, o: nat)
    requires ChainsOk(mem, order) && o !in order && o in mem.heap && o != 0
    requires mem.heap[o].next == mem.heads[HashOf(mem.heap[o].id)]
    ensures ChainsOk(SetHead(mem, HashOf(mem.heap[o].id), o), [o] + order)
  {
    var k := HashOf(mem.heap[o].id);
    var mem', order' := SetHead(mem, k, o), [o] + order;
    assert order'[1..] == order;
    forall h | 0 <= h < NHASH ensures Path(mem'.heap, mem'.heads[h], Chain(order', mem'.heap, h)) {
      var s := Chain(order, mem.heap, h);
      assert Path(mem.heap, mem.heads[h], s);
      if h == k { assert ([o] + s)[1..] == s; }
    }
  }

  lemma CutHeadChains(mem: Mem, order: seq<nat>, o: nat)
    requires ChainsOk(mem, order) && o in order && mem.heads[HashOf(mem.heap[o].id)] == o
    ensures ChainsOk(SetHead(mem, HashOf(mem.heap[o].id), mem.heap[o].next), Remove(order, o))
  {
    var k := HashOf(mem.heap[o].id);
    var mem' := SetHead(mem, k, mem.heap[o].next);
    var i := OnChain(mem, order, o);
    RemoveElements(order, o);
    forall h | 0 <= h < NHASH ensures Path(mem'.heap, mem'.heads[h], Chain(Remove(order, o), mem'.heap, h)) {
      var s := Chain(order, mem.heap, h);
      assert Path(mem.heap, mem.heads[h], s);
      ChainRemove(order, mem.heap, h, o);
      ChainElements(order, mem.heap, h);
      if h != k { RemoveAbsent(s, o); }
    }
  }

  lemma CutChains(mem: Mem, order: seq<nat>, o: nat, t: nat)
    requires ChainsOk(mem, order) && o in order && t in mem.heap && mem.heap[t].next == o
    requires ScanClaim(Chain(order, mem.heap, HashOf(mem.heap[o].id)), o, t)
    ensures ChainsOk(SetNext(mem, t, mem.heap[o].next), Remove(order, o))
  {
    var k := HashOf(mem.heap[o].id);
    var mem' := SetNext(mem, t, mem.heap[o].next);
    RemoveElements(order, o);
    forall h | 0 <= h < NHASH ensures Path(mem'.heap, mem'.heads[h], Chain(Remove(order, o), mem'.heap, h)) {
      var s := Chain(order, mem.heap, h);
      assert Path(mem.heap, mem.heads[h], s);
      ChainRemove(order, mem.heap, h, o);
      ChainElements(order, mem.heap, h);
      ChainElements(order, mem.heap, k);
      ChainFrame(Remove(order, o), mem.heap, mem'.heap, h);
      if h == k {
        PathRemove(mem.heap, mem.heads[h], s, o, t);
      } else {
        RemoveAbsent(s, o);
        PathFrame(mem.heap, mem'.heap, mem.heads[h], s);
      }
    }
  }

  /** Counts anywhere, next fields of objects not listed, freeing of objects not listed. */
  lemma Unlisted(mem: Mem, mem': Mem, order: seq<nat>, o: nat)
    requires ChainsOk(mem, order) && mem'.heads == mem.heads
    requires forall x | x in mem.heap && x != o :: x in mem'.heap && mem'.heap[x] == mem.heap[x]
    requires o in order && o in mem.heap ==>
               o in mem'.heap && mem'.heap[o].id == mem.heap[o].id && mem'.heap[o].next == mem.heap[o].next
    ensures ChainsOk(mem', order)
  {
    hide Path, Chain;
    ChainsFrame(mem, mem', order);
  }

  // ----- walking a chain -----

  ghost predicate WalkClaim(heap: map<nat, Obj>, s: seq<nat>, id: int, cur: nat) {
    exists i :: 0 <= i <= |s| && cur == Nth(s, i) && forall j | 0 <= j < i :: s[j] in heap && heap[s[j]].id != id
  }

  ghost predicate ScanClaim(s: seq<nat>, o: nat, t: nat) {
    exists i, j :: 0 <= i < j < |s| && s[i] == t && s[j] == o
  }

  lemma WalkNext(mem: Mem, order: seq<nat>, id: int, cur: nat)
    requires ChainsOk(mem, order) && WalkClaim(mem.heap, Chain(order, mem.heap, HashOf(id)), id, cur)
    ensures cur != 0 ==> cur in mem.heap && cur in order && (mem.heap[cur].next != 0 ==> mem.heap[cur].next in order)
    ensures cur != 0 && mem.heap[cur].id == id ==> FindFirst(order, mem.heap, id) == Some(cur)
    ensures cur != 0 && mem.heap[cur].id != id ==>
              && WalkClaim(mem.heap, Chain(order, mem.heap, HashOf(id)), id, mem.heap[cur].next)
              && (mem.heap[cur].next != 0 ==> mem.heap[cur].next in mem.heap)
    ensures cur == 0 ==> FindFirst(order, mem.heap, id) == None
  {
    var h := HashOf(id);
    var s := Chain(order, mem.heap, h);
    assert Path(mem.heap, mem.heads[h], s);
    ChainElements(order, mem.heap, h);
    FindInChain(order, mem.heap, id);
    assert forall o | o in order :: o in mem.heap;
    hide ChainsOk, Path, Chain, FindFirst, NoDup, HashOf;
    WalkChain(mem.heap, mem.heads[h], s, id, cur);
  }

  lemma WalkChain(heap: map<nat, Obj>, from: nat, s: seq<nat>, id: int, cur: nat)
    requires Path(heap, from, s) && WalkClaim(heap, s, id, cur)
    ensures cur != 0 ==> cur in heap && cur in s && (heap[cur].next != 0 ==> heap[cur].next in s)
    ensures cur != 0 && heap[cur].id == id ==> FindFirst(s, heap, id) == Some(cur)
    ensures cur != 0 && heap[cur].id != id ==> WalkClaim(heap, s, id, heap[cur].next)
    ensures cur == 0 ==> FindFirst(s, heap, id) == None
  {
    hide Path, FindFirst;
    var i :| 0 <= i <= |s| && cur == Nth(s, i) && forall j | 0 <= j < i :: s[j] in heap && heap[s[j]].id != id;
    FirstAt(s, heap, id, i);
    if i < |s| {
      PathAt(heap, from, s, i);
      assert heap[cur].next == Nth(s, i + 1);
      if heap[cur].id != id { assert forall j | 0 <= j < i + 1 :: s[j] in heap && heap[s[j]].id != id; }
    }
  }

  lemma {:induction false} FirstAt(s: seq<nat>, heap: map<nat, Obj>, id: int, i: nat)
    requires i <= |s| && forall j | 0 <= j < i :: s[j] in heap && heap[s[j]].id != id
    ensures i < |s| && s[i] in heap && heap[s[i]].id == id ==> FindFirst(s, heap, id) == Some(s[i])
    ensures i == |s| ==> FindFirst(s, heap, id) == None
  {
    if i > 0 { FirstAt(s[1..], heap, id, i - 1); }
  }

  lemma ScanNext(mem: Mem, order: seq<nat>, o: nat, t: nat)
    requires ChainsOk(mem, order) && o in order && ScanClaim(Chain(order, mem.heap, HashOf(mem.heap[o].id)), o, t)
    ensures t in mem.heap && t != o && mem.heap[t].next in mem.heap && mem.heap[t].next in order
    ensures mem.heap[t].next != o ==> ScanClaim(Chain(order, mem.heap, HashOf(mem.heap[o].id)), o, mem.heap[t].next)
  {
    var h := HashOf(mem.heap[o].id);
    var s := Chain(order, mem.heap, h);
    assert Path(mem.heap, mem.heads[h], s);
    ChainElements(order, mem.heap, h);
    hide ChainsOk, Path, Chain;
    var i, j :| 0 <= i < j < |s| && s[i] == t && s[j] == o;
    PathAt(mem.heap, mem.heads[h], s, i);
    PathAt(mem.heap, mem.heads[h], s, i + 1);
    assert mem.heap[t].next == s[i + 1] && s[i + 1] in s;
    if s[i + 1] != o { assert i + 1 < j; }
  }

  lemma ScanStart(mem: Mem, order: seq<nat>, o: nat)
    requires ChainsOk(mem, order) && o in order
    ensures HeadOfObj(mem, o) == mem.heads[HashOf(mem.heap[o].id)] && HeadOfObj(mem, o) in mem.heap
            && HeadOfObj(mem, o) in order
    ensures HeadOfObj(mem, o) != o ==> ScanClaim(Chain(order, mem.heap, HashOf(mem.heap[o].id)), o, HeadOfObj(mem, o))
  {
    var h := HashOf(mem.heap[o].id);
    var s := Chain(order, mem.heap, h);
    var i := OnChain(mem, order, o);
    PathAt(mem.heap, mem.heads[h], s, 0);
    ChainElements(order, mem.heap, h);
    assert s[0] == mem.heads[h] && s[0] in s;
  }

  lemma HeadWalk(mem: Mem, order: seq<nat>, id: int)
    requires ChainsOk(mem, order)
    ensures WalkClaim(mem.heap, Chain(order, mem.heap, HashOf(id)), id, mem.heads[HashOf(id)])
    ensures mem.heads[HashOf(id)] != 0 ==> mem.heads[HashOf(id)] in mem.heap && mem.heads[HashOf(id)] in order
  {
    var s := Chain(order, mem.heap, HashOf(id));
    assert Path(mem.heap, mem.heads[HashOf(id)], s);
    ChainElements(order, mem.heap, HashOf(id));
    if s != [] { PathAt(mem.heap, mem.heads[HashOf(id)], s, 0); assert s[0] in s; }
    assert mem.heads[HashOf(id)] == Nth(s, 0);
  }

  lemma WalkFrame(mem: Mem, mem': Mem, order: seq<nat>, id: int, cur: nat)
    requires WalkClaim(mem.heap, Chain(order, mem.heap, HashOf(id)), id, cur) && ChainsOk(mem, order)
    requires Chain(order, mem'.heap, HashOf(id)) == Chain(order, mem.heap, HashOf(id))
    requires forall x | x in order :: x in mem.heap && x in mem'.heap && mem'.heap[x].id == mem.heap[x].id
    ensures WalkClaim(mem'.heap, Chain(order, mem'.heap, HashOf(id)), id, cur)
  {
    ChainElements(order, mem.heap, HashOf(id));
    hide Chain, Path;
  }
}
