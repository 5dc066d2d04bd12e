/** The same table under one lock: each call is a critical section of hashlock, run from lock to unlock
    without anyone else seeing the table. Every call does what the atomic table does. */
module FooOneLock {
  import opened Links
  import opened Wrappers
  import opened FooTable
  import opened FooChains

  class Table {
    var fh: array<nat>
    var heap: map<nat, Obj>
    ghost var order: seq<nat>
    ghost var refs: multiset<nat>   // the references of all threads together

    ghost predicate Valid()
      reads this, fh
    {
      && ChainsOk(Mem(fh[..], heap), order)
      && (forall o :: o in heap <==> o in order)
      && (forall o | o in heap :: heap[o].count == refs[o] >= 1)
      && (forall o | o in refs :: o in heap)
    }

    ghost function View(): seq<Entry>
      reads this
    {
      Entries(order, heap)
    }

    constructor ()
      ensures Valid() && fresh(fh) && View() == [] && refs == multiset{}
    {
      fh := new nat[NHASH](_ => 0);
      heap, order, refs := map[], [], multiset{};
    }

    /** foo_alloc, given what malloc returned. */
    method Alloc(addr: nat, id: int) returns (fp: nat)
      requires Valid() && addr !in heap
      modifies this`heap, this`order, this`refs, fh
      ensures Valid() && fp == addr
      ensures addr == 0 ==> View() == old(View()) && refs == old(refs)
      ensures addr != 0 ==>
                (View(), Some(fp)) == Apply(AllocOp(addr, id), old(View())) && refs == old(refs) + multiset{addr}
    {
      hide Path, Chain, Entries;
      if addr != 0 {
        var idx := HashOf(id);
        heap := heap[addr := Obj(id, 1, fh[idx])];
        ghost var mem := Mem(fh[..], heap);
        Unlisted(Mem(old(fh[..]), old(heap)), mem, order, addr);
        LinkChains(mem, order, addr);
        EntriesFrame(order, old(heap), heap);
        EntriesFirst(order, heap, addr);
        fh[idx] := addr;
        order := [addr] + order;
        assert Mem(fh[..], heap) == SetHead(mem, idx, addr);
        refs := refs + multiset{addr};
      }
      fp := addr;
    }

    /** f_count++ */
    method AddRef(fp: nat)
      requires Valid() && fp in heap
      modifies this`heap, this`refs
      ensures Valid() && View() == Bump(old(View()), fp) && refs == old(refs) + multiset{fp}
    {
      EntriesBump(order, heap, fp);
      heap := heap[fp := heap[fp].(count := heap[fp].count + 1)];
      refs := refs + multiset{fp};
      Unlisted(Mem(fh[..], old(heap)), Mem(fh[..], heap), order, fp);
    }

    /** foo_hold */
    method Hold(fp: nat)
      requires Valid() && fp in refs
      modifies this`heap, this`refs
      ensures Valid() && View() == Apply(HoldOp(fp), old(View())).0 && refs == old(refs) + multiset{fp}
      ensures Means(HoldOp(fp), old(View()), View(), None)
    {
      EntriesNoTwice(order, heap);
      ApplyMeans(HoldOp(fp), View());
      hide Entries, ChainsOk, Means;
      AddRef(fp);
    }

    /** The loop of foo_find. */
    method Walk(id: int) returns (fp: nat)
      requires Valid()
      ensures FindFirst(order, heap, id) == if fp == 0 then None else Some(fp)
      ensures fp != 0 ==> fp in heap
    {
      hide Path, Chain, FindFirst, NoDup;
      ghost var s := Chain(order, heap, HashOf(id));
      ghost var i := 0;
      ChainOf(Mem(fh[..], heap), order, HashOf(id));
      FindInChain(order, heap, id);
      fp := fh[HashOf(id)];
      while fp != 0
        invariant i <= |s| && fp == Nth(s, i) && forall j | 0 <= j < i :: s[j] in heap && heap[s[j]].id != id
        decreases |s| - i
      {
        PathAt(heap, fh[HashOf(id)], s, i);
        if heap[fp].id == id {
          FirstAt(s, heap, id, i);
          return;
        }
        fp := heap[fp].next;
        i := i + 1;
      }
      FirstAt(s, heap, id, i);
    }

    /** foo_find */
    method Find(id: int) returns (fp: nat)
      requires Valid()
      modifies this`heap, this`refs
      ensures Valid()
      ensures (View(), if fp == 0 then None else Some(fp)) == Apply(FindOp(id), old(View()))
      ensures Means(FindOp(id), old(View()), View(), if fp == 0 then None else Some(fp))
      ensures refs == if fp == 0 then old(refs) else old(refs) + multiset{fp}
    {
      EntriesNoTwice(order, heap);
      hide Entries, Bump, Lookup, FindFirst, ChainsOk, Means, Apply;
      LookupIsFind(order, heap, id);
      ApplyMeans(FindOp(id), View());
      fp := Walk(id);
      if fp != 0 { AddRef(fp); }
    }

    /** foo_rele */
    method Rele(fp: nat)
      requires Valid() && fp in refs
      modifies this`heap, this`order, this`refs, fh
      ensures Valid() && View() == Apply(ReleOp(fp), old(View())).0 && refs == old(refs) - multiset{fp}
      ensures fp in heap <==> fp in refs
      ensures Means(ReleOp(fp), old(View()), View(), None)
    {
      EntriesNoTwice(order, heap);
      hide Entries, Drop, ChainsOk, Remove, NoDup, Means;
      ApplyMeans(ReleOp(fp), View());
      ghost var before := heap;
      DropSpec(Mem(fh[..], heap), order, fp);
      Decrement(fp);
      if heap[fp].count == 0 { RemoveLast(fp, before); }
    }

    /** --f_count */
    method Decrement(fp: nat)
      requires Valid() && fp in refs
      modifies this`heap, this`refs
      ensures ChainsOk(Mem(fh[..], heap), order) && (forall o :: o in heap <==> o in order)
      ensures heap == old(heap)[fp := old(heap)[fp].(count := old(heap)[fp].count - 1)]
              && refs == old(refs) - multiset{fp}
      ensures (forall o | o in heap :: heap[o].count == refs[o] && (o != fp ==> refs[o] >= 1))
              && forall o | o in refs :: o in heap
    {
      hide ChainsOk;
      heap := heap[fp := heap[fp].(count := heap[fp].count - 1)];
      refs := refs - multiset{fp};
      Unlisted(Mem(fh[..], old(heap)), Mem(fh[..], heap), order, fp);
    }

    /** The last reference is gone: the object is cut out and freed. */
    method RemoveLast(fp: nat, ghost before: map<nat, Obj>)
      requires ChainsOk(Mem(fh[..], heap), order) && (forall o :: o in heap <==> o in order) && fp in heap
      requires forall o | o in heap :: heap[o].count == refs[o] && (refs[o] >= 1 <==> o != fp)
      requires forall o | o in refs :: o in heap
      requires fp in before && heap == before[fp := before[fp].(count := 0)]
      modifies this`heap, this`order, fh
      ensures Valid() && fp !in heap && View() == Entries(Remove(old(order), fp), before)
    {
      hide Path, Chain, Entries, Remove, NoDup, ChainsOk;
      Listing();
      RemoveElements(order, fp);
      CutOut(fp);
      EntriesFrame(order, before, heap);
      Freed(Mem(fh[..], heap), order, fp);
      heap := heap - {fp};
    }

    lemma Listing()
      requires ChainsOk(Mem(fh[..], heap), order)
      ensures NoDup(order)
    {
    }

    /** The removal of foo_rele: from the head of the chain, or past the object before it. */
    method CutOut(fp: nat)
      requires ChainsOk(Mem(fh[..], heap), order) && fp in order
      modifies this`heap, this`order, fh
      ensures ChainsOk(Mem(fh[..], heap), order) && order == Remove(old(order), fp)
      ensures forall o | o in old(heap) ::
                o in heap && heap[o].id == old(heap[o].id) && heap[o].count == old(heap[o].count)
      ensures heap.Keys == old(heap.Keys)
    {
      ghost var mem := Mem(fh[..], heap);
      ghost var h := HashOf(heap[fp].id);
      ghost var s := Chain(order, heap, h);
      ghost var k := OnChain(mem, order, fp);
      var idx := HashOf(heap[fp].id);
      var tfp := fh[idx];
      PathAt(heap, mem.heads[h], s, 0);
      hide Path, Chain, Remove;
      if tfp == fp {
        CutHeadChains(mem, order, fp);
        fh[idx] := heap[fp].next;
        assert Mem(fh[..], heap) == SetHead(mem, idx, mem.heap[fp].next);
      } else {
        ghost var i := 0;
        PathAt(heap, mem.heads[h], s, i);
        while heap[tfp].next != fp
          invariant heap == mem.heap && order == old(order) && fh[..] == mem.heads
          invariant 0 <= i < k && tfp == s[i] && tfp in heap
          decreases k - i
        {
          PathAt(heap, mem.heads[h], s, i);
          PathAt(heap, mem.heads[h], s, i + 1);
          tfp := heap[tfp].next;
          i := i + 1;
        }
        assert s[i] == tfp && s[k] == fp;
        PathAt(heap, mem.heads[h], s, i);
        CutChains(mem, order, fp, tfp);
        heap := heap[tfp := heap[tfp].(next := heap[fp].next)];
      }
      order := Remove(order, fp);
    }
  }

  lemma EntriesFirst(order: seq<nat>, heap: map<nat, Obj>, o: nat)
    requires o in heap
    ensures Entries([o] + order, heap) == [Entry(o, heap[o].id, heap[o].count)] + Entries(order, heap)
  {
    assert ([o] + order)[1..] == order;
  }

  /** What becomes of the entries: one reference less, or the entry gone. */
  lemma DropSpec(mem: Mem, order: seq<nat>, o: nat)
    requires ChainsOk(mem, order) && o in order && o in mem.heap
    ensures Drop(Entries(order, mem.heap), o) ==
              if mem.heap[o].count == 1 then Entries(Remove(order, o), mem.heap)
              else Entries(order, mem.heap[o := mem.heap[o].(count := mem.heap[o].count - 1)])
  {
    hide Entries, Drop, Remove, Path, Chain;
    if mem.heap[o].count == 1 { EntriesRemove(order, mem.heap, o); } else { EntriesDrop(order, mem.heap, o); }
  }

  lemma ChainOf(mem: Mem, order: seq<nat>, h: nat)
    requires ChainsOk(mem, order) && h < NHASH
    ensures Path(mem.heap, mem.heads[h], Chain(order, mem.heap, h)) && mem.heads[h] == Nth(Chain(order, mem.heap, h), 0)
    ensures forall i | 0 <= i < |Chain(order, mem.heap, h)| :: Chain(order, mem.heap, h)[i] != 0
  {
    ChainElements(order, mem.heap, h);
    var s := Chain(order, mem.heap, h);
    forall i | 0 <= i < |s| ensures s[i] != 0 { assert s[i] in s; }
    if s != [] { PathAt(mem.heap, mem.heads[h], s, 0); }
  }

  /** Freeing an object that is not listed. */
  lemma Freed(mem: Mem, order: seq<nat>, o: nat)
    requires ChainsOk(mem, order) && o !in order
    ensures ChainsOk(mem.(heap := mem.heap - {o}), order)
    ensures Entries(order, mem.heap - {o}) == Entries(order, mem.heap)
  {
    EntriesFrame(order, mem.heap, mem.heap - {o});
    Unlisted(mem, mem.(heap := mem.heap - {o}), order, o);
  }
}
