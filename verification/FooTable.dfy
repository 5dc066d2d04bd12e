/** A hash table of reference-counted objects: its memory, its chains, and the atomic table both
    locking schemes implement. */
module FooTable {
  import opened Links
  import opened Wrappers

  /** Addresses; 0 is NULL. */
  datatype Obj = Obj(id: int, count: int, next: nat)

  const NHASH := 29
  const ULONG := 0x1_0000_0000_0000_0000

  /** (unsigned long)id % NHASH */
  function HashOf(id: int): (h: nat)
    ensures h < NHASH
  {
    (if id < 0 then id % ULONG else id) % NHASH
  }

  /** An identity is on the chain of its residue mod 29; a negative one is first taken as an unsigned long. */
  lemma HashOfIs(id: int)
    requires -0x8000_0000 <= id < 0x8000_0000
    ensures HashOf(id) == if id >= 0 then id % 29 else (id + 0x1_0000_0000_0000_0000) % 29
    ensures HashOf(0) == 0 && HashOf(28) == 28 && HashOf(29) == 0 && HashOf(-1) == 0xffff_ffff_ffff_ffff % 29
  {
  }

  // ----- lists of objects -----

  /** Following f_next from the pointer from visits exactly s. */
  ghost predicate Path(heap: map<nat, Obj>, from: nat, s: seq<nat>)
    decreases s
  {
    if s == [] then from == 0
    else from == s[0] && from != 0 && from in heap && Path(heap, heap[from].next, s[1..])
  }

  lemma {:induction false} PathAt(heap: map<nat, Obj>, from: nat, s: seq<nat>, i: nat)
    requires Path(heap, from, s) && i < |s|
    ensures s[i] in heap && s[i] != 0 && heap[s[i]].next == Nth(s, i + 1) && from == Nth(s, 0)
    decreases s
  {
    if i > 0 {
      PathAt(heap, heap[from].next, s[1..], i - 1);
    } else if |s| > 1 {
      PathAt(heap, heap[from].next, s[1..], 0);
    }
  }

  /** Only the next fields along the way matter. */
  lemma {:induction false} PathFrame(heap: map<nat, Obj>, heap': map<nat, Obj>, from: nat, s: seq<nat>)
    requires Path(heap, from, s)
    requires forall o | o in s && o in heap :: o in heap' && heap'[o].next == heap[o].next
    ensures Path(heap', from, s)
    decreases s
  {
    if s != [] {
      assert s[0] in s && forall o | o in s[1..] :: o in s;
      PathFrame(heap, heap', heap[from].next, s[1..]);
    }
  }

  function Remove(s: seq<nat>, o: nat): seq<nat> {
    if s == [] then [] else if s[0] == o then s[1..] else [s[0]] + Remove(s[1..], o)
  }

  lemma {:induction false} RemoveElements(s: seq<nat>, o: nat)
    requires NoDup(s)
    ensures NoDup(Remove(s, o)) && forall e :: e in Remove(s, o) <==> e in s && e != o
  {
    if s != [] {
      var t := s[1..];
      assert NoDup(t) && s[0] !in t;
      assert forall e :: e in s <==> e == s[0] || e in t;
      RemoveElements(t, o);
    }
  }

  /** Pointing the object before o past o takes o out of the list. */
  lemma {:induction false} PathRemove(heap: map<nat, Obj>, from: nat, s: seq<nat>, o: nat, t: nat)
    requires Path(heap, from, s) && NoDup(s) && t in s && t in heap && o in s && o != t && o in heap
             && heap[t].next == o
    ensures Path(heap[t := heap[t].(next := heap[o].next)], from, Remove(s, o))
    decreases s
  {
    var heap' := heap[t := heap[t].(next := heap[o].next)];
    var r := s[1..];
    assert NoDup(r) && s[0] !in r;
    PathAt(heap, from, s, 0);
    if s[0] == t {
      assert r[0] == o && Remove(s, o) == [t] + r[1..];
      assert t !in r[1..];
      PathFrame(heap, heap', heap[o].next, r[1..]);
      assert ([t] + r[1..])[1..] == r[1..];
    } else {
      if s[0] == o { NotBeforeFirst(heap, from, s, t); }
      PathRemove(heap, heap[from].next, r, o, t);
      assert Remove(s, o)[1..] == Remove(r, o);
    }
  }

  /** Nothing on a list points to its first element. */
  lemma NotBeforeFirst(heap: map<nat, Obj>, from: nat, s: seq<nat>, t: nat)
    requires Path(heap, from, s) && NoDup(s) && s != [] && t in s
    ensures t in heap && heap[t].next != s[0]
  {
    var i :| 0 <= i < |s| && s[i] == t;
    PathAt(heap, from, s, i);
    PathAt(heap, from, s, 0);
  }

  // ----- the 29 chains of one list, newest object first -----

  function Chain(order: seq<nat>, heap: map<nat, Obj>, h: nat): seq<nat> {
    if order == [] then []
    else if order[0] in heap && HashOf(heap[order[0]].id) == h then [order[0]] + Chain(order[1..], heap, h)
    else Chain(order[1..], heap, h)
  }

  lemma {:induction false} ChainElements(order: seq<nat>, heap: map<nat, Obj>, h: nat)
    requires NoDup(order)
    ensures NoDup(Chain(order, heap, h))
    ensures forall o :: o in Chain(order, heap, h) <==> o in order && o in heap && HashOf(heap[o].id) == h
  {
    if order != [] {
      var r := order[1..];
      assert NoDup(r) && order[0] !in r && forall e :: e in order <==> e == order[0] || e in r;
      ChainElements(r, heap, h);
    }
  }

  /** Chains look at identities alone. */
  lemma {:induction false} ChainFrame(order: seq<nat>, heap: map<nat, Obj>, heap': map<nat, Obj>, h: nat)
    requires forall o | o in order :: (o in heap <==> o in heap') && (o in heap ==> heap'[o].id == heap[o].id)
    ensures Chain(order, heap', h) == Chain(order, heap, h)
  {
    if order != [] {
      assert order[0] in order && forall o | o in order[1..] :: o in order;
      ChainFrame(order[1..], heap, heap', h);
    }
  }

  lemma {:induction false} ChainRemove(order: seq<nat>, heap: map<nat, Obj>, h: nat, o: nat)
    requires NoDup(order)
    ensures Chain(Remove(order, o), heap, h) == Remove(Chain(order, heap, h), o)
  {
    if order != [] {
      var r := order[1..];
      assert NoDup(r) && order[0] !in r;
      ChainRemove(r, heap, h, o);
      if order[0] == o {
        ChainElements(r, heap, h);
        if o !in Chain(r, heap, h) { RemoveAbsent(Chain(r, heap, h), o); }
      }
    }
  }

  lemma {:induction false} RemoveAbsent(s: seq<nat>, o: nat)
    requires o !in s
    ensures Remove(s, o) == s
  {
    if s != [] { RemoveAbsent(s[1..], o); }
  }

  /** The first object with an identity. */
  function FindFirst(s: seq<nat>, heap: map<nat, Obj>, id: int): Option<nat> {
    if s == [] then None
    else if s[0] in heap && heap[s[0]].id == id then Some(s[0])
    else FindFirst(s[1..], heap, id)
  }

  /** Looking in the one chain the identity hashes to is looking everywhere. */
  lemma {:induction false} FindInChain(order: seq<nat>, heap: map<nat, Obj>, id: int)
    ensures FindFirst(Chain(order, heap, HashOf(id)), heap, id) == FindFirst(order, heap, id)
  {
    if order != [] {
      FindInChain(order[1..], heap, id);
      var r := Chain(order[1..], heap, HashOf(id));
      assert ([order[0]] + r)[1..] == r;
    }
  }

  lemma {:induction false} FindFrame(s: seq<nat>, heap: map<nat, Obj>, heap': map<nat, Obj>, id: int)
    requires forall o | o in s :: (o in heap <==> o in heap') && (o in heap ==> heap'[o].id == heap[o].id)
    ensures FindFirst(s, heap', id) == FindFirst(s, heap, id)
  {
    if s != [] {
      assert s[0] in s && forall o | o in s[1..] :: o in s;
      FindFrame(s[1..], heap, heap', id);
    }
  }

  // ----- references -----

  /** How many references to o the threads own together. */
  function Total(owned: seq<multiset<nat>>, o: nat): nat {
    if owned == [] then 0 else owned[0][o] + Total(owned[1..], o)
  }

  lemma {:induction false} TotalUpdate(owned: seq<multiset<nat>>, t: nat, m: multiset<nat>, o: nat)
    requires t < |owned|
    ensures Total(owned[t := m], o) + owned[t][o] == Total(owned, o) + m[o]
  {
    if t == 0 {
      assert owned[0 := m][1..] == owned[1..];
    } else {
      assert owned[t := m][1..] == owned[1..][t - 1 := m];
      TotalUpdate(owned[1..], t - 1, m, o);
    }
  }

  lemma {:induction false} TotalAtLeast(owned: seq<multiset<nat>>, t: nat, o: nat)
    requires t < |owned|
    ensures Total(owned, o) >= owned[t][o]
  {
    if t > 0 { TotalAtLeast(owned[1..], t - 1, o); }
  }

  lemma TotalTwo(owned: seq<multiset<nat>>, t: nat, u: nat, o: nat)
    requires t < |owned| && u < |owned| && t != u && o in owned[t] && o in owned[u]
    ensures Total(owned, o) >= 2
  {
    TotalUpdate(owned, t, multiset{}, o);
    TotalAtLeast(owned[t := multiset{}], u, o);
  }

  // ----- the atomic table -----

  datatype Entry = Entry(o: nat, id: int, count: int)

  datatype Op = AllocOp(o: nat, id: int) | HoldOp(o: nat) | FindOp(id: int) | ReleOp(o: nat)

  function Bump(s: seq<Entry>, o: nat): seq<Entry> {
    if s == [] then []
    else if s[0].o == o then [s[0].(count := s[0].count + 1)] + s[1..]
    else [s[0]] + Bump(s[1..], o)
  }

  /** The entry goes away with its last reference. */
  function Drop(s: seq<Entry>, o: nat): seq<Entry> {
    if s == [] then []
    else if s[0].o != o then [s[0]] + Drop(s[1..], o)
    else if s[0].count == 1 then s[1..]
    else [s[0].(count := s[0].count - 1)] + s[1..]
  }

  function Lookup(s: seq<Entry>, id: int): Option<nat> {
    if s == [] then None else if s[0].id == id then Some(s[0].o) else Lookup(s[1..], id)
  }

  /** What an operation does to the entries, newest first, and what it returns. */
  function Apply(op: Op, s: seq<Entry>): (seq<Entry>, Option<nat>) {
    match op
    case AllocOp(o, id) => ([Entry(o, id, 1)] + s, Some(o))
    case HoldOp(o) => (Bump(s, o), None)
    case FindOp(id) => (match Lookup(s, id) case None => (s, None) case Some(o) => (Bump(s, o), Some(o)))
    case ReleOp(o) => (Drop(s, o), None)
  }

  // ----- what the operations mean, entry by entry -----

  ghost predicate NoTwice(s: seq<Entry>) { forall i, j | 0 <= i < j < |s| :: s[i].o != s[j].o }

  /** Where o is in the table. */
  predicate IsAt(s: seq<Entry>, k: nat, o: nat) { k < |s| && s[k].o == o }

  /** A new object is the newest, with one reference. */
  lemma AllocMeans(s: seq<Entry>, o: nat, id: int)
    ensures var (s', r) := Apply(AllocOp(o, id), s);
            r == Some(o) && |s'| == |s| + 1 && s'[0] == Entry(o, id, 1) && s'[1..] == s
  {
  }

  /** A hold adds one to the count of that object alone. */
  lemma {:induction false} HoldMeans(s: seq<Entry>, o: nat, k: nat)
    requires NoTwice(s) && IsAt(s, k, o)
    ensures Apply(HoldOp(o), s) == (s[k := Entry(o, s[k].id, s[k].count + 1)], None)
    decreases k
  {
    if k > 0 {
      assert s[0].o != s[k].o;
      HoldMeans(s[1..], o, k - 1);
      assert Bump(s, o) == [s[0]] + Bump(s[1..], o);
      assert s[k := Entry(o, s[k].id, s[k].count + 1)] == [s[0]] + s[1..][k - 1 := Entry(o, s[k].id, s[k].count + 1)];
    } else {
      assert s[0 := Entry(o, s[0].id, s[0].count + 1)] == [s[0].(count := s[0].count + 1)] + s[1..];
    }
  }

  /** Entry k is o's, has the identity, and no newer one has. */
  predicate Newest(s: seq<Entry>, k: nat, o: nat, id: int) {
    IsAt(s, k, o) && s[k].id == id && forall j | 0 <= j < k :: s[j].id != id
  }

  /** A find answers the newest object with the identity, with one more reference, or nothing. */
  lemma {:induction false} FindMeans(s: seq<Entry>, id: int)
    requires NoTwice(s)
    ensures var (s', r) := Apply(FindOp(id), s);
            if r == None then s' == s && forall k | 0 <= k < |s| :: s[k].id != id
            else exists k: nat ::
              Newest(s, k, r.value, id) && s' == s[k := Entry(r.value, id, s[k].count + 1)]
  {
    LookupMeans(s, id);
    if Lookup(s, id).Some? {
      var k: nat :| Newest(s, k, Lookup(s, id).value, id);
      HoldMeans(s, s[k].o, k);
    }
  }

  lemma {:induction false} LookupMeans(s: seq<Entry>, id: int)
    ensures var r := Lookup(s, id);
            if r == None then forall k | 0 <= k < |s| :: s[k].id != id
            else exists k: nat :: Newest(s, k, r.value, id)
  {
    if s != [] {
      if s[0].id == id {
        assert Newest(s, 0, s[0].o, id);
      } else {
        LookupMeans(s[1..], id);
        if Lookup(s[1..], id).Some? {
          var k: nat :| Newest(s[1..], k, Lookup(s[1..], id).value, id);
          assert forall j | 0 < j < k + 1 :: s[j].id == s[1..][j - 1].id;
          assert Newest(s, k + 1, Lookup(s[1..], id).value, id);
        } else {
          assert forall k | 0 < k < |s| :: s[k].id == s[1..][k - 1].id;
        }
      }
    }
  }

  /** A release takes one reference off that object alone, and the object away with its last one. */
  lemma {:induction false} ReleMeans(s: seq<Entry>, o: nat, k: nat)
    requires NoTwice(s) && IsAt(s, k, o)
    ensures Apply(ReleOp(o), s)
            == (if s[k].count == 1 then s[..k] + s[k + 1..] else s[k := Entry(o, s[k].id, s[k].count - 1)], None)
    decreases k
  {
    if k > 0 {
      assert s[0].o != s[k].o;
      ReleMeans(s[1..], o, k - 1);
      Behind(s, k, Entry(o, s[k].id, s[k].count - 1));
      assert Drop(s, o) == [s[0]] + Drop(s[1..], o);
      hide Drop;
    } else {
      assert s[0 := Entry(o, s[0].id, s[0].count - 1)] == [s[0].(count := s[0].count - 1)] + s[1..];
      assert s[..0] + s[1..] == s[1..];
    }
  }

  /** A change behind the first element. */
  lemma Behind(s: seq<Entry>, k: nat, e: Entry)
    requires 0 < k < |s|
    ensures s[..k] + s[k + 1..] == [s[0]] + (s[1..][..k - 1] + s[1..][k..])
    ensures s[k := e] == [s[0]] + s[1..][k - 1 := e]
  {
  }

  /** The four operations, entry by entry; the newest entry comes first. */
  ghost predicate Means(op: Op, s: seq<Entry>, s': seq<Entry>, r: Option<nat>) {
    match op
    case AllocOp(o, id) => r == Some(o) && s' == [Entry(o, id, 1)] + s
    case HoldOp(o) => forall k: nat | IsAt(s, k, o) :: s' == s[k := Entry(o, s[k].id, s[k].count + 1)]
    case FindOp(id) =>
      if r == None then s' == s && forall k | 0 <= k < |s| :: s[k].id != id
      else exists k: nat :: Newest(s, k, r.value, id) && s' == s[k := Entry(r.value, id, s[k].count + 1)]
    case ReleOp(o) =>
      forall k: nat | IsAt(s, k, o) ::
        s' == if s[k].count == 1 then s[..k] + s[k + 1..] else s[k := Entry(o, s[k].id, s[k].count - 1)]
  }

  lemma ApplyMeans(op: Op, s: seq<Entry>)
    requires NoTwice(s)
    ensures Means(op, s, Apply(op, s).0, Apply(op, s).1)
  {
    match op {
      case AllocOp(o, id) =>
      case HoldOp(o) => forall k: nat | IsAt(s, k, o) { HoldMeans(s, o, k); }
      case FindOp(id) => FindMeans(s, id);
      case ReleOp(o) => forall k: nat | IsAt(s, k, o) { ReleMeans(s, o, k); }
    }
  }

  function Entries(order: seq<nat>, heap: map<nat, Obj>): seq<Entry> {
    if order == [] then []
    else if order[0] in heap then [Entry(order[0], heap[order[0]].id, heap[order[0]].count)] + Entries(order[1..], heap)
    else Entries(order[1..], heap)
  }

  lemma {:induction false} EntriesFrame(order: seq<nat>, heap: map<nat, Obj>, heap': map<nat, Obj>)
    requires forall o | o in order ::
               o in heap && o in heap' && heap'[o].id == heap[o].id && heap'[o].count == heap[o].count
    ensures Entries(order, heap') == Entries(order, heap)
  {
    if order != [] {
      assert order[0] in order && forall o | o in order[1..] :: o in order;
      EntriesFrame(order[1..], heap, heap');
    }
  }

  lemma {:induction false} LookupIsFind(order: seq<nat>, heap: map<nat, Obj>, id: int)
    ensures Lookup(Entries(order, heap), id) == FindFirst(order, heap, id)
  {
    if order != [] {
      LookupIsFind(order[1..], heap, id);
      var r := Entries(order[1..], heap);
      assert ([Entry(order[0], id, 0)] + r)[1..] == r;
      assert forall e: Entry :: ([e] + r)[1..] == r;
    }
  }

  /** One more reference to o. */
  lemma {:induction false} EntriesBump(order: seq<nat>, heap: map<nat, Obj>, o: nat)
    requires NoDup(order) && o in order && forall e | e in order :: e in heap
    ensures Entries(order, heap[o := heap[o].(count := heap[o].count + 1)]) == Bump(Entries(order, heap), o)
  {
    var heap' := heap[o := heap[o].(count := heap[o].count + 1)];
    var r := order[1..];
    assert NoDup(r) && order[0] !in r && order[0] in order && forall e | e in r :: e in order;
    if order[0] == o { EntriesFrame(r, heap, heap'); } else { EntriesBump(r, heap, o); }
    var e := Entry(order[0], heap[order[0]].id, heap[order[0]].count);
    assert ([e] + Entries(r, heap))[1..] == Entries(r, heap);
  }

  /** One less, but not the last. */
  lemma {:induction false} EntriesDrop(order: seq<nat>, heap: map<nat, Obj>, o: nat)
    requires NoDup(order) && o in order && (forall e | e in order :: e in heap) && heap[o].count != 1
    ensures Entries(order, heap[o := heap[o].(count := heap[o].count - 1)]) == Drop(Entries(order, heap), o)
  {
    var heap' := heap[o := heap[o].(count := heap[o].count - 1)];
    var r := order[1..];
    assert NoDup(r) && order[0] !in r && order[0] in order && forall e | e in r :: e in order;
    if order[0] == o { EntriesFrame(r, heap, heap'); } else { EntriesDrop(r, heap, o); }
    var e := Entry(order[0], heap[order[0]].id, heap[order[0]].count);
    assert ([e] + Entries(r, heap))[1..] == Entries(r, heap);
  }

  /** The last one. */
  lemma {:induction false} EntriesRemove(order: seq<nat>, heap: map<nat, Obj>, o: nat)
    requires NoDup(order) && o in order && (forall e | e in order :: e in heap) && heap[o].count == 1
    ensures Entries(Remove(order, o), heap) == Drop(Entries(order, heap), o)
  {
    var r := order[1..];
    assert NoDup(r) && order[0] !in r && order[0] in order && forall e | e in r :: e in order;
    if order[0] != o { EntriesRemove(r, heap, o); }
    var e := Entry(order[0], heap[order[0]].id, heap[order[0]].count);
    assert ([e] + Entries(r, heap))[1..] == Entries(r, heap);
    assert order[0] != o ==> Remove(order, o)[0] == order[0] && Remove(order, o)[1..] == Remove(r, o);
  }

  // ----- threads on the atomic table -----

  datatype Phase = Rest | Pending(op: Op) | Decided(op: Op, res: Option<nat>)

  datatype Spec = Spec(entries: seq<Entry>, phases: seq<Phase>)

  /** One thread's move: nothing, a call, the operation itself, or its return. A new object's address
      is none of those in the table. */
  predicate Moves(m: seq<Entry>, m': seq<Entry>, x: Phase, y: Phase) {
    || (m' == m && x == y)
    || (m' == m && x.Rest? && y.Pending?)
    || (x.Pending? && y.Decided? && y.op == x.op && (m', y.res) == Apply(x.op, m)
        && (x.op.AllocOp? ==> forall e | e in m :: e.o != x.op.o))
    || (m' == m && x.Decided? && y.Rest?)
  }

  predicate SpecStep(a: Spec, b: Spec, t: nat) {
    && t < |a.phases| && |b.phases| == |a.phases| && b.phases == a.phases[t := b.phases[t]]
    && Moves(a.entries, b.entries, a.phases[t], b.phases[t])
  }

  lemma {:induction false} EntriesOf(order: seq<nat>, heap: map<nat, Obj>)
    ensures forall e | e in Entries(order, heap) :: e.o in order
  {
    if order != [] {
      EntriesOf(order[1..], heap);
      assert order[0] in order && forall o | o in order[1..] :: o in order;
    }
  }

  /** Objects listed once have one entry each. */
  lemma {:induction false} EntriesNoTwice(order: seq<nat>, heap: map<nat, Obj>)
    requires NoDup(order)
    ensures NoTwice(Entries(order, heap))
  {
    if order != [] {
      var r := order[1..];
      assert NoDup(r) && order[0] !in r;
      EntriesNoTwice(r, heap);
      EntriesOf(r, heap);
      var t := Entries(r, heap);
      forall k | 0 <= k < |t| ensures t[k].o != order[0] { assert t[k] in t; }
    }
  }

  lemma TotalSole(owned: seq<multiset<nat>>, t: nat, o: nat)
    requires t < |owned| && owned[t][o] == 1 && forall u | 0 <= u < |owned| && u != t :: o !in owned[u]
    ensures Total(owned, o) == 1
  {
    TotalUpdate(owned, t, multiset{}, o);
    NoneOwned(owned[t := multiset{}], o);
  }

  lemma {:induction false} NoneOwned(owned: seq<multiset<nat>>, o: nat)
    requires forall t | 0 <= t < |owned| :: o !in owned[t]
    ensures Total(owned, o) == 0
  {
    if owned != [] { NoneOwned(owned[1..], o); }
  }
}
