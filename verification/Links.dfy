/** Linked lists in memory: cells that hold addresses, 0 for none. */
module Links {
  function Nth(s: seq<nat>, i: nat): nat { if i < |s| then s[i] else 0 }

  /** The cell that points to element i of a list: its head cell, or the element before. */
  function CellOf(from: nat, s: seq<nat>, i: nat): nat
    requires i <= |s|
  {
    if i == 0 then from else s[i - 1]
  }

  function Without(s: seq<nat>, i: nat): seq<nat>
    requires i < |s|
  {
    s[..i] + s[i + 1..]
  }

  predicate NoDup(s: seq<nat>) { forall i, j | 0 <= i < j < |s| :: s[i] != s[j] }

  /** Following the pointers from a head cell visits exactly s and ends at 0. */
  ghost predicate Linked(ptr: map<nat, nat>, from: nat, s: seq<nat>) {
    && from in ptr && ptr[from] == Nth(s, 0)
    && (forall o | o in s :: o in ptr && o != 0)
    && (forall i {:trigger ptr[s[i]]} | 0 <= i < |s| :: ptr[s[i]] == Nth(s, i + 1))
  }

  lemma LinkedAt(ptr: map<nat, nat>, from: nat, s: seq<nat>, i: nat)
    requires Linked(ptr, from, s) && i <= |s|
    ensures CellOf(from, s, i) in ptr && ptr[CellOf(from, s, i)] == Nth(s, i)
  {
    if i > 0 { assert s[i - 1] in s; assert ptr[s[i - 1]] == Nth(s, i); }
  }

  lemma LinkedFrame(ptr: map<nat, nat>, ptr': map<nat, nat>, from: nat, s: seq<nat>)
    requires Linked(ptr, from, s)
    requires from in ptr' && ptr'[from] == ptr[from]
    requires forall o | o in s :: o in ptr' && ptr'[o] == ptr[o]
    ensures Linked(ptr', from, s)
  {
    forall i | 0 <= i < |s| ensures ptr'[s[i]] == Nth(s, i + 1) {
      assert s[i] in s;
      assert ptr[s[i]] == Nth(s, i + 1);
    }
  }

  /** Pointing the cell before element i past it takes it out of the list. */
  lemma LinkedRemove(ptr: map<nat, nat>, from: nat, s: seq<nat>, i: nat)
    requires Linked(ptr, from, s) && NoDup(s) && i < |s| && from !in s
    ensures Linked(ptr[CellOf(from, s, i) := Nth(s, i + 1)], from, Without(s, i))
    ensures NoDup(Without(s, i))
    ensures forall o :: o in Without(s, i) <==> o in s && o != s[i]
  {
    WithoutElements(s, i);
    var t := Without(s, i);
    var ptr' := ptr[CellOf(from, s, i) := Nth(s, i + 1)];
    forall j | 0 <= j < |t| ensures ptr'[t[j]] == Nth(t, j + 1) {
      var k := if j < i then j else j + 1;
      assert t[j] == s[k] && s[k] in s && ptr[s[k]] == Nth(s, k + 1);
      if i > 0 { assert s[i - 1] != s[k] || k == i - 1; }
      assert t[j] in t;
    }
    if i > 0 { assert s[0] in s; }
  }

  lemma WithoutElements(s: seq<nat>, i: nat)
    requires NoDup(s) && i < |s|
    ensures NoDup(Without(s, i))
    ensures forall o :: o in Without(s, i) <==> o in s && o != s[i]
  {
    var t := Without(s, i);
    forall o ensures o in t <==> o in s && o != s[i] {
      if o in t {
        var j :| 0 <= j < |t| && t[j] == o;
        assert o == s[if j < i then j else j + 1];
      }
      if o in s && o != s[i] {
        var k :| 0 <= k < |s| && s[k] == o;
        assert o == t[if k < i then k else k - 1];
      }
    }
  }

  /** Pointing the head at a record that points to the old first element puts it in front. */
  lemma LinkedPush(ptr: map<nat, nat>, from: nat, s: seq<nat>, o: nat)
    requires Linked(ptr, from, s) && NoDup(s)
    requires o in ptr && o != 0 && o != from && o !in s && from !in s && ptr[o] == ptr[from]
    ensures Linked(ptr[from := o], from, [o] + s) && NoDup([o] + s)
  {
    var t, ptr' := [o] + s, ptr[from := o];
    forall j | 0 <= j < |t| ensures ptr'[t[j]] == Nth(t, j + 1) {
      if j > 0 { assert t[j] == s[j - 1] && s[j - 1] in s && ptr[s[j - 1]] == Nth(s, j); }
    }
  }
}
