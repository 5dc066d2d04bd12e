/** What the calls of the walk are, told by the places in the tree: which files are visited, under what path, with
    what type, and in what order. */
module FtwOrder {
  import opened Ftw

  /** A call for the file reached by these entry numbers from the root; again is the second call for a directory that
      cannot be read. */
  datatype Visit = Visit(route: seq<nat>, again: bool)

  /** The file at the end of a route, if every entry on the way exists and none is dot or dot-dot. */
  predicate Reaches(t: Tree, route: seq<nat>)
    decreases route
  {
    route == [] ||
    (t.Dir? && route[0] < |t.entries| && t.entries[route[0]].name != "." && t.entries[route[0]].name != ".."
     && Reaches(t.entries[route[0]].tree, route[1..]))
  }

  function FileAt(t: Tree, route: seq<nat>): Tree
    requires Reaches(t, route)
    decreases route
  {
    if route == [] then t else FileAt(t.entries[route[0]].tree, route[1..])
  }

  /** The path of it: each name after a slash. */
  function PathAt(t: Tree, path: string, route: seq<nat>): string
    requires Reaches(t, route)
    decreases route
  {
    if route == [] then path else PathAt(t.entries[route[0]].tree, path + "/" + t.entries[route[0]].name, route[1..])
  }

  /** Every file reached is visited once; a directory that cannot be read twice. */
  predicate Wanted(t: Tree, v: Visit) { Reaches(t, v.route) && (v.again ==> FileAt(t, v.route).Unreadable?) }

  /** The call of a visit. */
  predicate IsCall(t: Tree, path: string, v: Visit, c: Call) {
    && Wanted(t, v)
    && match FileAt(t, v.route)
       case NoStat => c == Call(PathAt(t, path, v.route), FTW_NS)
       case File => c == Call(PathAt(t, path, v.route), FTW_F)
       case Dir(_) => c == Call(PathAt(t, path, v.route), FTW_D)
       case Unreadable =>
         c == if v.again then Call(PathAt(t, path, v.route) + "/", FTW_DNR) else Call(PathAt(t, path, v.route), FTW_D)
  }

  /** A directory before what is in it, earlier entries and all that is in them before later ones. */
  predicate Earlier(a: Visit, b: Visit)
    decreases a.route
  {
    if a.route == [] then b.route != [] || (!a.again && b.again)
    else b.route != [] && (a.route[0] < b.route[0]
           || (a.route[0] == b.route[0] && Earlier(Visit(a.route[1..], a.again), Visit(b.route[1..], b.again))))
  }

  /** The list of visits these calls are for. */
  ghost predicate Lists(t: Tree, path: string, vs: seq<Visit>, calls: seq<Call>) {
    && |vs| == |calls|
    && (forall i | 0 <= i < |vs| :: IsCall(t, path, vs[i], calls[i]))
    && (forall i, j | 0 <= i < j < |vs| :: Earlier(vs[i], vs[j]))
    && (forall v | Wanted(t, v) :: v in vs)
  }

  /** The visits of entry k, as visits of the directory. */
  function Under(k: nat, vs: seq<Visit>): (r: seq<Visit>)
    ensures |r| == |vs| && forall i | 0 <= i < |vs| :: r[i] == Visit([k] + vs[i].route, vs[i].again)
  {
    seq(|vs|, i requires 0 <= i < |vs| => Visit([k] + vs[i].route, vs[i].again))
  }

  /** The same for the entries of a directory from the k-th on. */
  ghost predicate ListsFrom(t: Tree, path: string, k: nat, vs: seq<Visit>, calls: seq<Call>)
    requires t.Dir?
  {
    && |vs| == |calls|
    && (forall i | 0 <= i < |vs| :: IsCall(t, path, vs[i], calls[i]) && vs[i].route != [] && vs[i].route[0] >= k)
    && (forall i, j | 0 <= i < j < |vs| :: Earlier(vs[i], vs[j]))
    && (forall v | Wanted(t, v) && v.route != [] && v.route[0] >= k :: v in vs)
  }

  /** The calls of a walk are those of all files that can be reached without dot and dot-dot, each directory before
      its entries and the entries in their order, each under its path and with the type of what it is. */
  lemma {:induction false} PreorderLists(t: Tree, path: string) returns (vs: seq<Visit>)
    ensures Lists(t, path, vs, Preorder(t, path))
    decreases t, 1, 0
  {
    var root := Visit([], false);
    match t {
      case NoStat => vs := [root];
      case File => vs := [root];
      case Unreadable =>
        vs := [root, Visit([], true)];
        assert vs[0] == root && vs[1] == Visit([], true);
      case Dir(entries) =>
        var rest := InsideLists(t, path, 0);
        vs := [root] + rest;
        RootFirst(t, path, rest);
    }
    if !t.Dir? { OnlyRoot(t, path, vs); }
  }

  lemma OnlyRoot(t: Tree, path: string, vs: seq<Visit>)
    requires !t.Dir? && vs == if t.Unreadable? then [Visit([], false), Visit([], true)] else [Visit([], false)]
    ensures Lists(t, path, vs, Preorder(t, path))
  {
    assert vs[0] == Visit([], false);
    if t.Unreadable? { assert vs[1] == Visit([], true); }
    forall v | Wanted(t, v) ensures v in vs {
      assert v == Visit([], false) || v == Visit([], true);
    }
  }

  lemma RootFirst(t: Tree, path: string, rest: seq<Visit>)
    requires t.Dir? && ListsFrom(t, path, 0, rest, Inside(t, path, 0))
    ensures Lists(t, path, [Visit([], false)] + rest, Preorder(t, path))
  {
    var root, inner := Visit([], false), Inside(t, path, 0);
    var vs, calls := [root] + rest, [Call(path, FTW_D)] + inner;
    assert Preorder(t, path) == calls;
    RootCall(t, path);
    forall v | Wanted(t, v) ensures v == root || v in rest { RootOrInside(t, v); }
    hide Preorder, Inside, Wanted, IsCall, Earlier;
    forall i | 0 <= i < |vs| ensures IsCall(t, path, vs[i], calls[i]) {
      if i > 0 { assert vs[i] == rest[i - 1] && calls[i] == inner[i - 1]; }
    }
    forall i, j | 0 <= i < j < |vs| ensures Earlier(vs[i], vs[j]) {
      assert vs[j] == rest[j - 1];
      if i > 0 { assert vs[i] == rest[i - 1]; } else { RootEarlier(vs[j]); }
    }
    assert vs[0] == root && forall v | v in rest :: v in vs;
  }

  lemma RootOrInside(t: Tree, v: Visit)
    requires t.Dir? && Wanted(t, v)
    ensures v == Visit([], false) || (v.route != [] && v.route[0] >= 0)
  {
  }

  lemma RootEarlier(v: Visit)
    requires v.route != []
    ensures Earlier(Visit([], false), v)
  {
  }

  lemma RootCall(t: Tree, path: string)
    requires t.Dir?
    ensures IsCall(t, path, Visit([], false), Call(path, FTW_D))
  {
  }

  lemma {:induction false} InsideLists(t: Tree, path: string, k: nat) returns (vs: seq<Visit>)
    requires t.Dir? && k <= |t.entries|
    ensures ListsFrom(t, path, k, vs, Inside(t, path, k))
    decreases t, 0, |t.entries| - k
  {
    if k == |t.entries| {
      vs := [];
    } else {
      var e := t.entries[k];
      var rest := InsideLists(t, path, k + 1);
      InsideStep(t, path, k);
      if IsDot(e.name) {
        vs := rest;
        DotSkipped(t, path, k, rest);
      } else {
        var own := PreorderLists(e.tree, path + "/" + e.name);
        vs := Under(k, own) + rest;
        EntryFirst(t, path, k, own, rest);
      }
    }
  }

  lemma DotSkipped(t: Tree, path: string, k: nat, rest: seq<Visit>)
    requires t.Dir? && k < |t.entries| && IsDot(t.entries[k].name)
    requires ListsFrom(t, path, k + 1, rest, Inside(t, path, k + 1)) && Inside(t, path, k) == Inside(t, path, k + 1)
    ensures ListsFrom(t, path, k, rest, Inside(t, path, k))
  {
    hide Inside, IsCall, Earlier;
    forall v | Wanted(t, v) && v.route != [] && v.route[0] >= k ensures v in rest {
      assert v.route[0] != k;
    }
  }

  /** The calls of one entry come before those of the later ones. */
  lemma EntryFirst(t: Tree, path: string, k: nat, own: seq<Visit>, rest: seq<Visit>)
    requires t.Dir? && k < |t.entries| && !IsDot(t.entries[k].name)
    requires Lists(t.entries[k].tree, path + "/" + t.entries[k].name, own,
                   Preorder(t.entries[k].tree, path + "/" + t.entries[k].name))
    requires ListsFrom(t, path, k + 1, rest, Inside(t, path, k + 1))
    requires Inside(t, path, k)
             == Preorder(t.entries[k].tree, path + "/" + t.entries[k].name) + Inside(t, path, k + 1)
    ensures ListsFrom(t, path, k, Under(k, own) + rest, Inside(t, path, k))
  {
    hide Inside, Preorder, IsCall, Earlier, Wanted, Under;
    var e, n := t.entries[k], |own|;
    var vs, calls := Under(k, own) + rest, Inside(t, path, k);
    var mine := Preorder(e.tree, path + "/" + e.name);
    forall i | 0 <= i < |vs| ensures IsCall(t, path, vs[i], calls[i]) && vs[i].route != [] && vs[i].route[0] >= k {
      if i < n {
        assert vs[i] == Under(k, own)[i] && calls[i] == mine[i];
        UnderCall(t, path, k, own[i], mine[i]);
      } else {
        assert vs[i] == rest[i - n] && calls[i] == Inside(t, path, k + 1)[i - n];
      }
    }
    forall i, j | 0 <= i < j < |vs| ensures Earlier(vs[i], vs[j]) {
      if j < n {
        assert vs[i] == Under(k, own)[i] && vs[j] == Under(k, own)[j];
        UnderEarlier(k, own[i], own[j]);
      } else if i < n {
        assert vs[i] == Under(k, own)[i] && vs[j] == rest[j - n];
        BeforeLater(vs[i], vs[j]);
      } else {
        assert vs[i] == rest[i - n] && vs[j] == rest[j - n];
      }
    }
    forall v | Wanted(t, v) && v.route != [] && v.route[0] >= k ensures v in vs {
      if v.route[0] == k {
        UnderWanted(t, k, v);
        var w := Visit(v.route[1..], v.again);
        assert w in own;
        var i :| 0 <= i < n && own[i] == w;
        assert v.route == [k] + v.route[1..];
        assert vs[i] == Under(k, own)[i] == v;
      } else {
        assert v in rest;
      }
    }
  }

  lemma UnderCall(t: Tree, path: string, k: nat, v: Visit, c: Call)
    requires t.Dir? && k < |t.entries| && !IsDot(t.entries[k].name)
    requires IsCall(t.entries[k].tree, path + "/" + t.entries[k].name, v, c)
    ensures IsCall(t, path, Visit([k] + v.route, v.again), c)
  {
    var route := [k] + v.route;
    assert route[1..] == v.route && route[0] == k;
    assert Reaches(t, route) && FileAt(t, route) == FileAt(t.entries[k].tree, v.route);
    assert PathAt(t, path, route) == PathAt(t.entries[k].tree, path + "/" + t.entries[k].name, v.route);
    hide Reaches, FileAt, PathAt;
  }

  lemma UnderEarlier(k: nat, a: Visit, b: Visit)
    requires Earlier(a, b)
    ensures Earlier(Visit([k] + a.route, a.again), Visit([k] + b.route, b.again))
  {
    assert ([k] + a.route)[1..] == a.route && ([k] + b.route)[1..] == b.route;
  }

  lemma BeforeLater(a: Visit, b: Visit)
    requires a.route != [] && b.route != [] && a.route[0] < b.route[0]
    ensures Earlier(a, b)
  {
  }

  lemma UnderWanted(t: Tree, k: nat, v: Visit)
    requires t.Dir? && Wanted(t, v) && v.route != [] && v.route[0] == k
    ensures k < |t.entries| && Wanted(t.entries[k].tree, Visit(v.route[1..], v.again))
  {
  }

  /** No two calls are for the same visit, so none is repeated. */
  lemma {:induction false} EarlierIsStrict(v: Visit)
    ensures !Earlier(v, v)
    decreases |v.route|
  {
    if v.route != [] { EarlierIsStrict(Visit(v.route[1..], v.again)); }
  }

  /** Paths grow by names between slashes, none of them dot or dot-dot. */
  lemma {:induction false} PathIs(t: Tree, path: string, route: seq<nat>)
    requires Reaches(t, route)
    ensures exists names: seq<string> :: |names| == |route| && PathAt(t, path, route) == Joined(path, names)
              && forall i | 0 <= i < |names| :: names[i] != "." && names[i] != ".."
    decreases route
  {
    if route == [] {
      assert Joined(path, []) == path;
    } else {
      var e := t.entries[route[0]];
      PathIs(e.tree, path + "/" + e.name, route[1..]);
      var names: seq<string> :| |names| == |route| - 1
                 && PathAt(e.tree, path + "/" + e.name, route[1..]) == Joined(path + "/" + e.name, names)
                 && forall i | 0 <= i < |names| :: names[i] != "." && names[i] != "..";
      var all := [e.name] + names;
      assert all[1..] == names && Joined(path, all) == Joined(path + "/" + e.name, names);
      forall i | 0 <= i < |all| ensures all[i] != "." && all[i] != ".." { if i > 0 { assert all[i] == names[i - 1]; } }
    }
  }

  function Joined(path: string, names: seq<string>): string
    decreases |names|
  {
    if names == [] then path else Joined(path + "/" + names[0], names[1..])
  }

  const SAMPLE := Dir([Entry(".", Unreadable), Entry("..", File), Entry("x", File), Entry("y", Unreadable)])

  /** A directory with dot, dot-dot, a file, and a directory that cannot be read. */
  lemma Sample()
    ensures Preorder(SAMPLE, "d") == [Call("d", FTW_D), Call("d/x", FTW_F), Call("d/y", FTW_D), Call("d/y/", FTW_DNR)]
  {
    SampleDots();
    SampleNames();
  }

  lemma SampleDots()
    ensures Inside(SAMPLE, "d", 0) == Inside(SAMPLE, "d", 2)
  {
    InsideStep(SAMPLE, "d", 0);
    InsideStep(SAMPLE, "d", 1);
    hide Inside, Preorder;
  }

  lemma SampleNames()
    ensures Inside(SAMPLE, "d", 2) == [Call("d/x", FTW_F), Call("d/y", FTW_D), Call("d/y/", FTW_DNR)]
  {
    InsideStep(SAMPLE, "d", 2);
    InsideStep(SAMPLE, "d", 3);
    assert Inside(SAMPLE, "d", 4) == [];
    assert Preorder(File, "d/x") == [Call("d/x", FTW_F)];
    assert "d/y" + "/" == "d/y/" && Preorder(Unreadable, "d/y") == [Call("d/y", FTW_D), Call("d/y/", FTW_DNR)];
    hide Inside, Preorder;
    assert "d" + "/" + "x" == "d/x" && "d" + "/" + "y" == "d/y";
  }
}
