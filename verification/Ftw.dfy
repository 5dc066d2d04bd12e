/** Descent through a file hierarchy, with the path of the current file in one growing buffer. */
module Ftw {
  const NAME_MAX := 255
  const NUL := '\0'

  /** What lstat, opendir and readdir find. Names come in the order of readdir. */
  datatype Tree = NoStat | File | Unreadable | Dir(entries: seq<Entry>)

  datatype Entry = Entry(name: string, tree: Tree)

  datatype Type = FTW_F | FTW_D | FTW_DNR | FTW_NS

  datatype Call = Call(path: string, typ: Type)

  predicate NameOk(name: string) { 0 < |name| <= NAME_MAX && NUL !in name }

  predicate TreeOk(t: Tree) {
    t.Dir? ==> forall i | 0 <= i < |t.entries| :: NameOk(t.entries[i].name) && TreeOk(t.entries[i].tree)
  }

  predicate IsDot(name: string) { name == "." || name == ".." }

  // ----- the specification: preorder, cut after the first call that returns nonzero -----

  /** Every call, if none of them stops the walk. */
  function Preorder(t: Tree, path: string): seq<Call>
    decreases t, 1, 0
  {
    match t
    case NoStat => [Call(path, FTW_NS)]
    case File => [Call(path, FTW_F)]
    case Unreadable => [Call(path, FTW_D), Call(path + "/", FTW_DNR)]
    case Dir(entries) => [Call(path, FTW_D)] + Inside(t, path, 0)
  }

  /** Those for the entries of a directory from the k-th on, without dot and dot-dot. */
  function Inside(t: Tree, path: string, k: nat): seq<Call>
    requires t.Dir? && k <= |t.entries|
    decreases t, 0, |t.entries| - k
  {
    if k == |t.entries| then []
    else
      var e := t.entries[k];
      (if IsDot(e.name) then [] else Preorder(e.tree, path + "/" + e.name)) + Inside(t, path, k + 1)
  }

  lemma InsideStep(t: Tree, path: string, k: nat)
    requires t.Dir? && k < |t.entries|
    ensures var e := t.entries[k];
            Inside(t, path, k) == if IsDot(e.name) then Inside(t, path, k + 1)
                                  else Preorder(e.tree, path + "/" + e.name) + Inside(t, path, k + 1)
  {
  }

  /** The user's function may go by everything it has been called with so far. */
  type Func = seq<Call> -> int

  /** Makes the calls one by one after those made already, up to the first that returns nonzero. */
  function Cut(f: Func, made: seq<Call>, calls: seq<Call>): (r: (seq<Call>, int))
    ensures made <= r.0
    decreases |calls|
  {
    if calls == [] then (made, 0)
    else
      var now := made + [calls[0]];
      if f(now) != 0 then (now, f(now)) else Cut(f, now, calls[1..])
  }

  lemma {:induction false} CutConcat(f: Func, made: seq<Call>, a: seq<Call>, b: seq<Call>)
    ensures Cut(f, made, a + b) == if Cut(f, made, a).1 != 0 then Cut(f, made, a) else Cut(f, Cut(f, made, a).0, b)
    decreases |a|
  {
    if a == [] {
      assert a + b == b;
    } else {
      assert (a + b)[1..] == a[1..] + b;
      CutConcat(f, made + [a[0]], a[1..], b);
    }
  }

  /** The calls made are the shortest prefix of all of them whose last one returned nonzero, and that is
      the result; all of them, and 0, if there is none. */
  lemma {:induction false} CutIs(f: Func, made: seq<Call>, calls: seq<Call>)
    ensures var (t, r) := Cut(f, made, calls);
            && |made| <= |t| <= |made| + |calls| && t == made + calls[..|t| - |made|]
            && (forall k | |made| < k < |t| :: f(t[..k]) == 0)
            && (if r != 0 then |t| > |made| && r == f(t)
                else t == made + calls && (|t| > |made| ==> f(t) == 0))
    decreases |calls|
  {
    if calls != [] {
      var now := made + [calls[0]];
      if f(now) == 0 {
        CutIs(f, now, calls[1..]);
        var (t, r) := Cut(f, now, calls[1..]);
        assert t == made + calls[..|t| - |made|];
        forall k | |made| < k < |t| ensures f(t[..k]) == 0 { if k == |now| { assert t[..k] == now; } }
        if |t| == |now| { assert t == now; }
      } else {
        assert now == made + calls[..1];
      }
    }
  }

  // ----- the buffer -----

  class Walker {
    var fullpath: array<char>   // pathlen is its length
    var made: seq<Call>         // the calls of func so far

    /** The C string in the buffer starts with path. */
    ghost predicate Prefix(path: string)
      reads this, fullpath
    {
      |path| < fullpath.Length && fullpath[..|path|] == path
    }

    ghost predicate Holds(path: string)
      reads this, fullpath
    {
      Prefix(path) && NUL !in path && fullpath[|path|] == NUL
    }

    constructor (pathlen: nat)
      requires pathlen > NAME_MAX
      ensures fresh(fullpath) && fullpath.Length == pathlen && made == []
    {
      fullpath := new char[pathlen](_ => NUL);
      made := [];
    }

    method StrLen(ghost path: string) returns (n: nat)
      requires Holds(path)
      ensures n == |path|
    {
      n := 0;
      while fullpath[n] != NUL
        invariant n <= |path|
        decreases |path| - n
      {
        assert fullpath[n] == fullpath[..|path|][n];
        n := n + 1;
      }
    }

    /** strcpy(&fullpath[n], s) */
    method StrCpy(n: nat, s: string)
      requires n + |s| < fullpath.Length
      modifies fullpath
      ensures fullpath[..n] == old(fullpath[..n])
      ensures fullpath[n..n + |s|] == s && fullpath[n + |s|] == NUL
    {
      for i := 0 to |s|
        invariant n + |s| < fullpath.Length && fullpath[..n] == old(fullpath[..n]) && fullpath[n..n + i] == s[..i]
      {
        fullpath[n + i] := s[i];
      }
      fullpath[n + |s|] := NUL;
    }

    /** realloc to twice the size, if the next name might not fit. */
    method Grow(n: nat)
      requires n < fullpath.Length && fullpath.Length > NAME_MAX
      modifies this`fullpath
      ensures n + NAME_MAX + 2 <= fullpath.Length && fullpath.Length >= old(fullpath.Length)
      ensures fullpath[..n] == old(fullpath[..n])
      ensures fullpath == old(fullpath) || fresh(fullpath)
    {
      if n + NAME_MAX + 2 > fullpath.Length {
        var p := new char[2 * fullpath.Length];
        forall i | 0 <= i < fullpath.Length { p[i] := fullpath[i]; }
        assert p[..n] == fullpath[..n];
        fullpath := p;
      }
    }

    method CallFunc(f: Func, path: string, typ: Type) returns (ret: int)
      modifies this`made
      ensures (made, ret) == Cut(f, old(made), [Call(path, typ)])
    {
      made := made + [Call(path, typ)];
      ret := f(made);
    }

    /** dopath: the calls are the preorder of the tree, cut after the first nonzero return, and that is
        what is returned; the caller's path is still in the buffer, wherever that is now. */
    method DoPath(f: Func, t: Tree, ghost path: string) returns (ret: int)
      requires TreeOk(t) && Holds(path) && fullpath.Length > NAME_MAX
      modifies this, fullpath
      ensures (made, ret) == Cut(f, old(made), Preorder(t, path))
      ensures Prefix(path) && fullpath.Length >= old(fullpath.Length)
      ensures fullpath == old(fullpath) || fresh(fullpath)
      decreases t, 2
    {
      var n := StrLen(path);
      match t {
        case NoStat =>
          ret := CallFunc(f, fullpath[..n], FTW_NS);
        case File =>
          ret := CallFunc(f, fullpath[..n], FTW_F);
        case Unreadable =>
          ret := CallFunc(f, fullpath[..n], FTW_D);
          CutConcat(f, old(made), [Call(path, FTW_D)], [Call(path + "/", FTW_DNR)]);
          assert Preorder(t, path) == [Call(path, FTW_D)] + [Call(path + "/", FTW_DNR)];
          if ret == 0 {
            Grow(n);
            Slash(n);
            assert fullpath[..n + 1] == path + "/";
            ret := CallFunc(f, fullpath[..n + 1], FTW_DNR);
          }
        case Dir(entries) =>
          ret := CallFunc(f, fullpath[..n], FTW_D);
          CutConcat(f, old(made), [Call(path, FTW_D)], Inside(t, path, 0));
          if ret == 0 {
            Grow(n);
            Slash(n);
            ret := Entries(f, t, path, n + 1);
            fullpath[n] := NUL;
          }
      }
    }

    method Slash(n: nat)
      requires n + 1 < fullpath.Length
      modifies fullpath
      ensures fullpath[..n] == old(fullpath[..n]) && fullpath[n] == '/' && fullpath[n + 1] == NUL
    {
      fullpath[n] := '/';
      fullpath[n + 1] := NUL;
    }

    /** The readdir loop. */
    method Entries(f: Func, t: Tree, ghost path: string, n: nat) returns (ret: int)
      requires TreeOk(t) && t.Dir? && NUL !in path && n == |path| + 1
      requires n + NAME_MAX + 1 <= fullpath.Length && fullpath[..n] == path + "/"
      modifies this, fullpath
      ensures (made, ret) == Cut(f, old(made), Inside(t, path, 0))
      ensures n < fullpath.Length && fullpath[..n] == path + "/" && fullpath.Length >= old(fullpath.Length)
      ensures fullpath == old(fullpath) || fresh(fullpath)
      decreases t, 1
    {
      ret := 0;
      var k := 0;
      while k < |t.entries|
        invariant k <= |t.entries| && ret == 0
        invariant Cut(f, old(made), Inside(t, path, 0)) == Cut(f, made, Inside(t, path, k))
        invariant n + NAME_MAX + 1 <= fullpath.Length && fullpath[..n] == path + "/"
                  && fullpath.Length >= old(fullpath.Length)
        invariant fullpath == old(fullpath) || fresh(fullpath)
      {
        ret := One(f, t, path, n, k);
        if ret != 0 { return; }
        k := k + 1;
      }
    }

    /** One directory entry; dot and dot-dot are ignored. */
    method One(f: Func, t: Tree, ghost path: string, n: nat, k: nat) returns (ret: int)
      requires TreeOk(t) && t.Dir? && NUL !in path && n == |path| + 1 && k < |t.entries|
      requires n + NAME_MAX + 1 <= fullpath.Length && fullpath[..n] == path + "/"
      modifies this, fullpath
      ensures ret == 0 ==> Cut(f, old(made), Inside(t, path, k)) == Cut(f, made, Inside(t, path, k + 1))
      ensures ret != 0 ==> Cut(f, old(made), Inside(t, path, k)) == (made, ret)
      ensures n < fullpath.Length && fullpath[..n] == path + "/" && fullpath.Length >= old(fullpath.Length)
      ensures fullpath == old(fullpath) || fresh(fullpath)
      decreases t, 0
    {
      var e := t.entries[k];
      InsideStep(t, path, k);
      ret := 0;
      if !IsDot(e.name) {
        hide Preorder, Inside, Cut;
        ghost var child := path + "/" + e.name;
        StrCpy(n, e.name);
        assert fullpath[..|child|] == child;
        CutConcat(f, made, Preorder(e.tree, child), Inside(t, path, k + 1));
        ret := DoPath(f, e.tree, child);
        assert fullpath[..n] == fullpath[..|child|][..n];
      }
    }

    /** myftw */
    method Myftw(f: Func, pathname: string, t: Tree) returns (ret: int)
      requires TreeOk(t) && NUL !in pathname && fullpath.Length > NAME_MAX && made == []
      modifies this, fullpath
      ensures (made, ret) == Cut(f, [], Preorder(t, pathname))
      ensures Prefix(pathname)
    {
      if fullpath.Length <= |pathname| { fullpath := new char[2 * |pathname|]; }
      StrCpy(0, pathname);
      assert fullpath[..|pathname|] == fullpath[0..0 + |pathname|];
      ret := DoPath(f, t, pathname);
    }
  }
}
