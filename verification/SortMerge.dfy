/** Sorting in slices, one thread each, a barrier, and a merge of the sorted slices. Any number of
    threads n and any slice length t. */
module SortMerge {
  const LONG_MAX := 0x7fff_ffff_ffff_ffff

  // ----- slices -----

  /** Where slice i starts. */
  function Base(i: nat, t: nat): nat
    decreases i
  {
    if i == 0 then 0 else Base(i - 1, t) + t
  }

  lemma {:induction false} BaseUp(i: nat, j: nat, t: nat)
    requires i <= j
    ensures Base(i, t) <= Base(j, t) && (i < j ==> Base(i, t) + t <= Base(j, t))
    decreases j
  {
    if i < j { BaseUp(i, j - 1, t); }
  }

  ghost predicate SortedIn(s: seq<int>, lo: nat, hi: nat) {
    forall i, j | lo <= i < j < hi && j < |s| :: s[i] <= s[j]
  }

  lemma Ascending(s: seq<int>)
    requires SortedIn(s, 0, |s|)
    ensures forall i, j | 0 <= i < j < |s| :: s[i] <= s[j]
  {
  }

  /** Slice i begins at i * t. */
  lemma {:induction false} BaseIs(i: nat, t: nat)
    ensures Base(i, t) == i * t
  {
    if i > 0 { BaseIs(i - 1, t); }
  }

  /** Each of the n slices is sorted. */
  ghost predicate SlicesSorted(s: seq<int>, n: nat, t: nat) {
    forall i | 0 <= i < n :: SortedIn(s, Base(i, t), Base(i + 1, t))
  }

  // ----- merge -----

  /** Each idx[i] is inside slice i or at its end. */
  ghost predicate InSlices(idx: seq<nat>, n: nat, t: nat) {
    |idx| == n && forall i {:trigger idx[i]} | 0 <= i < n :: Base(i, t) <= idx[i] <= Base(i + 1, t)
  }

  /** How many have been taken from the first k slices, and which. */
  function Count(idx: seq<nat>, t: nat, k: nat): int
    requires k <= |idx|
    decreases k
  {
    if k == 0 then 0 else Count(idx, t, k - 1) + idx[k - 1] - Base(k - 1, t)
  }

  ghost function Taken(s: seq<int>, idx: seq<nat>, t: nat, k: nat): multiset<int>
    requires k <= |idx| && Within(s, idx, t, k)
    decreases k
  {
    if k == 0 then multiset{}
    else
      assert Base(k - 1, t) <= idx[k - 1] <= |s|;
      Taken(s, idx, t, k - 1) + multiset(s[Base(k - 1, t)..idx[k - 1]])
  }

  ghost predicate Within(s: seq<int>, idx: seq<nat>, t: nat, k: nat)
    requires k <= |idx|
  {
    forall i {:trigger idx[i]} | 0 <= i < k :: Base(i, t) <= idx[i] <= |s|
  }

  lemma {:induction false} CountOne(idx: seq<nat>, t: nat, m: nat, k: nat)
    requires k <= |idx| && m < |idx|
    ensures Count(idx[m := idx[m] + 1], t, k) == Count(idx, t, k) + (if m < k then 1 else 0)
    decreases k
  {
    if k > 0 { CountOne(idx, t, m, k - 1); }
  }

  lemma {:induction false} TakeOne(s: seq<int>, idx: seq<nat>, t: nat, m: nat, k: nat)
    requires k <= |idx| && m < |idx| && Within(s, idx, t, k) && (m < k ==> idx[m] < |s|)
    ensures Within(s, idx[m := idx[m] + 1], t, k)
    ensures Taken(s, idx[m := idx[m] + 1], t, k)
            == Taken(s, idx, t, k) + if m < k then multiset{s[idx[m]]} else multiset{}
    decreases k
  {
    if k > 0 {
      WithinPart(s, idx, t, k);
      TakeOne(s, idx, t, m, k - 1);
      TakeLast(s, idx, t, m, k);
    }
  }

  lemma WithinPart(s: seq<int>, idx: seq<nat>, t: nat, k: nat)
    requires 0 < k <= |idx| && Within(s, idx, t, k)
    ensures Within(s, idx, t, k - 1)
  {
  }

  lemma TakeLast(s: seq<int>, idx: seq<nat>, t: nat, m: nat, k: nat)
    requires 0 < k <= |idx| && m < |idx| && Within(s, idx, t, k) && (m < k ==> idx[m] < |s|)
    requires Within(s, idx, t, k - 1) && Within(s, idx[m := idx[m] + 1], t, k - 1)
    requires Taken(s, idx[m := idx[m] + 1], t, k - 1)
             == Taken(s, idx, t, k - 1) + if m < k - 1 then multiset{s[idx[m]]} else multiset{}
    ensures Within(s, idx[m := idx[m] + 1], t, k)
    ensures Taken(s, idx[m := idx[m] + 1], t, k)
            == Taken(s, idx, t, k) + if m < k then multiset{s[idx[m]]} else multiset{}
  {
    hide Taken, Base, Within;
    var idx' := idx[m := idx[m] + 1];
    WithinNext(s, idx, t, m, k);
    TakenStep(s, idx, t, k);
    TakenStep(s, idx', t, k);
    var a, b := Taken(s, idx, t, k - 1), Base(k - 1, t);
    if m == k - 1 {
      assert s[b..idx[m] + 1] == s[b..idx[m]] + [s[idx[m]]];
      OneMore(a, s[b..idx[m]], s[idx[m]]);
    } else if m < k {
      Swap(a, multiset{s[idx[m]]}, multiset(s[b..idx[k - 1]]));
    }
  }

  lemma OneMore(a: multiset<int>, x: seq<int>, e: int)
    ensures a + multiset(x + [e]) == (a + multiset(x)) + multiset{e}
  {
  }

  lemma Swap(a: multiset<int>, b: multiset<int>, c: multiset<int>)
    ensures (a + b) + c == (a + c) + b
  {
  }

  lemma WithinNext(s: seq<int>, idx: seq<nat>, t: nat, m: nat, k: nat)
    requires k <= |idx| && m < |idx| && Within(s, idx, t, k) && (m < k ==> idx[m] < |s|)
    ensures Within(s, idx[m := idx[m] + 1], t, k)
  {
    hide Base;
  }

  lemma TakenStep(s: seq<int>, idx: seq<nat>, t: nat, k: nat)
    requires 0 < k <= |idx| && Within(s, idx, t, k)
    ensures Within(s, idx, t, k - 1) && Base(k - 1, t) <= idx[k - 1] <= |s|
    ensures Taken(s, idx, t, k) == Taken(s, idx, t, k - 1) + multiset(s[Base(k - 1, t)..idx[k - 1]])
  {
  }

  /** Everything taken is everything there. */
  lemma {:induction false} TakenAll(s: seq<int>, idx: seq<nat>, t: nat, k: nat)
    requires InSlices(idx, |idx|, t) && k <= |idx| && Base(|idx|, t) == |s|
    requires forall i | 0 <= i < k :: idx[i] == Base(i + 1, t)
    ensures Within(s, idx, t, k) && Base(k, t) <= |s|
    ensures Taken(s, idx, t, k) == multiset(s[..Base(k, t)])
    decreases k
  {
    BaseUp(k, |idx|, t);
    if k > 0 {
      BaseUp(k - 1, k, t);
      TakenAll(s, idx, t, k - 1);
      OneSliceMore(s, idx, t, k);
    } else {
      assert s[..0] == [];
    }
  }

  lemma OneSliceMore(s: seq<int>, idx: seq<nat>, t: nat, k: nat)
    requires 0 < k <= |idx| && Base(k - 1, t) <= Base(k, t) <= |s| && idx[k - 1] == Base(k, t)
    requires Within(s, idx, t, k - 1) && Taken(s, idx, t, k - 1) == multiset(s[..Base(k - 1, t)])
    ensures Within(s, idx, t, k) && Taken(s, idx, t, k) == multiset(s[..Base(k, t)])
  {
    Halves(s, Base(k - 1, t), Base(k, t));
    assert Within(s, idx, t, k);
    TakenStep(s, idx, t, k);
    hide Taken, Within, Base;
  }

  lemma Halves(s: seq<int>, a: nat, b: nat)
    requires a <= b <= |s|
    ensures multiset(s[..a]) + multiset(s[a..b]) == multiset(s[..b])
  {
    assert s[..b] == s[..a] + s[a..b];
  }

  /** The count falls short of the length exactly when some slice has something left. */
  lemma {:induction false} CountShort(idx: seq<nat>, t: nat, k: nat)
    requires InSlices(idx, |idx|, t) && k <= |idx|
    ensures Count(idx, t, k) <= Base(k, t)
    ensures Count(idx, t, k) == Base(k, t) <==> forall i | 0 <= i < k :: idx[i] == Base(i + 1, t)
    decreases k
  {
    if k > 0 {
      CountShort(idx, t, k - 1);
      assert Base(k - 1, t) <= idx[k - 1] <= Base(k, t);
      if Count(idx, t, k) == Base(k, t) {
        forall i | 0 <= i < k ensures idx[i] == Base(i + 1, t) { if i == k - 1 { } }
      }
    }
  }

  lemma {:induction false} CountStart(idx: seq<nat>, t: nat, k: nat, s: seq<int>)
    requires k <= |idx| && (forall i | 0 <= i < |idx| :: idx[i] == Base(i, t)) && Base(|idx|, t) == |s|
    ensures Count(idx, t, k) == 0
    ensures Within(s, idx, t, k) && Taken(s, idx, t, k) == multiset{}
    decreases k
  {
    forall i | 0 <= i < |idx| ensures Base(i, t) <= |s| { BaseUp(i, |idx|, t); }
    if k > 0 { CountStart(idx, t, k - 1, s); }
  }

  /** What is out is no larger than anything left. */
  ghost predicate Ahead(out: seq<int>, s: seq<int>, idx: seq<nat>, t: nat)
    requires Base(|idx|, t) <= |s|
  {
    forall i, j, k | 0 <= i < |idx| && idx[i] <= k < Base(i + 1, t) && k < |s| && 0 <= j < |out| :: out[j] <= s[k]
  }

  /** The head of slice m is the least of what is left. */
  ghost predicate Least(s: seq<int>, idx: seq<nat>, t: nat, m: nat) {
    && m < |idx| && idx[m] < Base(m + 1, t) && idx[m] < |s|
    && forall i {:trigger idx[i]} | 0 <= i < |idx| && idx[i] < Base(i + 1, t) && idx[i] < |s| :: s[idx[m]] <= s[idx[i]]
  }

  lemma AheadNext(out: seq<int>, s: seq<int>, idx: seq<nat>, n: nat, t: nat, m: nat)
    requires InSlices(idx, n, t) && Base(n, t) == |s| && SlicesSorted(s, n, t)
    requires Ahead(out, s, idx, t) && Least(s, idx, t, m)
    ensures Ahead(out + [s[idx[m]]], s, idx[m := idx[m] + 1], t)
  {
    var idx', out' := idx[m := idx[m] + 1], out + [s[idx[m]]];
    forall i, j, k | 0 <= i < n && idx'[i] <= k < Base(i + 1, t) && k < |s| && 0 <= j < |out'|
      ensures out'[j] <= s[k]
    {
      assert idx[i] <= k;
      if j == |out| {
        assert SortedIn(s, Base(i, t), Base(i + 1, t));
        assert Base(i, t) <= idx[i];
        assert s[idx[m]] <= s[idx[i]] <= s[k];
      } else {
        assert out'[j] == out[j];
      }
    }
  }

  /** The inner loop: the first slice with the least head below LONG_MAX, if there is such a head. */
  method Select(nums: array<int>, idx: array<nat>, n: nat, t: nat) returns (found: bool, minidx: nat)
    requires InSlices(idx[..], n, t) && Base(n, t) == nums.Length
    ensures found <==> exists i ::
              0 <= i < n && idx[i] < Base(i + 1, t) && idx[i] < nums.Length && nums[idx[i]] < LONG_MAX
    ensures found ==>
              Least(nums[..], idx[..], t, minidx) && minidx < n && idx[minidx] < nums.Length
              && nums[idx[minidx]] < LONG_MAX
  {
    var num := LONG_MAX;
    found, minidx := false, 0;
    var end := t;
    for i := 0 to n
      invariant end == Base(i, t) + t && num <= LONG_MAX
      invariant found ==>
                  minidx < i && idx[minidx] < Base(minidx + 1, t) && idx[minidx] < nums.Length
                  && num == nums[idx[minidx]] < LONG_MAX
      invariant !found ==> num == LONG_MAX
      invariant forall k {:trigger idx[k]} | 0 <= k < i && idx[k] < Base(k + 1, t) && idx[k] < nums.Length ::
                  num <= nums[idx[k]]
    {
      assert idx[..][i] == idx[i];
      BaseUp(i + 1, n, t);
      if idx[i] < end && nums[idx[i]] < num {
        num := nums[idx[i]];
        found, minidx := true, i;
      }
      end := end + t;
    }
  }

  /** The state of merge after |out| steps. */
  ghost predicate Merging(out: seq<int>, s: seq<int>, idx: seq<nat>, n: nat, t: nat) {
    && Base(n, t) == |s| && SlicesSorted(s, n, t) && InSlices(idx, n, t) && Count(idx, t, n) == |out|
    && Within(s, idx, t, n) && multiset(out) == Taken(s, idx, t, n)
    && Ahead(out, s, idx, t) && SortedIn(out, 0, |out|)
    && (forall j | 0 <= j < |out| :: out[j] < LONG_MAX)
  }

  lemma MergeStart(s: seq<int>, idx: seq<nat>, n: nat, t: nat)
    requires Base(n, t) == |s| && SlicesSorted(s, n, t) && |idx| == n && forall i | 0 <= i < n :: idx[i] == Base(i, t)
    ensures Merging([], s, idx, n, t)
  {
    CountStart(idx, t, n, s);
  }

  lemma MergeStep(out: seq<int>, s: seq<int>, idx: seq<nat>, n: nat, t: nat, m: nat)
    requires Merging(out, s, idx, n, t) && Least(s, idx, t, m) && s[idx[m]] < LONG_MAX
    ensures Merging(out + [s[idx[m]]], s, idx[m := idx[m] + 1], n, t)
  {
    CountOne(idx, t, m, n);
    TakeOne(s, idx, t, m, n);
    AheadNext(out, s, idx, n, t, m);
    NextInSlices(idx, n, t, m);
    LastLargest(out, s, idx, t, m);
    hide Base, Count, Taken, Ahead, Least, InSlices, SlicesSorted, Within;
    assert multiset(out + [s[idx[m]]]) == multiset(out) + multiset{s[idx[m]]};
  }

  lemma NextInSlices(idx: seq<nat>, n: nat, t: nat, m: nat)
    requires InSlices(idx, n, t) && m < n && idx[m] < Base(m + 1, t)
    ensures InSlices(idx[m := idx[m] + 1], n, t)
  {
  }

  lemma LastLargest(out: seq<int>, s: seq<int>, idx: seq<nat>, t: nat, m: nat)
    requires Base(|idx|, t) <= |s| && Ahead(out, s, idx, t) && Least(s, idx, t, m) && SortedIn(out, 0, |out|)
    ensures SortedIn(out + [s[idx[m]]], 0, |out| + 1)
  {
  }

  lemma MergeDone(out: seq<int>, s: seq<int>, idx: seq<nat>, n: nat, t: nat)
    requires Merging(out, s, idx, n, t) && |out| == |s|
    ensures SortedIn(out, 0, |out|) && multiset(out) == multiset(s) && forall k | 0 <= k < |s| :: s[k] < LONG_MAX
  {
    CountShort(idx, t, n);
    TakenAll(s, idx, t, n);
    assert s[..|s|] == s;
    hide Base, Count, Taken, Ahead, Least, InSlices, SlicesSorted, Within;
    forall k | 0 <= k < |s| ensures s[k] < LONG_MAX {
      assert s[k] in multiset(s);
      assert s[k] in multiset(out);
      assert s[k] in out;
    }
  }

  /** Before the end something is left. */
  lemma SomeLeft(out: seq<int>, s: seq<int>, idx: seq<nat>, n: nat, t: nat)
    requires Merging(out, s, idx, n, t) && |out| < |s|
    ensures exists i :: 0 <= i < n && idx[i] < Base(i + 1, t) && idx[i] < |s|
  {
    CountShort(idx, t, n);
    var i :| 0 <= i < n && idx[i] != Base(i + 1, t);
    BaseUp(i + 1, n, t);
  }

  /** merge: without LONG_MAX among the numbers, and only then, every step finds a slice that is not
      exhausted; snums is then sorted and a permutation of nums. ok is false where the program goes on
      with whatever slice it took before, or none. */
  method Merge(nums: array<int>, snums: array<int>, n: nat, t: nat) returns (ok: bool)
    requires nums != snums && nums.Length == snums.Length == Base(n, t) && SlicesSorted(nums[..], n, t)
    requires forall k | 0 <= k < nums.Length :: nums[k] <= LONG_MAX
    modifies snums
    ensures ok <==> forall k | 0 <= k < nums.Length :: nums[k] < 0x7fff_ffff_ffff_ffff
    ensures ok ==> SortedIn(snums[..], 0, snums.Length) && multiset(snums[..]) == multiset(nums[..])
    ensures ok ==> forall i, j | 0 <= i < j < snums.Length :: snums[i] <= snums[j]
  {
    var idx := Starts(n, t);
    ghost var s := nums[..];
    MergeStart(s, idx[..], n, t);
    hide Merging, SlicesSorted, SortedIn, Base;
    for sidx := 0 to snums.Length
      invariant nums[..] == s && idx.Length == n
      invariant Merging(snums[..sidx], s, idx[..], n, t)
    {
      ok := Advance(nums, snums, idx, n, t, sidx);
      if !ok { return; }
    }
    ok := true;
    assert snums[..snums.Length] == snums[..];
    MergeDone(snums[..], s, idx[..], n, t);
    Ascending(snums[..]);
  }

  method Starts(n: nat, t: nat) returns (idx: array<nat>)
    ensures fresh(idx) && idx.Length == n && forall k | 0 <= k < n :: idx[k] == Base(k, t)
  {
    idx := new nat[n];
    var at := 0;
    for i := 0 to n
      invariant at == Base(i, t) && forall k | 0 <= k < i :: idx[k] == Base(k, t)
    {
      idx[i] := at;
      at := at + t;
    }
  }

  /** One step of the outer loop. */
  method Advance(nums: array<int>, snums: array<int>, idx: array<nat>, n: nat, t: nat, sidx: nat) returns (ok: bool)
    requires nums != snums && sidx < snums.Length == nums.Length && idx.Length == n
    requires Merging(snums[..sidx], nums[..], idx[..], n, t)
    modifies snums, idx
    ensures ok ==> Merging(snums[..sidx + 1], nums[..], idx[..], n, t)
    ensures !ok ==> exists k :: 0 <= k < nums.Length && nums[k] >= LONG_MAX
  {
    hide Merging, Base, Least;
    MergingShape(snums[..sidx], nums[..], idx[..], n, t);
    var found, minidx := Select(nums, idx, n, t);
    if !found {
      SomeLeft(snums[..sidx], nums[..], idx[..], n, t);
      ghost var i :| 0 <= i < n && idx[i] < Base(i + 1, t) && idx[i] < nums.Length;
      assert nums[idx[i]] >= LONG_MAX;
      return false;
    }
    MergeStep(snums[..sidx], nums[..], idx[..], n, t, minidx);
    ghost var was, before := idx[..], snums[..sidx];
    snums[sidx] := nums[idx[minidx]];
    idx[minidx] := idx[minidx] + 1;
    assert idx[..] == was[minidx := was[minidx] + 1];
    assert snums[..sidx + 1] == before + [nums[was[minidx]]];
    ok := true;
  }

  lemma MergingShape(out: seq<int>, s: seq<int>, idx: seq<nat>, n: nat, t: nat)
    requires Merging(out, s, idx, n, t)
    ensures InSlices(idx, n, t) && Base(n, t) == |s|
  {
  }

  /** The smallest input on which it fails: one slice with LONG_MAX alone. */
  method MergeLongMax() returns (ok: bool)
    ensures !ok
  {
    var nums := new int[1](_ => LONG_MAX);
    var snums := new int[1];
    assert nums[0] == LONG_MAX;
    ok := Merge(nums, snums, 1, 1);
  }
}
