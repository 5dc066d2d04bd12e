/** The hand-off from the sorting threads to merge, through a barrier for all of them and main. */
module Barrier {
  import opened SortMerge

  datatype Worker = Sorting | Arrived | Past

  datatype Main = Starting | AtBarrier | Merging

  datatype State = State(nums: seq<int>, workers: seq<Worker>, main: Main)

  /** heapsort moves two numbers of the thread's own slice. */
  ghost predicate Swap(s: State, s': State, i: nat, t: nat) {
    && i < |s.workers| && s.workers[i].Sorting?
    && exists a, b :: Base(i, t) <= a < b < Base(i + 1, t) && b < |s.nums|
                      && s' == s.(nums := s.nums[a := s.nums[b]][b := s.nums[a]])
  }

  /** heapsort is done and the thread waits. */
  ghost predicate Arrive(s: State, s': State, i: nat, t: nat) {
    && i < |s.workers| && s.workers[i].Sorting? && SortedIn(s.nums, Base(i, t), Base(i + 1, t))
    && s' == s.(workers := s.workers[i := Arrived])
  }

  /** The last of NTHR + 1 to arrive lets all go. */
  ghost predicate Release(s: State, s': State) {
    && s.main.AtBarrier? && (forall i | 0 <= i < |s.workers| :: s.workers[i].Arrived?)
    && s' == s.(workers := seq(|s.workers|, _ => Past), main := Merging)
  }

  ghost predicate Step(s: State, s': State, t: nat) {
    || (exists i :: Swap(s, s', i, t))
    || (exists i :: Arrive(s, s', i, t))
    || (s.main.Starting? && s' == s.(main := AtBarrier))
    || Release(s, s')
  }

  ghost predicate Inv(s: State, nums: seq<int>, t: nat) {
    && |s.nums| == |nums| && multiset(s.nums) == multiset(nums)
    && (forall i | 0 <= i < |s.workers| && !s.workers[i].Sorting? :: SortedIn(s.nums, Base(i, t), Base(i + 1, t)))
    && (s.main.Merging? ==> forall i | 0 <= i < |s.workers| :: s.workers[i].Past?)
  }

  /** A swap inside one slice leaves the others alone. */
  lemma SwapApart(s: seq<int>, a: nat, b: nat, i: nat, k: nat, t: nat)
    requires Base(i, t) <= a < b < Base(i + 1, t) && b < |s| && k != i && SortedIn(s, Base(k, t), Base(k + 1, t))
    ensures SortedIn(s[a := s[b]][b := s[a]], Base(k, t), Base(k + 1, t))
  {
    if k < i { BaseUp(k + 1, i, t); } else { BaseUp(i + 1, k, t); }
    hide Base;
  }

  lemma SwapMultiset(s: seq<int>, a: nat, b: nat)
    requires a < b < |s|
    ensures multiset(s[a := s[b]][b := s[a]]) == multiset(s)
  {
  }

  lemma SwapKeeps(s: State, s': State, i: nat, nums: seq<int>, t: nat)
    requires Inv(s, nums, t) && Swap(s, s', i, t)
    ensures Inv(s', nums, t)
  {
    hide SortedIn, Base;
    var a, b :| Base(i, t) <= a < b < Base(i + 1, t) && b < |s.nums|
        && s' == s.(nums := s.nums[a := s.nums[b]][b := s.nums[a]]);
    SwapMultiset(s.nums, a, b);
    forall k | 0 <= k < |s.workers| && !s.workers[k].Sorting? ensures SortedIn(s'.nums, Base(k, t), Base(k + 1, t)) {
      SwapApart(s.nums, a, b, i, k, t);
    }
  }

  lemma StepKeeps(s: State, s': State, nums: seq<int>, t: nat)
    requires Inv(s, nums, t) && Step(s, s', t)
    ensures Inv(s', nums, t) && |s'.workers| == |s.workers|
  {
    hide SortedIn, Base;
    if i :| Swap(s, s', i, t) { SwapKeeps(s, s', i, nums, t); }
  }

  ghost predicate IsRun(run: seq<State>, n: nat, t: nat) {
    && |run| > 0 && run[0].main.Starting? && |run[0].workers| == n
    && (forall i | 0 <= i < n :: run[0].workers[i].Sorting?)
    && forall k {:trigger run[k]} | 0 <= k < |run| - 1 :: Step(run[k], run[k + 1], t)
  }

  lemma {:induction false} AlwaysInv(run: seq<State>, n: nat, t: nat, k: nat)
    requires IsRun(run, n, t) && k < |run|
    ensures Inv(run[k], run[0].nums, t) && |run[k].workers| == n
    decreases k
  {
    hide SortedIn, Base, Step;
    if k > 0 {
      AlwaysInv(run, n, t, k - 1);
      assert Step(run[k - 1], run[k], t);
      StepKeeps(run[k - 1], run[k], run[0].nums, t);
    }
  }

  /** When merge starts, every slice is sorted, the numbers are a permutation of the original ones, and no
      thread can move any of them any more. */
  lemma MergeAfterSort(run: seq<State>, n: nat, t: nat, k: nat)
    requires IsRun(run, n, t) && k < |run| && run[k].main.Merging?
    ensures SlicesSorted(run[k].nums, n, t) && multiset(run[k].nums) == multiset(run[0].nums)
    ensures forall s', i :: !Swap(run[k], s', i, t)
  {
    AlwaysInv(run, n, t, k);
    hide SortedIn, Base;
  }
}
