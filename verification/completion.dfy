/** The index-addressed result buffer of the parallel script. A list
    `images = [None] * n` is filled at `images[idx]` as each render task
    completes, in whatever order the worker pool finishes them, while a counter
    reports progress. Concurrency is abstracted to its observable effect: the
    tasks complete one after another in an arbitrary permutation `order` of
    their submission positions, and task `j` yields `outcomes[j]`. */
module Completion {
  import opened Results

  /** One submitted job: the row index it belongs to and the canonical code. */
  datatype Task = Task(index: nat, code: string)

  /** `order` lists each of the positions 0..n-1 exactly once. */
  predicate IsPermutation(order: seq<nat>, n: nat) {
    && |order| == n
    && (forall k :: 0 <= k < n ==> order[k] < n)
    && (forall a, b :: 0 <= a < b < n ==> order[a] != order[b])
  }

  /** Every task addresses a slot of a buffer pre-sized to the task count. */
  predicate IndicesInRange(tasks: seq<Task>) {
    forall j :: 0 <= j < |tasks| ==> tasks[j].index < |tasks|
  }

  /** The task at position `j` carries row index `j`. */
  predicate WellIndexed(tasks: seq<Task>) {
    forall j :: 0 <= j < |tasks| ==> tasks[j].index == j
  }

  /** The buffer and the progress counts reported so far. */
  datatype Buffer<T> = Buffer(slots: seq<Option<T>>, progress: seq<nat>)

  /** State after the first `k` completions: each completed task `t` has
      written `images[tasks[t].index] = outcomes[t]` and reported the running
      count. */
  function Drain<T>(tasks: seq<Task>, outcomes: seq<T>, order: seq<nat>, k: nat): (b: Buffer<T>)
    requires |outcomes| == |tasks| && IndicesInRange(tasks)
    requires k <= |order|
    requires forall m :: 0 <= m < |order| ==> order[m] < |tasks|
    ensures |b.slots| == |tasks|
    ensures |b.progress| == k
    ensures forall m :: 0 <= m < k ==> b.progress[m] == m + 1
  {
    if k == 0 then Buffer(seq(|tasks|, _ => None), [])
    else
      var b := Drain(tasks, outcomes, order, k - 1);
      var t := order[k - 1];
      Buffer(b.slots[tasks[t].index := Some(outcomes[t])], b.progress + [|b.progress| + 1])
  }

  /** After `k` completions, a slot holds its own task's result exactly when
      that task is among the first `k` to complete, and is empty otherwise. */
  lemma {:induction false} DrainSlots<T>(tasks: seq<Task>, outcomes: seq<T>, order: seq<nat>, k: nat)
    requires WellIndexed(tasks) && |outcomes| == |tasks|
    requires IsPermutation(order, |tasks|) && k <= |tasks|
    ensures forall i :: 0 <= i < |tasks| ==>
              Drain(tasks, outcomes, order, k).slots[i] == (if i in order[..k] then Some(outcomes[i]) else None)
  {
    if k > 0 {
      DrainSlots(tasks, outcomes, order, k - 1);
      assert order[..k] == order[..k - 1] + [order[k - 1]];
    }
  }

  /** No completion overwrites a slot: the slot written at step `k` is still
      empty just before it. */
  lemma DrainWritesEmptySlot<T>(tasks: seq<Task>, outcomes: seq<T>, order: seq<nat>, k: nat)
    requires WellIndexed(tasks) && |outcomes| == |tasks|
    requires IsPermutation(order, |tasks|) && k < |tasks|
    ensures Drain(tasks, outcomes, order, k).slots[tasks[order[k]].index] == None
  {
    DrainSlots(tasks, outcomes, order, k);
    assert order[k] !in order[..k] by {
      forall m | 0 <= m < k
        ensures order[..k][m] != order[k]
      {
      }
    }
  }

  /** The numbers 0..n-1. */
  function Below(n: nat): set<nat> {
    if n == 0 then {} else Below(n - 1) + {n - 1}
  }

  lemma {:induction false} BelowSize(n: nat)
    ensures |Below(n)| == n
    ensures forall i: nat :: i in Below(n) <==> i < n
  {
    if n > 0 {
      BelowSize(n - 1);
    }
  }

  /** Pigeonhole: `|bound|` distinct elements of `bound` cover all of it. */
  lemma {:induction false} DistinctFillsBound(s: seq<nat>, bound: set<nat>)
    requires forall k :: 0 <= k < |s| ==> s[k] in bound
    requires forall a, b :: 0 <= a < b < |s| ==> s[a] != s[b]
    requires |s| == |bound|
    ensures forall y :: y in bound ==> y in s
  {
    if |s| == 0 {
      assert bound == {};
    } else {
      var x := s[|s| - 1];
      var rest := s[..|s| - 1];
      var smaller := bound - {x};
      assert bound == smaller + {x};
      forall k | 0 <= k < |rest|
        ensures rest[k] in smaller
      {
        assert rest[k] == s[k] != s[|s| - 1];
      }
      DistinctFillsBound(rest, smaller);
      assert s == rest + [x];
    }
  }

  /** Every task of a permutation completes at some step. */
  lemma PermutationCovers(order: seq<nat>, n: nat)
    requires IsPermutation(order, n)
    ensures forall j :: 0 <= j < n ==> j in order
  {
    BelowSize(n);
    DistinctFillsBound(order, Below(n));
  }

  /** Once every task has completed, every slot holds its own task's result. */
  lemma {:induction false} DrainFillsEverySlot<T>(tasks: seq<Task>, outcomes: seq<T>, order: seq<nat>)
    requires WellIndexed(tasks) && |outcomes| == |tasks|
    requires IsPermutation(order, |tasks|)
    ensures forall i :: 0 <= i < |tasks| ==>
              Drain(tasks, outcomes, order, |order|).slots[i] == Some(outcomes[i])
  {
    DrainSlots(tasks, outcomes, order, |order|);
    PermutationCovers(order, |tasks|);
    assert order[..|order|] == order;
    forall i | 0 <= i < |tasks|
      ensures i in order[..|order|]
    {
    }
  }

  /** The collected images together with the progress counts reported. */
  datatype PoolRun<T> = PoolRun(images: seq<T>, progress: seq<nat>)

  /** Run the pool to its completion barrier and read the buffer in index
      order. Whatever the completion order, the images come out in submission
      order, every slot filled, and the progress count runs through 1..n. */
  function RunPool<T>(tasks: seq<Task>, outcomes: seq<T>, order: seq<nat>): (r: PoolRun<T>)
    requires WellIndexed(tasks) && |outcomes| == |tasks|
    requires IsPermutation(order, |tasks|)
    ensures r.images == outcomes
    ensures |r.progress| == |tasks|
    ensures forall m :: 0 <= m < |tasks| ==> r.progress[m] == m + 1
  {
    var b := Drain(tasks, outcomes, order, |order|);
    DrainFillsEverySlot(tasks, outcomes, order);
    PoolRun(seq(|b.slots|, i requires 0 <= i < |b.slots| => b.slots[i].value), b.progress)
  }

  /** Two completion orders give the same run. */
  lemma RunPoolOrderIndependent<T>(tasks: seq<Task>, outcomes: seq<T>, p: seq<nat>, q: seq<nat>)
    requires WellIndexed(tasks) && |outcomes| == |tasks|
    requires IsPermutation(p, |tasks|) && IsPermutation(q, |tasks|)
    ensures RunPool(tasks, outcomes, p) == RunPool(tasks, outcomes, q)
  {
  }
}
