/** ComplexParallelSortingExample.java: the same fork/join merge sort shape
    with a larger threshold, the split point `(start + end) / 2` and a merge
    whose strict `<` test gives ties to the right half. */
module ComplexParallelSort {
  import opened Sorting
  import opened Splices
  import opened MergeSort

  /** `ParallelSortTask.THRESHOLD`. */
  const THRESHOLD: int := 100

  /** `ParallelSortTask(array, start, end).compute()`: afterwards
      a[start..end] holds the sorted arrangement of its old contents and
      nothing outside the range has changed. A task only carries the array
      and its range, which it never changes, so it is given here by its three
      arguments. */
  method Compute(a: array<int>, start: int, end: int)
    requires 0 <= start <= end + 1 <= a.Length
    modifies a
    ensures a[..] == Splice(old(a[..]), start, end + 1, SortSeq(old(a[start..end + 1])))
    decreases end - start
  {
    if end - start <= THRESHOLD {
      ArraysSort(a, start, end + 1);
    } else {
      var mid := (start + end) / 2;
      ghost var a0 := a[..];
      Compute(a, start, mid);
      ghost var a1 := a[..];
      Compute(a, mid + 1, end);
      ghost var a2 := a[..];
      Merge(RightOnTies, a, start, mid, end);
      HalvesMerged(RightOnTies, a0, a1, a2, a[..], start, mid, end);
    }
  }

  /** `parallelSort(array)`: the public constructor `ParallelSortTask(array)`
      covers the range [0, array.length - 1], so invoking it sorts the whole
      array. */
  method ParallelSortWhole(a: array<int>)
    modifies a
    ensures a[..] == SortSeq(old(a[..]))
  {
    Compute(a, 0, a.Length - 1);
    assert old(a[0..a.Length]) == old(a[..]);
    SortSeqLength(old(a[..]));
  }

  /** `merge` on two sorted halves: a sorted permutation of them, and the
      very sequence the `<=` merge of ParallelSortingExample.java gives, since
      equal `int`s cannot be told apart. */
  lemma SameAsLeftOnTiesMerge(l: seq<int>, r: seq<int>)
    requires Sorted(l) && Sorted(r)
    ensures MergeRuns(RightOnTies, l, r) == MergeRuns(LeftOnTies, l, r)
    ensures Sorted(MergeRuns(RightOnTies, l, r))
    ensures multiset(MergeRuns(RightOnTies, l, r)) == multiset(l) + multiset(r)
  {
    TiesIrrelevantOnSorted(l, r);
    MergeRunsSorted(RightOnTies, l, r);
    MergeRunsMultiset(RightOnTies, l, r);
  }
}
