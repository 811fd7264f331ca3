/** ParallelSortingExample.java: a fork/join merge sort over a closed index
    range [start, end] of an `int[]`. The two subtasks work on the disjoint
    ranges [start, mid] and [mid + 1, end], so running them one after the
    other gives the result `invokeAll` gives. */
module ParallelSort {
  import opened Sorting
  import opened Splices
  import opened MergeSort

  /** Ranges with `end - start` at most this are sorted by `Arrays.sort`. */
  const THRESHOLD: int := 10

  /** `ParallelSortAction(array, start, end).compute()`: afterwards
      a[start..end] holds the sorted arrangement of its old contents and
      nothing outside the range has changed. Small ranges go to
      `Arrays.sort`; larger ones are split at `start + (end - start) / 2`,
      both halves are sorted by their own tasks and then merged with ties
      going to the left half. A task only carries the array and its range,
      which it never changes, so it is given here by its three arguments. */
  method Compute(a: array<int>, start: int, end: int)
    requires 0 <= start <= end + 1 <= a.Length
    modifies a
    ensures a[..] == Splice(old(a[..]), start, end + 1, SortSeq(old(a[start..end + 1])))
    decreases end - start
  {
    if end - start <= THRESHOLD {
      ArraysSort(a, start, end + 1);
    } else {
      var mid := start + (end - start) / 2;
      ghost var a0 := a[..];
      Compute(a, start, mid);
      ghost var a1 := a[..];
      Compute(a, mid + 1, end);
      ghost var a2 := a[..];
      Merge(LeftOnTies, a, start, mid, end);
      HalvesMerged(LeftOnTies, a0, a1, a2, a[..], start, mid, end);
    }
  }

  /** `main`'s root task `new ParallelSortAction(array, 0, array.length - 1)`
      leaves the whole array sorted. */
  method SortAll(a: array<int>)
    modifies a
    ensures a[..] == SortSeq(old(a[..]))
  {
    Compute(a, 0, a.Length - 1);
    assert old(a[0..a.Length]) == old(a[..]);
    SortSeqLength(old(a[..]));
  }

  lemma MainInputMultiset(s: seq<int>)
    requires s == [5, 2, 9, 1, 7, 4, 6, 3, 8]
    ensures multiset(s) == multiset([1, 2, 3, 4, 5, 6, 7, 8, 9])
  {
    InputAsMultiset();
    OutputAsMultiset();
    DisplaysEqual();
  }

  lemma OneToNineSorted()
    ensures Sorted([1, 2, 3, 4, 5, 6, 7, 8, 9])
  {
    var s := [1, 2, 3, 4, 5, 6, 7, 8, 9];
    assert forall i :: 0 <= i < |s| ==> s[i] == i + 1;
  }

  lemma DisplaysEqual()
    ensures multiset{5, 2, 9, 1, 7, 4, 6, 3, 8} == multiset{1, 2, 3, 4, 5, 6, 7, 8, 9}
  {
  }

  lemma InputAsMultiset()
    ensures multiset([5, 2, 9, 1, 7, 4, 6, 3, 8]) == multiset{5, 2, 9, 1, 7, 4, 6, 3, 8}
  {
  }

  lemma OutputAsMultiset()
    ensures multiset([1, 2, 3, 4, 5, 6, 7, 8, 9]) == multiset{1, 2, 3, 4, 5, 6, 7, 8, 9}
  {
  }

  /** `main`'s array comes out as 1, 2, ..., 9. */
  method MainExample() returns (sorted: seq<int>)
    ensures sorted == [1, 2, 3, 4, 5, 6, 7, 8, 9]
  {
    var a := new int[] [5, 2, 9, 1, 7, 4, 6, 3, 8];
    ghost var input := a[..];
    SortAll(a);
    sorted := a[..];
    SortSeqCorrect(input);
    MainInputMultiset(input);
    OneToNineSorted();
    SortedUnique(sorted, [1, 2, 3, 4, 5, 6, 7, 8, 9]);
  }
}
