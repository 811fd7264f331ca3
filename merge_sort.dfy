/** The `merge` step shared by both fork/join merge sorts
    (ParallelSortingExample.java and ComplexParallelSortingExample.java):
    the two halves a[start..mid] and a[mid+1..end] are merged into a fresh
    buffer by three index loops and the buffer is copied back over the
    range. The two sources differ only in the comparison that decides which
    half gives the next element. */
module MergeSort {
  import opened Sorting
  import opened Splices

  /** Which half wins a tie: `array[i] <= array[j]` takes the left element
      on equal keys, `array[i] < array[j]` takes the right one. */
  datatype Ties = LeftOnTies | RightOnTies

  /** The test of the first merge loop: does the left element go next? */
  predicate TakeLeft(ties: Ties, x: int, y: int)
  {
    match ties
    case LeftOnTies => x <= y
    case RightOnTies => x < y
  }

  /** What the merge loops produce from two runs, taking the head of `l`
      whenever `TakeLeft` says so. */
  function MergeRuns(ties: Ties, l: seq<int>, r: seq<int>): seq<int>
    decreases |l| + |r|
  {
    if l == [] then r
    else if r == [] then l
    else if TakeLeft(ties, l[0], r[0]) then [l[0]] + MergeRuns(ties, l[1..], r)
    else [r[0]] + MergeRuns(ties, l, r[1..])
  }

  lemma {:induction false} MergeRunsMultiset(ties: Ties, l: seq<int>, r: seq<int>)
    ensures multiset(MergeRuns(ties, l, r)) == multiset(l) + multiset(r)
    decreases |l| + |r|
  {
    if l != [] && r != [] {
      assert l == [l[0]] + l[1..];
      assert r == [r[0]] + r[1..];
      if TakeLeft(ties, l[0], r[0]) {
        MergeRunsMultiset(ties, l[1..], r);
      } else {
        MergeRunsMultiset(ties, l, r[1..]);
      }
    }
  }

  /** Merging two sorted halves gives a sorted sequence. */
  lemma {:induction false} MergeRunsSorted(ties: Ties, l: seq<int>, r: seq<int>)
    requires Sorted(l) && Sorted(r)
    ensures Sorted(MergeRuns(ties, l, r))
    decreases |l| + |r|
  {
    if l != [] && r != [] {
      if TakeLeft(ties, l[0], r[0]) {
        MergeRunsSorted(ties, l[1..], r);
        var t := MergeRuns(ties, l[1..], r);
        assert t[0] == r[0] || t[0] == l[1];
        ConsSorted(l[0], t);
      } else {
        MergeRunsSorted(ties, l, r[1..]);
        var t := MergeRuns(ties, l, r[1..]);
        assert t[0] == l[0] || t[0] == r[1];
        ConsSorted(r[0], t);
      }
    }
  }

  /** The merge of s[i..mid] and s[j..end] as `merge`'s loops build it, one
      index step at a time. */
  function MergeFrom(ties: Ties, s: seq<int>, i: int, mid: int, j: int, end: int): seq<int>
    requires 0 <= i <= mid + 1 <= j <= end + 1 <= |s|
    decreases (mid + 1 - i) + (end + 1 - j)
  {
    if i > mid then s[j..end + 1]
    else if j > end then s[i..mid + 1]
    else if TakeLeft(ties, s[i], s[j]) then [s[i]] + MergeFrom(ties, s, i + 1, mid, j, end)
    else [s[j]] + MergeFrom(ties, s, i, mid, j + 1, end)
  }

  lemma {:induction false} MergeFromIsMerge(ties: Ties, s: seq<int>, i: int, mid: int, j: int, end: int)
    requires 0 <= i <= mid + 1 <= j <= end + 1 <= |s|
    ensures MergeFrom(ties, s, i, mid, j, end) == MergeRuns(ties, s[i..mid + 1], s[j..end + 1])
    decreases (mid + 1 - i) + (end + 1 - j)
  {
    var l, r := s[i..mid + 1], s[j..end + 1];
    if i <= mid && j <= end {
      if TakeLeft(ties, s[i], s[j]) {
        MergeFromIsMerge(ties, s, i + 1, mid, j, end);
        assert l[1..] == s[i + 1..mid + 1];
      } else {
        MergeFromIsMerge(ties, s, i, mid, j + 1, end);
        assert r[1..] == s[j + 1..end + 1];
      }
    }
  }

  /** `merge`'s three loops: they fill a fresh buffer `merged` with the two
      halves a[start..mid] and a[mid+1..end] merged, reading `a` only. The
      first loop runs while both halves have elements left; the other two
      copy what is left of the left half, then of the right half. */
  method MergeIntoBuffer(ties: Ties, a: array<int>, start: int, mid: int, end: int) returns (merged: array<int>)
    requires 0 <= start <= mid + 1 <= end + 1 <= a.Length
    ensures fresh(merged) && merged.Length == end - start + 1
    ensures merged[..] == MergeRuns(ties, a[start..mid + 1], a[mid + 1..end + 1])
  {
    ghost var s := a[..];
    ghost var whole := MergeFrom(ties, s, start, mid, mid + 1, end);
    assert |whole| == end - start + 1 && whole == MergeRuns(ties, s[start..mid + 1], s[mid + 1..end + 1]) by {
      MergeFromIsMerge(ties, s, start, mid, mid + 1, end);
      MergeRunsLength(ties, s[start..mid + 1], s[mid + 1..end + 1]);
    }
    merged := new int[end - start + 1];
    var i, j, k := MergeWhileBoth(ties, a, start, mid, end, merged);
    assert merged[..k] + a[i..mid + 1] + a[j..end + 1] == whole by {
      assert a[..] == s;
      MergeFromRest(ties, s, i, mid, j, end);
      Regroup(merged[..k], s[i..mid + 1], s[j..end + 1], whole);
    }
    CopyRest(ties, a, i, mid, j, end, merged, k, whole);
  }

  /** The second and third loops of `merge`: what is left of the left half,
      then what is left of the right half, fill the buffer up. */
  method CopyRest(ties: Ties, a: array<int>, i: int, mid: int, j: int, end: int, merged: array<int>, k: int, ghost whole: seq<int>)
    requires 0 <= i <= mid + 1 <= j <= end + 1 <= a.Length && merged != a
    requires 0 <= k && merged.Length == k + (mid + 1 - i) + (end + 1 - j)
    requires merged[..k] + a[i..mid + 1] + a[j..end + 1] == whole
    modifies merged
    ensures merged[..] == whole
  {
    var k' := CopyRange(a, i, mid + 1, merged, k, a[j..end + 1], whole);
    k' := CopyRange(a, j, end + 1, merged, k', [], whole);
    assert merged[..] == merged[..k'] + [];
  }

  /** The first loop of `merge`: it stops as soon as one half is used up,
      having written to merged[..k] the part of the merge it consumed. */
  method MergeWhileBoth(ties: Ties, a: array<int>, start: int, mid: int, end: int, merged: array<int>) returns (i: int, j: int, k: int)
    requires 0 <= start <= mid + 1 <= end + 1 <= a.Length
    requires merged != a && merged.Length == end - start + 1
    modifies merged
    ensures start <= i <= mid + 1 <= j <= end + 1 && (i == mid + 1 || j == end + 1)
    ensures k == (i - start) + (j - mid - 1)
    ensures merged[..k] + MergeFrom(ties, a[..], i, mid, j, end) == MergeFrom(ties, a[..], start, mid, mid + 1, end)
  {
    ghost var s := a[..];
    ghost var whole := MergeFrom(ties, s, start, mid, mid + 1, end);
    // what the loop has written so far
    ghost var out: seq<int> := [];
    i, j, k := start, mid + 1, 0;
    while i <= mid && j <= end
      invariant start <= i <= mid + 1 <= j <= end + 1
      invariant k == (i - start) + (j - mid - 1) == |out|
      invariant out + MergeFrom(ties, s, i, mid, j, end) == whole
      invariant forall p :: 0 <= p < k ==> merged[p] == out[p]
      decreases (mid - i) + (end - j)
    {
      if TakeLeft(ties, a[i], a[j]) {
        merged[k] := a[i];
        Emit(out, s[i], MergeFrom(ties, s, i + 1, mid, j, end), whole);
        out := out + [s[i]];
        k, i := k + 1, i + 1;
      } else {
        merged[k] := a[j];
        Emit(out, s[j], MergeFrom(ties, s, i, mid, j + 1, end), whole);
        out := out + [s[j]];
        k, j := k + 1, j + 1;
      }
    }
    assert merged[..k] == out;
  }

  /** The second and third loops of `merge`: copy a[lo..hi) to merged[k..]
      and return the next free position; whatever `merged[..k]` followed by
      a[lo..hi) and `rest` made up, merged[..k'] followed by `rest` still
      makes up. */
  method CopyRange(a: array<int>, lo: int, hi: int, merged: array<int>, k: int, ghost rest: seq<int>, ghost whole: seq<int>)
    returns (k': int)
    requires 0 <= lo <= hi <= a.Length && merged != a
    requires 0 <= k && k + (hi - lo) <= merged.Length
    requires merged[..k] + a[lo..hi] + rest == whole
    modifies merged
    ensures k' == k + (hi - lo)
    ensures merged[..k'] + rest == whole
  {
    var i := lo;
    k' := k;
    ghost var done := merged[..k];
    while i < hi
      invariant lo <= i <= hi && k' == k + (i - lo)
      invariant forall p :: 0 <= p < k ==> merged[p] == done[p]
      invariant forall p :: k <= p < k' ==> merged[p] == a[lo + (p - k)]
    {
      merged[k'] := a[i];
      k', i := k' + 1, i + 1;
    }
    assert merged[..k'] == done + a[lo..hi];
  }

  /** Once one half is used up, the rest of the merge is the rest of the
      other half. */
  lemma MergeFromRest(ties: Ties, s: seq<int>, i: int, mid: int, j: int, end: int)
    requires 0 <= i <= mid + 1 <= j <= end + 1 <= |s| && (i == mid + 1 || j == end + 1)
    ensures MergeFrom(ties, s, i, mid, j, end) == s[i..mid + 1] + s[j..end + 1]
  {
  }

  lemma Regroup(m: seq<int>, x: seq<int>, y: seq<int>, whole: seq<int>)
    requires m + (x + y) == whole
    ensures m + x + y == whole
  {
  }

  /** Moving the next element of the merge into the written prefix. */
  lemma Emit(out: seq<int>, x: int, rest: seq<int>, whole: seq<int>)
    requires out + ([x] + rest) == whole
    ensures (out + [x]) + rest == whole
  {
    assert out + ([x] + rest) == (out + [x]) + rest;
  }

  lemma {:induction false} MergeRunsLength(ties: Ties, l: seq<int>, r: seq<int>)
    ensures |MergeRuns(ties, l, r)| == |l| + |r|
    decreases |l| + |r|
  {
    if l != [] && r != [] {
      if TakeLeft(ties, l[0], r[0]) {
        MergeRunsLength(ties, l[1..], r);
      } else {
        MergeRunsLength(ties, l, r[1..]);
      }
    }
  }

  /** `merge(array, start, mid, end)`: merges the two halves through the
      buffer and copies the buffer back over a[start..end]
      (`System.arraycopy`); nothing outside the range changes. */
  method Merge(ties: Ties, a: array<int>, start: int, mid: int, end: int)
    requires 0 <= start <= mid + 1 <= end + 1 <= a.Length
    modifies a
    ensures a[..] == Splice(old(a[..]), start, end + 1, MergeRuns(ties, old(a[start..mid + 1]), old(a[mid + 1..end + 1])))
  {
    var merged := MergeIntoBuffer(ties, a, start, mid, end);
    CopyBack(merged, a, start);
  }

  /** `System.arraycopy(merged, 0, array, start, merged.length)`. */
  method CopyBack(merged: array<int>, a: array<int>, start: int)
    requires merged != a && 0 <= start && start + merged.Length <= a.Length
    modifies a
    ensures a[..] == Splice(old(a[..]), start, start + merged.Length, merged[..])
  {
    var t := 0;
    while t < merged.Length
      invariant 0 <= t <= merged.Length
      invariant forall p :: 0 <= p < t ==> a[start + p] == merged[p]
      invariant forall p :: 0 <= p < start || start + t <= p < a.Length ==> a[p] == old(a[p])
    {
      a[start + t] := merged[t];
      t := t + 1;
    }
    assert a[..] == old(a[..start]) + merged[..] + old(a[start + merged.Length..]);
    assert old(a[..start]) == old(a[..])[..start];
  }

  /** Merging the sorted arrangements of two runs gives the sorted
      arrangement of the runs put together. */
  lemma MergeSortedRuns(ties: Ties, x: seq<int>, y: seq<int>, z: seq<int>)
    requires x + y == z
    ensures MergeRuns(ties, SortSeq(x), SortSeq(y)) == SortSeq(z)
  {
    var l, r := SortSeq(x), SortSeq(y);
    SortSeqCorrect(x);
    SortSeqCorrect(y);
    SortSeqCorrect(z);
    MergeRunsSorted(ties, l, r);
    MergeRunsMultiset(ties, l, r);
    SortedUnique(MergeRuns(ties, l, r), SortSeq(z));
  }

  lemma ConcatSlices(s: seq<int>, lo: int, mid: int, hi: int)
    requires 0 <= lo <= mid <= hi <= |s|
    ensures s[lo..mid] + s[mid..hi] == s[lo..hi]
  {
  }

  /** After the two recursive calls the range holds the two sorted halves
      side by side. */
  lemma HalvesSorted(a0: seq<int>, a1: seq<int>, a2: seq<int>, start: int, mid: int, end: int)
    requires 0 <= start <= mid < end < |a0| == |a1| == |a2|
    requires a1 == Splice(a0, start, mid + 1, SortSeq(a0[start..mid + 1]))
    requires a2 == Splice(a1, mid + 1, end + 1, SortSeq(a1[mid + 1..end + 1]))
    ensures a2[start..mid + 1] == SortSeq(a0[start..mid + 1])
    ensures a2[mid + 1..end + 1] == SortSeq(a0[mid + 1..end + 1])
    ensures a2 == Splice(a0, start, end + 1, SortSeq(a0[start..mid + 1]) + SortSeq(a0[mid + 1..end + 1]))
  {
    var L, R := SortSeq(a0[start..mid + 1]), SortSeq(a0[mid + 1..end + 1]);
    SortSeqLength(a0[start..mid + 1]);
    SortSeqLength(a0[mid + 1..end + 1]);
    assert a1[start..mid + 1] == L;
    SpliceOutside(a0, start, mid + 1, L, mid + 1, end + 1);
    assert a2 == Splice(a1, mid + 1, end + 1, R);
    SpliceOutside(a1, mid + 1, end + 1, R, start, mid + 1);
    SpliceAdjacent(a0, start, mid + 1, end + 1, L, R);
  }

  /** Merging two runs that lie side by side replaces them by their merge. */
  lemma MergeReplaces(ties: Ties, a0: seq<int>, a2: seq<int>, a3: seq<int>, start: int, mid: int, end: int, L: seq<int>, R: seq<int>)
    requires 0 <= start <= mid < end < |a0| && |L| == mid + 1 - start && |R| == end - mid
    requires a2 == Splice(a0, start, end + 1, L + R)
    requires a2[start..mid + 1] == L && a2[mid + 1..end + 1] == R
    requires a3 == Splice(a2, start, end + 1, MergeRuns(ties, a2[start..mid + 1], a2[mid + 1..end + 1]))
    ensures a3 == Splice(a0, start, end + 1, MergeRuns(ties, L, R))
  {
    SpliceOver(a0, start, end + 1, L + R, MergeRuns(ties, L, R));
  }

  /** The split case of `compute`: after each half is sorted in place and the
      halves are merged, the range holds its sorted arrangement and nothing
      else has moved. */
  lemma HalvesMerged(ties: Ties, a0: seq<int>, a1: seq<int>, a2: seq<int>, a3: seq<int>, start: int, mid: int, end: int)
    requires 0 <= start <= mid < end < |a0| == |a1| == |a2|
    requires a1 == Splice(a0, start, mid + 1, SortSeq(a0[start..mid + 1]))
    requires a2 == Splice(a1, mid + 1, end + 1, SortSeq(a1[mid + 1..end + 1]))
    requires a3 == Splice(a2, start, end + 1, MergeRuns(ties, a2[start..mid + 1], a2[mid + 1..end + 1]))
    ensures a3 == Splice(a0, start, end + 1, SortSeq(a0[start..end + 1]))
  {
    var L, R := SortSeq(a0[start..mid + 1]), SortSeq(a0[mid + 1..end + 1]);
    HalvesSorted(a0, a1, a2, start, mid, end);
    SortSeqLength(a0[start..mid + 1]);
    SortSeqLength(a0[mid + 1..end + 1]);
    MergeReplaces(ties, a0, a2, a3, start, mid, end, L, R);
    ConcatSlices(a0, start, mid + 1, end + 1);
    MergeSortedRuns(ties, a0[start..mid + 1], a0[mid + 1..end + 1], a0[start..end + 1]);
  }

  /** On sorted runs the tie rule does not change the merge: both rules give
      the one sorted arrangement of the runs' elements. */
  lemma TiesIrrelevantOnSorted(l: seq<int>, r: seq<int>)
    requires Sorted(l) && Sorted(r)
    ensures MergeRuns(LeftOnTies, l, r) == MergeRuns(RightOnTies, l, r)
  {
    MergeRunsSorted(LeftOnTies, l, r);
    MergeRunsSorted(RightOnTies, l, r);
    MergeRunsMultiset(LeftOnTies, l, r);
    MergeRunsMultiset(RightOnTies, l, r);
    SortedUnique(MergeRuns(LeftOnTies, l, r), MergeRuns(RightOnTies, l, r));
  }
}
