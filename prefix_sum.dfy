/** ParallelPrefixSumExample.java: an in-place inclusive prefix sum (scan)
    over a closed index range [start, end] of an `int[]`, with Java's
    wrapping `+=`. Large ranges are split in two, both halves are scanned by
    their own tasks (one after the other here: they write disjoint ranges),
    and the left half's total is added to every entry of the right half. */
module PrefixSum {
  import opened JavaInt
  import opened Sums
  import opened Splices

  const THRESHOLD: int := 1000

  /** The running totals of `s` as Java `int`s: entry i is the wrapped sum
      of s[0..i]. */
  function RunningTotals(s: seq<int>): (r: seq<Int32>)
    ensures |r| == |s|
  {
    seq(|s|, i requires 0 <= i < |s| => Wrap32(Sum(s[..i + 1])))
  }

  /** `x` added (wrapping) to every entry of `s`. */
  function AddToEach(s: seq<Int32>, x: Int32): (r: seq<Int32>)
    ensures |r| == |s| && forall i :: 0 <= i < |s| ==> r[i] == Add32(s[i], x)
  {
    seq(|s|, i requires 0 <= i < |s| => Add32(s[i], x))
  }

  /** The first running total of a range of `int`s is its first entry:
      the scan never changes the first position. */
  lemma RunningTotalsHead(s: seq<Int32>)
    requires |s| > 0
    ensures RunningTotals(s)[0] == s[0]
  {
    assert s[..1] == [s[0]];
    assert Sum([s[0]]) == Sum([]) + s[0];
  }

  /** Scanning each half and adding the left half's total to every entry
      of the scanned right half gives the scan of the whole. */
  lemma JoinScans(l: seq<int>, r: seq<int>)
    requires |l| > 0
    ensures RunningTotals(l + r) == RunningTotals(l) + AddToEach(RunningTotals(r), RunningTotals(l)[|l| - 1])
  {
    var s := l + r;
    var lhs, rhs := RunningTotals(s), RunningTotals(l) + AddToEach(RunningTotals(r), RunningTotals(l)[|l| - 1]);
    forall i | 0 <= i < |s| ensures lhs[i] == rhs[i] {
      if i < |l| {
        assert s[..i + 1] == l[..i + 1];
      } else {
        var j := i - |l|;
        assert s[..i + 1] == l + r[..j + 1];
        SumConcat(l, r[..j + 1]);
        assert l[..|l|] == l;
        WrapAdd(Sum(r[..j + 1]), Sum(l));
      }
    }
  }

  /** One step of the base-case loop: adding entry j to the running total
      before it gives the running total at j. */
  lemma NextTotal(s: seq<Int32>, j: int)
    requires 0 < j < |s|
    ensures Add32(s[j], Wrap32(Sum(s[..j]))) == Wrap32(Sum(s[..j + 1]))
  {
    assert s[..j + 1] == s[..j] + [s[j]];
    SumSnoc(s[..j], s[j]);
    WrapAddLeft(Sum(s[..j]), s[j]);
  }

  /** The base case: `numbers[i] += numbers[i - 1]` for i from start + 1 to
      end leaves the running totals of the range in it. */
  method ScanDirect(a: array<Int32>, start: int, end: int)
    requires 0 <= start <= end + 1 <= a.Length
    modifies a
    ensures a[..] == Splice(old(a[..]), start, end + 1, RunningTotals(old(a[start..end + 1])))
  {
    ghost var s := a[start..end + 1];
    if start <= end {
      RunningTotalsHead(s);
    }
    var i := start + 1;
    while i <= end
      invariant start + 1 <= i <= end + 2 && (i == end + 2 ==> start == end + 1)
      invariant forall k :: start <= k < i && k <= end ==> a[k] == RunningTotals(s)[k - start]
      invariant forall k :: 0 <= k < a.Length && (k < start || end < k || i <= k) ==> a[k] == old(a[k])
    {
      NextTotal(s, i - start);
      a[i] := Add32(a[i], a[i - 1]);
      i := i + 1;
    }
    assert a[start..end + 1] == RunningTotals(s);
    assert a[..start] == old(a[..start]) && a[end + 1..] == old(a[end + 1..]);
    assert a[..] == a[..start] + a[start..end + 1] + a[end + 1..];
  }

  /** The combining loop: `numbers[i] += numbers[mid]` for every i of the
      right half. */
  method AddLeftTotal(a: array<Int32>, mid: int, end: int)
    requires 0 <= mid <= end < a.Length
    modifies a
    ensures a[..] == Splice(old(a[..]), mid + 1, end + 1, AddToEach(old(a[mid + 1..end + 1]), old(a[mid])))
  {
    for i := mid + 1 to end + 1
      invariant forall k :: mid + 1 <= k < i ==> a[k] == Add32(old(a[k]), old(a[mid]))
      invariant forall k :: 0 <= k <= mid || i <= k < a.Length ==> a[k] == old(a[k])
    {
      a[i] := Add32(a[i], a[mid]);
    }
    assert a[..] == old(a[..mid + 1]) + AddToEach(old(a[mid + 1..end + 1]), old(a[mid])) + old(a[end + 1..]);
  }

  /** `PrefixSumTask(numbers, start, end).compute()`: afterwards
      numbers[start..end] holds the running totals of its old contents and
      nothing outside the range has changed. */
  method Compute(a: array<Int32>, start: int, end: int)
    requires 0 <= start <= end + 1 <= a.Length
    modifies a
    ensures a[..] == Splice(old(a[..]), start, end + 1, RunningTotals(old(a[start..end + 1])))
    decreases end - start
  {
    if end - start <= THRESHOLD {
      ScanDirect(a, start, end);
    } else {
      var mid := (start + end) / 2;
      ghost var a0 := a[..];
      Compute(a, start, mid);
      ghost var a1 := a[..];
      Compute(a, mid + 1, end);
      ghost var a2 := a[..];
      AddLeftTotal(a, mid, end);
      ScansJoined(a0, a1, a2, a[..], start, mid, end);
    }
  }

  /** The bookkeeping behind the split case of `Compute`. */
  lemma ScansJoined(a0: seq<Int32>, a1: seq<Int32>, a2: seq<Int32>, a3: seq<Int32>, start: int, mid: int, end: int)
    requires 0 <= start <= mid < end < |a0|
    requires a1 == Splice(a0, start, mid + 1, RunningTotals(a0[start..mid + 1]))
    requires a2 == Splice(a1, mid + 1, end + 1, RunningTotals(a1[mid + 1..end + 1]))
    requires a3 == Splice(a2, mid + 1, end + 1, AddToEach(a2[mid + 1..end + 1], a2[mid]))
    ensures a3 == Splice(a0, start, end + 1, RunningTotals(a0[start..end + 1]))
  {
    var l, r := a0[start..mid + 1], a0[mid + 1..end + 1];
    SpliceOutside(a0, start, mid + 1, RunningTotals(l), mid + 1, end + 1);
    assert a1[mid + 1..end + 1] == r;
    assert a2[mid] == a1[mid] == RunningTotals(l)[|l| - 1];
    assert a2[mid + 1..end + 1] == RunningTotals(r);
    JoinScans(l, r);
    assert a0[start..end + 1] == l + r;
    assert a3 == a0[..start] + RunningTotals(l) + AddToEach(RunningTotals(r), RunningTotals(l)[|l| - 1]) + a0[end + 1..];
  }

  /** `main`'s task over the whole array [0, numbers.length - 1]. */
  method ScanAll(a: array<Int32>)
    modifies a
    ensures a[..] == RunningTotals(old(a[..]))
  {
    Compute(a, 0, a.Length - 1);
    assert old(a[0..a.Length]) == old(a[..]);
  }

  /** The running totals of `main`'s array. */
  lemma MainTotals(s: seq<int>)
    requires s == [2, 4, 6, 8, 10, 12, 14, 16]
    ensures RunningTotals(s) == [2, 6, 12, 20, 30, 42, 56, 72]
  {
    var t := [2, 6, 12, 20, 30, 42, 56, 72];
    assert Sum(s[..1]) == 2;
    forall i | 1 <= i < |s| ensures Sum(s[..i + 1]) == Sum(s[..i]) + s[i] {
      assert s[..i + 1] == s[..i] + [s[i]];
      SumSnoc(s[..i], s[i]);
    }
    assert Sum(s[..2]) == 6 && Sum(s[..3]) == 12 && Sum(s[..4]) == 20;
    assert Sum(s[..5]) == 30 && Sum(s[..6]) == 42 && Sum(s[..7]) == 56 && Sum(s[..8]) == 72;
    assert forall i :: 0 <= i < |s| ==> RunningTotals(s)[i] == t[i];
  }

  /** `main`: the array 2, 4, ..., 16 becomes 2, 6, 12, ..., 72. */
  method MainExample() returns (result: seq<int>)
    ensures result == [2, 6, 12, 20, 30, 42, 56, 72]
  {
    var a := new Int32[] [2, 4, 6, 8, 10, 12, 14, 16];
    ghost var input := a[..];
    ScanAll(a);
    result := a[..];
    MainTotals(input);
  }
}
