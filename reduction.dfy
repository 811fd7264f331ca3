/** ParallelReductionExample.java: the sum of the half-open range
    [start, end) of an `int[]` by fork/join, with Java's wrapping `+`. The
    forked left task and the right task computed in place read disjoint
    ranges and write nothing, so computing one after the other gives the
    same result. */
module Reduction {
  import opened JavaInt
  import opened Sums

  const THRESHOLD: int := 1000

  /** The base case: a running `sum += numbers[i]` over the range. */
  method SumDirect(a: array<Int32>, start: int, end: int) returns (sum: Int32)
    requires 0 <= start <= end <= a.Length
    ensures sum == Wrap32(Sum(a[start..end]))
  {
    sum := 0;
    for i := start to end
      invariant sum == Wrap32(Sum(a[start..i]))
    {
      assert a[start..i + 1] == a[start..i] + [a[i]];
      SumSnoc(a[start..i], a[i]);
      WrapAddLeft(Sum(a[start..i]), a[i]);
      sum := Add32(sum, a[i]);
    }
  }

  /** `SumTask(numbers, start, end).compute()`: the wrapped sum of
      numbers[start..end). Larger ranges are split at `(start + end) / 2`
      into [start, mid) and [mid, end), and the two results are added. */
  method Compute(a: array<Int32>, start: int, end: int) returns (sum: Int32)
    requires 0 <= start <= end <= a.Length
    ensures sum == Wrap32(Sum(a[start..end]))
    decreases end - start
  {
    if end - start <= THRESHOLD {
      sum := SumDirect(a, start, end);
    } else {
      var mid := (start + end) / 2;
      var rightSum := Compute(a, mid, end);
      var leftSum := Compute(a, start, mid);
      sum := Add32(leftSum, rightSum);
      SumSplit(a[..], start, mid, end);
      assert a[start..end] == a[..][start..end] && a[start..mid] == a[..][start..mid] && a[mid..end] == a[..][mid..end];
      WrapAdd(Sum(a[start..mid]), Sum(a[mid..end]));
    }
  }

  /** The sum of `main`'s ten numbers. */
  lemma MainSum(s: seq<int>)
    requires s == [5, 8, 2, 10, 4, 7, 3, 9, 6, 1]
    ensures Sum(s) == 55
  {
    forall i | 0 < i <= |s| ensures Sum(s[..i]) == Sum(s[..i - 1]) + s[i - 1] {
      assert s[..i] == s[..i - 1] + [s[i - 1]];
      SumSnoc(s[..i - 1], s[i - 1]);
    }
    assert Sum(s[..0]) == 0;
    assert Sum(s[..1]) == 5 && Sum(s[..2]) == 13 && Sum(s[..3]) == 15 && Sum(s[..4]) == 25 && Sum(s[..5]) == 29;
    assert Sum(s[..6]) == 36 && Sum(s[..7]) == 39 && Sum(s[..8]) == 48 && Sum(s[..9]) == 54 && Sum(s[..10]) == 55;
    assert s[..10] == s;
  }

  /** `main`: the root task over the whole array [0, numbers.length) answers
      55. */
  method MainExample() returns (sum: Int32)
    ensures sum == 55
  {
    var a := new Int32[] [5, 8, 2, 10, 4, 7, 3, 9, 6, 1];
    sum := Compute(a, 0, a.Length);
    assert a[0..a.Length] == a[..];
    MainSum(a[..]);
  }
}
