/** TaskParallelismExample.java: the sum of the squares of the half-open
    range [start, end) of an `int[]` by fork/join. As written, both the
    squaring and the accumulation are Java `int` operations and wrap around;
    `ComputeExact` is the same task with an accumulator wide enough for the
    true sum. */
module SumOfSquares {
  import opened JavaInt

  const THRESHOLD: int := 10_000

  function Square(x: int): int { x * x }

  /** The mathematical sum of the squares of `s`. */
  function SumSq(s: seq<int>): int
  {
    if |s| == 0 then 0 else SumSq(s[..|s| - 1]) + Square(s[|s| - 1])
  }

  lemma {:induction false} SumSqConcat(a: seq<int>, b: seq<int>)
    ensures SumSq(a + b) == SumSq(a) + SumSq(b)
  {
    if |b| == 0 {
      assert a + b == a;
    } else {
      assert (a + b)[..|a + b| - 1] == a + b[..|b| - 1];
      SumSqConcat(a, b[..|b| - 1]);
    }
  }

  lemma SumSqSnoc(s: seq<int>, x: int)
    ensures SumSq(s + [x]) == SumSq(s) + Square(x)
  {
    assert (s + [x])[..|s|] == s;
  }

  /** Extending a prefix of `s` by one element. */
  lemma SumSqPrefixStep(s: seq<int>, i: int)
    requires 0 < i <= |s|
    ensures SumSq(s[..i]) == SumSq(s[..i - 1]) + Square(s[i - 1])
  {
    assert s[..i] == s[..i - 1] + [s[i - 1]];
    SumSqSnoc(s[..i - 1], s[i - 1]);
  }

  /** The sum of squares is never negative. */
  lemma {:induction false} SumSqNonNegative(s: seq<int>)
    ensures SumSq(s) >= 0
  {
    if |s| > 0 {
      SumSqNonNegative(s[..|s| - 1]);
      var x := s[|s| - 1];
      assert Square(x) >= 0 by {
        if x < 0 { assert Square(x) == (-x) * (-x); }
      }
    }
  }

  /** Splitting a range at `mid` splits its sum of squares. */
  lemma SumSqSplit(a: array<Int32>, start: int, mid: int, end: int)
    requires 0 <= start <= mid <= end <= a.Length
    ensures SumSq(a[start..end]) == SumSq(a[start..mid]) + SumSq(a[mid..end])
  {
    assert a[start..end] == a[start..mid] + a[mid..end];
    SumSqConcat(a[start..mid], a[mid..end]);
  }

  /** One step of the wrapping loop: adding the wrapped square to the
      wrapped sum so far gives the wrapped sum with the square added. */
  lemma AddSquare(t: int, x: Int32)
    ensures Add32(Wrap32(t), Mul32(x, x)) == Wrap32(t + Square(x))
  {
    WrapAdd(t, x * x);
  }

  /** The base case as written: `sum += numbers[i] * numbers[i]` in `int`,
      which is the true sum of squares wrapped to 32 bits. */
  method SquaresDirect(a: array<Int32>, start: int, end: int) returns (sum: Int32)
    requires 0 <= start <= end <= a.Length
    ensures sum == Wrap32(SumSq(a[start..end]))
  {
    sum := 0;
    for i := start to end
      invariant sum == Wrap32(SumSq(a[start..i]))
    {
      assert a[start..i + 1] == a[start..i] + [a[i]];
      SumSqSnoc(a[start..i], a[i]);
      AddSquare(SumSq(a[start..i]), a[i]);
      sum := Add32(sum, Mul32(a[i], a[i]));
    }
  }

  /** `SumOfSquaresTask(numbers, start, end).compute()` as written: the sum
      of squares of numbers[start..end) wrapped to 32 bits. */
  method Compute(a: array<Int32>, start: int, end: int) returns (sum: Int32)
    requires 0 <= start <= end <= a.Length
    ensures sum == Wrap32(SumSq(a[start..end]))
    decreases end - start
  {
    if end - start <= THRESHOLD {
      sum := SquaresDirect(a, start, end);
    } else {
      var mid := (start + end) / 2;
      var rightSum := Compute(a, mid, end);
      var leftSum := Compute(a, start, mid);
      sum := Add32(leftSum, rightSum);
      SumSqSplit(a, start, mid, end);
      WrapAdd(SumSq(a[start..mid]), SumSq(a[mid..end]));
    }
  }

  /** The base case with a wide accumulator: the true sum of squares. */
  method SquaresDirectExact(a: array<Int32>, start: int, end: int) returns (sum: int)
    requires 0 <= start <= end <= a.Length
    ensures sum == SumSq(a[start..end])
  {
    sum := 0;
    for i := start to end
      invariant sum == SumSq(a[start..i])
    {
      assert a[start..i + 1] == a[start..i] + [a[i]];
      SumSqSnoc(a[start..i], a[i]);
      sum := sum + Square(a[i]);
    }
  }

  /** The computation as evidently intended: the true sum of squares of
      numbers[start..end), which is never negative. */
  method ComputeExact(a: array<Int32>, start: int, end: int) returns (sum: int)
    requires 0 <= start <= end <= a.Length
    ensures sum == SumSq(a[start..end]) && sum >= 0
    decreases end - start
  {
    if end - start <= THRESHOLD {
      sum := SquaresDirectExact(a, start, end);
    } else {
      var mid := (start + end) / 2;
      var rightSum := ComputeExact(a, mid, end);
      var leftSum := ComputeExact(a, start, mid);
      sum := leftSum + rightSum;
      SumSqSplit(a, start, mid, end);
    }
    SumSqNonNegative(a[start..end]);
  }

  const MainNumbers: seq<Int32> := [1, 2, 3, 4, 5, 6, 7, 8, 9, 10_000, 10_001, 10_002, 1_000_000]

  /** The true sum of squares of `main`'s array, and the negative `int`
      it wraps to. */
  lemma MainSquares(s: seq<int>)
    requires s == MainNumbers
    ensures SumSq(s) == 1_000_300_060_290
    ensures Wrap32(SumSq(s)) == -427_319_678
  {
    SmallSquares(s);
    SumSqPrefixStep(s, 10);
    SumSqPrefixStep(s, 11);
    SumSqPrefixStep(s, 12);
    SumSqPrefixStep(s, 13);
    assert s[..13] == s;
  }

  /** The squares of 1, 2, ..., 9 add up to 285. */
  lemma SmallSquares(s: seq<int>)
    requires |s| >= 9 && forall i :: 0 <= i < 9 ==> s[i] == i + 1
    ensures SumSq(s[..9]) == 285
  {
    assert SumSq(s[..0]) == 0;
    SumSqPrefixStep(s, 1);
    SumSqPrefixStep(s, 2);
    SumSqPrefixStep(s, 3);
    SumSqPrefixStep(s, 4);
    SumSqPrefixStep(s, 5);
    SumSqPrefixStep(s, 6);
    SumSqPrefixStep(s, 7);
    SumSqPrefixStep(s, 8);
    SumSqPrefixStep(s, 9);
  }

  /** `main` as written prints a negative "sum of squares". */
  method MainAsWritten() returns (sum: Int32)
    ensures sum == -427_319_678
  {
    var a := new Int32[] [1, 2, 3, 4, 5, 6, 7, 8, 9, 10_000, 10_001, 10_002, 1_000_000];
    sum := Compute(a, 0, a.Length);
    assert a[0..a.Length] == a[..];
    MainSquares(a[..]);
  }

  /** `main` with the intended task. */
  method MainExact() returns (sum: int)
    ensures sum == 1_000_300_060_290
  {
    var a := new Int32[] [1, 2, 3, 4, 5, 6, 7, 8, 9, 10_000, 10_001, 10_002, 1_000_000];
    sum := ComputeExact(a, 0, a.Length);
    assert a[0..a.Length] == a[..];
    MainSquares(a[..]);
  }
}
