/** PipeliningExample.java: four stages chained by `CompletableFuture`,
    each a stream over a list of `Integer`s: double, keep the even ones,
    square, and add up from 0. Each stage starts only once the previous one
    has produced its whole list, so the stages compose as functions. */
module Pipeline {
  import opened JavaInt
  import opened Sums
  import opened SumOfSquares

  /** Stage 1: `map(num -> num * 2)`. */
  function Doubled(s: seq<Int32>): (r: seq<Int32>)
    ensures |r| == |s|
  {
    seq(|s|, i requires 0 <= i < |s| => Mul32(s[i], 2))
  }

  /** Stage 2: `filter(num -> num % 2 == 0)`, keeping order. Java's `%`
      truncates, but its remainder by 2 is zero exactly when Dafny's is. */
  function EvenOnly(s: seq<Int32>): (r: seq<Int32>)
    ensures |r| <= |s|
    ensures forall x :: x in r ==> x in s && x % 2 == 0
  {
    if s == [] then []
    else (if s[0] % 2 == 0 then [s[0]] else []) + EvenOnly(s[1..])
  }

  /** Stage 3: `map(num -> num * num)`. */
  function Squared(s: seq<Int32>): (r: seq<Int32>)
    ensures |r| == |s|
  {
    seq(|s|, i requires 0 <= i < |s| => Mul32(s[i], s[i]))
  }

  /** Stage 4: `reduce(0, Integer::sum)`, a left fold with the wrapping
      `+`: the `int` value of the exact sum. */
  function Total(s: seq<Int32>): (r: Int32)
    ensures r == Wrap32(Sum(s))
  {
    if |s| == 0 then 0
    else
      WrapAddLeft(Sum(s[..|s| - 1]), s[|s| - 1]);
      Add32(Total(s[..|s| - 1]), s[|s| - 1])
  }

  /** A list of even numbers passes the filter unchanged. */
  lemma {:induction false} EvenOnlyKeepsEvens(s: seq<Int32>)
    requires forall i :: 0 <= i < |s| ==> s[i] % 2 == 0
    ensures EvenOnly(s) == s
  {
    if s != [] {
      EvenOnlyKeepsEvens(s[1..]);
    }
  }

  /** Doubling yields only even `int`s, even where it wraps, so stage 2
      lets every element of stage 1 through. */
  lemma FilterKeepsAllDoubled(s: seq<Int32>)
    ensures EvenOnly(Doubled(s)) == Doubled(s)
  {
    var d := Doubled(s);
    forall i | 0 <= i < |d| ensures d[i] % 2 == 0 {
      DoubleIsEven(s[i]);
    }
    EvenOnlyKeepsEvens(d);
  }

  /** The `int` sum of the squares of the doubled `int`s is the `int` of
      four times the exact sum of squares. */
  lemma {:induction false} SquaresOfDoubled(s: seq<Int32>)
    ensures Wrap32(Sum(Squared(Doubled(s)))) == Wrap32(4 * SumSq(s))
  {
    if s != [] {
      var t, x := s[..|s| - 1], s[|s| - 1];
      SquaresOfDoubled(t);
      var a := Squared(Doubled(t));
      var y := Mul32(Mul32(x, 2), Mul32(x, 2));
      assert s == t + [x];
      DoubledSquaredSnoc(t, x);
      SumSnoc(a, y);
      SumSqSnoc(t, x);
      SquareOfDouble(x);
      WrapAddCongruent(Sum(a), 4 * SumSq(t), y, 4 * Square(x));
    }
  }

  lemma DoubledSquaredSnoc(t: seq<Int32>, x: Int32)
    ensures Squared(Doubled(t + [x])) == Squared(Doubled(t)) + [Mul32(Mul32(x, 2), Mul32(x, 2))]
  {
    assert Doubled(t + [x]) == Doubled(t) + [Mul32(x, 2)];
  }

  lemma SquareOfDouble(x: Int32)
    ensures Mul32(Mul32(x, 2), Mul32(x, 2)) == Wrap32(4 * Square(x))
  {
    WrapMul(x * 2, x * 2);
    assert (x * 2) * (x * 2) == 4 * (x * x);
  }

  /** `processPipeline(inputData)`: a one-element list holding the `int`
      value of the sum of (2x)^2 over the input, that is of four times its
      sum of squares. The input list is a value and is not changed. */
  function ProcessPipeline(inputData: seq<Int32>): (r: seq<Int32>)
    ensures r == [Wrap32(4 * SumSq(inputData))]
  {
    FilterKeepsAllDoubled(inputData);
    SquaresOfDoubled(inputData);
    var stage1 := Doubled(inputData);
    var stage2 := EvenOnly(stage1);
    var stage3 := Squared(stage2);
    var stage4 := Total(stage3);
    [stage4]
  }

  /** Without overflow, the pipeline's answer is the exact sum of (2x)^2. */
  lemma PipelineExact(inputData: seq<Int32>)
    requires 4 * SumSq(inputData) <= INT_MAX
    ensures ProcessPipeline(inputData) == [4 * SumSq(inputData)]
  {
    SumSqNonNegative(inputData);
  }

  /** `main`'s input 1, 2, ..., 10 gives [1540]. */
  lemma MainResult(s: seq<Int32>)
    requires s == [1, 2, 3, 4, 5, 6, 7, 8, 9, 10]
    ensures ProcessPipeline(s) == [1540]
  {
    SmallSquares(s);
    SumSqPrefixStep(s, 10);
    assert s[..10] == s;
    PipelineExact(s);
  }
}
