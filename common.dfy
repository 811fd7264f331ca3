/** Java's nullable results: `None` stands for `null`. */
module Wrappers {
  datatype Option<T> = None | Some(value: T)
}

/** Mathematical (unbounded) sums of integer sequences, accumulated left to
    right as the modelled loops do. */
module Sums {

  function Sum(s: seq<int>): int
  {
    if |s| == 0 then 0 else Sum(s[..|s| - 1]) + s[|s| - 1]
  }

  /** The sum of a concatenation is the sum of the parts: this is what lets a
      range be split into two disjoint halves and the halves' sums be added. */
  lemma {:induction false} SumConcat(a: seq<int>, b: seq<int>)
    ensures Sum(a + b) == Sum(a) + Sum(b)
  {
    if |b| == 0 {
      assert a + b == a;
    } else {
      assert (a + b)[..|a + b| - 1] == a + b[..|b| - 1];
      SumConcat(a, b[..|b| - 1]);
    }
  }

  /** Extending a sum by one element on the right. */
  lemma SumSnoc(s: seq<int>, x: int)
    ensures Sum(s + [x]) == Sum(s) + x
  {
    assert (s + [x])[..|s|] == s;
  }

  /** Summing the slice s[lo..hi] by splitting it at any mid point. */
  lemma SumSplit(s: seq<int>, lo: int, mid: int, hi: int)
    requires 0 <= lo <= mid <= hi <= |s|
    ensures Sum(s[lo..hi]) == Sum(s[lo..mid]) + Sum(s[mid..hi])
  {
    assert s[lo..hi] == s[lo..mid] + s[mid..hi];
    SumConcat(s[lo..mid], s[mid..hi]);
  }
}

/** Java array creation and copying on sequences. */
module JavaArrays {

  /** `Arrays.copyOf(original, newLength)`: the first `newLength` entries,
      padded with zeros when the original is shorter. */
  function CopyOf(original: seq<int>, newLength: nat): (r: seq<int>)
    ensures |r| == newLength
    ensures forall k :: 0 <= k < newLength ==> r[k] == (if k < |original| then original[k] else 0)
  {
    if newLength <= |original| then original[..newLength]
    else original + seq(newLength - |original|, _ => 0)
  }

  /** Copying to the same length gives back the original. */
  lemma CopyOfSameLength(original: seq<int>)
    ensures CopyOf(original, |original|) == original
  {
  }

  /** `new int[m]`. */
  function Zeros(m: nat): (r: seq<int>)
    ensures |r| == m && forall k :: 0 <= k < m ==> r[k] == 0
  {
    seq(m, _ => 0)
  }

  /** `new int[n][m]`. */
  function ZeroMatrix(n: nat, m: nat): (r: seq<seq<int>>)
    ensures |r| == n && forall i :: 0 <= i < n ==> r[i] == Zeros(m)
  {
    seq(n, _ => Zeros(m))
  }
}
