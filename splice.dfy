/** Replacing one range of an integer sequence: how the in-place array
    operations that work on a sub-range a[lo..hi) leave the whole array. */
module Splices {

  /** `s` with s[lo..hi) replaced by `m`. */
  function Splice(s: seq<int>, lo: int, hi: int, m: seq<int>): (r: seq<int>)
    requires 0 <= lo <= hi <= |s|
    ensures |r| == |s| - (hi - lo) + |m|
    ensures r[..lo] == s[..lo] && r[lo..lo + |m|] == m && r[lo + |m|..] == s[hi..]
  {
    s[..lo] + m + s[hi..]
  }

  /** A same-length splice leaves every slice outside [lo, hi) alone. */
  lemma SpliceOutside(s: seq<int>, lo: int, hi: int, m: seq<int>, p: int, q: int)
    requires 0 <= lo <= hi <= |s| && |m| == hi - lo
    requires 0 <= p <= q <= |s| && (q <= lo || hi <= p)
    ensures Splice(s, lo, hi, m)[p..q] == s[p..q]
  {
    var t := Splice(s, lo, hi, m);
    assert forall x :: p <= x < q ==> t[x] == s[x];
  }

  /** Splicing two adjacent ranges one after the other is splicing their
      union with the concatenation. */
  lemma SpliceAdjacent(s: seq<int>, lo: int, mid: int, hi: int, l: seq<int>, r: seq<int>)
    requires 0 <= lo <= mid <= hi <= |s| && |l| == mid - lo && |r| == hi - mid
    ensures Splice(Splice(s, lo, mid, l), mid, hi, r) == Splice(s, lo, hi, l + r)
  {
    var t := Splice(s, lo, mid, l);
    assert t[..mid] == s[..lo] + l;
    assert t[hi..] == s[hi..];
  }

  /** A second same-length splice of the same range replaces the first. */
  lemma SpliceOver(s: seq<int>, lo: int, hi: int, m: seq<int>, m': seq<int>)
    requires 0 <= lo <= hi <= |s| && |m| == hi - lo
    ensures Splice(Splice(s, lo, hi, m), lo, hi, m') == Splice(s, lo, hi, m')
  {
  }
}
