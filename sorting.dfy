/** Ascending order on integer sequences, and the JDK's
    `Arrays.sort(int[] a, int from, int to)` given by what it guarantees:
    afterwards a[from..to) holds the sorted arrangement of its old contents
    and nothing else changes. */
module Sorting {
  import opened Splices

  ghost predicate Sorted(s: seq<int>)
  {
    forall i, j :: 0 <= i < j < |s| ==> s[i] <= s[j]
  }

  /** Puts `x` into its place in a sorted sequence. */
  function Insert(x: int, s: seq<int>): (r: seq<int>)
  {
    if s == [] || x <= s[0] then [x] + s else [s[0]] + Insert(x, s[1..])
  }

  /** The sorted arrangement of `s` (insertion sort). */
  function SortSeq(s: seq<int>): (r: seq<int>)
  {
    if s == [] then [] else Insert(s[0], SortSeq(s[1..]))
  }

  lemma {:induction false} InsertMultiset(x: int, s: seq<int>)
    ensures multiset(Insert(x, s)) == multiset(s) + multiset{x}
  {
    if s == [] || x <= s[0] {
    } else {
      assert s == [s[0]] + s[1..];
      InsertMultiset(x, s[1..]);
    }
  }

  /** Putting in front of a sorted sequence an element no greater than its
      head keeps it sorted. */
  lemma ConsSorted(x: int, t: seq<int>)
    requires Sorted(t) && (t == [] || x <= t[0])
    ensures Sorted([x] + t)
  {
    var u := [x] + t;
    forall i, j | 0 <= i < j < |u| ensures u[i] <= u[j] {
      if i == 0 {
        assert t[0] <= t[j - 1];
      }
    }
  }

  lemma {:induction false} InsertCorrect(x: int, s: seq<int>)
    requires Sorted(s)
    ensures Sorted(Insert(x, s))
    ensures multiset(Insert(x, s)) == multiset(s) + multiset{x}
  {
    InsertMultiset(x, s);
    if s == [] || x <= s[0] {
      ConsSorted(x, s);
    } else {
      InsertCorrect(x, s[1..]);
      var t := Insert(x, s[1..]);
      assert t[0] == x || t[0] == s[1];
      ConsSorted(s[0], t);
    }
  }

  /** `SortSeq` returns a sorted permutation of its argument. */
  lemma {:induction false} SortSeqCorrect(s: seq<int>)
    ensures Sorted(SortSeq(s))
    ensures multiset(SortSeq(s)) == multiset(s)
    ensures |SortSeq(s)| == |s|
  {
    if s != [] {
      assert s == [s[0]] + s[1..];
      SortSeqCorrect(s[1..]);
      InsertCorrect(s[0], SortSeq(s[1..]));
    }
    assert |SortSeq(s)| == |multiset(SortSeq(s))| == |multiset(s)| == |s|;
  }

  /** The head of a sorted sequence is its least element. */
  lemma SortedHeadLeast(s: seq<int>, x: int)
    requires Sorted(s) && x in multiset(s)
    ensures s[0] <= x
  {
    assert x in s;
  }

  /** There is only one sorted arrangement of a multiset of integers. */
  lemma {:induction false} SortedUnique(a: seq<int>, b: seq<int>)
    requires Sorted(a) && Sorted(b)
    requires multiset(a) == multiset(b)
    ensures a == b
  {
    if a == [] || b == [] {
      assert |a| == |multiset(a)| == |multiset(b)| == |b|;
    } else {
      SortedHeadLeast(b, a[0]);
      SortedHeadLeast(a, b[0]);
      SameTails(a, b);
      SortedTail(a);
      SortedTail(b);
      SortedUnique(a[1..], b[1..]);
      assert a == [a[0]] + a[1..];
      assert b == [b[0]] + b[1..];
    }
  }

  /** Two sequences with the same head and the same multiset have tails
      with the same multiset. */
  lemma SameTails(a: seq<int>, b: seq<int>)
    requires a != [] && b != [] && a[0] == b[0]
    requires multiset(a) == multiset(b)
    ensures multiset(a[1..]) == multiset(b[1..])
  {
    assert a == [a[0]] + a[1..];
    assert b == [b[0]] + b[1..];
    assert multiset(a) == multiset{a[0]} + multiset(a[1..]);
    assert multiset(b) == multiset{b[0]} + multiset(b[1..]);
    assert multiset(a[1..]) == multiset(a) - multiset{a[0]};
    assert multiset(b[1..]) == multiset(b) - multiset{b[0]};
  }

  lemma SortedTail(s: seq<int>)
    requires Sorted(s) && s != []
    ensures Sorted(s[1..])
  {
    forall i, j | 0 <= i < j < |s| - 1 ensures s[1..][i] <= s[1..][j] {
      assert s[i + 1] <= s[j + 1];
    }
  }

  /** `Arrays.sort(a, from, to)`: a[from..to) is replaced by its sorted
      arrangement; the rest of the array is left alone. */
  method ArraysSort(a: array<int>, from: int, to: int)
    requires 0 <= from <= to <= a.Length
    modifies a
    ensures a[..] == Splice(old(a[..]), from, to, SortSeq(old(a[from..to])))
  {
    var sorted := SortSeq(a[from..to]);
    SortSeqLength(a[from..to]);
    var k := 0;
    while k < to - from
      invariant 0 <= k <= to - from
      invariant forall i :: 0 <= i < k ==> a[from + i] == sorted[i]
      invariant forall i :: 0 <= i < from || from + k <= i < a.Length ==> a[i] == old(a[i])
    {
      a[from + k] := sorted[k];
      k := k + 1;
    }
    assert a[..] == old(a[..from]) + sorted + old(a[to..]);
    assert old(a[..from]) == old(a[..])[..from] && old(a[to..]) == old(a[..])[to..];
  }

  lemma SortSeqLength(s: seq<int>)
    ensures |SortSeq(s)| == |s|
  {
    SortSeqCorrect(s);
  }
}
