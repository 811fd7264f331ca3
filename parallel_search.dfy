/** ParallelSearchExample.java: a list is cut into one chunk per thread,
    each chunk is searched by a `ParallelSearchTask`, and the futures are
    read in chunk order until one reports a hit. The subtasks only read the
    list and return their answer through a future, so computing them one
    after the other gives the answers the thread pool gives. */
module ParallelSearch {

  /** The first index of `target` in `s`, or -1 when it does not occur. */
  function IndexOf(s: seq<int>, target: int): (r: int)
    ensures r == -1 <==> target !in s
    ensures r != -1 ==> 0 <= r < |s| && s[r] == target && target !in s[..r]
  {
    if |s| == 0 then -1
    else if s[0] == target then 0
    else
      var r := IndexOf(s[1..], target);
      assert s[1..][..if r == -1 then 0 else r] == s[1..if r == -1 then 1 else r + 1];
      assert s == [s[0]] + s[1..];
      if r == -1 then -1 else r + 1
  }

  /** Searching a concatenation: a hit in the first part wins; otherwise a
      hit in the second part, shifted past the first. */
  lemma IndexOfConcat(a: seq<int>, b: seq<int>, target: int)
    ensures IndexOf(a + b, target) ==
      if IndexOf(a, target) != -1 then IndexOf(a, target)
      else if IndexOf(b, target) == -1 then -1
      else |a| + IndexOf(b, target)
  {
    var r := IndexOf(a + b, target);
    if IndexOf(a, target) != -1 {
      var i := IndexOf(a, target);
      assert (a + b)[i] == target;
      assert (a + b)[..r] == a[..r];
    } else if IndexOf(b, target) == -1 {
      assert target !in a + b by {
        forall k | 0 <= k < |a + b| ensures (a + b)[k] != target {
          if k >= |a| { assert (a + b)[k] == b[k - |a|]; }
        }
      }
    } else {
      var j := IndexOf(b, target);
      assert (a + b)[|a| + j] == target;
      assert b[r - |a|] == target;
      assert target !in b[..r - |a|] by {
        forall k | 0 <= k < r - |a| ensures b[k] != target {
          assert (a + b)[..r][|a| + k] == b[k];
        }
      }
    }
  }

  /** `ParallelSearchTask(list, target, startIndex).call()`: the absolute
      index `startIndex + i` of the first `i` with `list[i] == target`, or
      -1 when the chunk does not hold the target. */
  method Call(list: seq<int>, target: int, startIndex: int) returns (r: int)
    ensures r == if IndexOf(list, target) == -1 then -1 else startIndex + IndexOf(list, target)
  {
    for i := 0 to |list|
      invariant target !in list[..i]
    {
      if list[i] == target {
        assert list[..i + 1] == list[..i] + [target];
        return startIndex + i;
      }
      assert list[..i + 1] == list[..i] + [list[i]];
    }
    assert list[..|list|] == list;
    return -1;
  }

  /** The first index of chunk i: `i * sublistSize`. */
  function ChunkStart(i: int, sublistSize: int): int
  {
    i * sublistSize
  }

  /** One past the last index of chunk i: the next chunk's start, or the
      size of the list for the last chunk. */
  function ChunkEnd(i: int, numThreads: int, size: int, sublistSize: int): int
  {
    if i == numThreads - 1 then size else (i + 1) * sublistSize
  }

  /** With `sublistSize = size / numThreads` the chunks 0, 1, ...,
      numThreads - 1 lie in order, each ending where the next starts, the
      first starting at 0 and the last ending at `size`: they partition
      [0, size). */
  lemma ChunksPartition(numThreads: int, size: int, i: int)
    requires numThreads >= 1 && size >= 0 && 0 <= i < numThreads
    ensures var s := size / numThreads;
      0 <= ChunkStart(i, s) <= ChunkEnd(i, numThreads, size, s) <= size
      && (i == 0 ==> ChunkStart(i, s) == 0)
      && (i < numThreads - 1 ==> ChunkEnd(i, numThreads, size, s) == ChunkStart(i + 1, s))
      && (i == numThreads - 1 ==> ChunkEnd(i, numThreads, size, s) == size)
  {
    var s := size / numThreads;
    assert numThreads * s <= size;
    assert s >= 0;
    assert i * s >= 0;
    assert (i + 1) * s == i * s + s;
    assert numThreads * s == (i + 1) * s + (numThreads - i - 1) * s;
    assert (numThreads - i - 1) * s >= 0;
  }

  /** The chunks before chunk k cover [0, Covered(k)). */
  function Covered(k: int, numThreads: int, size: int): (r: int)
    requires numThreads >= 1 && size >= 0 && 0 <= k <= numThreads
    ensures 0 <= r <= size
    ensures k == numThreads ==> r == size
  {
    if k == 0 then 0
    else
      ChunksPartition(numThreads, size, k - 1);
      ChunkEnd(k - 1, numThreads, size, size / numThreads)
  }

  /** The submission loop of `main`: one task per chunk, its future
      appended to `futures` in chunk order. */
  method SubmitAll(numbers: seq<int>, target: int, numThreads: int) returns (futures: seq<int>)
    requires numThreads >= 1
    ensures |futures| == numThreads
    ensures forall k :: 0 <= k < numThreads ==> futures[k] == ChunkResult(numbers, target, numThreads, k)
  {
    var sublistSize := |numbers| / numThreads;
    futures := [];
    for i := 0 to numThreads
      invariant |futures| == i
      invariant forall k :: 0 <= k < i ==> futures[k] == ChunkResult(numbers, target, numThreads, k)
    {
      ChunksPartition(numThreads, |numbers|, i);
      var startIndex := ChunkStart(i, sublistSize);
      var endIndex := ChunkEnd(i, numThreads, |numbers|, sublistSize);
      var result := Call(numbers[startIndex..endIndex], target, startIndex);
      futures := futures + [result];
    }
  }

  /** Reading the future of chunk k once no earlier chunk held the target:
      a hit is the first occurrence in the whole list, and a miss extends
      the target-free prefix over chunk k. */
  lemma ChunkStep(numbers: seq<int>, target: int, numThreads: int, k: int)
    requires numThreads >= 1 && 0 <= k < numThreads
    requires target !in numbers[..Covered(k, numThreads, |numbers|)]
    ensures ChunkResult(numbers, target, numThreads, k) != -1 ==>
      ChunkResult(numbers, target, numThreads, k) == IndexOf(numbers, target)
    ensures ChunkResult(numbers, target, numThreads, k) == -1 ==>
      target !in numbers[..Covered(k + 1, numThreads, |numbers|)]
  {
    ChunksPartition(numThreads, |numbers|, k);
    if k > 0 {
      ChunksPartition(numThreads, |numbers|, k - 1);
    }
    var s := |numbers| / numThreads;
    var start, end := ChunkStart(k, s), ChunkEnd(k, numThreads, |numbers|, s);
    assert start == Covered(k, numThreads, |numbers|);
    assert end == Covered(k + 1, numThreads, |numbers|);
    SegmentStep(numbers, target, start, end);
  }

  /** Searching [start, end) of a list whose prefix [0, start) does not
      hold the target. */
  lemma SegmentStep(numbers: seq<int>, target: int, start: int, end: int)
    requires 0 <= start <= end <= |numbers| && target !in numbers[..start]
    ensures var r := IndexOf(numbers[start..end], target);
      (r != -1 ==> start + r == IndexOf(numbers, target))
      && (r == -1 ==> target !in numbers[..end])
  {
    var prefix, chunk := numbers[..start], numbers[start..end];
    assert numbers[..end] == prefix + chunk;
    assert IndexOf(prefix, target) == -1;
    IndexOfConcat(prefix, chunk, target);
    var upToEnd := IndexOf(numbers[..end], target);
    assert upToEnd == if IndexOf(chunk, target) == -1 then -1 else start + IndexOf(chunk, target);
    assert numbers[..end] + numbers[end..] == numbers;
    IndexOfConcat(numbers[..end], numbers[end..], target);
    assert upToEnd != -1 ==> IndexOf(numbers, target) == upToEnd;
  }

  /** The collection loop of `main`: the futures are read in chunk order
      and the first one that is not -1 is the answer. */
  method CollectFirst(futures: seq<int>, numbers: seq<int>, target: int, numThreads: int) returns (found: int)
    requires numThreads >= 1 && |futures| == numThreads
    requires forall k :: 0 <= k < numThreads ==> futures[k] == ChunkResult(numbers, target, numThreads, k)
    ensures found == IndexOf(numbers, target)
  {
    for k := 0 to numThreads
      invariant target !in numbers[..Covered(k, numThreads, |numbers|)]
    {
      ChunkStep(numbers, target, numThreads, k);
      if futures[k] != -1 {
        return futures[k];
      }
    }
    ChunksPartition(numThreads, |numbers|, numThreads - 1);
    assert numbers[..|numbers|] == numbers;
    return -1;
  }

  /** `main`'s search: submit one task per chunk, then read the futures in
      chunk order and stop at the first result that is not -1. The result
      is the index printed ("Target found at index"), or -1 when "Target
      not found in the list." is printed; either way it is the first
      occurrence of the target in the whole list. The list is random in the
      source and a parameter here, as is the number of processors. */
  method Search(numbers: seq<int>, target: int, numThreads: int) returns (found: int)
    requires numThreads >= 1
    ensures found == IndexOf(numbers, target)
  {
    var futures := SubmitAll(numbers, target, numThreads);
    found := CollectFirst(futures, numbers, target, numThreads);
  }

  /** What the future of chunk k holds. */
  function ChunkResult(numbers: seq<int>, target: int, numThreads: int, k: int): int
    requires numThreads >= 1 && 0 <= k < numThreads
  {
    ChunksPartition(numThreads, |numbers|, k);
    var s := |numbers| / numThreads;
    var start, end := ChunkStart(k, s), ChunkEnd(k, numThreads, |numbers|, s);
    var r := IndexOf(numbers[start..end], target);
    if r == -1 then -1 else start + r
  }
}
