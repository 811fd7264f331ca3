/** The safety scan both Banker's-algorithm classes run
    (BankersAlgorithmExample1.java and BankersAlgorithm.java).

    There are n processes and m resource kinds. Starting from a `work`
    vector and a `finish` flag per process, the scan passes over the
    processes in index order. An unfinished process whose `test` row fits
    in `work` is marked finished and its `add` row is added to `work`. Passes
    repeat until every process is finished or a whole pass finishes nobody.
    `count` is the number of finished processes. */
module SafetyScan {

  /** An n-by-m matrix given as a sequence of rows. */
  predicate IsMatrix(rows: seq<seq<int>>, n: nat, m: nat)
  {
    |rows| == n && forall i :: 0 <= i < n ==> |rows[i]| == m
  }

  /** Every entry of `row` is at most the matching entry of `work`. */
  predicate Fits(row: seq<int>, work: seq<int>)
    requires |row| == |work|
  {
    forall k :: 0 <= k < |work| ==> row[k] <= work[k]
  }

  /** Entry-wise sum of two vectors. */
  function VecAdd(w: seq<int>, row: seq<int>): (r: seq<int>)
    requires |row| == |w|
    ensures |r| == |w| && forall k :: 0 <= k < |w| ==> r[k] == w[k] + row[k]
  {
    seq(|w|, k requires 0 <= k < |w| => w[k] + row[k])
  }

  /** Entry-wise difference of two vectors. */
  function VecSub(w: seq<int>, row: seq<int>): (r: seq<int>)
    requires |row| == |w|
    ensures |r| == |w| && forall k :: 0 <= k < |w| ==> r[k] == w[k] - row[k]
  {
    seq(|w|, k requires 0 <= k < |w| => w[k] - row[k])
  }

  /** Taking a vector away and adding it back gives the original. */
  lemma SubThenAdd(w: seq<int>, row: seq<int>)
    requires |row| == |w|
    ensures VecAdd(VecSub(w, row), row) == w && VecSub(VecAdd(w, row), row) == w
  {
  }

  predicate NonNegRows(rows: seq<seq<int>>)
  {
    forall i, k :: 0 <= i < |rows| && 0 <= k < |rows[i]| ==> 0 <= rows[i][k]
  }

  /** The number of `true` flags. */
  function CountTrue(f: seq<bool>): (c: nat)
    ensures c <= |f|
  {
    if f == [] then 0 else CountTrue(f[..|f| - 1]) + (if f[|f| - 1] then 1 else 0)
  }

  /** All flags false: nobody finished yet. */
  function NoneFinished(n: nat): (f: seq<bool>)
    ensures |f| == n && CountTrue(f) == 0
    ensures forall k :: 0 <= k < n ==> !f[k]
  {
    if n == 0 then [] else
      var f := NoneFinished(n - 1) + [false];
      assert f[..n - 1] == NoneFinished(n - 1);
      f
  }

  /** Setting one more flag raises the count by one. */
  lemma {:induction false} CountTrueSet(f: seq<bool>, i: int)
    requires 0 <= i < |f| && !f[i]
    ensures CountTrue(f[i := true]) == CountTrue(f) + 1
  {
    var g := f[i := true];
    var n := |f|;
    if i < n - 1 {
      assert g[..n - 1] == f[..n - 1][i := true];
      CountTrueSet(f[..n - 1], i);
    } else {
      assert g[..n - 1] == f[..n - 1];
    }
  }

  /** The count reaches the number of flags exactly when every flag is set. */
  lemma {:induction false} CountTrueAll(f: seq<bool>)
    ensures CountTrue(f) == |f| <==> forall k :: 0 <= k < |f| ==> f[k]
  {
    if f != [] {
      var g := f[..|f| - 1];
      CountTrueAll(g);
      assert forall k :: 0 <= k < |g| ==> g[k] == f[k];
    }
  }

  /** The local variables of `isSafe` between two steps of the scan. */
  datatype ScanState = ScanState(work: seq<int>, finish: seq<bool>, count: int)

  /** `work` has one entry per resource, `finish` one flag per process, both
      row sets are n-by-m and `count` is the number of finished processes. */
  predicate WellFormed(test: seq<seq<int>>, add: seq<seq<int>>, st: ScanState)
  {
    && IsMatrix(test, |st.finish|, |st.work|)
    && IsMatrix(add, |st.finish|, |st.work|)
    && st.count == CountTrue(st.finish)
  }

  /** The state `isSafe` starts its scan from: `work` a copy of `available`,
      nobody finished, `count` zero. */
  function Start(available: seq<int>, n: nat): (st: ScanState)
    ensures st.work == available && |st.finish| == n && st.count == 0
    ensures forall k :: 0 <= k < n ==> !st.finish[k]
  {
    ScanState(available, NoneFinished(n), 0)
  }

  /** Whether process `i` is unfinished and its `test` row fits in `work`. */
  predicate CanFinish(test: seq<seq<int>>, add: seq<seq<int>>, st: ScanState, i: nat)
    requires WellFormed(test, add, st) && i < |st.finish|
  {
    !st.finish[i] && Fits(test[i], st.work)
  }

  /** One step of a pass, at process `i`: when it can finish, its `add` row
      is added to `work`, its flag is set and the count goes up by one;
      otherwise nothing changes. */
  function Step(test: seq<seq<int>>, add: seq<seq<int>>, st: ScanState, i: nat): (r: ScanState)
    requires WellFormed(test, add, st) && i < |st.finish|
    ensures WellFormed(test, add, r)
    ensures |r.finish| == |st.finish| && |r.work| == |st.work|
    ensures CanFinish(test, add, st, i) ==> r.count == st.count + 1 && r.finish == st.finish[i := true]
    ensures !CanFinish(test, add, st, i) ==> r == st
  {
    if CanFinish(test, add, st, i) then
      CountTrueSet(st.finish, i);
      ScanState(VecAdd(st.work, add[i]), st.finish[i := true], st.count + 1)
    else
      st
  }

  /** What a pass does from process `i` on; `r.count > st.count` is the
      source's `found` flag. Finished flags stay set, and a pass that
      finishes nobody changes nothing. */
  function PassFrom(test: seq<seq<int>>, add: seq<seq<int>>, st: ScanState, i: nat): (r: ScanState)
    requires WellFormed(test, add, st) && i <= |st.finish|
    ensures WellFormed(test, add, r)
    ensures |r.finish| == |st.finish| && |r.work| == |st.work|
    ensures st.count <= r.count
    decreases |st.finish| - i
  {
    if i == |st.finish| then st else PassFrom(test, add, Step(test, add, st, i), i + 1)
  }

  /** The `while (count < numProcesses)` loop: passes until everybody is
      finished or a pass finishes nobody (`break`). */
  function Scan(test: seq<seq<int>>, add: seq<seq<int>>, st: ScanState): (r: ScanState)
    requires WellFormed(test, add, st)
    ensures WellFormed(test, add, r)
    ensures |r.finish| == |st.finish| && |r.work| == |st.work|
    ensures st.count <= r.count <= |st.finish|
    decreases |st.finish| - st.count
  {
    if st.count >= |st.finish| then st
    else
      var p := PassFrom(test, add, st, 0);
      if p.count == st.count then p else Scan(test, add, p)
  }

  /** A pass never clears a flag, and a pass that finishes nobody changes
      nothing. */
  lemma {:induction false} PassKeepsFinished(test: seq<seq<int>>, add: seq<seq<int>>, st: ScanState, i: nat)
    requires WellFormed(test, add, st) && i <= |st.finish|
    ensures var r := PassFrom(test, add, st, i);
      && (forall k :: 0 <= k < |st.finish| && st.finish[k] ==> r.finish[k])
      && (r.count == st.count ==> r == st)
    decreases |st.finish| - i
  {
    if i < |st.finish| {
      PassKeepsFinished(test, add, Step(test, add, st, i), i + 1);
    }
  }

  /** Neither does the whole scan clear a flag. */
  lemma {:induction false} ScanKeepsFinished(test: seq<seq<int>>, add: seq<seq<int>>, st: ScanState)
    requires WellFormed(test, add, st)
    ensures forall k :: 0 <= k < |st.finish| && st.finish[k] ==> Scan(test, add, st).finish[k]
    decreases |st.finish| - st.count
  {
    if st.count < |st.finish| {
      var p := PassFrom(test, add, st, 0);
      PassKeepsFinished(test, add, st, 0);
      if p.count != st.count {
        ScanKeepsFinished(test, add, p);
      }
    }
  }

  // ---------------------------------------------------------------------
  // What the scan decides: the existence of a safe sequence.

  predicate AllFinished(f: seq<bool>)
  {
    forall k :: 0 <= k < |f| ==> f[k]
  }

  /** Running the processes of `order` one after the other from `work` and
      `finish`: each is unfinished and fits when its turn comes, releases its
      `add` row when done, and in the end every process is finished. */
  predicate RunsInOrder(test: seq<seq<int>>, add: seq<seq<int>>, work: seq<int>, finish: seq<bool>, order: seq<int>)
    requires IsMatrix(test, |finish|, |work|) && IsMatrix(add, |finish|, |work|)
    decreases |order|
  {
    if order == [] then AllFinished(finish)
    else
      var i := order[0];
      && 0 <= i < |finish| && !finish[i] && Fits(test[i], work)
      && RunsInOrder(test, add, VecAdd(work, add[i]), finish[i := true], order[1..])
  }

  /** A safe state: the unfinished processes can be run to completion in some
      order. */
  ghost predicate SafeFrom(test: seq<seq<int>>, add: seq<seq<int>>, work: seq<int>, finish: seq<bool>)
    requires IsMatrix(test, |finish|, |work|) && IsMatrix(add, |finish|, |work|)
  {
    exists order :: RunsInOrder(test, add, work, finish, order)
  }

  /** Putting a process that fits in front of an order that runs from the
      state after it. */
  lemma RunsInOrderCons(test: seq<seq<int>>, add: seq<seq<int>>, w: seq<int>, f: seq<bool>, i: int, rest: seq<int>)
    requires IsMatrix(test, |f|, |w|) && IsMatrix(add, |f|, |w|)
    requires 0 <= i < |f| && !f[i] && Fits(test[i], w)
    requires RunsInOrder(test, add, VecAdd(w, add[i]), f[i := true], rest)
    ensures RunsInOrder(test, add, w, f, [i] + rest)
  {
    assert ([i] + rest)[1..] == rest;
  }

  /** When released rows are never negative, running any process that fits
      first keeps the state safe: the rest of the order still runs. */
  lemma {:induction false} RunFirst(test: seq<seq<int>>, add: seq<seq<int>>, w: seq<int>, f: seq<bool>, j: int, order: seq<int>)
    returns (order': seq<int>)
    requires IsMatrix(test, |f|, |w|) && IsMatrix(add, |f|, |w|) && NonNegRows(add)
    requires 0 <= j < |f| && !f[j] && Fits(test[j], w)
    requires RunsInOrder(test, add, w, f, order)
    ensures RunsInOrder(test, add, VecAdd(w, add[j]), f[j := true], order')
    decreases |order|
  {
    assert order != [] by {
      assert !f[j];
    }
    if order[0] == j {
      order' := order[1..];
    } else {
      var i := order[0];
      var w1, f1 := VecAdd(w, add[i]), f[i := true];
      assert Fits(test[j], w1);
      var o1 := RunFirst(test, add, w1, f1, j, order[1..]);
      var w2, f2 := VecAdd(w, add[j]), f[j := true];
      assert VecAdd(w2, add[i]) == VecAdd(w1, add[j]);
      assert f2[i := true] == f1[j := true];
      assert Fits(test[i], w2);
      order' := [i] + o1;
      assert order'[1..] == o1;
    }
  }

  /** A pass from `i` finishes somebody when some unfinished process at or
      after `i` fits in the current `work`. */
  lemma {:induction false} PassProgress(test: seq<seq<int>>, add: seq<seq<int>>, st: ScanState, i: nat, j: int)
    requires WellFormed(test, add, st) && i <= j < |st.finish|
    requires !st.finish[j] && Fits(test[j], st.work)
    ensures PassFrom(test, add, st, i).count > st.count
    decreases |st.finish| - i
  {
    if !CanFinish(test, add, st, i) {
      PassProgress(test, add, st, i + 1, j);
    }
  }

  /** A pass keeps a safe state safe (released rows non-negative). */
  lemma {:induction false} PassKeepsSafe(test: seq<seq<int>>, add: seq<seq<int>>, st: ScanState, i: nat, order: seq<int>)
    returns (order': seq<int>)
    requires WellFormed(test, add, st) && i <= |st.finish| && NonNegRows(add)
    requires RunsInOrder(test, add, st.work, st.finish, order)
    ensures var r := PassFrom(test, add, st, i); RunsInOrder(test, add, r.work, r.finish, order')
    decreases |st.finish| - i
  {
    if i == |st.finish| {
      order' := order;
    } else {
      var o := order;
      if CanFinish(test, add, st, i) {
        o := RunFirst(test, add, st.work, st.finish, i, order);
      }
      order' := PassKeepsSafe(test, add, Step(test, add, st, i), i + 1, o);
    }
  }

  /** An order that runs from where a pass ends, preceded by the processes
      the pass finished, runs from where it began. */
  lemma {:induction false} PassSound(test: seq<seq<int>>, add: seq<seq<int>>, st: ScanState, i: nat, order: seq<int>)
    returns (order': seq<int>)
    requires WellFormed(test, add, st) && i <= |st.finish|
    requires var r := PassFrom(test, add, st, i); RunsInOrder(test, add, r.work, r.finish, order)
    ensures RunsInOrder(test, add, st.work, st.finish, order')
    decreases |st.finish| - i
  {
    if i == |st.finish| {
      order' := order;
    } else {
      var o := PassSound(test, add, Step(test, add, st, i), i + 1, order);
      if CanFinish(test, add, st, i) {
        order' := [i] + o;
        assert order'[1..] == o;
      } else {
        order' := o;
      }
    }
  }

  /** When the scan finishes every process, the processes can be run to
      completion in some order: the state it started from is safe. */
  lemma {:induction false} ScanSound(test: seq<seq<int>>, add: seq<seq<int>>, st: ScanState)
    returns (order: seq<int>)
    requires WellFormed(test, add, st)
    requires Scan(test, add, st).count == |st.finish|
    ensures RunsInOrder(test, add, st.work, st.finish, order)
    decreases |st.finish| - st.count
  {
    var r := Scan(test, add, st);
    CountTrueAll(r.finish);
    if st.count >= |st.finish| {
      order := [];
    } else {
      var p := PassFrom(test, add, st, 0);
      var o := [];
      if p.count != st.count {
        o := ScanSound(test, add, p);
      }
      order := PassSound(test, add, st, 0, o);
    }
  }

  /** From a safe state, with non-negative released rows, the scan finishes
      every process. */
  lemma {:induction false} ScanComplete(test: seq<seq<int>>, add: seq<seq<int>>, st: ScanState, order: seq<int>)
    requires WellFormed(test, add, st) && NonNegRows(add)
    requires RunsInOrder(test, add, st.work, st.finish, order)
    ensures Scan(test, add, st).count == |st.finish|
    decreases |st.finish| - st.count
  {
    if st.count < |st.finish| {
      CountTrueAll(st.finish);
      assert order != [];
      PassProgress(test, add, st, 0, order[0]);
      var o := PassKeepsSafe(test, add, st, 0, order);
      ScanComplete(test, add, PassFrom(test, add, st, 0), o);
    }
  }

  /** The scan's verdict: with non-negative released rows, it finishes every
      process exactly when the state it starts from is safe. */
  lemma ScanDecidesSafety(test: seq<seq<int>>, add: seq<seq<int>>, st: ScanState)
    requires WellFormed(test, add, st) && NonNegRows(add)
    ensures Scan(test, add, st).count == |st.finish| <==> SafeFrom(test, add, st.work, st.finish)
  {
    if Scan(test, add, st).count == |st.finish| {
      var order := ScanSound(test, add, st);
    }
    if SafeFrom(test, add, st.work, st.finish) {
      var order :| RunsInOrder(test, add, st.work, st.finish, order);
      ScanComplete(test, add, st, order);
    }
  }

  // ---------------------------------------------------------------------
  // `work` only ever grows by the rows of the processes the scan finishes.

  /** The entry-wise sum of the `add` rows of the processes flagged in `f`. */
  function Released(add: seq<seq<int>>, f: seq<bool>, m: nat): (r: seq<int>)
    requires |f| <= |add| && forall i :: 0 <= i < |add| ==> |add[i]| == m
    ensures |r| == m
  {
    if f == [] then seq(m, _ => 0)
    else
      var rest := Released(add, f[..|f| - 1], m);
      if f[|f| - 1] then VecAdd(rest, add[|f| - 1]) else rest
  }

  /** Flagging process i adds its row to the released total. */
  lemma {:induction false} ReleasedSet(add: seq<seq<int>>, f: seq<bool>, m: nat, i: int)
    requires |f| <= |add| && forall p :: 0 <= p < |add| ==> |add[p]| == m
    requires 0 <= i < |f| && !f[i]
    ensures Released(add, f[i := true], m) == VecAdd(Released(add, f, m), add[i])
  {
    var n := |f|;
    var g := f[i := true];
    if i < n - 1 {
      assert g[..n - 1] == f[..n - 1][i := true];
      ReleasedSet(add, f[..n - 1], m, i);
      if f[n - 1] {
        var a := Released(add, f[..n - 1], m);
        assert VecAdd(VecAdd(a, add[i]), add[n - 1]) == VecAdd(VecAdd(a, add[n - 1]), add[i]);
      }
    } else {
      assert g[..n - 1] == f[..n - 1];
    }
  }

  /** `work` is the starting vector plus the released rows. */
  predicate WorkIsReleased(add: seq<seq<int>>, w0: seq<int>, st: ScanState)
    requires |st.finish| <= |add| && forall p :: 0 <= p < |add| ==> |add[p]| == |w0|
  {
    st.work == VecAdd(w0, Released(add, st.finish, |w0|))
  }

  lemma {:induction false} PassReleases(test: seq<seq<int>>, add: seq<seq<int>>, w0: seq<int>, st: ScanState, i: nat)
    requires WellFormed(test, add, st) && i <= |st.finish| && |w0| == |st.work|
    requires WorkIsReleased(add, w0, st)
    ensures WorkIsReleased(add, w0, PassFrom(test, add, st, i))
    decreases |st.finish| - i
  {
    if i < |st.finish| {
      if CanFinish(test, add, st, i) {
        ReleasedSet(add, st.finish, |w0|, i);
        var rel := Released(add, st.finish, |w0|);
        assert VecAdd(VecAdd(w0, rel), add[i]) == VecAdd(w0, VecAdd(rel, add[i]));
      }
      PassReleases(test, add, w0, Step(test, add, st, i), i + 1);
    }
  }

  /** After the scan, `work` is the vector it started from plus the `add`
      rows of exactly the processes it finished. */
  lemma {:induction false} ScanReleases(test: seq<seq<int>>, add: seq<seq<int>>, w0: seq<int>, st: ScanState)
    requires WellFormed(test, add, st) && |w0| == |st.work|
    requires WorkIsReleased(add, w0, st)
    ensures WorkIsReleased(add, w0, Scan(test, add, st))
    decreases |st.finish| - st.count
  {
    if st.count < |st.finish| {
      PassReleases(test, add, w0, st, 0);
      var p := PassFrom(test, add, st, 0);
      if p.count != st.count {
        ScanReleases(test, add, w0, p);
      }
    }
  }

  lemma ReleasedNone(add: seq<seq<int>>, n: nat, m: nat)
    requires n <= |add| && forall p :: 0 <= p < |add| ==> |add[p]| == m
    ensures Released(add, NoneFinished(n), m) == seq(m, _ => 0)
  {
    // by induction on n
  }

  /** From the start state: the final `work` is `available` plus the rows of
      the finished processes. */
  lemma StartReleases(test: seq<seq<int>>, add: seq<seq<int>>, available: seq<int>, n: nat)
    requires IsMatrix(test, n, |available|) && IsMatrix(add, n, |available|)
    ensures var r := Scan(test, add, Start(available, n));
      r.work == VecAdd(available, Released(add, r.finish, |available|))
  {
    var st := Start(available, n);
    ReleasedNone(add, n, |available|);
    assert VecAdd(available, Released(add, st.finish, |available|)) == available;
    ScanReleases(test, add, available, st);
  }

  /** The innermost loop of both scans, `work[j] += row[j]` for every
      resource j: the row is added to `work` entry by entry. */
  method AddRow(work: array<int>, row: seq<int>)
    requires |row| == work.Length
    modifies work
    ensures work[..] == VecAdd(old(work[..]), row)
  {
    for j := 0 to work.Length
      invariant forall k :: 0 <= k < j ==> work[k] == old(work[k]) + row[k]
      invariant forall k :: j <= k < work.Length ==> work[k] == old(work[k])
    {
      work[j] := work[j] + row[j];
    }
  }
}
