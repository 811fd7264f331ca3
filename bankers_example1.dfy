/** BankersAlgorithmExample1.java: a Banker's-algorithm safety check over
    `numProcesses` processes and `numResources` resource kinds. The setters
    reject wrongly sized input with an `IllegalArgumentException`, which is
    an `Outcome` here. `isSafe` runs the scan of module SafetyScan on private
    copies, testing and releasing each process's allocation row. The `need`
    matrix is created zero-filled and never read. */
module BankersExample1 {
  import opened SafetyScan
  import opened JavaArrays

  /** How a setter ends: it stores its argument, throws
      `IllegalArgumentException` with the given message, or indexes the
      matrix with a negative process id. */
  datatype Outcome = Stored | IllegalArgument(message: string) | IndexOutOfBounds

  class BankersAlgorithmExample1 {
    const numProcesses: nat
    const numResources: nat
    var available: seq<int>
    var max: seq<seq<int>>
    var allocation: seq<seq<int>>
    var need: seq<seq<int>>

    /** Every vector has one entry per resource and every matrix one row per
        process. */
    ghost predicate Valid()
      reads this
    {
      && |available| == numResources
      && IsMatrix(max, numProcesses, numResources)
      && IsMatrix(allocation, numProcesses, numResources)
      && IsMatrix(need, numProcesses, numResources)
    }

    /** All vectors and matrices start zero-filled. */
    constructor (numProcesses: nat, numResources: nat)
      ensures Valid()
      ensures this.numProcesses == numProcesses && this.numResources == numResources
      ensures available == Zeros(numResources)
      ensures max == ZeroMatrix(numProcesses, numResources)
      ensures allocation == ZeroMatrix(numProcesses, numResources)
      ensures need == ZeroMatrix(numProcesses, numResources)
    {
      this.numProcesses := numProcesses;
      this.numResources := numResources;
      available := Zeros(numResources);
      max := ZeroMatrix(numProcesses, numResources);
      allocation := ZeroMatrix(numProcesses, numResources);
      need := ZeroMatrix(numProcesses, numResources);
    }

    /** `setAvailable`: a vector of the wrong length is refused and nothing
        changes; otherwise a copy of it becomes `available`. */
    method SetAvailable(available: seq<int>) returns (outcome: Outcome)
      requires Valid()
      modifies this
      ensures Valid()
      ensures outcome == (if |available| != numResources then IllegalArgument("Invalid available resources array size") else Stored)
      ensures this.available == (if outcome == Stored then available else old(this.available))
      ensures max == old(max) && allocation == old(allocation) && need == old(need)
    {
      if |available| != numResources {
        return IllegalArgument("Invalid available resources array size");
      }
      this.available := CopyOf(available, numResources);
      CopyOfSameLength(available);
      outcome := Stored;
    }

    /** The checks `setMax` and `setAllocation` make, in their order: the
        process id against `numProcesses`, then the row length, and last
        the array access itself, which fails for a negative id. */
    function RowOutcome(processId: int, row: seq<int>, sizeMessage: string): (outcome: Outcome)
      reads this
      ensures outcome == Stored <==> 0 <= processId < numProcesses && |row| == numResources
    {
      if processId >= numProcesses then IllegalArgument("Invalid process ID")
      else if |row| != numResources then IllegalArgument(sizeMessage)
      else if processId < 0 then IndexOutOfBounds
      else Stored
    }

    /** `setMax`: on success the process's row of `max` becomes a copy of
        `maxResources`; on failure nothing changes. */
    method SetMax(processId: int, maxResources: seq<int>) returns (outcome: Outcome)
      requires Valid()
      modifies this
      ensures Valid()
      ensures outcome == RowOutcome(processId, maxResources, "Invalid max resources array size")
      ensures max == (if outcome == Stored then old(max)[processId := maxResources] else old(max))
      ensures available == old(available) && allocation == old(allocation) && need == old(need)
    {
      if processId >= numProcesses {
        return IllegalArgument("Invalid process ID");
      }
      if |maxResources| != numResources {
        return IllegalArgument("Invalid max resources array size");
      }
      if processId < 0 {
        return IndexOutOfBounds;
      }
      max := max[processId := CopyOf(maxResources, numResources)];
      CopyOfSameLength(maxResources);
      outcome := Stored;
    }

    /** `setAllocation`: on success the process's row of `allocation`
        becomes a copy of `allocatedResources`; on failure nothing changes. */
    method SetAllocation(processId: int, allocatedResources: seq<int>) returns (outcome: Outcome)
      requires Valid()
      modifies this
      ensures Valid()
      ensures outcome == RowOutcome(processId, allocatedResources, "Invalid allocated resources array size")
      ensures allocation == (if outcome == Stored then old(allocation)[processId := allocatedResources] else old(allocation))
      ensures available == old(available) && max == old(max) && need == old(need)
    {
      if processId >= numProcesses {
        return IllegalArgument("Invalid process ID");
      }
      if |allocatedResources| != numResources {
        return IllegalArgument("Invalid allocated resources array size");
      }
      if processId < 0 {
        return IndexOutOfBounds;
      }
      allocation := allocation[processId := CopyOf(allocatedResources, numResources)];
      CopyOfSameLength(allocatedResources);
      outcome := Stored;
    }

    /** `isNeedLessThanOrEqual(need, work)`: whether every one of the first
        `numResources` entries of `need` is at most the matching entry of
        `work`; it stops at the first entry that is larger. */
    method IsNeedLessThanOrEqual(need: seq<int>, work: array<int>) returns (r: bool)
      requires |need| >= numResources && work.Length >= numResources
      ensures r == forall k :: 0 <= k < numResources ==> need[k] <= work[k]
    {
      for i := 0 to numResources
        invariant forall k :: 0 <= k < i ==> need[k] <= work[k]
      {
        if need[i] > work[i] {
          return false;
        }
      }
      return true;
    }

    /** One run of the `for (int i ...)` loop of `isSafe`: each process that
        is unfinished and whose row fits in `work` releases its row and is
        marked finished. It does what `PassFrom` from process 0 does, and
        `found` says whether anybody was finished. */
    method Pass(temp: seq<seq<int>>, work: array<int>, finish: array<bool>, count0: int) returns (count: int, found: bool)
      requires work.Length == numResources && finish.Length == numProcesses
      requires WellFormed(temp, temp, ScanState(work[..], finish[..], count0))
      modifies work, finish
      ensures ScanState(work[..], finish[..], count) == PassFrom(temp, temp, old(ScanState(work[..], finish[..], count0)), 0)
      ensures found <==> count != count0
    {
      ghost var st0 := ScanState(work[..], finish[..], count0);
      count, found := count0, false;
      for i := 0 to numProcesses
        invariant WellFormed(temp, temp, ScanState(work[..], finish[..], count))
        invariant PassFrom(temp, temp, ScanState(work[..], finish[..], count), i) == PassFrom(temp, temp, st0, 0)
        invariant count0 <= count && (found <==> count != count0)
      {
        count, found := StepAt(temp, work, finish, count, found, i);
      }
    }

    /** The body of that loop for process `i`: `Step` on the arrays, with
        `found` set when process `i` is finished. */
    method StepAt(temp: seq<seq<int>>, work: array<int>, finish: array<bool>, count0: int, found0: bool, i: nat)
      returns (count: int, found: bool)
      requires work.Length == numResources && finish.Length == numProcesses && i < numProcesses
      requires WellFormed(temp, temp, ScanState(work[..], finish[..], count0))
      modifies work, finish
      ensures ScanState(work[..], finish[..], count) == Step(temp, temp, old(ScanState(work[..], finish[..], count0)), i)
      ensures found == (found0 || count != count0)
    {
      count, found := count0, found0;
      if !finish[i] {
        var fits := IsNeedLessThanOrEqual(temp[i], work);
        if fits {
          AddRow(work, temp[i]);
          finish[i] := true;
          found := true;
          count := count + 1;
        }
      }
    }

    /** `isSafe()`: true exactly when the scan, started from `available`
        with nobody finished and testing and releasing allocation rows,
        finishes every process. With non-negative allocations that is
        exactly when the processes can be run to completion in some order
        (each process holding its allocation row). Nothing is changed. */
    method IsSafe() returns (safe: bool)
      requires Valid()
      ensures safe == (Scan(allocation, allocation, Start(available, numProcesses)).count == numProcesses)
      ensures NonNegRows(allocation) ==>
                (safe <==> SafeFrom(allocation, allocation, available, NoneFinished(numProcesses)))
    {
      var av := available;
      var work := new int[numResources](k => if 0 <= k < |av| then av[k] else 0);
      assert work[..] == available by {
        CopyOfSameLength(av);
      }
      var finish := new bool[numProcesses](_ => false);
      assert finish[..] == NoneFinished(numProcesses);
      var tempAllocation := [];
      for i := 0 to numProcesses
        invariant tempAllocation == allocation[..i]
        invariant work[..] == available && finish[..] == NoneFinished(numProcesses)
      {
        CopyOfSameLength(allocation[i]);
        tempAllocation := tempAllocation + [CopyOf(allocation[i], numResources)];
      }
      assert tempAllocation == allocation;

      ghost var start := Start(available, numProcesses);
      assert ScanState(work[..], finish[..], 0) == start;
      ghost var goal := Scan(allocation, allocation, start);
      var count := 0;
      while count < numProcesses
        invariant work.Length == numResources && finish.Length == numProcesses
        invariant WellFormed(allocation, allocation, ScanState(work[..], finish[..], count))
        invariant Scan(allocation, allocation, ScanState(work[..], finish[..], count)) == goal
        decreases numProcesses - count
      {
        var found;
        count, found := Pass(tempAllocation, work, finish, count);
        if !found {
          break;
        }
      }
      safe := count == numProcesses;
      if NonNegRows(allocation) {
        ScanDecidesSafety(allocation, allocation, start);
      }
    }
  }

  const MainAvailable: seq<int> := [3, 3, 2]
  const MainMax: seq<seq<int>> := [[7, 5, 3], [3, 2, 2], [9, 0, 2], [2, 2, 2], [4, 3, 3]]
  const MainAllocation: seq<seq<int>> := [[0, 1, 0], [2, 0, 0], [3, 0, 2], [2, 1, 1], [0, 0, 2]]

  /** With `main`'s data the processes can run in index order. The data
      are parameters here so that the solver steps through the order one
      process at a time instead of evaluating it all at once. */
  lemma MainOrderRuns(a: seq<seq<int>>, w0: seq<int>, f0: seq<bool>) returns (order: seq<int>)
    requires a == MainAllocation && w0 == MainAvailable
    requires |f0| == 5 && forall k :: 0 <= k < 5 ==> !f0[k]
    ensures order == [0, 1, 2, 3, 4]
    ensures RunsInOrder(a, a, w0, f0, order)
  {
    var f2 := f0[0 := true][1 := true];
    var w1, w2 := [3, 4, 2], [5, 4, 2];
    assert VecAdd(w0, a[0]) == w1 by {}
    assert VecAdd(w1, a[1]) == w2 by {}
    MainOrderTail(a, w2, f2);
    RunsInOrderCons(a, a, w1, f0[0 := true], 1, [2, 3, 4]);
    RunsInOrderCons(a, a, w0, f0, 0, [1, 2, 3, 4]);
    order := [0, 1, 2, 3, 4];
  }

  /** The last three steps of that order. */
  lemma MainOrderTail(a: seq<seq<int>>, w2: seq<int>, f2: seq<bool>)
    requires a == MainAllocation && w2 == [5, 4, 2]
    requires |f2| == 5 && f2[0] && f2[1] && !f2[2] && !f2[3] && !f2[4]
    ensures RunsInOrder(a, a, w2, f2, [2, 3, 4])
  {
    var f3 := f2[2 := true];
    var f4 := f3[3 := true];
    var w3, w4 := [8, 4, 4], [10, 5, 5];
    assert VecAdd(w2, a[2]) == w3 by {}
    assert VecAdd(w3, a[3]) == w4 by {}
    assert AllFinished(f4[4 := true]) by {}
    RunsInOrderCons(a, a, w4, f4, 4, []);
    RunsInOrderCons(a, a, w3, f3, 3, [4]);
    RunsInOrderCons(a, a, w2, f2, 2, [3, 4]);
  }

  /** With `main`'s data the state is safe and the scan finishes every
      process. */
  lemma MainDataIsSafe(a: seq<seq<int>>, available: seq<int>)
    requires a == MainAllocation && available == MainAvailable
    ensures NonNegRows(a)
    ensures SafeFrom(a, a, available, NoneFinished(|a|))
    ensures Scan(a, a, Start(available, |a|)).count == |a|
  {
    var st := Start(available, |a|);
    var order := MainOrderRuns(a, st.work, st.finish);
    MainAllocationShape(a);
    ScanComplete(a, a, st, order);
  }

  lemma MainAllocationShape(a: seq<seq<int>>)
    requires a == MainAllocation
    ensures IsMatrix(a, 5, 3) && NonNegRows(a)
  {
  }

  /** `main`: five processes and three resource kinds, `available`,
      `max` and `allocation` set row by row, then `isSafe()`, which
      answers true. */
  method MainExample() returns (safe: bool)
    ensures safe
  {
    var banker := new BankersAlgorithmExample1(5, 3);
    var _ := banker.SetAvailable(MainAvailable);
    for i := 0 to 5
      invariant banker.Valid() && banker.numProcesses == 5 && banker.numResources == 3
      invariant banker.available == MainAvailable
    {
      var _ := banker.SetMax(i, MainMax[i]);
    }
    for i := 0 to 5
      invariant banker.Valid() && banker.numProcesses == 5 && banker.numResources == 3
      invariant banker.available == MainAvailable
      invariant forall k :: 0 <= k < i ==> banker.allocation[k] == MainAllocation[k]
    {
      var _ := banker.SetAllocation(i, MainAllocation[i]);
    }
    assert banker.allocation == MainAllocation;
    safe := banker.IsSafe();
    MainDataIsSafe(banker.allocation, banker.available);
  }
}
