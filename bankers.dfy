/** BankersAlgorithm.java: the Banker's algorithm with a request check.
    `isSafe(processId, request)` tries the request on trial: it checks that
    the request is within the process's remaining need, takes it from a copy
    of `available`, adds it to the process's allocation, and runs the
    scan of module SafetyScan, testing each process's need and releasing its
    allocation. `allocateResources` grants a request for good. The locks
    (`synchronized`) are left out: every method runs alone. */
module Bankers {
  import opened SafetyScan
  import opened JavaArrays

  /** The need matrix: what each process may still ask for, its `max` row
      less its `allocation` row. */
  function NeedOf(max: seq<seq<int>>, allocation: seq<seq<int>>): (need: seq<seq<int>>)
    requires |max| == |allocation| && forall i :: 0 <= i < |max| ==> |max[i]| == |allocation[i]|
    ensures |need| == |max| && forall i :: 0 <= i < |max| ==> need[i] == VecSub(max[i], allocation[i])
  {
    seq(|max|, i requires 0 <= i < |max| => VecSub(max[i], allocation[i]))
  }

  /** A process's need fits in `work` exactly when its whole `max` claim
      fits in `work` plus what it already holds. */
  lemma NeedFitsIffMaxFits(max: seq<seq<int>>, allocation: seq<seq<int>>, i: int, work: seq<int>)
    requires |max| == |allocation| && forall p :: 0 <= p < |max| ==> |max[p]| == |allocation[p]| == |work|
    requires 0 <= i < |max|
    ensures Fits(NeedOf(max, allocation)[i], work) <==> Fits(max[i], VecAdd(work, allocation[i]))
  {
    var need := NeedOf(max, allocation)[i];
    var more := VecAdd(work, allocation[i]);
    assert forall k :: 0 <= k < |work| ==> (need[k] <= work[k] <==> max[i][k] <= more[k]);
  }

  /** What `isSafe(processId, request)` evidently means to answer: the
      request is within the process's need, and after granting it on trial
      the scan, testing need rows and releasing allocation rows from the
      reduced `available`, finishes every process. Only the first
      `numResources` entries of `request` are read. */
  predicate RequestIsSafe(available: seq<int>, max: seq<seq<int>>, allocation: seq<seq<int>>, p: int, request: seq<int>)
    requires IsMatrix(max, |max|, |available|) && IsMatrix(allocation, |max|, |available|)
    requires 0 <= p < |max| && |request| >= |available|
  {
    var req := request[..|available|];
    var need := NeedOf(max, allocation);
    && Fits(req, need[p])
    && Scan(need[p := VecSub(need[p], req)], allocation[p := VecAdd(allocation[p], req)],
            Start(VecSub(available, req), |max|)).count == |max|
  }

  /** When the allocation rows stay non-negative, a request is safe exactly
      when it is within the process's need and, after granting it, the
      processes can be run to completion in some order, each releasing its
      allocation. */
  lemma RequestIsSafeMeansSafeSequence(available: seq<int>, max: seq<seq<int>>, allocation: seq<seq<int>>, p: int, request: seq<int>)
    requires IsMatrix(max, |max|, |available|) && IsMatrix(allocation, |max|, |available|)
    requires 0 <= p < |max| && |request| >= |available|
    requires NonNegRows(allocation[p := VecAdd(allocation[p], request[..|available|])])
    ensures var req := request[..|available|];
      var need := NeedOf(max, allocation);
      RequestIsSafe(available, max, allocation, p, request) <==>
        && Fits(req, need[p])
        && SafeFrom(need[p := VecSub(need[p], req)], allocation[p := VecAdd(allocation[p], req)],
                    VecSub(available, req), NoneFinished(|max|))
  {
    var req := request[..|available|];
    var need := NeedOf(max, allocation);
    ScanDecidesSafety(need[p := VecSub(need[p], req)], allocation[p := VecAdd(allocation[p], req)],
                      Start(VecSub(available, req), |max|));
  }

  /** The total of resource kind k held by all processes. */
  function ColumnSum(rows: seq<seq<int>>, k: nat): int
    requires forall i :: 0 <= i < |rows| ==> k < |rows[i]|
  {
    if rows == [] then 0 else ColumnSum(rows[..|rows| - 1], k) + rows[|rows| - 1][k]
  }

  /** Replacing one row changes a column total by the difference in that
      row's entry. */
  lemma {:induction false} ColumnSumUpdate(rows: seq<seq<int>>, k: nat, p: int, row: seq<int>)
    requires forall i :: 0 <= i < |rows| ==> k < |rows[i]|
    requires 0 <= p < |rows| && k < |row|
    ensures ColumnSum(rows[p := row], k) == ColumnSum(rows, k) - rows[p][k] + row[k]
  {
    var n := |rows|;
    var u := rows[p := row];
    if p < n - 1 {
      assert u[..n - 1] == rows[..n - 1][p := row];
      ColumnSumUpdate(rows[..n - 1], k, p, row);
    } else {
      assert u[..n - 1] == rows[..n - 1];
    }
  }

  /** Granting a request moves resources from `available` to the process's
      allocation: for every resource kind, what is available plus what all
      processes hold stays the same. */
  lemma GrantConservesTotals(available: seq<int>, allocation: seq<seq<int>>, p: int, req: seq<int>)
    requires IsMatrix(allocation, |allocation|, |available|) && 0 <= p < |allocation| && |req| == |available|
    ensures forall k :: 0 <= k < |available| ==>
      VecSub(available, req)[k] + ColumnSum(allocation[p := VecAdd(allocation[p], req)], k)
        == available[k] + ColumnSum(allocation, k)
  {
    forall k | 0 <= k < |available|
      ensures VecSub(available, req)[k] + ColumnSum(allocation[p := VecAdd(allocation[p], req)], k)
        == available[k] + ColumnSum(allocation, k)
    {
      ColumnSumUpdate(allocation, k, p, VecAdd(allocation[p], req));
    }
  }

  class BankersAlgorithm {
    const numProcesses: nat
    const numResources: nat
    var available: seq<int>
    var max: seq<seq<int>>
    var allocation: seq<seq<int>>

    /** `available` has one entry per resource; `max` and `allocation` one
        row per process, each with one entry per resource. */
    ghost predicate Valid()
      reads this
    {
      && |available| == numResources
      && IsMatrix(max, numProcesses, numResources)
      && IsMatrix(allocation, numProcesses, numResources)
    }

    /** `available` becomes a copy of the argument cut or zero-padded to
        `numResources` entries; `max` and `allocation` start zero-filled. */
    constructor (numProcesses: nat, numResources: nat, available: seq<int>)
      ensures Valid()
      ensures this.numProcesses == numProcesses && this.numResources == numResources
      ensures this.available == CopyOf(available, numResources)
      ensures max == ZeroMatrix(numProcesses, numResources)
      ensures allocation == ZeroMatrix(numProcesses, numResources)
    {
      this.numProcesses := numProcesses;
      this.numResources := numResources;
      this.available := CopyOf(available, numResources);
      max := ZeroMatrix(numProcesses, numResources);
      allocation := ZeroMatrix(numProcesses, numResources);
    }

    /** `setMax`: the process's row of `max` becomes a copy of `resources`,
        cut or zero-padded to `numResources` entries. */
    method SetMax(processId: int, resources: seq<int>)
      requires Valid() && 0 <= processId < numProcesses
      modifies this
      ensures Valid()
      ensures max == old(max)[processId := CopyOf(resources, numResources)]
      ensures available == old(available) && allocation == old(allocation)
    {
      max := max[processId := CopyOf(resources, numResources)];
    }

    /** `setAllocation`: likewise for the process's row of `allocation`. */
    method SetAllocation(processId: int, resources: seq<int>)
      requires Valid() && 0 <= processId < numProcesses
      modifies this
      ensures Valid()
      ensures allocation == old(allocation)[processId := CopyOf(resources, numResources)]
      ensures available == old(available) && max == old(max)
    {
      allocation := allocation[processId := CopyOf(resources, numResources)];
    }

    /** `calculateNeed`: a fresh matrix holding `max[i][j] - allocation[i][j]`
        for every process i and resource j. */
    method CalculateNeed() returns (need: seq<seq<int>>)
      requires Valid()
      ensures IsMatrix(need, numProcesses, numResources)
      ensures forall i, j :: 0 <= i < numProcesses && 0 <= j < numResources ==>
                need[i][j] == max[i][j] - allocation[i][j]
    {
      need := ZeroMatrix(numProcesses, numResources);
      for i := 0 to numProcesses
        invariant IsMatrix(need, numProcesses, numResources)
        invariant forall p, j :: 0 <= p < i && 0 <= j < numResources ==> need[p][j] == max[p][j] - allocation[p][j]
      {
        var row := need[i];
        for j := 0 to numResources
          invariant |row| == numResources
          invariant forall q :: 0 <= q < j ==> row[q] == max[i][q] - allocation[i][q]
        {
          row := row[j := max[i][j] - allocation[i][j]];
        }
        need := need[i := row];
      }
    }

    /** `isNeedLessThanOrEqual(work, need)`: despite its name, whether every
        entry of `work` is at least the matching entry of `need`; it stops
        at the first entry that is smaller. */
    method IsNeedLessThanOrEqual(work: array<int>, need: seq<int>) returns (r: bool)
      requires |need| >= work.Length
      ensures r == forall k :: 0 <= k < work.Length ==> need[k] <= work[k]
    {
      for i := 0 to work.Length
        invariant forall k :: 0 <= k < i ==> need[k] <= work[k]
      {
        if work[i] < need[i] {
          return false;
        }
      }
      return true;
    }

    /** The first loop of `isSafe`: whether no entry of the request exceeds
        the process's remaining need (the source returns false at the first
        one that does). */
    method WithinNeed(needRow: seq<int>, request: seq<int>) returns (ok: bool)
      requires |needRow| == numResources && |request| >= numResources
      ensures ok == Fits(request[..numResources], needRow)
    {
      for i := 0 to numResources
        invariant forall k :: 0 <= k < i ==> request[k] <= needRow[k]
      {
        if request[i] > needRow[i] {
          return false;
        }
      }
      return true;
    }

    /** The second loop of `isSafe`: the request is taken from `work` and
        added to the process's allocation, and its need drops by as much. */
    method Reserve(processId: int, request: seq<int>, work: array<int>, need0: seq<seq<int>>) returns (need: seq<seq<int>>)
      requires Valid() && 0 <= processId < numProcesses && |request| >= numResources
      requires IsMatrix(need0, numProcesses, numResources) && work.Length == numResources
      modifies this, work
      ensures Valid() && available == old(available) && max == old(max)
      ensures allocation == old(allocation)[processId := VecAdd(old(allocation)[processId], request[..numResources])]
      ensures work[..] == VecSub(old(work[..]), request[..numResources])
      ensures need == need0[processId := VecSub(need0[processId], request[..numResources])]
    {
      var req := request[..numResources];
      var allocRow, needRow := allocation[processId], need0[processId];
      for i := 0 to numResources
        invariant available == old(available) && max == old(max) && allocation == old(allocation)
        invariant |allocRow| == |needRow| == numResources
        invariant forall k :: 0 <= k < i ==> work[k] == old(work[k]) - req[k]
        invariant forall k :: i <= k < numResources ==> work[k] == old(work[k])
        invariant forall k :: 0 <= k < i ==> allocRow[k] == old(allocation)[processId][k] + req[k]
        invariant forall k :: i <= k < numResources ==> allocRow[k] == old(allocation)[processId][k]
        invariant forall k :: 0 <= k < i ==> needRow[k] == need0[processId][k] - req[k]
        invariant forall k :: i <= k < numResources ==> needRow[k] == need0[processId][k]
      {
        work[i] := work[i] - request[i];
        allocRow := allocRow[i := allocRow[i] + request[i]];
        needRow := needRow[i := needRow[i] - request[i]];
      }
      assert allocRow == VecAdd(old(allocation)[processId], req);
      assert needRow == VecSub(need0[processId], req);
      allocation := allocation[processId := allocRow];
      need := need0[processId := needRow];
    }

    /** The last loop of `isSafe`: the request goes back to `work`, is
        taken from the process's allocation, and its need rises again. */
    method Rollback(processId: int, request: seq<int>, work: array<int>, need0: seq<seq<int>>) returns (need: seq<seq<int>>)
      requires Valid() && 0 <= processId < numProcesses && |request| >= numResources
      requires IsMatrix(need0, numProcesses, numResources) && work.Length == numResources
      modifies this, work
      ensures Valid() && available == old(available) && max == old(max)
      ensures allocation == old(allocation)[processId := VecSub(old(allocation)[processId], request[..numResources])]
      ensures work[..] == VecAdd(old(work[..]), request[..numResources])
      ensures need == need0[processId := VecAdd(need0[processId], request[..numResources])]
    {
      var req := request[..numResources];
      var allocRow, needRow := allocation[processId], need0[processId];
      for i := 0 to numResources
        invariant available == old(available) && max == old(max) && allocation == old(allocation)
        invariant |allocRow| == |needRow| == numResources
        invariant forall k :: 0 <= k < i ==> work[k] == old(work[k]) + req[k]
        invariant forall k :: i <= k < numResources ==> work[k] == old(work[k])
        invariant forall k :: 0 <= k < i ==> allocRow[k] == old(allocation)[processId][k] - req[k]
        invariant forall k :: i <= k < numResources ==> allocRow[k] == old(allocation)[processId][k]
        invariant forall k :: 0 <= k < i ==> needRow[k] == need0[processId][k] + req[k]
        invariant forall k :: i <= k < numResources ==> needRow[k] == need0[processId][k]
      {
        work[i] := work[i] + request[i];
        allocRow := allocRow[i := allocRow[i] - request[i]];
        needRow := needRow[i := needRow[i] + request[i]];
      }
      assert allocRow == VecSub(old(allocation)[processId], req);
      assert needRow == VecAdd(need0[processId], req);
      allocation := allocation[processId := allocRow];
      need := need0[processId := needRow];
    }

    /** The body of the scan's `for (int i ...)` loop for process `i`, with
        need rows checked and allocation rows released: `Step` on the
        arrays. */
    method StepAt(need: seq<seq<int>>, work: array<int>, finish: array<bool>, count0: int, flag0: bool, i: nat)
      returns (count: int, flag: bool)
      requires work.Length == numResources && finish.Length == numProcesses && i < numProcesses
      requires WellFormed(need, allocation, ScanState(work[..], finish[..], count0))
      modifies work, finish
      ensures ScanState(work[..], finish[..], count) == Step(need, allocation, old(ScanState(work[..], finish[..], count0)), i)
      ensures flag == (flag0 || count != count0)
    {
      count, flag := count0, flag0;
      if !finish[i] {
        var fits := IsNeedLessThanOrEqual(work, need[i]);
        if fits {
          AddRow(work, allocation[i]);
          finish[i] := true;
          flag := true;
          count := count + 1;
        }
      }
    }

    /** One run of that `for` loop: `PassFrom` from process 0. The flag
        `isSafeState` comes in false and goes out true exactly when somebody
        was finished. */
    method Pass(need: seq<seq<int>>, work: array<int>, finish: array<bool>, count0: int) returns (count: int, isSafeState: bool)
      requires work.Length == numResources && finish.Length == numProcesses
      requires WellFormed(need, allocation, ScanState(work[..], finish[..], count0))
      modifies work, finish
      ensures ScanState(work[..], finish[..], count) == PassFrom(need, allocation, old(ScanState(work[..], finish[..], count0)), 0)
      ensures isSafeState <==> count != count0
    {
      ghost var st0 := ScanState(work[..], finish[..], count0);
      count, isSafeState := count0, false;
      for i := 0 to numProcesses
        invariant WellFormed(need, allocation, ScanState(work[..], finish[..], count))
        invariant PassFrom(need, allocation, ScanState(work[..], finish[..], count), i) == PassFrom(need, allocation, st0, 0)
        invariant count0 <= count && (isSafeState <==> count != count0)
      {
        count, isSafeState := StepAt(need, work, finish, count, isSafeState, i);
      }
    }

    /** The `while (count < numProcesses)` loop of `isSafe`, as written: the
        arrays end as `Scan` leaves them, and `isSafeState` ends false on
        every path, since a pass that finished nobody breaks out with it
        false and any other pass is followed by `isSafeState = false`. */
    method RunScan(need: seq<seq<int>>, work: array<int>, finish: array<bool>) returns (count: int, isSafeState: bool)
      requires work.Length == numResources && finish.Length == numProcesses
      requires WellFormed(need, allocation, ScanState(work[..], finish[..], 0))
      modifies work, finish
      ensures ScanState(work[..], finish[..], count) == Scan(need, allocation, old(ScanState(work[..], finish[..], 0)))
      ensures !isSafeState
    {
      ghost var goal := Scan(need, allocation, ScanState(work[..], finish[..], 0));
      isSafeState := false;
      count := 0;
      while count < numProcesses
        invariant WellFormed(need, allocation, ScanState(work[..], finish[..], count))
        invariant Scan(need, allocation, ScanState(work[..], finish[..], count)) == goal
        invariant !isSafeState
        decreases numProcesses - count
      {
        count, isSafeState := Pass(need, work, finish, count);
        if !isSafeState {
          break;
        }
        isSafeState := false;
      }
    }

    /** `isSafe(processId, request)` as written: it answers false on every
        input, and `allocation` (and everything else) is as it was. */
    method IsSafe(processId: int, request: seq<int>) returns (safe: bool)
      requires Valid() && 0 <= processId < numProcesses && |request| >= numResources
      modifies this
      ensures Valid() && available == old(available) && max == old(max) && allocation == old(allocation)
      ensures !safe
    {
      var need := CalculateNeed();
      var av := available;
      var work := new int[numResources](k => if 0 <= k < |av| then av[k] else 0);
      var finish := new bool[numProcesses](_ => false);
      assert finish[..] == NoneFinished(numProcesses);

      var ok := WithinNeed(need[processId], request);
      if !ok {
        return false;
      }
      ghost var alloc0 := allocation;
      need := Reserve(processId, request, work, need);
      var count, isSafeState := RunScan(need, work, finish);
      if !isSafeState {
        need := Rollback(processId, request, work, need);
      }
      SubThenAdd(alloc0[processId], request[..numResources]);
      assert allocation == alloc0;
      return isSafeState;
    }

    /** `isSafe` as evidently intended: it answers `RequestIsSafe` and always
        undoes the trial grant, leaving the grant itself to
        `allocateResources`. */
    method IsSafeCorrected(processId: int, request: seq<int>) returns (safe: bool)
      requires Valid() && 0 <= processId < numProcesses && |request| >= numResources
      modifies this
      ensures Valid() && available == old(available) && max == old(max) && allocation == old(allocation)
      ensures safe == RequestIsSafe(available, max, allocation, processId, request)
    {
      var need := CalculateNeed();
      assert need == NeedOf(max, allocation) by {
        assert forall i :: 0 <= i < numProcesses ==> need[i] == NeedOf(max, allocation)[i];
      }
      var av := available;
      var work := new int[numResources](k => if 0 <= k < |av| then av[k] else 0);
      var finish := new bool[numProcesses](_ => false);
      assert work[..] == available;
      assert finish[..] == NoneFinished(numProcesses);

      var ok := WithinNeed(need[processId], request);
      if !ok {
        return false;
      }
      ghost var alloc0 := allocation;
      ghost var req := request[..numResources];
      need := Reserve(processId, request, work, need);
      ghost var start := Start(VecSub(available, req), numProcesses);
      assert ScanState(work[..], finish[..], 0) == start;
      ghost var test, add := need, allocation;
      var count, _ := RunScan(need, work, finish);
      assert count == Scan(test, add, start).count;
      need := Rollback(processId, request, work, need);
      SubThenAdd(alloc0[processId], req);
      assert allocation == alloc0;
      safe := count == numProcesses;
    }

    /** `allocateResources`: the request is taken from `available` and added
        to the process's allocation, so that for each resource kind the
        amount available plus the amounts held stays the same. */
    method AllocateResources(processId: int, request: seq<int>)
      requires Valid() && 0 <= processId < numProcesses && |request| >= numResources
      modifies this
      ensures Valid() && max == old(max)
      ensures available == VecSub(old(available), request[..numResources])
      ensures allocation == old(allocation)[processId := VecAdd(old(allocation)[processId], request[..numResources])]
      ensures forall k :: 0 <= k < numResources ==>
                available[k] + ColumnSum(allocation, k) == old(available[k] + ColumnSum(allocation, k))
    {
      var req := request[..numResources];
      ghost var av0, alloc0 := available, allocation;
      var allocRow := allocation[processId];
      for i := 0 to numResources
        invariant max == old(max) && allocation == alloc0
        invariant |available| == |allocRow| == numResources
        invariant forall k :: 0 <= k < i ==> available[k] == av0[k] - req[k]
        invariant forall k :: i <= k < numResources ==> available[k] == av0[k]
        invariant forall k :: 0 <= k < i ==> allocRow[k] == alloc0[processId][k] + req[k]
        invariant forall k :: i <= k < numResources ==> allocRow[k] == alloc0[processId][k]
      {
        available := available[i := available[i] - request[i]];
        allocRow := allocRow[i := allocRow[i] + request[i]];
      }
      assert available == VecSub(av0, req);
      assert allocRow == VecAdd(alloc0[processId], req);
      allocation := allocation[processId := allocRow];
      GrantConservesTotals(av0, alloc0, processId, req);
    }
  }

  /** What a process thread does with its request (Process.java) as written:
      under the banker's lock it asks `isSafe`, which answers false on every
      input, so the request is never granted and the banker is unchanged. */
  method RequestAsWritten(banker: BankersAlgorithm, processId: int, request: seq<int>) returns (granted: bool)
    requires banker.Valid() && 0 <= processId < banker.numProcesses && |request| >= banker.numResources
    modifies banker
    ensures banker.Valid() && !granted
    ensures banker.available == old(banker.available) && banker.max == old(banker.max)
    ensures banker.allocation == old(banker.allocation)
  {
    granted := banker.IsSafe(processId, request);
    // `isSafe` never answers true, so the `allocateResources` branch is dead.
  }

  /** What a process thread does with its request once `isSafe` is
      corrected: under the banker's lock it asks `IsSafeCorrected` and, if
      told yes, calls `allocateResources`. The request is granted exactly
      when it is safe, and granted once. */
  method RequestCorrected(banker: BankersAlgorithm, processId: int, request: seq<int>) returns (granted: bool)
    requires banker.Valid() && 0 <= processId < banker.numProcesses && |request| >= banker.numResources
    modifies banker
    ensures banker.Valid() && banker.max == old(banker.max)
    ensures granted == RequestIsSafe(old(banker.available), old(banker.max), old(banker.allocation), processId, request)
    ensures banker.available == if granted then VecSub(old(banker.available), request[..banker.numResources]) else old(banker.available)
    ensures banker.allocation == if granted
      then old(banker.allocation)[processId := VecAdd(old(banker.allocation)[processId], request[..banker.numResources])]
      else old(banker.allocation)
  {
    granted := banker.IsSafeCorrected(processId, request);
    if granted {
      banker.AllocateResources(processId, request);
    }
  }

  /** A request that is safe: one process, one resource kind, one unit
      available, a claim of one unit and nothing held yet; the process asks
      for its one unit. `IsSafe` as written still answers false. */
  lemma SafeRequestExists(available: seq<int>, max: seq<seq<int>>, allocation: seq<seq<int>>, request: seq<int>)
    requires available == [1] && max == [[1]] && allocation == [[0]] && request == [1]
    ensures RequestIsSafe(available, max, allocation, 0, request)
  {
    var need := NeedOf(max, allocation);
    assert need[0] == [1];
    var st := Start(VecSub(available, request), 1);
    var test, add := need[0 := VecSub(need[0], request)], allocation[0 := VecAdd(allocation[0], request)];
    assert VecSub(need[0], request) == [0];
    assert test == [[0]];
    assert st.work == [0];
    assert CanFinish(test, add, st, 0);
    var p := PassFrom(test, add, st, 0);
    assert p == PassFrom(test, add, Step(test, add, st, 0), 1);
    assert p.count == 1;
  }
}
