# Verified model of the multithreading examples

The repository is a catalogue of small Java concurrency demos. This project
models the ones with real logic in them and proves what they compute. There
are three groups.

- **The lock-free queue.** `ConcurrentQueue` is a singly linked FIFO with a
  dummy head node, in the Michael–Scott design (module `LockFreeQueue`).
  It is modelled as a class over heap nodes. Each `compareAndSet` is a
  conditional field update on those nodes, run by one thread. Ghost fields
  `Nodes` and `Contents` give the chain and the abstract contents. The
  invariant lets `tail` lag one link behind the last node, so the helping
  branches of `enqueue` and `dequeue` are reachable and are proved not to
  change the contents.
- **Fork/join array and list algorithms.** These are:
  - merge sort, in two variants (`ParallelSort`, `ComplexParallelSort`,
    sharing `MergeSort` and `Sorting`);
  - in-place prefix sum (`PrefixSum`);
  - sum reduction (`Reduction`) and sum of squares (`SumOfSquares`);
  - zero-padded convolution (`Convolution`);
  - nearest-neighbour image resize (`ImageResize`);
  - chunked linear search (`ParallelSearch`);
  - adjacency-list BFS (`GraphBfs`);
  - the map/filter/square/sum pipeline (`Pipeline`).

  Every `invokeAll` and `fork`/`join` in them works on disjoint index
  ranges or only reads shared data. So each task is modelled as sequential
  recursion over the same ranges, on arrays updated in place. Java `int`
  arithmetic on values wraps modulo 2^32 (module `JavaInt`).
- **Small state holders.** These are:
  - the two Banker's-algorithm classes (`BankersExample1` and `Bankers`,
    with the safety scan they share in `SafetyScan`);
  - the two shopping carts (`CartCounts`, `CartQuantities`);
  - the restaurant table counter (`RestaurantTables`);
  - the ticket counter (`TicketBooking`);
  - the bank accounts with transfer (`Accounts`);
  - the one-shot transaction (`Transactions`).

  Each is a class whose methods update its fields. Locks are dropped: each
  method holds its lock for its whole body, so calls take effect one at a
  time. The drivers' thread interleavings are modelled as the possible
  orders of those calls.

Every method carries its specification. Sorting is stated as "replaced by
the sorted arrangement of the old contents, nothing else changed"; the
prefix sum as "replaced by the running totals". BFS is stated as "exactly
the reachable vertices, without duplicates"; the search as "the first
index"; the queue as "contents + [x]" and "contents minus its first
element". The properties of those specification functions are proved as
lemmas.

Where the code and its design description differ, the model follows the
code. The queue is one such place. The design describes an "empty" answer
that callers can tell apart from an item. The code returns `null` for an
empty queue, and `null` is also a value that can be enqueued
(`LockFreeQueue.NullItemLooksLikeEmpty`).

## Model

| member | source | states |
|---|---|---|
| `LockFreeQueue.Node.constructor` | src/main/java/com/clay/h_thread_safety_mechanisms/examples/lock_free_wait_free_algo/ConcurrentQueue.java:29-32 | A node holds the given value (`None` for Java's `null`) and a null `next` link. |
| `LockFreeQueue.ConcurrentQueue.constructor` | src/main/java/com/clay/h_thread_safety_mechanisms/examples/lock_free_wait_free_algo/ConcurrentQueue.java:38-42 | A new queue has `head == tail`, one dummy node whose `next` is null and whose value is `null`, and empty contents. |
| `LockFreeQueue.ConcurrentQueue.CompareAndSetTail` | src/main/java/com/clay/h_thread_safety_mechanisms/examples/lock_free_wait_free_algo/ConcurrentQueue.java:52-56 | `tail.compareAndSet(expected, expected.next)` swaps exactly when `tail` is `expected`. It moves `tail` one link along `next` at most and never changes the head, the node chain or the contents. |
| `LockFreeQueue.ConcurrentQueue.CompareAndSetHead` | src/main/java/com/clay/h_thread_safety_mechanisms/examples/lock_free_wait_free_algo/ConcurrentQueue.java:75 | `head.compareAndSet(currentHead, headNext)` swaps exactly when `head` is `currentHead`. A swap makes the second node the new dummy and drops exactly the first element of the contents; otherwise nothing changes. |
| `LockFreeQueue.ConcurrentQueue.CompareAndSetNext` | src/main/java/com/clay/h_thread_safety_mechanisms/examples/lock_free_wait_free_algo/ConcurrentQueue.java:51 | `next.compareAndSet(null, newNode)` on the last node succeeds exactly when its `next` is null. On success the fresh node is appended to the chain and its value to the contents. |
| `LockFreeQueue.ConcurrentQueue.Enqueue` | src/main/java/com/clay/h_thread_safety_mechanisms/examples/lock_free_wait_free_algo/ConcurrentQueue.java:44-60 | `enqueue(x)` keeps the queue invariant (tail reachable from head, acyclic chain, last `next` null) and turns the contents into old contents + [x], with `tail` on the new last node. |
| `LockFreeQueue.ConcurrentQueue.Dequeue` | src/main/java/com/clay/h_thread_safety_mechanisms/examples/lock_free_wait_free_algo/ConcurrentQueue.java:62-81 | On empty contents `dequeue` returns `null` and changes no field. Otherwise it returns the first element and the contents lose exactly that element. |
| `LockFreeQueue.DequeueFreshQueue` | src/main/java/com/clay/h_thread_safety_mechanisms/examples/lock_free_wait_free_algo/ConcurrentQueue.java:68-70 | `dequeue` on a new queue returns `null`. |
| `LockFreeQueue.EnqueueAllThenDrain` | src/main/java/com/clay/h_thread_safety_mechanisms/examples/lock_free_wait_free_algo/ConcurrentQueue.java:44-81 | FIFO: items enqueued one by one come out of repeated `dequeue` calls in the same order, and one more `dequeue` then returns `null`. |
| `LockFreeQueue.NullItemLooksLikeEmpty` | src/main/java/com/clay/h_thread_safety_mechanisms/examples/lock_free_wait_free_algo/ConcurrentQueue.java:70-76 | `enqueue(null)` followed by `dequeue` returns the same value as `dequeue` on an empty queue. |
| `SafetyScan.SubThenAdd` | src/main/java/com/clay/j_advanced_concepts_techniques/deadlock_resolution_examples/resource_allocation/BankersAlgorithm.java:72-79 | Adding back a vector that was subtracted (and the reverse) restores the original vector, so the rollback undoes the temporary allocation. |
| `SafetyScan.CountTrue` | src/main/java/com/clay/j_advanced_concepts_techniques/deadlock_resolution_examples/resource_allocation/BankersAlgorithmExample1.java:69-86 | The number of finished processes never exceeds the number of processes. |
| `SafetyScan.NoneFinished` | src/main/java/com/clay/j_advanced_concepts_techniques/deadlock_resolution_examples/resource_allocation/BankersAlgorithmExample1.java:60 | A fresh `finish` array has no process marked, so its count is 0. |
| `SafetyScan.CountTrueSet` | src/main/java/com/clay/j_advanced_concepts_techniques/deadlock_resolution_examples/resource_allocation/BankersAlgorithmExample1.java:78-80 | Marking one unfinished process finished raises the finished count by exactly one. |
| `SafetyScan.CountTrueAll` | src/main/java/com/clay/j_advanced_concepts_techniques/deadlock_resolution_examples/resource_allocation/BankersAlgorithmExample1.java:88-89 | The finished count equals the number of processes iff every process is marked finished. |
| `SafetyScan.Start` | src/main/java/com/clay/j_advanced_concepts_techniques/deadlock_resolution_examples/resource_allocation/BankersAlgorithmExample1.java:59-60 | The scan starts from a copy of `available`, no process finished and a count of 0. |
| `SafetyScan.Step` | src/main/java/com/clay/j_advanced_concepts_techniques/deadlock_resolution_examples/resource_allocation/BankersAlgorithmExample1.java:73-80 | One inner-loop step: a process that is unfinished and fits in `work` is marked finished and the count goes up by one; otherwise the state is unchanged. |
| `SafetyScan.PassFrom` | src/main/java/com/clay/j_advanced_concepts_techniques/deadlock_resolution_examples/resource_allocation/BankersAlgorithmExample1.java:72-82 | A pass over the processes never lowers the count. |
| `SafetyScan.Scan` | src/main/java/com/clay/j_advanced_concepts_techniques/deadlock_resolution_examples/resource_allocation/BankersAlgorithmExample1.java:69-86 | The repeated passes end with a count between the starting count and the number of processes. |
| `SafetyScan.PassKeepsFinished` | src/main/java/com/clay/j_advanced_concepts_techniques/deadlock_resolution_examples/resource_allocation/BankersAlgorithmExample1.java:75-79 | Within a pass a finished flag, once set, stays set. |
| `SafetyScan.ScanKeepsFinished` | src/main/java/com/clay/j_advanced_concepts_techniques/deadlock_resolution_examples/resource_allocation/BankersAlgorithmExample1.java:75-79 | Over the whole scan a finished flag, once set, stays set. |
| `SafetyScan.RunsInOrderCons` | src/main/java/com/clay/j_advanced_concepts_techniques/deadlock_resolution_examples/resource_allocation/BankersAlgorithmExample1.java:68-89 | Running a process that fits and then a safe order for the rest gives a safe order for the whole. |
| `SafetyScan.RunFirst` | src/main/java/com/clay/j_advanced_concepts_techniques/deadlock_resolution_examples/resource_allocation/BankersAlgorithmExample1.java:68-89 | With non-negative rows to release, running any process that fits first still leaves a safe order for the rest. |
| `SafetyScan.PassProgress` | src/main/java/com/clay/j_advanced_concepts_techniques/deadlock_resolution_examples/resource_allocation/BankersAlgorithmExample1.java:70-86 | A pass that meets an unfinished process that fits raises the count, so each pass makes progress or ends the loop. |
| `SafetyScan.PassKeepsSafe` | src/main/java/com/clay/j_advanced_concepts_techniques/deadlock_resolution_examples/resource_allocation/BankersAlgorithmExample1.java:72-82 | A pass keeps a safe order available for what is left. |
| `SafetyScan.PassSound` | src/main/java/com/clay/j_advanced_concepts_techniques/deadlock_resolution_examples/resource_allocation/BankersAlgorithmExample1.java:72-82 | A safe order after a pass gives a safe order before it. |
| `SafetyScan.ScanSound` | src/main/java/com/clay/j_advanced_concepts_techniques/deadlock_resolution_examples/resource_allocation/BankersAlgorithmExample1.java:68-89 | If the scan finishes every process, some order lets all of them run to completion. |
| `SafetyScan.ScanComplete` | src/main/java/com/clay/j_advanced_concepts_techniques/deadlock_resolution_examples/resource_allocation/BankersAlgorithmExample1.java:68-89 | With non-negative rows to release, if some order lets all processes complete, the scan finishes all of them. |
| `SafetyScan.ScanDecidesSafety` | src/main/java/com/clay/j_advanced_concepts_techniques/deadlock_resolution_examples/resource_allocation/BankersAlgorithmExample1.java:68-89 | With non-negative rows to release, the scan finishes every process iff the state is safe. |
| `SafetyScan.Released` | src/main/java/com/clay/j_advanced_concepts_techniques/deadlock_resolution_examples/resource_allocation/BankersAlgorithmExample1.java:75-79 | The sum of the rows of finished processes has one entry per resource. |
| `SafetyScan.ReleasedSet` | src/main/java/com/clay/j_advanced_concepts_techniques/deadlock_resolution_examples/resource_allocation/BankersAlgorithmExample1.java:75-79 | Finishing one more process adds exactly its row to the released sum. |
| `SafetyScan.PassReleases` | src/main/java/com/clay/j_advanced_concepts_techniques/deadlock_resolution_examples/resource_allocation/BankersAlgorithmExample1.java:75-79 | After a pass `work` is still the starting vector plus the rows of the finished processes and nothing else. |
| `SafetyScan.ScanReleases` | src/main/java/com/clay/j_advanced_concepts_techniques/deadlock_resolution_examples/resource_allocation/BankersAlgorithmExample1.java:75-79 | After the whole scan `work` is the starting vector plus the rows of the finished processes and nothing else. |
| `SafetyScan.ReleasedNone` | src/main/java/com/clay/j_advanced_concepts_techniques/deadlock_resolution_examples/resource_allocation/BankersAlgorithmExample1.java:59-60 | With no process finished, nothing has been released. |
| `SafetyScan.StartReleases` | src/main/java/com/clay/j_advanced_concepts_techniques/deadlock_resolution_examples/resource_allocation/BankersAlgorithmExample1.java:59-89 | Starting from `available`, the scan's final `work` is `available` plus exactly the rows of the finished processes. |
| `SafetyScan.AddRow` | src/main/java/com/clay/j_advanced_concepts_techniques/deadlock_resolution_examples/resource_allocation/BankersAlgorithmExample1.java:75-77 | The loop `work[j] += row[j]` leaves `work` equal to the entry-wise sum of its old value and the row. |
| `BankersExample1.BankersAlgorithmExample1.constructor` | src/main/java/com/clay/j_advanced_concepts_techniques/deadlock_resolution_examples/resource_allocation/BankersAlgorithmExample1.java:22-29 | The sizes are stored and `available`, `max`, `allocation` and `need` are all zero-filled with the right shapes. |
| `BankersExample1.BankersAlgorithmExample1.SetAvailable` | src/main/java/com/clay/j_advanced_concepts_techniques/deadlock_resolution_examples/resource_allocation/BankersAlgorithmExample1.java:31-36 | A wrong length ends in `IllegalArgumentException` with the source's message and changes nothing. Otherwise `available` becomes a copy of the argument. The matrices are untouched either way. |
| `BankersExample1.BankersAlgorithmExample1.RowOutcome` | src/main/java/com/clay/j_advanced_concepts_techniques/deadlock_resolution_examples/resource_allocation/BankersAlgorithmExample1.java:38-56 | A row setter succeeds iff `0 <= processId < numProcesses` and the row has `numResources` entries. |
| `BankersExample1.BankersAlgorithmExample1.SetMax` | src/main/java/com/clay/j_advanced_concepts_techniques/deadlock_resolution_examples/resource_allocation/BankersAlgorithmExample1.java:38-46 | On success exactly row `processId` of `max` is replaced by the argument. On an invalid id or a wrong length nothing changes. The other fields are untouched. |
| `BankersExample1.BankersAlgorithmExample1.SetAllocation` | src/main/java/com/clay/j_advanced_concepts_techniques/deadlock_resolution_examples/resource_allocation/BankersAlgorithmExample1.java:48-56 | On success exactly row `processId` of `allocation` is replaced by the argument. On an invalid id or a wrong length nothing changes. The other fields are untouched. |
| `BankersExample1.BankersAlgorithmExample1.IsNeedLessThanOrEqual` | src/main/java/com/clay/j_advanced_concepts_techniques/deadlock_resolution_examples/resource_allocation/BankersAlgorithmExample1.java:92-99 | True iff `need[i] <= work[i]` for every `i < numResources`. |
| `BankersExample1.BankersAlgorithmExample1.StepAt` | src/main/java/com/clay/j_advanced_concepts_techniques/deadlock_resolution_examples/resource_allocation/BankersAlgorithmExample1.java:73-81 | One iteration of the inner loop over the private `work`/`finish` arrays is the scan's `Step`, testing the allocation row; `found` records whether anything was finished. |
| `BankersExample1.BankersAlgorithmExample1.Pass` | src/main/java/com/clay/j_advanced_concepts_techniques/deadlock_resolution_examples/resource_allocation/BankersAlgorithmExample1.java:71-85 | One full inner loop is the scan's pass; `found` is true iff the count went up. |
| `BankersExample1.BankersAlgorithmExample1.IsSafe` | src/main/java/com/clay/j_advanced_concepts_techniques/deadlock_resolution_examples/resource_allocation/BankersAlgorithmExample1.java:58-90 | The result is `count == numProcesses` after the scan that tests allocation rows (not max - allocation). With non-negative allocations this holds iff some order lets every process complete. No field changes. |
| `BankersExample1.MainDataIsSafe` | src/main/java/com/clay/j_advanced_concepts_techniques/deadlock_resolution_examples/resource_allocation/BankersAlgorithmExample1.java:108-133 | On `main`'s data the allocation rows are non-negative, the five processes can complete in some order, and the scan finishes all five. |
| `BankersExample1.MainOrderRuns` | src/main/java/com/clay/j_advanced_concepts_techniques/deadlock_resolution_examples/resource_allocation/BankersAlgorithmExample1.java:108-133 | With `main`'s allocation and available vector and nothing finished, the processes run to completion in index order 0, 1, 2, 3, 4. |
| `BankersExample1.MainOrderTail` | src/main/java/com/clay/j_advanced_concepts_techniques/deadlock_resolution_examples/resource_allocation/BankersAlgorithmExample1.java:108-133 | On `main`'s data, once processes 0 and 1 have finished with work [5, 4, 2], processes 2, 3 and 4 run to completion in that order. |
| `BankersExample1.MainAllocationShape` | src/main/java/com/clay/j_advanced_concepts_techniques/deadlock_resolution_examples/resource_allocation/BankersAlgorithmExample1.java:108-133 | `main`'s allocation is a 5 x 3 matrix with no negative entry. |
| `BankersExample1.MainExample` | src/main/java/com/clay/j_advanced_concepts_techniques/deadlock_resolution_examples/resource_allocation/BankersAlgorithmExample1.java:101-138 | `main`'s check reports a safe state. |
| `Bankers.NeedOf` | src/main/java/com/clay/j_advanced_concepts_techniques/deadlock_resolution_examples/resource_allocation/BankersAlgorithm.java:93-101 | `need[i] = max[i] - allocation[i]` entry-wise, for every process. |
| `Bankers.NeedFitsIffMaxFits` | src/main/java/com/clay/j_advanced_concepts_techniques/deadlock_resolution_examples/resource_allocation/BankersAlgorithm.java:56 | `work >= need[i]` holds iff `max[i] <= work + allocation[i]`. |
| `Bankers.RequestIsSafeMeansSafeSequence` | src/main/java/com/clay/j_advanced_concepts_techniques/deadlock_resolution_examples/resource_allocation/BankersAlgorithm.java:29-81 | A request judged safe is one after which some order lets every process run to completion, with need and allocation updated by the request. |
| `Bankers.ColumnSumUpdate` | src/main/java/com/clay/j_advanced_concepts_techniques/deadlock_resolution_examples/resource_allocation/BankersAlgorithm.java:84-88 | Replacing one row of the allocation changes each column total by the difference of the rows. |
| `Bankers.GrantConservesTotals` | src/main/java/com/clay/j_advanced_concepts_techniques/deadlock_resolution_examples/resource_allocation/BankersAlgorithm.java:84-91 | Granting a request keeps `available[k]` plus the column total of `allocation` for every resource `k`. |
| `Bankers.BankersAlgorithm.constructor` | src/main/java/com/clay/j_advanced_concepts_techniques/deadlock_resolution_examples/resource_allocation/BankersAlgorithm.java:13-19 | `available` becomes `Arrays.copyOf(available, numResources)`, truncated or zero-padded; `max` and `allocation` start zero-filled. |
| `Bankers.BankersAlgorithm.SetMax` | src/main/java/com/clay/j_advanced_concepts_techniques/deadlock_resolution_examples/resource_allocation/BankersAlgorithm.java:21-23 | Row `processId` of `max` becomes the argument copied to `numResources` entries; nothing else changes. |
| `Bankers.BankersAlgorithm.SetAllocation` | src/main/java/com/clay/j_advanced_concepts_techniques/deadlock_resolution_examples/resource_allocation/BankersAlgorithm.java:25-27 | Row `processId` of `allocation` becomes the argument copied to `numResources` entries; nothing else changes. |
| `Bankers.BankersAlgorithm.CalculateNeed` | src/main/java/com/clay/j_advanced_concepts_techniques/deadlock_resolution_examples/resource_allocation/BankersAlgorithm.java:93-101 | Returns a fresh matrix with `need[i][j] == max[i][j] - allocation[i][j]` for all i, j. |
| `Bankers.BankersAlgorithm.IsNeedLessThanOrEqual` | src/main/java/com/clay/j_advanced_concepts_techniques/deadlock_resolution_examples/resource_allocation/BankersAlgorithm.java:103-110 | Despite its name, true iff `work[i] >= need[i]` for every i. |
| `Bankers.BankersAlgorithm.WithinNeed` | src/main/java/com/clay/j_advanced_concepts_techniques/deadlock_resolution_examples/resource_allocation/BankersAlgorithm.java:38-42 | The request passes the first check iff no entry exceeds the process's need. |
| `Bankers.BankersAlgorithm.Reserve` | src/main/java/com/clay/j_advanced_concepts_techniques/deadlock_resolution_examples/resource_allocation/BankersAlgorithm.java:44-49 | The temporary allocation subtracts the request from `work` and from the process's need and adds it to its allocation row. Nothing else changes. |
| `Bankers.BankersAlgorithm.Rollback` | src/main/java/com/clay/j_advanced_concepts_techniques/deadlock_resolution_examples/resource_allocation/BankersAlgorithm.java:72-79 | The rollback adds the request back to `work` and to the need row and subtracts it from the allocation row. |
| `Bankers.BankersAlgorithm.StepAt` | src/main/java/com/clay/j_advanced_concepts_techniques/deadlock_resolution_examples/resource_allocation/BankersAlgorithm.java:55-64 | One inner-loop iteration is the scan's step, testing need rows and releasing allocation rows; the flag records a finished process. |
| `Bankers.BankersAlgorithm.Pass` | src/main/java/com/clay/j_advanced_concepts_techniques/deadlock_resolution_examples/resource_allocation/BankersAlgorithm.java:55-65 | One full inner loop is the scan's pass; `isSafeState` is true iff the count went up. |
| `Bankers.BankersAlgorithm.RunScan` | src/main/java/com/clay/j_advanced_concepts_techniques/deadlock_resolution_examples/resource_allocation/BankersAlgorithm.java:52-70 | The outer loop runs the scan to its end, and `isSafeState` is false on every exit. |
| `Bankers.BankersAlgorithm.IsSafe` | src/main/java/com/clay/j_advanced_concepts_techniques/deadlock_resolution_examples/resource_allocation/BankersAlgorithm.java:29-82 | As written: never returns true, and `available`, `max` and `allocation` are the same on return as on entry. |
| `Bankers.BankersAlgorithm.IsSafeCorrected` | src/main/java/com/clay/j_advanced_concepts_techniques/deadlock_resolution_examples/resource_allocation/BankersAlgorithm.java:29-82 | Returns true iff the request is within need and leaves a state in which every process can complete. The fields are unchanged on return. |
| `Bankers.BankersAlgorithm.AllocateResources` | src/main/java/com/clay/j_advanced_concepts_techniques/deadlock_resolution_examples/resource_allocation/BankersAlgorithm.java:84-91 | Subtracts the request from `available` and adds it to `allocation[processId]`, keeping `available[k]` plus the column total of `allocation`. |
| `Bankers.RequestAsWritten` | src/main/java/com/clay/j_advanced_concepts_techniques/deadlock_resolution_examples/resource_allocation/Process.java:23-30 | As written the process asks the as-written `isSafe`, so its request is never granted and the banker's `available`, `max` and `allocation` stay as they were (see Findings). |
| `Bankers.RequestCorrected` | src/main/java/com/clay/j_advanced_concepts_techniques/deadlock_resolution_examples/resource_allocation/Process.java:23-30 | With the corrected check (see Findings) a process's request is granted iff it is safe. A granted request is allocated exactly once; a refused one changes nothing. |
| `Bankers.SafeRequestExists` | src/main/java/com/clay/j_advanced_concepts_techniques/deadlock_resolution_examples/resource_allocation/BankersAlgorithm.java:52-81 | A concrete request that is safe (one process, one resource, request 1 of need 1), which `IsSafe` still refuses. |
| `Sorting.SortSeqCorrect` | src/main/java/com/clay/g_parallel_processing_parallelism/parallel_sorting/ParallelSortingExample.java:52 | The stand-in for `Arrays.sort` yields a sorted permutation of its input of the same length. |
| `Sorting.SortedUnique` | src/main/java/com/clay/g_parallel_processing_parallelism/parallel_sorting/ParallelSortingExample.java:52 | Two sorted sequences with the same multiset are equal, so the sorted result does not depend on how it was computed. |
| `Sorting.ArraysSort` | src/main/java/com/clay/g_parallel_processing_parallelism/parallel_sorting/ParallelSortingExample.java:51-52 | `Arrays.sort(a, from, to)` replaces `a[from..to)` by its sorted arrangement and changes nothing else. |
| `MergeSort.MergeRunsMultiset` | src/main/java/com/clay/g_parallel_processing_parallelism/parallel_sorting/ParallelSortingExample.java:76-92 | The merge output is a permutation of the two runs together. |
| `MergeSort.MergeRunsSorted` | src/main/java/com/clay/g_parallel_processing_parallelism/parallel_sorting/ParallelSortingExample.java:70-93 | Merging two sorted runs gives a sorted run. |
| `MergeSort.MergeRunsLength` | src/main/java/com/clay/g_parallel_processing_parallelism/parallel_sorting/ComplexParallelSortingExample.java:77-105 | The merge fills exactly `end - start + 1` slots. |
| `MergeSort.MergeFromIsMerge` | src/main/java/com/clay/g_parallel_processing_parallelism/parallel_sorting/ParallelSortingExample.java:76-90 | The three index loops compute the merge of `a[start..mid]` and `a[mid+1..end]`. |
| `MergeSort.MergeIntoBuffer` | src/main/java/com/clay/g_parallel_processing_parallelism/parallel_sorting/ParallelSortingExample.java:71-90 | The fresh buffer of length `end - start + 1` holds the merge of the two runs. |
| `MergeSort.MergeWhileBoth` | src/main/java/com/clay/g_parallel_processing_parallelism/parallel_sorting/ParallelSortingExample.java:76-82 | The first loop stops with one run used up, having emitted the merge prefix of the elements taken so far. |
| `MergeSort.CopyRest` | src/main/java/com/clay/g_parallel_processing_parallelism/parallel_sorting/ParallelSortingExample.java:84-90 | The two tail loops complete the buffer to the full merge. |
| `MergeSort.CopyRange` | src/main/java/com/clay/g_parallel_processing_parallelism/parallel_sorting/ParallelSortingExample.java:84-86 | A tail loop appends the rest of one run to the buffer. |
| `MergeSort.Merge` | src/main/java/com/clay/g_parallel_processing_parallelism/parallel_sorting/ParallelSortingExample.java:70-93 | `merge` replaces `a[start..end]` by the merge of its two halves and changes nothing outside that range. |
| `MergeSort.CopyBack` | src/main/java/com/clay/g_parallel_processing_parallelism/parallel_sorting/ParallelSortingExample.java:92 | `System.arraycopy` of the buffer writes exactly the range starting at `start`. |
| `MergeSort.MergeSortedRuns` | src/main/java/com/clay/g_parallel_processing_parallelism/parallel_sorting/ParallelSortingExample.java:49-67 | Merging the sorted arrangements of two consecutive pieces gives the sorted arrangement of their concatenation. |
| `MergeSort.HalvesSorted` | src/main/java/com/clay/g_parallel_processing_parallelism/parallel_sorting/ParallelSortingExample.java:58-62 | After both subtasks each half holds its sorted arrangement; the subtasks touch disjoint ranges. |
| `MergeSort.HalvesMerged` | src/main/java/com/clay/g_parallel_processing_parallelism/parallel_sorting/ParallelSortingExample.java:55-65 | Sorting both halves and then merging leaves `a[start..end]` sorted and everything else unchanged. |
| `MergeSort.TiesIrrelevantOnSorted` | src/main/java/com/clay/g_parallel_processing_parallelism/parallel_sorting/ParallelSortingExample.java:77 | On sorted runs, the `<=` merge and the `<` merge give the same sequence. |
| `ParallelSort.Compute` | src/main/java/com/clay/g_parallel_processing_parallelism/parallel_sorting/ParallelSortingExample.java:49-67 | `compute` leaves `a[start..end]` as the sorted arrangement of its old contents and changes nothing outside the range. |
| `ParallelSort.SortAll` | src/main/java/com/clay/g_parallel_processing_parallelism/parallel_sorting/ParallelSortingExample.java:27-30 | The root task over `[0, length - 1]` sorts the whole array. |
| `ParallelSort.MainExample` | src/main/java/com/clay/g_parallel_processing_parallelism/parallel_sorting/ParallelSortingExample.java:20-34 | `main`'s array comes out as 1, 2, ..., 9. |
| `ParallelSort.MainInputMultiset` | src/main/java/com/clay/g_parallel_processing_parallelism/parallel_sorting/ParallelSortingExample.java:20-34 | `main`'s array holds the numbers 1 to 9 once each. |
| `ParallelSort.OneToNineSorted` | src/main/java/com/clay/g_parallel_processing_parallelism/parallel_sorting/ParallelSortingExample.java:20-34 | The expected output 1, 2, ..., 9 is sorted. |
| `ParallelSort.DisplaysEqual` | src/main/java/com/clay/g_parallel_processing_parallelism/parallel_sorting/ParallelSortingExample.java:20-34 | The multiset of `main`'s input equals the multiset {1, ..., 9}. |
| `ParallelSort.InputAsMultiset` | src/main/java/com/clay/g_parallel_processing_parallelism/parallel_sorting/ParallelSortingExample.java:20-34 | The multiset of `main`'s input sequence is the multiset display of its elements. |
| `ParallelSort.OutputAsMultiset` | src/main/java/com/clay/g_parallel_processing_parallelism/parallel_sorting/ParallelSortingExample.java:20-34 | The multiset of the sequence 1, ..., 9 is the multiset display of its elements. |
| `ComplexParallelSort.Compute` | src/main/java/com/clay/g_parallel_processing_parallelism/parallel_sorting/ComplexParallelSortingExample.java:60-74 | `compute` leaves `a[start..end]` as the sorted arrangement of its old contents and changes nothing outside the range. |
| `ComplexParallelSort.ParallelSortWhole` | src/main/java/com/clay/g_parallel_processing_parallelism/parallel_sorting/ComplexParallelSortingExample.java:36-51 | The public constructor covers `[0, length - 1]`, so `parallelSort` sorts the whole array. |
| `ComplexParallelSort.SameAsLeftOnTiesMerge` | src/main/java/com/clay/g_parallel_processing_parallelism/parallel_sorting/ComplexParallelSortingExample.java:76-106 | The strict-`<` merge of sorted halves is a sorted permutation, identical to the `<=` merge. |
| `PrefixSum.AddToEach` | src/main/java/com/clay/g_parallel_processing_parallelism/parallel_prefix_sum/ParallelPrefixSumExample.java:56-58 | Adding the left total wraps each right element by 32-bit addition. |
| `PrefixSum.RunningTotalsHead` | src/main/java/com/clay/g_parallel_processing_parallelism/parallel_prefix_sum/ParallelPrefixSumExample.java:44 | The first running total is the first element: `numbers[start]` is never changed. |
| `PrefixSum.JoinScans` | src/main/java/com/clay/g_parallel_processing_parallelism/parallel_prefix_sum/ParallelPrefixSumExample.java:49-58 | The scan of a concatenation is the left scan followed by the right scan with the left total added to each element. |
| `PrefixSum.NextTotal` | src/main/java/com/clay/g_parallel_processing_parallelism/parallel_prefix_sum/ParallelPrefixSumExample.java:45 | `numbers[i] += numbers[i-1]` turns the running total up to i-1 into the running total up to i, modulo 2^32. |
| `PrefixSum.ScanDirect` | src/main/java/com/clay/g_parallel_processing_parallelism/parallel_prefix_sum/ParallelPrefixSumExample.java:42-46 | The base-case loop replaces `a[start..end]` by its running totals and changes nothing else. |
| `PrefixSum.AddLeftTotal` | src/main/java/com/clay/g_parallel_processing_parallelism/parallel_prefix_sum/ParallelPrefixSumExample.java:56-58 | The fix-up loop adds `a[mid]` to each of `a[mid+1..end]` and changes nothing else. |
| `PrefixSum.Compute` | src/main/java/com/clay/g_parallel_processing_parallelism/parallel_prefix_sum/ParallelPrefixSumExample.java:41-60 | `compute` replaces `a[start..end]` by its running totals (32-bit) and changes nothing outside the range. |
| `PrefixSum.ScansJoined` | src/main/java/com/clay/g_parallel_processing_parallelism/parallel_prefix_sum/ParallelPrefixSumExample.java:49-58 | The two subtask scans over disjoint halves plus the fix-up loop give the scan of the whole range. |
| `PrefixSum.ScanAll` | src/main/java/com/clay/g_parallel_processing_parallelism/parallel_prefix_sum/ParallelPrefixSumExample.java:23 | The root task over `[0, length - 1]` replaces the array by its running totals. |
| `PrefixSum.MainTotals` | src/main/java/com/clay/g_parallel_processing_parallelism/parallel_prefix_sum/ParallelPrefixSumExample.java:20 | The running totals of 2, 4, ..., 16 are 2, 6, 12, 20, 30, 42, 56, 72. |
| `PrefixSum.MainExample` | src/main/java/com/clay/g_parallel_processing_parallelism/parallel_prefix_sum/ParallelPrefixSumExample.java:15-26 | `main` prints 2, 6, 12, 20, 30, 42, 56, 72. |
| `Reduction.SumDirect` | src/main/java/com/clay/g_parallel_processing_parallelism/parallel_reduction/ParallelReductionExample.java:36-42 | The base-case loop returns the 32-bit sum of `a[start..end)`; an empty range gives 0. |
| `Reduction.Compute` | src/main/java/com/clay/g_parallel_processing_parallelism/parallel_reduction/ParallelReductionExample.java:35-57 | `compute`, split at `(start + end) / 2`, returns the 32-bit sum of `a[start..end)` and writes nothing. |
| `Reduction.MainSum` | src/main/java/com/clay/g_parallel_processing_parallelism/parallel_reduction/ParallelReductionExample.java:14 | `main`'s numbers add up to 55. |
| `Reduction.MainExample` | src/main/java/com/clay/g_parallel_processing_parallelism/parallel_reduction/ParallelReductionExample.java:9-20 | `main` prints 55. |
| `SumOfSquares.SumSqConcat` | src/main/java/com/clay/g_parallel_processing_parallelism/task_parallelism_work_stealing/TaskParallelismExample.java:42-52 | The sum of squares of a concatenation is the sum of the parts' sums. |
| `SumOfSquares.SumSqNonNegative` | src/main/java/com/clay/g_parallel_processing_parallelism/task_parallelism_work_stealing/TaskParallelismExample.java:32-54 | The exact sum of squares is never negative. |
| `SumOfSquares.SumSqSplit` | src/main/java/com/clay/g_parallel_processing_parallelism/task_parallelism_work_stealing/TaskParallelismExample.java:42-44 | The split `[start, mid)` / `[mid, end)` covers the range, so the halves' sums add up to the whole. |
| `SumOfSquares.AddSquare` | src/main/java/com/clay/g_parallel_processing_parallelism/task_parallelism_work_stealing/TaskParallelismExample.java:37 | `sum += numbers[i] * numbers[i]` in `int` is the exact update wrapped to 32 bits. |
| `SumOfSquares.SquaresDirect` | src/main/java/com/clay/g_parallel_processing_parallelism/task_parallelism_work_stealing/TaskParallelismExample.java:33-39 | As written: the base-case loop returns the true sum of squares of `a[start..end)` wrapped to 32 bits. |
| `SumOfSquares.Compute` | src/main/java/com/clay/g_parallel_processing_parallelism/task_parallelism_work_stealing/TaskParallelismExample.java:32-54 | As written: `compute` returns the true sum of squares of `a[start..end)` wrapped to 32 bits. |
| `SumOfSquares.SquaresDirectExact` | src/main/java/com/clay/g_parallel_processing_parallelism/task_parallelism_work_stealing/TaskParallelismExample.java:33-39 | Corrected: the base-case loop with an unbounded accumulator returns the exact sum of squares. |
| `SumOfSquares.ComputeExact` | src/main/java/com/clay/g_parallel_processing_parallelism/task_parallelism_work_stealing/TaskParallelismExample.java:32-54 | Corrected: `compute` with unbounded arithmetic returns the exact, non-negative sum of squares. |
| `SumOfSquares.MainSquares` | src/main/java/com/clay/g_parallel_processing_parallelism/task_parallelism_work_stealing/TaskParallelismExample.java:13 | For `main`'s numbers the exact sum of squares is 1000300060290, and its 32-bit wrap is -427319678. |
| `SumOfSquares.SmallSquares` | src/main/java/com/clay/g_parallel_processing_parallelism/task_parallelism_work_stealing/TaskParallelismExample.java:13 | The squares of 1..9 add up to 285. |
| `SumOfSquares.MainAsWritten` | src/main/java/com/clay/g_parallel_processing_parallelism/task_parallelism_work_stealing/TaskParallelismExample.java:8-17 | As written, `main` prints -427319678. |
| `SumOfSquares.MainExact` | src/main/java/com/clay/g_parallel_processing_parallelism/task_parallelism_work_stealing/TaskParallelismExample.java:8-17 | With exact arithmetic `main` would print 1000300060290. |
| `Convolution.Tap` | src/main/java/com/clay/g_parallel_processing_parallelism/parallel_matrix_op/ParallelMatrixOperationsExample.java:90-96 | A filter tap whose image position falls outside the image contributes 0. |
| `Convolution.ConvolutionFromExact` | src/main/java/com/clay/g_parallel_processing_parallelism/parallel_matrix_op/ParallelMatrixOperationsExample.java:84-100 | The wrapping accumulation loop equals the exact window sum wrapped to 32 bits. |
| `Convolution.ApplyConvolution` | src/main/java/com/clay/g_parallel_processing_parallelism/parallel_matrix_op/ParallelMatrixOperationsExample.java:83-101 | `applyConvolution` is the 32-bit wrap of the sum of `image * filter` over the in-bounds positions of the window centred with `filter.length / 2`. |
| `Convolution.ConvolveRows` | src/main/java/com/clay/g_parallel_processing_parallelism/parallel_matrix_op/ParallelMatrixOperationsExample.java:66-72 | Every cell of rows `[startRow, endRow]` within the image row gets `applyConvolution`; all other cells keep their old values. |
| `Convolution.Compute` | src/main/java/com/clay/g_parallel_processing_parallelism/parallel_matrix_op/ParallelMatrixOperationsExample.java:65-81 | `compute` sets each cell of rows `[startRow, endRow]` to `applyConvolution` and leaves other cells alone; the split halves are disjoint and cover the rows. |
| `Convolution.SingleWeight` | src/main/java/com/clay/g_parallel_processing_parallelism/parallel_matrix_op/ParallelMatrixOperationsExample.java:83-101 | A 1x1 filter with weight w maps each pixel to its 32-bit product with w. |
| `Convolution.SingleWeightOutside` | src/main/java/com/clay/g_parallel_processing_parallelism/parallel_matrix_op/ParallelMatrixOperationsExample.java:94 | A position outside the image gets 0 from a 1x1 filter. |
| `Convolution.MainFilterCovers` | src/main/java/com/clay/g_parallel_processing_parallelism/parallel_matrix_op/ParallelMatrixOperationsExample.java:30-34 | `main`'s filter is square. |
| `Convolution.MainCenter` | src/main/java/com/clay/g_parallel_processing_parallelism/parallel_matrix_op/ParallelMatrixOperationsExample.java:20-34 | On `main`'s data the centre pixel convolves to 1200. |
| `Convolution.MainCorner` | src/main/java/com/clay/g_parallel_processing_parallelism/parallel_matrix_op/ParallelMatrixOperationsExample.java:20-34 | On `main`'s data the corner pixel convolves to 300. |
| `Convolution.MainExample` | src/main/java/com/clay/g_parallel_processing_parallelism/parallel_matrix_op/ParallelMatrixOperationsExample.java:16-46 | `main`'s 5x5 result has 1200 at the centre and 300 at the corner. |
| `ImageResize.SourceIndex` | src/main/java/com/clay/g_parallel_processing_parallelism/parallel_image_processing/ParallelImageProcessingExample.java:67-68 | For `0 <= x < outW`, the source index `x * inW / outW` lies in `[0, inW)`. |
| `ImageResize.ScaledBelow` | src/main/java/com/clay/g_parallel_processing_parallelism/parallel_image_processing/ParallelImageProcessingExample.java:67-68 | The scaled index is non-negative and below the input size. |
| `ImageResize.SameSizeIsIdentity` | src/main/java/com/clay/g_parallel_processing_parallelism/parallel_image_processing/ParallelImageProcessingExample.java:67-68 | With equal input and output sizes the source index is `x` itself. |
| `ImageResize.QuadrantsPartition` | src/main/java/com/clay/g_parallel_processing_parallelism/parallel_image_processing/ParallelImageProcessingExample.java:75-83 | The four sub-rectangles cover the rectangle and are pairwise disjoint. |
| `ImageResize.SplitShrinks` | src/main/java/com/clay/g_parallel_processing_parallelism/parallel_image_processing/ParallelImageProcessingExample.java:63-83 | Above the threshold, with non-negative spans at the root, both spans are at least 1 and every quadrant is strictly smaller. |
| `ImageResize.ResizeDirect` | src/main/java/com/clay/g_parallel_processing_parallelism/parallel_image_processing/ParallelImageProcessingExample.java:65-72 | Each output pixel in the rectangle gets the input pixel at the scaled indices; every other output pixel keeps its value. |
| `ImageResize.Compute` | src/main/java/com/clay/g_parallel_processing_parallelism/parallel_image_processing/ParallelImageProcessingExample.java:62-85 | `compute` resizes exactly the rectangle `[startX, endX] x [startY, endY]` and leaves every other output pixel unchanged. |
| `ImageResize.ResizeImage` | src/main/java/com/clay/g_parallel_processing_parallelism/parallel_image_processing/ParallelImageProcessingExample.java:35 | The root task over the whole output fills every output pixel from its scaled source pixel. |
| `ImageResize.MainExample` | src/main/java/com/clay/g_parallel_processing_parallelism/parallel_image_processing/ParallelImageProcessingExample.java:20-41 | `main` produces an 800 x 600 image whose every pixel is the scaled source pixel. |
| `ParallelSearch.IndexOf` | src/main/java/com/clay/g_parallel_processing_parallelism/parallel_searching/ParallelSearchExample.java:72-79 | The first index of the target or -1: -1 iff the target is absent; otherwise it holds the target and no earlier position does. |
| `ParallelSearch.IndexOfConcat` | src/main/java/com/clay/g_parallel_processing_parallelism/parallel_searching/ParallelSearchExample.java:35-41 | The first index in a concatenation is the first index in the left part if there is one, else the left length plus the first index in the right part. |
| `ParallelSearch.Call` | src/main/java/com/clay/g_parallel_processing_parallelism/parallel_searching/ParallelSearchExample.java:71-79 | `call` returns `startIndex` plus the first index of the target in its sublist, or -1. |
| `ParallelSearch.ChunksPartition` | src/main/java/com/clay/g_parallel_processing_parallelism/parallel_searching/ParallelSearchExample.java:25-29 | Chunk i starts where chunk i-1 ends, and the last chunk ends at the list size. |
| `ParallelSearch.Covered` | src/main/java/com/clay/g_parallel_processing_parallelism/parallel_searching/ParallelSearchExample.java:25-29 | The chunks before chunk k cover a prefix of the list, and all chunks cover the whole list. |
| `ParallelSearch.SubmitAll` | src/main/java/com/clay/g_parallel_processing_parallelism/parallel_searching/ParallelSearchExample.java:25-32 | Chunk k's future holds the search result of chunk k. |
| `ParallelSearch.ChunkStep` | src/main/java/com/clay/g_parallel_processing_parallelism/parallel_searching/ParallelSearchExample.java:35-41 | If the target is not in the earlier chunks, chunk k's hit is its first index in the whole list, and a miss extends the target-free prefix. |
| `ParallelSearch.SegmentStep` | src/main/java/com/clay/g_parallel_processing_parallelism/parallel_searching/ParallelSearchExample.java:35-41 | Searching a segment after a target-free prefix finds the first index in the whole list up to the segment end. |
| `ParallelSearch.CollectFirst` | src/main/java/com/clay/g_parallel_processing_parallelism/parallel_searching/ParallelSearchExample.java:35-47 | Taking futures in chunk order and stopping at the first hit yields the first index of the target in the whole list, or -1 when every chunk missed. |
| `ParallelSearch.Search` | src/main/java/com/clay/g_parallel_processing_parallelism/parallel_searching/ParallelSearchExample.java:15-49 | The chunked search finds exactly the first index of the target, or -1. |
| `GraphBfs.Graph.constructor` | src/main/java/com/clay/g_parallel_processing_parallelism/parallel_graph_algo/ParallelGraphAlgorithmExample.java:79-81 | A new graph has an empty adjacency map. |
| `GraphBfs.Graph.GetNeighbors` | src/main/java/com/clay/g_parallel_processing_parallelism/parallel_graph_algo/ParallelGraphAlgorithmExample.java:88-90 | Returns the stored list, or an empty list for a vertex with no edges. |
| `GraphBfs.Graph.AddEdge` | src/main/java/com/clay/g_parallel_processing_parallelism/parallel_graph_algo/ParallelGraphAlgorithmExample.java:83-86 | Appends `d` to `s`'s list and `s` to `d`'s list, creating either list if absent. Other vertices keep their lists, and the graph stays symmetric. |
| `GraphBfs.AddEdgeSymmetric` | src/main/java/com/clay/g_parallel_processing_parallelism/parallel_graph_algo/ParallelGraphAlgorithmExample.java:83-86 | Adding an edge in both directions keeps the adjacency relation symmetric. |
| `GraphBfs.ReachableStart` | src/main/java/com/clay/g_parallel_processing_parallelism/parallel_graph_algo/ParallelGraphAlgorithmExample.java:104-105 | The start vertex is reachable from itself. |
| `GraphBfs.ReachableStep` | src/main/java/com/clay/g_parallel_processing_parallelism/parallel_graph_algo/ParallelGraphAlgorithmExample.java:110-121 | A neighbour of a reachable vertex is reachable. |
| `GraphBfs.ClosedStep` | src/main/java/com/clay/g_parallel_processing_parallelism/parallel_graph_algo/ParallelGraphAlgorithmExample.java:114-118 | A neighbour of a vertex in a closed list is in the list. |
| `GraphBfs.ClosedHoldsReachable` | src/main/java/com/clay/g_parallel_processing_parallelism/parallel_graph_algo/ParallelGraphAlgorithmExample.java:110-121 | A closed list containing the start contains every vertex reachable from it. |
| `GraphBfs.DistinctBound` | src/main/java/com/clay/g_parallel_processing_parallelism/parallel_graph_algo/ParallelGraphAlgorithmExample.java:115-118 | A duplicate-free list of vertices is no longer than the vertex set, so the loop terminates. |
| `GraphBfs.Call` | src/main/java/com/clay/g_parallel_processing_parallelism/parallel_graph_algo/ParallelGraphAlgorithmExample.java:102-123 | BFS returns a duplicate-free list that starts with `startVertex`, is closed under neighbours, and holds exactly the vertices reachable from the start. |
| `JavaInt.DoubleIsEven` | src/main/java/com/clay/g_parallel_processing_parallelism/pipelining/PipeliningExample.java:59 | `2 * x` in `int` arithmetic is even even when it wraps around. |
| `Pipeline.Doubled` | src/main/java/com/clay/g_parallel_processing_parallelism/pipelining/PipeliningExample.java:48-53 | Stage 1 keeps the length and order of the list. |
| `Pipeline.EvenOnly` | src/main/java/com/clay/g_parallel_processing_parallelism/pipelining/PipeliningExample.java:56-61 | Stage 2 keeps only even elements of its input, in order. |
| `Pipeline.Squared` | src/main/java/com/clay/g_parallel_processing_parallelism/pipelining/PipeliningExample.java:64-69 | Stage 3 keeps the length and order of the list. |
| `Pipeline.Total` | src/main/java/com/clay/g_parallel_processing_parallelism/pipelining/PipeliningExample.java:72-76 | Stage 4 is the 32-bit wrap of the sum. |
| `Pipeline.EvenOnlyKeepsEvens` | src/main/java/com/clay/g_parallel_processing_parallelism/pipelining/PipeliningExample.java:56-61 | Filtering a list whose elements are all even returns it unchanged. |
| `Pipeline.FilterKeepsAllDoubled` | src/main/java/com/clay/g_parallel_processing_parallelism/pipelining/PipeliningExample.java:48-61 | Stage 2 keeps every element of stage 1's output. |
| `Pipeline.SquaresOfDoubled` | src/main/java/com/clay/g_parallel_processing_parallelism/pipelining/PipeliningExample.java:48-76 | The sum of the squares of the doubled inputs is 4 times their sum of squares, modulo 2^32. |
| `Pipeline.DoubledSquaredSnoc` | src/main/java/com/clay/g_parallel_processing_parallelism/pipelining/PipeliningExample.java:48-76 | Doubling and then squaring a list with one more element appends that element's wrapped `(2x)*(2x)`. |
| `Pipeline.SquareOfDouble` | src/main/java/com/clay/g_parallel_processing_parallelism/pipelining/PipeliningExample.java:67 | `(2x)*(2x)` in `int` is `4 * x * x` wrapped to 32 bits. |
| `Pipeline.ProcessPipeline` | src/main/java/com/clay/g_parallel_processing_parallelism/pipelining/PipeliningExample.java:46-80 | `processPipeline` returns the one-element list holding the sum of `(2x)^2` over the input, wrapped to 32 bits. |
| `Pipeline.PipelineExact` | src/main/java/com/clay/g_parallel_processing_parallelism/pipelining/PipeliningExample.java:46-80 | When the sum fits in an `int`, the pipeline returns the exact `4 * Σ x²`. |
| `Pipeline.MainResult` | src/main/java/com/clay/g_parallel_processing_parallelism/pipelining/PipeliningExample.java:32-44 | For `main`'s input 1..10 the result is [1540]. |
| `CartCounts.Added` | src/main/java/com/clay/h_thread_safety_mechanisms/examples/thread_safe_annotation/ShoppingCart.java:16-25 | The key set gains the item; its count goes up by one (from 0 when absent); every other count is unchanged. |
| `CartCounts.Removed` | src/main/java/com/clay/h_thread_safety_mechanisms/examples/thread_safe_annotation/ShoppingCart.java:27-38 | An absent item leaves the map as is. A count above 1 goes down by one. A count of 1 removes the key. Every other count is unchanged. |
| `CartCounts.AddedKeepsPositive` | src/main/java/com/clay/h_thread_safety_mechanisms/examples/thread_safe_annotation/ShoppingCart.java:16-25 | Adding keeps every stored count at least 1. |
| `CartCounts.RemovedKeepsPositive` | src/main/java/com/clay/h_thread_safety_mechanisms/examples/thread_safe_annotation/ShoppingCart.java:27-38 | Removing keeps every stored count at least 1. |
| `CartCounts.CountZeroIffAbsent` | src/main/java/com/clay/h_thread_safety_mechanisms/examples/thread_safe_annotation/ShoppingCart.java:41-45 | Under the invariant a count is 0 iff the item is absent. |
| `CartCounts.AddThenRemove` | src/main/java/com/clay/h_thread_safety_mechanisms/examples/thread_safe_annotation/ShoppingCart.java:16-38 | `addItem(k)` followed by `removeItem(k)` restores the map exactly. |
| `CartCounts.RemoveThenAdd` | src/main/java/com/clay/h_thread_safety_mechanisms/examples/thread_safe_annotation/ShoppingCart.java:16-38 | For a present item, `removeItem(k)` followed by `addItem(k)` restores the map exactly. |
| `CartCounts.ShoppingCart.constructor` | src/main/java/com/clay/h_thread_safety_mechanisms/examples/thread_safe_annotation/ShoppingCart.java:12-14 | A new cart is empty. |
| `CartCounts.ShoppingCart.AddItem` | src/main/java/com/clay/h_thread_safety_mechanisms/examples/thread_safe_annotation/ShoppingCart.java:16-25 | `addItem` is `Added` on the map and keeps every count at least 1. |
| `CartCounts.ShoppingCart.RemoveItem` | src/main/java/com/clay/h_thread_safety_mechanisms/examples/thread_safe_annotation/ShoppingCart.java:27-38 | `removeItem` is `Removed` on the map and keeps every count at least 1. |
| `CartCounts.ShoppingCart.GetItemCount` | src/main/java/com/clay/h_thread_safety_mechanisms/examples/thread_safe_annotation/ShoppingCart.java:41-45 | Returns the stored count or 0; the result is 0 iff the item is absent. |
| `CartCounts.MainInSubmissionOrder` | src/main/java/com/clay/h_thread_safety_mechanisms/examples/thread_safe_annotation/ShoppingCart.java:47-80 | Run in submission order, `main` ends with 0 apples, 0 bananas, 1 orange and 1 bunch of grapes. |
| `CartCounts.RemoveBeforeAddLeavesApple` | src/main/java/com/clay/h_thread_safety_mechanisms/examples/thread_safe_annotation/ShoppingCart.java:54-56 | If the removal of apples runs before their addition, one apple remains. |
| `CartQuantities.AfterAdd` | src/main/java/com/clay/h_thread_safety_mechanisms/examples/thread_safe_collection/ShoppingCart.java:28-30 | The key set gains the product; its quantity goes up by q (from 0 when absent); other quantities are unchanged. |
| `CartQuantities.AfterRemove` | src/main/java/com/clay/h_thread_safety_mechanisms/examples/thread_safe_collection/ShoppingCart.java:32-34 | The key set is unchanged. A present quantity goes down by exactly 1, even to 0 or below. An absent product is a no-op. |
| `CartQuantities.AddsCommute` | src/main/java/com/clay/h_thread_safety_mechanisms/examples/thread_safe_collection/ShoppingCart.java:48-58 | Two additions commute, so interleaving the shoppers' additions does not matter. |
| `CartQuantities.RemoveAddCommuteWhenPresent` | src/main/java/com/clay/h_thread_safety_mechanisms/examples/thread_safe_collection/ShoppingCart.java:48-58 | A removal of a present product commutes with an addition. |
| `CartQuantities.TotalNeverDecreases` | src/main/java/com/clay/h_thread_safety_mechanisms/examples/thread_safe_collection/ShoppingCart.java:28-38 | No operation removes a key, so `getTotalItems` never decreases. |
| `CartQuantities.ShoppingCart.constructor` | src/main/java/com/clay/h_thread_safety_mechanisms/examples/thread_safe_collection/ShoppingCart.java:24-26 | A new cart is empty. |
| `CartQuantities.ShoppingCart.AddItem` | src/main/java/com/clay/h_thread_safety_mechanisms/examples/thread_safe_collection/ShoppingCart.java:28-30 | `addItem(p, q)` is `AfterAdd` on the map. |
| `CartQuantities.ShoppingCart.RemoveItem` | src/main/java/com/clay/h_thread_safety_mechanisms/examples/thread_safe_collection/ShoppingCart.java:32-34 | `removeItem(p)` is `AfterRemove` on the map. |
| `CartQuantities.ShoppingCart.GetTotalItems` | src/main/java/com/clay/h_thread_safety_mechanisms/examples/thread_safe_collection/ShoppingCart.java:36-38 | Returns the number of distinct products, not the sum of quantities. |
| `CartQuantities.ShoppingCart.GetItemQuantity` | src/main/java/com/clay/h_thread_safety_mechanisms/examples/thread_safe_collection/ShoppingCart.java:40-42 | Returns the stored quantity, or 0 when absent. |
| `CartQuantities.ShopperOneFirstState` | src/main/java/com/clay/h_thread_safety_mechanisms/examples/thread_safe_collection/ShoppingCart.java:48-58 | With shopper 1 first, the banana quantity ends at 1 and the other products at 5, 4 and 5. |
| `CartQuantities.ShopperTwoFirstState` | src/main/java/com/clay/h_thread_safety_mechanisms/examples/thread_safe_collection/ShoppingCart.java:48-58 | With shopper 2 first, the banana removal is a no-op and bananas end at 2. |
| `CartQuantities.MainShopperOneFirst` | src/main/java/com/clay/h_thread_safety_mechanisms/examples/thread_safe_collection/ShoppingCart.java:44-78 | `main` with shopper 1 first prints 4 products: 5 apples, 1 banana, 4 oranges, 5 grapes. |
| `CartQuantities.FourCard` | src/main/java/com/clay/h_thread_safety_mechanisms/examples/thread_safe_collection/ShoppingCart.java:44-78 | Four pairwise different product names make a set of size 4, the `size()` `main` prints. |
| `CartQuantities.MainShopperTwoFirst` | src/main/java/com/clay/h_thread_safety_mechanisms/examples/thread_safe_collection/ShoppingCart.java:44-78 | `main` with shopper 2 first prints 4 products: 5 apples, 2 bananas, 4 oranges, 5 grapes. |
| `RestaurantTables.AfterEnter` | src/main/java/com/clay/c_thread_safety_synchronization/syn_methods/reentrant_lock/Restaurant.java:17-22 | Entering takes a table only when one is free; otherwise the count is unchanged. |
| `RestaurantTables.AfterLeave` | src/main/java/com/clay/c_thread_safety_synchronization/syn_methods/reentrant_lock/Restaurant.java:42 | Leaving adds a table unconditionally. |
| `RestaurantTables.EnterKeepsNonNegative` | src/main/java/com/clay/c_thread_safety_synchronization/syn_methods/reentrant_lock/Restaurant.java:17-19 | Entering never makes a non-negative count negative. |
| `RestaurantTables.EnterThenLeave` | src/main/java/com/clay/c_thread_safety_synchronization/syn_methods/reentrant_lock/Restaurant.java:14-46 | Entering and then leaving restores a positive count, and adds a table when none was free. |
| `RestaurantTables.LeavingOverflowsTables` | src/main/java/com/clay/c_thread_safety_synchronization/syn_methods/reentrant_lock/Restaurant.java:39-46 | n departures raise the count by n, so it can exceed `numTables`. |
| `RestaurantTables.Restaurant.constructor` | src/main/java/com/clay/c_thread_safety_synchronization/syn_methods/reentrant_lock/Restaurant.java:9-12 | `availableTables` starts at `numTables`. |
| `RestaurantTables.Restaurant.EnterRestaurant` | src/main/java/com/clay/c_thread_safety_synchronization/syn_methods/reentrant_lock/Restaurant.java:14-26 | A table is taken iff one was free, and the count becomes `AfterEnter` of the old count. |
| `RestaurantTables.Restaurant.LeaveRestaurant` | src/main/java/com/clay/c_thread_safety_synchronization/syn_methods/reentrant_lock/Restaurant.java:39-47 | The count goes up by one. |
| `RestaurantTables.Visit` | src/main/java/com/clay/c_thread_safety_synchronization/syn_methods/reentrant_lock/Restaurant.java:14-47 | Enter, order, leave: with a free table the count comes back to where it was, since `orderFood` changes nothing; with none it goes up by one. |
| `TicketBooking.AfterBooking` | src/main/java/com/clay/b_thread_basics/syn_coordination/example2/TicketBookingSystem.java:15-34 | The count drops by the request iff the request fits; otherwise it is unchanged. |
| `TicketBooking.BookingKeepsNonNegative` | src/main/java/com/clay/b_thread_basics/syn_coordination/example2/TicketBookingSystem.java:18-27 | A non-negative count stays non-negative for any request. |
| `TicketBooking.GrantedWithinTotal` | src/main/java/com/clay/b_thread_basics/syn_coordination/example2/TicketBookingSystem.java:15-34 | For non-negative requests, the granted total never exceeds the initial count, and what remains is the initial count minus what was granted. |
| `TicketBooking.TicketBookingSystem.constructor` | src/main/java/com/clay/b_thread_basics/syn_coordination/example2/TicketBookingSystem.java:10-13 | `availableTickets` starts at `totalTickets`. |
| `TicketBooking.TicketBookingSystem.BookTickets` | src/main/java/com/clay/b_thread_basics/syn_coordination/example2/TicketBookingSystem.java:15-34 | Books iff `availableTickets >= requestedTickets`, subtracting the request then and leaving the count otherwise. |
| `TicketBooking.RemainingSnoc` | src/main/java/com/clay/b_thread_basics/syn_coordination/example2/Example2.java:12-15 | Serving one more request after a sequence of others takes it from the count those others leave. |
| `TicketBooking.BookAll` | src/main/java/com/clay/b_thread_basics/syn_coordination/example2/Example2.java:12-15 | Requests served one at a time: request k is booked exactly when it fits the count the earlier requests left, and the final count is the fold of `AfterBooking`. |
| `TicketBooking.MainAnyOrder` | src/main/java/com/clay/b_thread_basics/syn_coordination/example2/Example2.java:5-15 | Whatever order the three threads reach the lock in, the request for 41 is refused and 5 of the 10 tickets remain. |
| `TicketBooking.MainInStartOrder` | src/main/java/com/clay/b_thread_basics/syn_coordination/example2/Example2.java:4-16 | In start order the bookings succeed, fail and succeed, and 5 tickets remain. |
| `Accounts.Account.constructor` | src/main/java/com/clay/j_advanced_concepts_techniques/deadlock_resolution_examples/resource_ordering/Account.java:11-15 | The id and the balance are stored; `id` is a constant afterwards. |
| `Accounts.Account.Withdraw` | src/main/java/com/clay/j_advanced_concepts_techniques/deadlock_resolution_examples/resource_ordering/Account.java:25-32 | The balance drops by the amount, with no overdraft check. |
| `Accounts.Account.Deposit` | src/main/java/com/clay/j_advanced_concepts_techniques/deadlock_resolution_examples/resource_ordering/Account.java:34-41 | The balance rises by the amount. |
| `Accounts.Transfer` | src/main/java/com/clay/j_advanced_concepts_techniques/deadlock_resolution_examples/resource_ordering/Account.java:43-52 | Between distinct accounts the amount moves from one to the other whatever the id order, and the total is kept. From an account to itself nothing changes. |
| `Accounts.RunTransfers` | src/main/java/com/clay/j_advanced_concepts_techniques/deadlock_resolution_examples/resource_ordering/Account.java:58-69 | Any interleaving of the two threads' transfers changes the balances by -10 per forward and +5 per backward transfer, and the reverse. |
| `Accounts.Occurrences` | src/main/java/com/clay/j_advanced_concepts_techniques/deadlock_resolution_examples/resource_ordering/Account.java:58-69 | The number of transfers in one direction within an interleaving is at most the interleaving's length. |
| `Accounts.MainAnyInterleaving` | src/main/java/com/clay/j_advanced_concepts_techniques/deadlock_resolution_examples/resource_ordering/Account.java:54-86 | After 100 transfers of 10 one way and 100 of 5 back, in any interleaving, the balances are 500 and 2500. |
| `Transactions.Transaction.constructor` | src/main/java/com/clay/h_thread_safety_mechanisms/examples/software_transactional_memory/Transaction.java:6 | A new transaction has status 0 and its task has not run. |
| `Transactions.Transaction.Run` | src/main/java/com/clay/h_thread_safety_mechanisms/examples/software_transactional_memory/Transaction.java:8-15 | On status 0, `run` runs the guarded action once and leaves status 1. On any other status it does not run the guarded action and sets -1. The status stays in {-1, 0, 1}. |
| `Transactions.RunRepeatedly` | src/main/java/com/clay/h_thread_safety_mechanisms/examples/software_transactional_memory/Transaction.java:8-15 | Over any number of `run` calls the guarded action runs at most once. The status never returns to 0, and one call from status 0 runs the guarded action exactly once. |

Functions used above without a row of their own, defined by their bodies and given meaning by the rows' lemmas: `ParallelSearch.ChunkStart`, `ParallelSearch.ChunkEnd`, `TicketBooking.Remaining`, `TicketBooking.Granted`, `RestaurantTables.LeaveTimes`.

## Left out

- Concurrency itself: linearizability and lock-freedom of the queue, thread pools, `ForkJoinPool`, futures, locks, `Thread.sleep`. Fork/join tasks are sequential recursion over disjoint ranges. Interleavings of the drivers' threads appear only as orders of whole method calls (`TicketBooking.MainAnyOrder`, `Accounts.MainAnyInterleaving`, `CartQuantities.MainShopperOneFirst`, `CartQuantities.MainShopperTwoFirst`).
- All console output (`System.out.println`) and the random inputs (`generateRandomArray`, `generateRandomList`, `Process.generateRequest`).
- Image loading and saving in ParallelImageProcessingExample.java. A `BufferedImage` is an `array2<int>` of pixels, indexed `[x, y]`, and the input image is a parameter.
- The `parallelBFS` driver in ParallelGraphAlgorithmExample.java (lines 34-74), which merges the results of nested BFS tasks. Only `Graph` and `BFSTask.call` are modelled.
- BankersAlgorithmExample.java and the thread side of Process.java. `Bankers.RequestAsWritten` and `Bankers.RequestCorrected` model only what one process does with its request under the banker's lock.
- BookingThread, which Example2.java starts, is not part of this model. Each thread is taken to call `bookTickets` once with its count.
- The body of the guarded `Runnable` in Transaction.java is code the model cannot see. A counter `runs` records how often it was started.
- ConcurrentQueueExample.java (the stress driver) and STMExample.java.
- `LockFreeQueue.ConcurrentQueue.Enqueue`: the compare-and-set calls run in one thread, so the failing branches of the linking compare-and-set never happen. Retries caused by other threads are not modelled.
- `Bankers.BankersAlgorithm.SetMax`, `Bankers.BankersAlgorithm.SetAllocation`, `Bankers.BankersAlgorithm.IsSafe`, `Bankers.BankersAlgorithm.IsSafeCorrected`, `Bankers.BankersAlgorithm.AllocateResources`: require `0 <= processId < numProcesses` and at least `numResources` request entries. Java throws `ArrayIndexOutOfBoundsException` otherwise; those exceptions are not modelled.
- `BankersExample1.BankersAlgorithmExample1.IsNeedLessThanOrEqual`: requires rows of at least `numResources` entries. Inside the class every row has exactly that length.
- `Bankers.BankersAlgorithm.AllocateResources`: resource counts, needs and balances in both Banker's classes are unbounded integers. Java `int` wrap-around is not modelled there, because the counts stay small.
- `CartCounts.ShoppingCart.AddItem`: counts are unbounded; the `int` overflow after 2^31 - 1 additions is not modelled.
- `CartQuantities.ShoppingCart.AddItem`: quantities are unbounded; `value + quantity` overflow is not modelled.
- `CartQuantities.ShoppingCart.RemoveItem`: `value - 1` underflow at `Integer.MIN_VALUE` is not modelled.
- `RestaurantTables.Restaurant.LeaveRestaurant`: the table count is unbounded; the `availableTables++` overflow is not modelled.
- `TicketBooking.TicketBookingSystem.BookTickets`: the ticket count is unbounded; `availableTickets -= requestedTickets` overflow for negative requests is not modelled.
- `Accounts.Account.Withdraw`, `Accounts.Account.Deposit`: balances are unbounded; `int` overflow is not modelled.
- `ParallelSearch.Call`: `startIndex + i` is unbounded; list indices fit in an `int` anyway.
- `ComplexParallelSort.Compute`: the split point `(start + end) / 2` is computed without overflow. This matters only for arrays of more than 2^30 elements. The same holds for the splits in `PrefixSum.Compute`, `Reduction.Compute`, `SumOfSquares.Compute` and `Convolution.Compute`.
- `ImageResize.Compute`: `x * inputWidth` and the area product `(endX - startX) * (endY - startY)` are unbounded. The input and output images must be distinct arrays, and the rectangle must lie inside the output image, where Java would throw otherwise.
- `Convolution.Compute`: requires the rows `[startRow, endRow]` to exist in `image` and `result`, no image row to be longer than a result row, and every filter row to be at least `filter.length` long. Java throws `ArrayIndexOutOfBoundsException` otherwise. `result` is one `array2`, so rows of `result` that alias each other are not modelled.
- `Sorting.ArraysSort`: `Arrays.sort` is given by its contract (the sorted arrangement of the range), not by the JDK's dual-pivot quicksort.
- `Convolution.ApplyConvolution`: requires every filter row to be at least `filter.length` long (`FilterRowsCover`). Java reads `filter[i][j]` for every `j < filter.length` and throws `ArrayIndexOutOfBoundsException` on a shorter row when that tap lands on the image; that exception is not modelled.
- `Convolution.ConvolveRows`: requires the same filter condition, the rows `[startRow, endRow]` to exist in `image` and `result`, and no image row to be longer than a result row. The exceptions Java throws otherwise are not modelled.

## Findings

| source | as written | input that shows it | evidently intended | confidence | as-written member | corrected member |
|---|---|---|---|---|---|---|
| src/main/java/com/clay/j_advanced_concepts_techniques/deadlock_resolution_examples/resource_allocation/BankersAlgorithm.java:52-81 | `isSafeState` is set back to `false` at the end of every outer pass (line 69). The loop leaves either through the `break` at line 67, taken only when the flag is false, or through the `count < numProcesses` test at line 54, reached only after line 69 has cleared the flag. So `isSafe` returns `false` on every path and always rolls back, and Process.java:25 never grants a request (`Bankers.RequestAsWritten`; corrected client `Bankers.RequestCorrected`). | one process, one resource, `available = [1]`, `max = [[1]]`, `allocation = [[0]]`, request `[1]` for process 0: the request is safe, yet `isSafe` answers `false` | answer `true` exactly when every process can finish after the temporary grant | high (not executed) | `Bankers.BankersAlgorithm.IsSafe` | `Bankers.BankersAlgorithm.IsSafeCorrected` |
| src/main/java/com/clay/g_parallel_processing_parallelism/task_parallelism_work_stealing/TaskParallelismExample.java:13-37 | The sum of squares is accumulated in `int`. `main`'s array holds 1_000_000, whose square alone exceeds the `int` range. | `main`'s array `{1, ..., 9, 10_000, 10_001, 10_002, 1_000_000}`: the exact sum 1000300060290 wraps to -427319678 | the exact sum of squares (a `long` accumulator) | high (not executed) | `SumOfSquares.MainAsWritten` | `SumOfSquares.MainExact` |
