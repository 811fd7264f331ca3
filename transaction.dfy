/** Transaction.java in software_transactional_memory: an `AtomicInteger`
    status, 0 while in progress, 1 once committed and -1 once aborted,
    guarding an action that may run only once. That action is code this model
    cannot see; what it does is left out, and `runs` counts how often it
    has been started. */
module Transactions {

  const IN_PROGRESS: int := 0
  const COMMITTED: int := 1
  const ABORTED: int := -1

  class Transaction {
    var status: int
    var runs: nat

    /** The status is one of the three values, and the action has run exactly
        when the status has left 0, and then once. */
    predicate Valid()
      reads this
    {
      (status == IN_PROGRESS || status == COMMITTED || status == ABORTED)
      && (status == IN_PROGRESS <==> runs == 0)
      && runs <= 1
    }

    /** A new transaction is in progress and its task has not run. */
    constructor ()
      ensures status == IN_PROGRESS && runs == 0 && Valid()
    {
      status := IN_PROGRESS;
      runs := 0;
    }

    /** `run(task)`: `compareAndSet(0, 1)` succeeds only on the first call;
        that call runs the action and commits. Every later call aborts
        without running it. */
    method Run()
      requires Valid()
      modifies this
      ensures Valid()
      ensures old(status) == IN_PROGRESS ==> status == COMMITTED && runs == old(runs) + 1
      ensures old(status) != IN_PROGRESS ==> status == ABORTED && runs == old(runs)
    {
      if status == IN_PROGRESS {
        status := COMMITTED;  // the successful compareAndSet(0, 1)
        runs := runs + 1;     // task.run()
        status := COMMITTED;  // status.set(1)
      } else {
        status := ABORTED;
      }
    }
  }

  /** Any number of `run` calls on one transaction: the action runs at most
      once, the status never returns to 0 once it has left it, and it runs
      exactly once when the first call finds the transaction in progress. */
  method RunRepeatedly(t: Transaction, n: nat)
    requires t.Valid()
    modifies t
    ensures t.Valid() && t.runs <= 1
    ensures old(t.status) != IN_PROGRESS ==> t.status != IN_PROGRESS && t.runs == old(t.runs)
    ensures n > 0 ==> t.status != IN_PROGRESS && t.runs == 1
    ensures n == 0 ==> t.status == old(t.status) && t.runs == old(t.runs)
  {
    var k := 0;
    while k < n
      invariant 0 <= k <= n && t.Valid()
      invariant old(t.status) != IN_PROGRESS ==> t.status != IN_PROGRESS && t.runs == old(t.runs)
      invariant k > 0 ==> t.status != IN_PROGRESS
      invariant k == 0 ==> t.status == old(t.status) && t.runs == old(t.runs)
    {
      t.Run();
      k := k + 1;
    }
  }
}
