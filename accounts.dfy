/** Account.java in deadlock_resolution_examples/resource_ordering: integer
    balances changed under per-account locks. `transfer` orders the two
    steps by account id; that ordering is what avoids deadlock between
    threads and is not visible in the final balances. */
module Accounts {

  class Account {
    const id: int
    var balance: int

    /** `new Account(id, balance)`; the id never changes afterwards. */
    constructor (id: int, balance: int)
      ensures this.id == id && this.balance == balance
    {
      this.id := id;
      this.balance := balance;
    }

    /** `withdraw(amount)`: no overdraft check, so the balance may go
        negative. */
    method Withdraw(amount: int)
      modifies this
      ensures balance == old(balance) - amount
    {
      balance := balance - amount;
    }

    /** `deposit(amount)`. */
    method Deposit(amount: int)
      modifies this
      ensures balance == old(balance) + amount
    {
      balance := balance + amount;
    }
  }

  /** `Account.transfer(fromAccount, toAccount, amount)`: whichever order
      the ids dictate, `amount` leaves `fromAccount` and reaches
      `toAccount`. Between two accounts the total is kept; from an account
      to itself nothing changes. */
  method Transfer(fromAccount: Account, toAccount: Account, amount: int)
    modifies fromAccount, toAccount
    ensures fromAccount != toAccount ==>
      fromAccount.balance == old(fromAccount.balance) - amount && toAccount.balance == old(toAccount.balance) + amount
    ensures fromAccount != toAccount ==>
      fromAccount.balance + toAccount.balance == old(fromAccount.balance) + old(toAccount.balance)
    ensures fromAccount == toAccount ==> fromAccount.balance == old(fromAccount.balance)
  {
    if fromAccount.id < toAccount.id {
      fromAccount.Withdraw(amount);
      toAccount.Deposit(amount);
    } else {
      toAccount.Deposit(amount);
      fromAccount.Withdraw(amount);
    }
  }

  /** How many entries of `ops` equal `b`. */
  function Occurrences(ops: seq<bool>, b: bool): (r: nat)
    ensures r <= |ops|
  {
    if ops == [] then 0 else (if ops[|ops| - 1] == b then 1 else 0) + Occurrences(ops[..|ops| - 1], b)
  }

  /** `main`'s two threads in one interleaving: `true` is a transfer of 10
      from `account1` to `account2` by thread 1, `false` a transfer of 5
      back by thread 2. Each transfer only adds to and subtracts from the
      balances, so only how many of each there are matters. */
  method RunTransfers(account1: Account, account2: Account, ops: seq<bool>)
    requires account1 != account2
    modifies account1, account2
    ensures account1.balance == old(account1.balance) - 10 * Occurrences(ops, true) + 5 * Occurrences(ops, false)
    ensures account2.balance == old(account2.balance) + 10 * Occurrences(ops, true) - 5 * Occurrences(ops, false)
  {
    var k := 0;
    while k < |ops|
      invariant 0 <= k <= |ops|
      invariant account1.balance == old(account1.balance) - 10 * Occurrences(ops[..k], true) + 5 * Occurrences(ops[..k], false)
      invariant account2.balance == old(account2.balance) + 10 * Occurrences(ops[..k], true) - 5 * Occurrences(ops[..k], false)
    {
      assert ops[..k + 1][..k] == ops[..k];
      if ops[k] {
        Transfer(account1, account2, 10);
      } else {
        Transfer(account2, account1, 5);
      }
      k := k + 1;
    }
    assert ops[..|ops|] == ops;
  }

  /** `main`: 1000 and 2000 to start, then thread 1's hundred transfers of
      10 and thread 2's hundred transfers of 5 back, interleaved in any
      way, leave 500 and 2500. */
  method MainAnyInterleaving(ops: seq<bool>) returns (balance1: int, balance2: int)
    requires Occurrences(ops, true) == 100 && Occurrences(ops, false) == 100
    ensures balance1 == 500 && balance2 == 2500
  {
    var account1 := new Account(1, 1000);
    var account2 := new Account(2, 2000);
    RunTransfers(account1, account2, ops);
    balance1 := account1.balance;
    balance2 := account2.balance;
  }
}
