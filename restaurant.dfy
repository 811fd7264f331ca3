/** Restaurant.java in syn_methods/reentrant_lock: a count of free tables
    changed under a `ReentrantLock`. Each method holds the lock for its
    whole body, so calls take effect one at a time. */
module RestaurantTables {

  /** The count after `enterRestaurant`: one table fewer if any is free. */
  function AfterEnter(availableTables: int): (r: int)
    ensures availableTables > 0 ==> r == availableTables - 1
    ensures availableTables <= 0 ==> r == availableTables
  {
    if availableTables > 0 then availableTables - 1 else availableTables
  }

  /** The count after `leaveRestaurant`: one table more, unconditionally. */
  function AfterLeave(availableTables: int): (r: int)
    ensures r == availableTables + 1
  {
    availableTables + 1
  }

  /** Entering never takes a non-negative count below zero. */
  lemma EnterKeepsNonNegative(availableTables: int)
    requires availableTables >= 0
    ensures AfterEnter(availableTables) >= 0
  {
  }

  /** A customer who got a table and leaves gives it back; one who found
      none and leaves anyway adds a table that was never taken. */
  lemma EnterThenLeave(availableTables: int)
    ensures availableTables > 0 ==> AfterLeave(AfterEnter(availableTables)) == availableTables
    ensures availableTables <= 0 ==> AfterLeave(AfterEnter(availableTables)) == availableTables + 1
  {
  }

  /** Nothing bounds the count by the number of tables: `n` customers
      leaving without having entered leave it at `numTables + n`. */
  function LeaveTimes(availableTables: int, n: nat): (r: int)
  {
    if n == 0 then availableTables else AfterLeave(LeaveTimes(availableTables, n - 1))
  }

  lemma {:induction false} LeavingOverflowsTables(numTables: int, n: nat)
    ensures LeaveTimes(numTables, n) == numTables + n
  {
    if n > 0 {
      LeavingOverflowsTables(numTables, n - 1);
    }
  }

  class Restaurant {
    var availableTables: int

    /** `new Restaurant(numTables)`. */
    constructor (numTables: int)
      ensures availableTables == numTables
    {
      availableTables := numTables;
    }

    /** `enterRestaurant(customerName)`: `gotTable` tells which of the two
        messages is printed. */
    method EnterRestaurant(customerName: string) returns (gotTable: bool)
      modifies this
      ensures gotTable == (old(availableTables) > 0)
      ensures availableTables == AfterEnter(old(availableTables))
    {
      if availableTables > 0 {
        availableTables := availableTables - 1;
        gotTable := true;
      } else {
        gotTable := false;
      }
    }

    /** `orderFood(customerName, foodItem)`: only prints. */
    method OrderFood(customerName: string, foodItem: string)
    {
    }

    /** `leaveRestaurant(customerName)`. */
    method LeaveRestaurant(customerName: string)
      modifies this
      ensures availableTables == AfterLeave(old(availableTables))
    {
      availableTables := availableTables + 1;
    }
  }

  /** One customer's visit: enter, order, leave. With a free table the
      count comes back to where it was; with none the visit adds a table. */
  method Visit(restaurant: Restaurant, customerName: string, foodItem: string)
    modifies restaurant
    ensures old(restaurant.availableTables) > 0 ==> restaurant.availableTables == old(restaurant.availableTables)
    ensures old(restaurant.availableTables) <= 0 ==> restaurant.availableTables == old(restaurant.availableTables) + 1
  {
    var _ := restaurant.EnterRestaurant(customerName);
    restaurant.OrderFood(customerName, foodItem);
    restaurant.LeaveRestaurant(customerName);
    EnterThenLeave(old(restaurant.availableTables));
  }
}
