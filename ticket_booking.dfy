/** TicketBookingSystem.java and its driver Example2.java: a ticket count
    decremented under a lock when a request fits. Each call holds the lock
    for its whole body, so the threads' requests take effect one at a time
    in some order. */
module TicketBooking {

  /** The count after `bookTickets(requestedTickets)`. */
  function AfterBooking(availableTickets: int, requestedTickets: int): (r: int)
    ensures availableTickets >= requestedTickets ==> r == availableTickets - requestedTickets
    ensures availableTickets < requestedTickets ==> r == availableTickets
  {
    if availableTickets >= requestedTickets then availableTickets - requestedTickets else availableTickets
  }

  /** A non-negative count stays non-negative, whatever the request: a
      granted request is at most the count, a negative one is refused only
      if it exceeds it, and granting it adds tickets. */
  lemma BookingKeepsNonNegative(availableTickets: int, requestedTickets: int)
    requires availableTickets >= 0
    ensures AfterBooking(availableTickets, requestedTickets) >= 0
  {
  }

  /** The count after the requests, taken in order. */
  function Remaining(availableTickets: int, requests: seq<int>): int
    decreases |requests|
  {
    if requests == [] then availableTickets
    else Remaining(AfterBooking(availableTickets, requests[0]), requests[1..])
  }

  /** Serving one more request after the others takes it from the count
      they leave. */
  lemma {:induction false} RemainingSnoc(availableTickets: int, requests: seq<int>, x: int)
    ensures Remaining(availableTickets, requests + [x]) == AfterBooking(Remaining(availableTickets, requests), x)
    decreases |requests|
  {
    if requests != [] {
      assert (requests + [x])[1..] == requests[1..] + [x];
      RemainingSnoc(AfterBooking(availableTickets, requests[0]), requests[1..], x);
    }
  }

  /** The tickets handed out over the requests, taken in order. */
  function Granted(availableTickets: int, requests: seq<int>): int
    decreases |requests|
  {
    if requests == [] then 0
    else
      var g := if availableTickets >= requests[0] then requests[0] else 0;
      g + Granted(AfterBooking(availableTickets, requests[0]), requests[1..])
  }

  /** With non-negative requests, the tickets handed out never exceed the
      initial count, and what is left is exactly the rest. */
  lemma {:induction false} GrantedWithinTotal(totalTickets: int, requests: seq<int>)
    requires totalTickets >= 0
    requires forall i :: 0 <= i < |requests| ==> requests[i] >= 0
    ensures Remaining(totalTickets, requests) == totalTickets - Granted(totalTickets, requests)
    ensures 0 <= Granted(totalTickets, requests) <= totalTickets
  {
    if requests != [] {
      GrantedWithinTotal(AfterBooking(totalTickets, requests[0]), requests[1..]);
    }
  }

  class TicketBookingSystem {
    var availableTickets: int

    /** `new TicketBookingSystem(totalTickets)`. */
    constructor (totalTickets: int)
      ensures availableTickets == totalTickets
    {
      availableTickets := totalTickets;
    }

    /** `bookTickets(requestedTickets)`: `booked` tells which message is
        printed. */
    method BookTickets(requestedTickets: int) returns (booked: bool)
      modifies this
      ensures booked == (old(availableTickets) >= requestedTickets)
      ensures availableTickets == AfterBooking(old(availableTickets), requestedTickets)
    {
      if availableTickets >= requestedTickets {
        availableTickets := availableTickets - requestedTickets;
        booked := true;
      } else {
        booked := false;
      }
    }
  }

  /** The booking threads' calls, in the order the lock admits them:
      request k is booked exactly when it fits the count the requests
      before it left. */
  method BookAll(system: TicketBookingSystem, requests: seq<int>) returns (booked: seq<bool>)
    modifies system
    ensures |booked| == |requests|
    ensures forall k :: 0 <= k < |requests| ==>
              booked[k] == (Remaining(old(system.availableTickets), requests[..k]) >= requests[k])
    ensures system.availableTickets == Remaining(old(system.availableTickets), requests)
  {
    ghost var start := system.availableTickets;
    booked := [];
    var k := 0;
    while k < |requests|
      invariant 0 <= k <= |requests| && |booked| == k
      invariant system.availableTickets == Remaining(start, requests[..k])
      invariant forall m :: 0 <= m < k ==> booked[m] == (Remaining(start, requests[..m]) >= requests[m])
    {
      var b := system.BookTickets(requests[k]);
      assert requests[..k + 1] == requests[..k] + [requests[k]];
      RemainingSnoc(start, requests[..k], requests[k]);
      booked := booked + [b];
      k := k + 1;
    }
    assert requests[..k] == requests;
  }

  /** The orders in which Example2.java's three threads can reach the lock. */
  const MainOrders: seq<seq<int>> := [[3, 41, 2], [3, 2, 41], [41, 3, 2], [41, 2, 3], [2, 3, 41], [2, 41, 3]]

  /** Whatever the order, the request for 41 is refused and 5 of the 10
      tickets remain. */
  lemma MainAnyOrder(order: seq<int>)
    requires order in MainOrders
    ensures Remaining(10, order) == 5 && Granted(10, order) == 5
  {
    var i :| 0 <= i < |MainOrders| && MainOrders[i] == order;
    var o := MainOrders[i];
    assert o[1..][1..][1..] == [];
    assert Remaining(10, o) == Remaining(AfterBooking(AfterBooking(AfterBooking(10, o[0]), o[1]), o[2]), []);
  }

  /** `Example2.main` with the threads admitted in start order. */
  method MainInStartOrder() returns (remaining: int, booked: seq<bool>)
    ensures remaining == 5 && booked == [true, false, true]
  {
    var system := new TicketBookingSystem(10);
    var b1 := system.BookTickets(3);
    var b2 := system.BookTickets(41);
    var b3 := system.BookTickets(2);
    booked := [b1, b2, b3];
    remaining := system.availableTickets;
  }
}
