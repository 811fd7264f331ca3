/** ShoppingCart.java in thread_safe_annotation: a map from item name to
    how many of it are in the cart, updated under the cart's monitor. A key
    is present only while its count is at least one. */
module CartCounts {

  /** `items.getOrDefault(itemName, 0)`. */
  function CountIn(items: map<string, int>, itemName: string): int
  {
    if itemName in items then items[itemName] else 0
  }

  /** Every stored count is at least one. */
  ghost predicate AllPositive(items: map<string, int>)
  {
    forall k :: k in items ==> items[k] >= 1
  }

  /** The map after `addItem(itemName)`: an existing count goes up by one,
      a new item starts at one; nothing else changes. */
  function Added(items: map<string, int>, itemName: string): (r: map<string, int>)
    ensures r.Keys == items.Keys + {itemName}
    ensures CountIn(r, itemName) == CountIn(items, itemName) + 1
    ensures forall k :: k != itemName ==> CountIn(r, k) == CountIn(items, k)
  {
    if itemName in items then items[itemName := items[itemName] + 1] else items[itemName := 1]
  }

  /** The map after `removeItem(itemName)`: a count above one goes down by
      one, a count of one (or less) removes the key, an absent item is left
      alone; nothing else changes. */
  function Removed(items: map<string, int>, itemName: string): (r: map<string, int>)
    ensures itemName !in items ==> r == items
    ensures itemName in items && items[itemName] > 1 ==> r.Keys == items.Keys && CountIn(r, itemName) == items[itemName] - 1
    ensures itemName in items && items[itemName] <= 1 ==> r.Keys == items.Keys - {itemName}
    ensures forall k :: k != itemName ==> CountIn(r, k) == CountIn(items, k)
  {
    if itemName in items then
      if items[itemName] > 1 then items[itemName := items[itemName] - 1] else items - {itemName}
    else items
  }

  lemma AddedKeepsPositive(items: map<string, int>, itemName: string)
    requires AllPositive(items)
    ensures AllPositive(Added(items, itemName))
  {
    var r := Added(items, itemName);
    forall k | k in r ensures r[k] >= 1 {
      if k != itemName { assert CountIn(r, k) == CountIn(items, k); }
    }
  }

  lemma RemovedKeepsPositive(items: map<string, int>, itemName: string)
    requires AllPositive(items)
    ensures AllPositive(Removed(items, itemName))
  {
    var r := Removed(items, itemName);
    forall k | k in r ensures r[k] >= 1 {
      if k != itemName { assert CountIn(r, k) == CountIn(items, k); }
    }
  }

  /** On a cart whose counts are all positive, the count of an item is zero
      exactly when the item is absent. */
  lemma CountZeroIffAbsent(items: map<string, int>, itemName: string)
    requires AllPositive(items)
    ensures CountIn(items, itemName) >= 0
    ensures CountIn(items, itemName) == 0 <==> itemName !in items
  {
  }

  /** Removing an item just added gives the very same map back. */
  lemma AddThenRemove(items: map<string, int>, itemName: string)
    requires AllPositive(items)
    ensures Removed(Added(items, itemName), itemName) == items
  {
    var r := Removed(Added(items, itemName), itemName);
    assert r.Keys == items.Keys;
    forall k | k in items ensures r[k] == items[k] {
      assert CountIn(r, k) == CountIn(items, k);
    }
  }

  /** Adding back an item just removed restores a present item. */
  lemma RemoveThenAdd(items: map<string, int>, itemName: string)
    requires AllPositive(items) && itemName in items
    ensures Added(Removed(items, itemName), itemName) == items
  {
    var r := Added(Removed(items, itemName), itemName);
    assert r.Keys == items.Keys;
    forall k | k in items ensures r[k] == items[k] {
      assert CountIn(r, k) == CountIn(items, k);
    }
  }

  class ShoppingCart {
    var items: map<string, int>

    ghost predicate Valid()
      reads this
    {
      AllPositive(items)
    }

    /** `new ShoppingCart()`: an empty cart. */
    constructor ()
      ensures items == map[] && Valid()
    {
      items := map[];
    }

    /** `addItem(itemName)`. */
    method AddItem(itemName: string)
      requires Valid()
      modifies this
      ensures items == Added(old(items), itemName) && Valid()
    {
      AddedKeepsPositive(items, itemName);
      if itemName in items {
        var quantity := items[itemName];
        items := items[itemName := quantity + 1];
      } else {
        items := items[itemName := 1];
      }
    }

    /** `removeItem(itemName)`. */
    method RemoveItem(itemName: string)
      requires Valid()
      modifies this
      ensures items == Removed(old(items), itemName) && Valid()
    {
      RemovedKeepsPositive(items, itemName);
      if itemName in items {
        var quantity := items[itemName];
        if quantity > 1 {
          items := items[itemName := quantity - 1];
        } else {
          items := items - {itemName};
        }
      }
    }

    /** `getItemCount(itemName)`: the stored count, or 0 for an item not in
        the cart; never negative, and zero only for an absent item. */
    function GetItemCount(itemName: string): (r: int)
      requires Valid()
      reads this
      ensures r >= 0 && (r == 0 <==> itemName !in items)
    {
      CountZeroIffAbsent(items, itemName);
      CountIn(items, itemName)
    }
  }

  /** `main`'s six tasks run in the order they are submitted: each apple
      and banana added is removed again, one orange and one bunch of grapes
      remain. (The pool may run them in another order; see the lemma
      below for one.) */
  method MainInSubmissionOrder() returns (apple: int, banana: int, orange: int, grapes: int)
    ensures apple == 0 && banana == 0 && orange == 1 && grapes == 1
  {
    var cart := new ShoppingCart();
    cart.AddItem("Apple");
    cart.AddItem("Banana");
    cart.RemoveItem("Apple");
    cart.AddItem("Orange");
    cart.RemoveItem("Banana");
    cart.AddItem("Grapes");
    apple := cart.GetItemCount("Apple");
    banana := cart.GetItemCount("Banana");
    orange := cart.GetItemCount("Orange");
    grapes := cart.GetItemCount("Grapes");
  }

  /** If the pool runs `removeItem("Apple")` before `addItem("Apple")`, the
      removal finds nothing and one apple is left: the outcome depends on
      the order the submitted jobs run in. */
  lemma RemoveBeforeAddLeavesApple()
    ensures CountIn(Added(Removed(map[], "Apple"), "Apple"), "Apple") == 1
  {
  }
}
