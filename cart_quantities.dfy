/** ShoppingCart.java in thread_safe_collection: a `ConcurrentHashMap`
    from product to quantity, updated by atomic `compute` and
    `computeIfPresent`. No operation ever removes a key, and quantities may
    fall to zero or below. */
module CartQuantities {

  /** `items.getOrDefault(product, 0)`. */
  function QuantityIn(items: map<string, int>, product: string): int
  {
    if product in items then items[product] else 0
  }

  /** The map after `addItem(product, quantity)`: `compute` stores
      `quantity` for a new product and `value + quantity` for a present
      one; nothing else changes. */
  function AfterAdd(items: map<string, int>, product: string, quantity: int): (r: map<string, int>)
    ensures r.Keys == items.Keys + {product}
    ensures QuantityIn(r, product) == QuantityIn(items, product) + quantity
    ensures forall k :: k != product ==> QuantityIn(r, k) == QuantityIn(items, k)
  {
    items[product := if product in items then items[product] + quantity else quantity]
  }

  /** The map after `removeItem(product)`: `computeIfPresent` lowers a
      present quantity by one and keeps the key whatever the new value; an
      absent product is left alone. */
  function AfterRemove(items: map<string, int>, product: string): (r: map<string, int>)
    ensures r.Keys == items.Keys
    ensures product in items ==> QuantityIn(r, product) == items[product] - 1
    ensures product !in items ==> r == items
    ensures forall k :: k != product ==> QuantityIn(r, k) == QuantityIn(items, k)
  {
    if product in items then items[product := items[product] - 1] else items
  }

  /** Adds commute, so two shoppers adding in either order fill the same
      cart. */
  lemma AddsCommute(items: map<string, int>, p: string, a: int, q: string, b: int)
    ensures AfterAdd(AfterAdd(items, p, a), q, b) == AfterAdd(AfterAdd(items, q, b), p, a)
  {
    var l := AfterAdd(AfterAdd(items, p, a), q, b);
    var r := AfterAdd(AfterAdd(items, q, b), p, a);
    assert l.Keys == r.Keys;
    forall k | k in l ensures l[k] == r[k] {
      assert QuantityIn(l, k) == QuantityIn(r, k);
    }
  }

  /** A removal and an add of a product already in the cart commute too;
      the removal only depends on order when it comes first and the
      product is still absent. */
  lemma RemoveAddCommuteWhenPresent(items: map<string, int>, p: string, q: string, b: int)
    requires p in items
    ensures AfterRemove(AfterAdd(items, q, b), p) == AfterAdd(AfterRemove(items, p), q, b)
  {
    var l := AfterRemove(AfterAdd(items, q, b), p);
    var r := AfterAdd(AfterRemove(items, p), q, b);
    assert l.Keys == r.Keys;
    forall k | k in l ensures l[k] == r[k] {
      assert QuantityIn(l, k) == QuantityIn(r, k);
    }
  }

  /** No operation removes a key, so the number of distinct products never
      goes down. */
  lemma TotalNeverDecreases(items: map<string, int>, product: string, quantity: int)
    ensures |AfterAdd(items, product, quantity).Keys| >= |items.Keys|
    ensures |AfterRemove(items, product).Keys| == |items.Keys|
  {
    var r := AfterAdd(items, product, quantity);
    assert items.Keys <= r.Keys;
    SubsetCard(items.Keys, r.Keys);
  }

  lemma SubsetCard(a: set<string>, b: set<string>)
    requires a <= b
    ensures |a| <= |b|
  {
    assert b == a + (b - a);
  }

  class ShoppingCart {
    var items: map<string, int>

    /** `new ShoppingCart()`: an empty cart. */
    constructor ()
      ensures items == map[]
    {
      items := map[];
    }

    /** `addItem(product, quantity)`. */
    method AddItem(product: string, quantity: int)
      modifies this
      ensures items == AfterAdd(old(items), product, quantity)
    {
      items := items[product := if product in items then items[product] + quantity else quantity];
    }

    /** `removeItem(product)`. */
    method RemoveItem(product: string)
      modifies this
      ensures items == AfterRemove(old(items), product)
    {
      if product in items {
        items := items[product := items[product] - 1];
      }
    }

    /** `getTotalItems()`: `items.size()`, the number of distinct products
        ever added, not the sum of their quantities. */
    function GetTotalItems(): (r: int)
      reads this
      ensures r == |items.Keys|
    {
      |items|
    }

    /** `getItemQuantity(product)`: the stored quantity, or 0 for a product
        never added. */
    function GetItemQuantity(product: string): (r: int)
      reads this
      ensures product !in items ==> r == 0
      ensures product in items ==> r == items[product]
    {
      QuantityIn(items, product)
    }
  }

  /** Shopper 1's calls, then shopper 2's, on an empty cart, for any four
      distinct product names. */
  lemma ShopperOneFirstState(apple: string, banana: string, orange: string, grapes: string)
    requires apple != banana && apple != orange && apple != grapes
    requires banana != orange && banana != grapes && orange != grapes
    ensures var m1 := AfterAdd(AfterAdd(AfterAdd(map[], apple, 3), banana, 2), orange, 4);
      var m := AfterAdd(AfterRemove(AfterAdd(m1, apple, 2), banana), grapes, 5);
      m.Keys == {apple, banana, orange, grapes}
      && QuantityIn(m, apple) == 5 && QuantityIn(m, banana) == 1
      && QuantityIn(m, orange) == 4 && QuantityIn(m, grapes) == 5
  {
  }

  /** Shopper 2's calls, then shopper 1's: the removal finds no bananas. */
  lemma ShopperTwoFirstState(apple: string, banana: string, orange: string, grapes: string)
    requires apple != banana && apple != orange && apple != grapes
    requires banana != orange && banana != grapes && orange != grapes
    ensures var m2 := AfterAdd(AfterRemove(AfterAdd(map[], apple, 2), banana), grapes, 5);
      var m := AfterAdd(AfterAdd(AfterAdd(m2, apple, 3), banana, 2), orange, 4);
      m.Keys == {apple, banana, orange, grapes}
      && QuantityIn(m, apple) == 5 && QuantityIn(m, banana) == 2
      && QuantityIn(m, orange) == 4 && QuantityIn(m, grapes) == 5
  {
  }

  lemma FourCard(a: string, b: string, c: string, d: string)
    requires a != b && a != c && a != d && b != c && b != d && c != d
    ensures |{a, b, c, d}| == 4
  {
  }

  /** `main` with shopper 1's three calls before shopper 2's: shopper 2
      finds the bananas and takes one. */
  method MainShopperOneFirst() returns (total: int, apple: int, banana: int, orange: int, grapes: int)
    ensures total == 4 && apple == 5 && banana == 1 && orange == 4 && grapes == 5
  {
    var cart := new ShoppingCart();
    cart.AddItem("Apple", 3);
    cart.AddItem("Banana", 2);
    cart.AddItem("Orange", 4);
    cart.AddItem("Apple", 2);
    cart.RemoveItem("Banana");
    cart.AddItem("Grapes", 5);
    ShopperOneFirstState("Apple", "Banana", "Orange", "Grapes");
    FourCard("Apple", "Banana", "Orange", "Grapes");
    total := cart.GetTotalItems();
    apple := cart.GetItemQuantity("Apple");
    banana := cart.GetItemQuantity("Banana");
    orange := cart.GetItemQuantity("Orange");
    grapes := cart.GetItemQuantity("Grapes");
  }

  /** `main` with shopper 2's calls first: the removal finds no bananas and
      does nothing, so both bananas stay. The other counts are the same. */
  method MainShopperTwoFirst() returns (total: int, apple: int, banana: int, orange: int, grapes: int)
    ensures total == 4 && apple == 5 && banana == 2 && orange == 4 && grapes == 5
  {
    var cart := new ShoppingCart();
    cart.AddItem("Apple", 2);
    cart.RemoveItem("Banana");
    cart.AddItem("Grapes", 5);
    cart.AddItem("Apple", 3);
    cart.AddItem("Banana", 2);
    cart.AddItem("Orange", 4);
    ShopperTwoFirstState("Apple", "Banana", "Orange", "Grapes");
    FourCard("Apple", "Banana", "Orange", "Grapes");
    total := cart.GetTotalItems();
    apple := cart.GetItemQuantity("Apple");
    banana := cart.GetItemQuantity("Banana");
    orange := cart.GetItemQuantity("Orange");
    grapes := cart.GetItemQuantity("Grapes");
  }
}
