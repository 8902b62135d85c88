/** The cart accumulator of `Cards`: `handleAddToCart` reads the cart stored
    under the key `"product"`, bumps the quantity of every entry with the
    product's id, or appends the product with quantity 1 when there is none,
    and hands the updated list both to storage and to the parent's `setInfo`. */
module Cart {
  import opened Wrappers
  import opened Catalog

  /** A cart entry: the product's fields spread into it, plus `quantity`,
      which may be missing in a stored entry. */
  datatype CartEntry = CartEntry(item: Product, quantity: Option<int>)

  /** `item.quantity || 0`: a missing quantity counts as 0, a present one as
      itself. */
  function Quantity(e: CartEntry): (q: int)
    ensures e.quantity.None? ==> q == 0
    ensures e.quantity.Some? ==> q == e.quantity.value
  {
    match e.quantity
    case Some(q) => q
    case None => 0
  }

  /** `JSON.parse(localStorage.getItem("product")) || []`: an absent key reads
      as the empty cart; a stored list is used as it is. */
  function Load(stored: Option<seq<CartEntry>>): (cart: seq<CartEntry>)
    ensures stored.None? ==> cart == []
    ensures stored.Some? ==> cart == stored.value
  {
    match stored
    case Some(cart) => cart
    case None => []
  }

  predicate HasId(cart: seq<CartEntry>, id: string)
  {
    exists k :: 0 <= k < |cart| && cart[k].item.id == id
  }

  /** The step applied to one entry of the scan: the product fields stay, a
      matching entry gains one unit and carries its quantity from then on, and
      any other entry is untouched. */
  function Bump(e: CartEntry, id: string): (r: CartEntry)
    ensures r.item == e.item
    ensures Quantity(r) == if e.item.id == id then Quantity(e) + 1 else Quantity(e)
    ensures e.item.id == id ==> r.quantity.Some?
    ensures e.item.id != id ==> r == e
  {
    if e.item.id == id then e.(quantity := Some(Quantity(e) + 1)) else e
  }

  /** The whole `forEach` scan: entry by entry, the same positions with the
      same product fields, so the set of ids in the cart does not change. */
  function BumpAll(cart: seq<CartEntry>, id: string): (r: seq<CartEntry>)
    ensures |r| == |cart|
    ensures forall k :: 0 <= k < |cart| ==> r[k] == Bump(cart[k], id)
    ensures forall k :: 0 <= k < |cart| ==> r[k].item == cart[k].item
  {
    seq(|cart|, k requires 0 <= k < |cart| => Bump(cart[k], id))
  }

  /** The cart after adding `product`: with an entry of that id present, every
      such entry gains one unit and nothing else changes; otherwise the
      product is appended with quantity 1. */
  function Merged(cart: seq<CartEntry>, product: Product): (r: seq<CartEntry>)
    ensures |r| == if HasId(cart, product.id) then |cart| else |cart| + 1
    ensures forall k :: 0 <= k < |cart| ==> r[k].item == cart[k].item
    ensures forall k :: 0 <= k < |cart| && cart[k].item.id == product.id ==>
      r[k].quantity == Some(Quantity(cart[k]) + 1)
    ensures forall k :: 0 <= k < |cart| && cart[k].item.id != product.id ==> r[k] == cart[k]
    ensures !HasId(cart, product.id) ==> r[|cart|] == CartEntry(product, Some(1))
  {
    if HasId(cart, product.id) then BumpAll(cart, product.id)
    else cart + [CartEntry(product, Some(1))]
  }

  /** `handleAddToCart(product)`, with storage passed in and the list that is
      persisted and sent to `setInfo` returned. */
  method HandleAddToCart(stored: Option<seq<CartEntry>>, product: Product)
    returns (productInfo: seq<CartEntry>)
    ensures productInfo == Merged(Load(stored), product)
  {
    productInfo := Load(stored);
    ghost var before := productInfo;
    var foundDuplicate := false;

    var i := 0;
    while i < |productInfo|
      invariant 0 <= i <= |productInfo| == |before|
      invariant forall k :: 0 <= k < i ==> productInfo[k] == Bump(before[k], product.id)
      invariant forall k :: i <= k < |before| ==> productInfo[k] == before[k]
      invariant foundDuplicate <==> exists k :: 0 <= k < i && before[k].item.id == product.id
    {
      var item := productInfo[i];
      if item.item.id == product.id {
        productInfo := productInfo[i := item.(quantity := Some(Quantity(item) + 1))];
        foundDuplicate := true;
      }
      i := i + 1;
    }

    if !foundDuplicate {
      productInfo := productInfo + [CartEntry(product, Some(1))];
    } else {
      assert productInfo == BumpAll(before, product.id);
    }
  }

  // ---------------------------------------------------------------------------
  // Invariants the merge keeps
  // ---------------------------------------------------------------------------

  /** At most one entry per product id. */
  predicate UniqueIds(cart: seq<CartEntry>)
  {
    forall j, k :: 0 <= j < k < |cart| ==> cart[j].item.id != cart[k].item.id
  }

  /** Every entry carries a quantity of at least one. */
  predicate PositiveQuantities(cart: seq<CartEntry>)
  {
    forall k :: 0 <= k < |cart| ==> cart[k].quantity.Some? && cart[k].quantity.value >= 1
  }

  /** Adding a product never creates a second entry for an id. */
  lemma MergedKeepsIdsUnique(cart: seq<CartEntry>, product: Product)
    requires UniqueIds(cart)
    ensures UniqueIds(Merged(cart, product))
  {
  }

  /** Adding a product keeps every quantity present and positive. */
  lemma MergedKeepsQuantitiesPositive(cart: seq<CartEntry>, product: Product)
    requires PositiveQuantities(cart)
    ensures PositiveQuantities(Merged(cart, product))
  {
  }

  /** The number of units in the cart, a missing quantity counting as 0. */
  function TotalQuantity(cart: seq<CartEntry>): int
    decreases |cart|
  {
    if cart == [] then 0
    else TotalQuantity(cart[..|cart| - 1]) + Quantity(cart[|cart| - 1])
  }

  /** How many entries carry the id. */
  function CountId(cart: seq<CartEntry>, id: string): nat
    decreases |cart|
  {
    if cart == [] then 0
    else CountId(cart[..|cart| - 1], id) + (if cart[|cart| - 1].item.id == id then 1 else 0)
  }

  /** Bumping adds one unit per matching entry. */
  lemma {:induction false} BumpAllTotal(cart: seq<CartEntry>, id: string)
    ensures TotalQuantity(BumpAll(cart, id)) == TotalQuantity(cart) + CountId(cart, id)
    decreases |cart|
  {
    if cart != [] {
      var n := |cart|;
      BumpAllTotal(cart[..n - 1], id);
      assert BumpAll(cart, id)[..n - 1] == BumpAll(cart[..n - 1], id);
    }
  }

  /** With ids unique, an id is carried by exactly one entry or by none. */
  lemma {:induction false} CountUniqueId(cart: seq<CartEntry>, id: string)
    requires UniqueIds(cart)
    ensures CountId(cart, id) == if HasId(cart, id) then 1 else 0
    decreases |cart|
  {
    if cart != [] {
      var n := |cart|;
      var prefix := cart[..n - 1];
      CountUniqueId(prefix, id);
      if cart[n - 1].item.id == id {
        assert !HasId(prefix, id);
      } else {
        if HasId(cart, id) {
          var k :| 0 <= k < n && cart[k].item.id == id;
          assert prefix[k].item.id == id;
        }
      }
    }
  }

  /** In a cart with one entry per id, each add puts exactly one more unit in. */
  lemma MergedAddsOneUnit(cart: seq<CartEntry>, product: Product)
    requires UniqueIds(cart)
    ensures TotalQuantity(Merged(cart, product)) == TotalQuantity(cart) + 1
  {
    if HasId(cart, product.id) {
      BumpAllTotal(cart, product.id);
      CountUniqueId(cart, product.id);
    } else {
      var r := Merged(cart, product);
      assert r[..|cart|] == cart;
    }
  }

  /** Adding the same product twice to an empty cart gives one entry of two. */
  lemma AddTwiceToEmpty(product: Product)
    ensures Merged(Merged([], product), product) == [CartEntry(product, Some(2))]
  {
  }

  /** Adding two distinct products to an empty cart gives two entries of one. */
  lemma AddTwoDistinctToEmpty(p: Product, q: Product)
    requires p.id != q.id
    ensures Merged(Merged([], p), q) == [CartEntry(p, Some(1)), CartEntry(q, Some(1))]
  {
  }
}
