/**
 * The catalog store: product lookup, size resolution, the stock check every
 * purchase and every cart addition performs, and the decrement a purchase
 * applies to one size entry.
 */
module Inventory {
  import opened Wrappers
  import opened Errors
  import opened Schema

  type Catalog = map<Id, Product>

  /** Every product satisfies its schema and no two products share a name. */
  predicate CatalogValid(cat: Catalog)
  {
    && (forall p :: p in cat ==> ValidProduct(cat[p]))
    && (forall p, p' :: p in cat && p' in cat && p != p' ==> cat[p].name != cat[p'].name)
  }

  /** The quantity on hand for `size` of product p (its first entry with that label); 0 when absent. */
  function Stock(cat: Catalog, p: Id, size: string): int
  {
    if p !in cat then 0
    else match FindSize(cat[p].sizes, size)
      case None => 0
      case Some(k) => cat[p].sizes[k].quantity
  }

  /**
   * The checks of a purchase or a cart addition, in the handlers' order: the
   * product exists, one of its entries carries the label, and the requested
   * quantity does not exceed that entry's stock. Success gives the index of
   * the first entry with the label.
   */
  function CheckAvailable(cat: Catalog, p: Id, size: string, q: int): (r: Result<nat, Error>)
    ensures r.Failure? ==> r.error == NotFound || r.error == InvalidSize || r.error == InsufficientStock
    ensures r.Success? ==>
      && p in cat
      && r.value < |cat[p].sizes|
      && cat[p].sizes[r.value].size == size
      && IsFirst(cat[p].sizes, r.value)
      && q <= cat[p].sizes[r.value].quantity == Stock(cat, p, size)
  {
    if p !in cat then Failure(NotFound)
    else match FindSize(cat[p].sizes, size)
      case None => Failure(InvalidSize)
      case Some(k) =>
        if q > cat[p].sizes[k].quantity then Failure(InsufficientStock) else Success(k)
  }

  /**
   * Each refusal of CheckAvailable, and exactly when it happens: a missing
   * product, no entry with the label, or more units than the first such entry holds.
   */
  lemma CheckAvailableRefusals(cat: Catalog, p: Id, size: string, q: int)
    ensures CheckAvailable(cat, p, size, q) == Failure(NotFound) <==> p !in cat
    ensures CheckAvailable(cat, p, size, q) == Failure(InvalidSize) <==>
      p in cat && forall j :: 0 <= j < |cat[p].sizes| ==> cat[p].sizes[j].size != size
    ensures CheckAvailable(cat, p, size, q) == Failure(InsufficientStock) <==>
      p in cat && (exists j :: 0 <= j < |cat[p].sizes| && cat[p].sizes[j].size == size) && q > Stock(cat, p, size)
  {
  }

  /** Two products that differ at most in the quantities of their size entries. */
  predicate SameShapeProduct(x: Product, y: Product)
  {
    && y.(sizes := x.sizes) == x
    && |x.sizes| == |y.sizes|
    && forall j :: 0 <= j < |x.sizes| ==> x.sizes[j].size == y.sizes[j].size
  }

  /** Two catalogs that differ at most in stock quantities. */
  predicate SameShape(a: Catalog, b: Catalog)
  {
    a.Keys == b.Keys && forall p :: p in a ==> SameShapeProduct(a[p], b[p])
  }

  /** `sizeOption.quantity -= q` on entry k. */
  function Decrement(x: Product, k: nat, q: int): (y: Product)
    requires k < |x.sizes|
    ensures SameShapeProduct(x, y)
    ensures y.sizes[k].quantity == x.sizes[k].quantity - q
    ensures forall j :: 0 <= j < |x.sizes| && j != k ==> y.sizes[j] == x.sizes[j]
  {
    x.(sizes := x.sizes[k := x.sizes[k].(quantity := x.sizes[k].quantity - q)])
  }

  /**
   * One purchased line: check availability, lower the stock of the matched
   * entry by q, and snapshot the line at the current unit price. Nothing here
   * demands q >= 1.
   */
  function Reserve(cat: Catalog, p: Id, size: string, q: int): (r: Result<(Catalog, OrderLine), Error>)
    ensures r.Failure? <==> CheckAvailable(cat, p, size, q).Failure?
    ensures r.Failure? ==> r.error == CheckAvailable(cat, p, size, q).error
    ensures r.Success? ==> r.value.1 == OrderLine(p, q, size, cat[p].price * q)
  {
    match CheckAvailable(cat, p, size, q)
    case Failure(e) => Failure(e)
    case Success(k) => Success((cat[p := Decrement(cat[p], k, q)], OrderLine(p, q, size, cat[p].price * q)))
  }

  /**
   * What a successful reservation does to the catalog: the matched entry (the
   * first with the label) drops by q; no other entry and no other field changes.
   */
  lemma ReserveEffect(cat: Catalog, p: Id, size: string, q: int)
    requires Reserve(cat, p, size, q).Success?
    ensures
      var after := Reserve(cat, p, size, q).value.0;
      var k := CheckAvailable(cat, p, size, q).value;
      && SameShape(cat, after)
      && after[p].sizes[k].quantity == cat[p].sizes[k].quantity - q
      && (forall p', j :: p' in cat && 0 <= j < |cat[p'].sizes| && (p' != p || j != k) ==>
            after[p'].sizes[j] == cat[p'].sizes[j])
      && Stock(after, p, size) == Stock(cat, p, size) - q
  {
    var after := Reserve(cat, p, size, q).value.0;
    FindSizeSameLabels(cat[p].sizes, after[p].sizes, size);
  }

  /** A successful reservation keeps every stock at 0 or above, so it keeps the catalog valid. */
  lemma ReserveKeepsCatalogValid(cat: Catalog, p: Id, size: string, q: int)
    requires CatalogValid(cat)
    requires Reserve(cat, p, size, q).Success?
    ensures CatalogValid(Reserve(cat, p, size, q).value.0)
  {
    var after := Reserve(cat, p, size, q).value.0;
    ReserveEffect(cat, p, size, q);
    forall p' | p' in after
      ensures ValidProduct(after[p'])
    {
      assert ValidProduct(cat[p']);
      forall j | 0 <= j < |after[p'].sizes|
        ensures ValidSizeStock(after[p'].sizes[j])
      {
        assert ValidSizeStock(cat[p'].sizes[j]);
      }
    }
  }

  /**
   * With a quantity of at least one, a purchase strictly lowers the stock and
   * never below 0 (the property a purchase is meant to have).
   */
  lemma ReserveDepletes(cat: Catalog, p: Id, size: string, q: int)
    requires q >= 1
    requires Reserve(cat, p, size, q).Success?
    ensures 0 <= Stock(Reserve(cat, p, size, q).value.0, p, size) < Stock(cat, p, size)
  {
    ReserveEffect(cat, p, size, q);
  }

  /**
   * `buyNow`'s stock check as written accepts a negative quantity;
   * buying -3 units of a size with 5 on hand succeeds, raises the stock to 8
   * and snapshots a line priced -60.
   */
  lemma NegativeQuantityRestocks()
    ensures
      var cat := map[1 := Product("Shirt", "cotton", 20, 4, "shirt.png", [SizeStock("M", 5)])];
      && Reserve(cat, 1, "M", -3).Success?
      && Stock(Reserve(cat, 1, "M", -3).value.0, 1, "M") == 8 > 5 == Stock(cat, 1, "M")
      && Reserve(cat, 1, "M", -3).value.1.price == -60
  {
    var cat := map[1 := Product("Shirt", "cotton", 20, 4, "shirt.png", [SizeStock("M", 5)])];
    assert FindSize(cat[1].sizes, "M") == Some(0);
    ReserveEffect(cat, 1, "M", -3);
  }
}
