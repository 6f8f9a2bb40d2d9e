/**
 * The orders the two purchase handlers place: what each one checks, in its
 * order, and the order document and catalog it commits when every check passes.
 */
module Purchase {
  import opened Wrappers
  import opened Errors
  import opened Schema
  import opened Inventory
  import opened CheckoutEngine

  /**
   * `buyNow`'s checks and its order: the product, size and stock checks;
   * a quantity of at least 1; then the order document's own rules (payment
   * method, "COD" when absent, and a shipping address). The order has one
   * line at the current unit price, a total equal to that line's price and
   * status Pending; the catalog has that size's stock lowered by the quantity.
   */
  function DirectOrder(products: Catalog, user: Id, product: Id, size: string, quantity: int,
                       shippingAddress: string, paymentMethod: string): (r: Result<(Catalog, Order), Error>)
    ensures
      var c := CheckAvailable(products, product, size, quantity);
      var pm := PaymentMethodOrDefault(paymentMethod);
      && (r.Failure? <==> c.Failure? || quantity < 1 || pm.None? || shippingAddress == "")
      && (r.Failure? ==>
            r.error == (if c.Failure? then c.error else if quantity < 1 then InvalidQuantity else SchemaViolation))
    ensures r.Success? ==>
      var line := OrderLine(product, quantity, size, products[product].price * quantity);
      && product in products
      && r.value.1 == Order(user, [line], line.price, PaymentMethodOrDefault(paymentMethod).value, Pending, shippingAddress)
      && WellFormedOrder(r.value.1)
      && r.value.0 == Reserve(products, product, size, quantity).value.0
      && 0 <= Stock(r.value.0, product, size) == Stock(products, product, size) - quantity
  {
    match Reserve(products, product, size, quantity)
    case Failure(e) => Failure(e)
    case Success((after, line)) =>
      if quantity < 1 then Failure(InvalidQuantity)
      else
        var pm := PaymentMethodOrDefault(paymentMethod);
        if pm.None? || shippingAddress == "" then Failure(SchemaViolation)
        else
          ReserveDepletes(products, product, size, quantity);
          assert [line][..0] == [];
          assert SumPrices([line]) == SumPrices([]) + line.price;
          Success((after, Order(user, [line], line.price, pm.value, Pending, shippingAddress)))
  }

  /**
   * `buyFromCart`'s checks and its order, all or nothing: a non-empty list of
   * items, every item reserved in order against one shared catalog, then the
   * order document's own rules. The order's lines are the checkout's lines
   * and its total their sum.
   */
  function CartOrder(products: Catalog, items: seq<CartItem>, user: Id,
                     shippingAddress: string, paymentMethod: string): (r: Result<(Catalog, Order), Error>)
    ensures
      var co := Checkout(products, items);
      var pm := PaymentMethodOrDefault(paymentMethod);
      && (r.Failure? <==> items == [] || co.Failure? || pm.None? || shippingAddress == "")
      && (r.Failure? ==>
            r.error == (if items == [] then EmptyCart else if co.Failure? then co.error else SchemaViolation))
    ensures r.Success? ==>
      var rc := Checkout(products, items).value;
      && r.value.0 == rc.catalog
      && r.value.1 == Order(user, rc.lines, rc.total, PaymentMethodOrDefault(paymentMethod).value, Pending, shippingAddress)
      && ValidOrderDocument(r.value.1)
  {
    if items == [] then Failure(EmptyCart)
    else
      match Checkout(products, items)
      case Failure(e) => Failure(e)
      case Success(rc) =>
        var pm := PaymentMethodOrDefault(paymentMethod);
        if pm.None? || shippingAddress == "" then Failure(SchemaViolation)
        else Success((rc.catalog, Order(user, rc.lines, rc.total, pm.value, Pending, shippingAddress)))
  }

  /**
   * What a placed cart order promises: each (product, size) loses exactly the
   * units bought of it, the lines follow the items in order at the unit
   * prices from before the purchase, the total is the sum of the lines, and,
   * for items of at least one unit each, the order is well formed.
   */
  lemma CartOrderFacts(products: Catalog, items: seq<CartItem>, user: Id, shippingAddress: string, paymentMethod: string)
    requires CartOrder(products, items, user, shippingAddress, paymentMethod).Success?
    ensures
      var (after, order) := CartOrder(products, items, user, shippingAddress, paymentMethod).value;
      && Decremented(products, after, items)
      && LinesMatch(products, items, order.lines)
      && order.totalAmount == SumPrices(order.lines)
      && ((forall i :: 0 <= i < |items| ==> items[i].quantity >= 1) ==> WellFormedOrder(order))
  {
    CheckoutDecrements(products, items);
    CheckoutLines(products, items);
    CheckoutTotal(products, items);
  }

  /**
   * `buyFromCart` as written: the loop saves each product as it goes, and
   * only after the loop is the order document validated. The first component
   * is the catalog the handler leaves stored, the second its answer. The
   * answer is the all-or-nothing one; what a refusal leaves stored differs.
   */
  function CartOrderAsWritten(products: Catalog, items: seq<CartItem>, user: Id,
                              shippingAddress: string, paymentMethod: string): (r: (Catalog, Result<Order, Error>))
    ensures var d := CartOrder(products, items, user, shippingAddress, paymentMethod);
      && (r.1.Failure? <==> d.Failure?)
      && (r.1.Failure? ==> r.1.error == d.error)
      && (r.1.Success? ==> r == (d.value.0, Success(d.value.1)))
    ensures items == [] ==> r.0 == products
    ensures items != [] ==> r.0 == CheckoutAsWritten(products, items).persisted
  {
    if items == [] then (products, Failure(EmptyCart))
    else
      AsWrittenAgreesOnSuccess(products, items);
      var a := CheckoutAsWritten(products, items);
      match a.outcome
      case Failure(e) => (a.persisted, Failure(e))
      case Success((lines, total)) =>
        var pm := PaymentMethodOrDefault(paymentMethod);
        if pm.None? || shippingAddress == "" then (a.persisted, Failure(SchemaViolation))
        else (a.persisted, Success(Order(user, lines, total, pm.value, Pending, shippingAddress)))
  }

  /**
   * Product 1 has 5 of size M on hand; a cart of two M with no shipping
   * address passes `buyFromCart`'s loop, which saves M down to 3, and is then
   * refused by the order schema. The all-or-nothing cart order is refused
   * with the same error.
   */
  lemma LateValidationPersists()
    ensures
      var cat := map[1 := Product("Shirt", "cotton", 20, 4, "shirt.png", [SizeStock("M", 5)])];
      var items := [CartItem(10, 7, 1, "M", 2, 40)];
      && CartOrderAsWritten(cat, items, 7, "", "").1 == Failure(SchemaViolation)
      && Stock(CartOrderAsWritten(cat, items, 7, "", "").0, 1, "M") == 3
      && CartOrder(cat, items, 7, "", "") == Failure(SchemaViolation)
  {
    var cat := map[1 := Product("Shirt", "cotton", 20, 4, "shirt.png", [SizeStock("M", 5)])];
    var items := [CartItem(10, 7, 1, "M", 2, 40)];
    assert items[..0] == [];
    assert FindSize(cat[1].sizes, "M") == Some(0);
    var after := Reserve(cat, 1, "M", 2).value.0;
    assert after[1].sizes == [SizeStock("M", 3)];
    assert FindSize(after[1].sizes, "M") == Some(0);
  }
}
