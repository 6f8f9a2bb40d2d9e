/**
 * The checkout engine's pure core: turning a user's cart items, in cart
 * order, into order lines while lowering the stock of each (product, size)
 * they buy. `Checkout` is the all-or-nothing reading (a failure at any item
 * commits nothing); `CheckoutAsWritten` is what the cart purchase handler
 * leaves persisted, saving each product inside its validation loop.
 */
module CheckoutEngine {
  import opened Wrappers
  import opened Errors
  import opened Schema
  import opened Inventory

  /** Units of size `size` of product p that the items buy (the reference sum). */
  function Bought(items: seq<CartItem>, p: Id, size: string): int
  {
    if items == [] then 0
    else
      var last := items[|items| - 1];
      Bought(items[..|items| - 1], p, size) + (if last.product == p && last.size == size then last.quantity else 0)
  }

  /**
   * b is a with the first entry of every label of every product lowered by the
   * units the items buy of it; every other entry and every other field is unchanged.
   */
  predicate Decremented(a: Catalog, b: Catalog, items: seq<CartItem>)
  {
    && SameShape(a, b)
    && forall p, j :: p in a && 0 <= j < |a[p].sizes| ==>
         b[p].sizes[j].quantity
           == a[p].sizes[j].quantity - (if IsFirst(a[p].sizes, j) then Bought(items, p, a[p].sizes[j].size) else 0)
  }

  /** The outcome of a successful checkout: the new catalog, the order lines and their total. */
  datatype Receipt = Receipt(catalog: Catalog, lines: seq<OrderLine>, total: int)

  /** Checkout of one more item after the earlier ones. */
  function Step(prev: Result<Receipt, Error>, it: CartItem): (r: Result<Receipt, Error>)
    ensures prev.Failure? ==> r == prev
    ensures prev.Success? ==>
      && (r.Failure? <==> CheckAvailable(prev.value.catalog, it.product, it.size, it.quantity).Failure?)
      && (r.Failure? ==> r.error == CheckAvailable(prev.value.catalog, it.product, it.size, it.quantity).error)
    ensures prev.Success? && r.Success? ==>
      var line := OrderLine(it.product, it.quantity, it.size, prev.value.catalog[it.product].price * it.quantity);
      && r.value.lines == prev.value.lines + [line]
      && r.value.total == prev.value.total + line.price
  {
    match prev
    case Failure(e) => Failure(e)
    case Success(rc) =>
      match Reserve(rc.catalog, it.product, it.size, it.quantity)
      case Failure(e) => Failure(e)
      case Success((after, line)) => Success(Receipt(after, rc.lines + [line], rc.total + line.price))
  }

  /** All-or-nothing checkout of the items, in order, against one shared catalog. */
  function Checkout(cat: Catalog, items: seq<CartItem>): (r: Result<Receipt, Error>)
    ensures r.Success? ==> |r.value.lines| == |items|
  {
    if items == [] then Success(Receipt(cat, [], 0))
    else Step(Checkout(cat, items[..|items| - 1]), items[|items| - 1])
  }

  /** SameShape is transitive. */
  lemma SameShapeTrans(a: Catalog, b: Catalog, c: Catalog)
    requires SameShape(a, b) && SameShape(b, c)
    ensures SameShape(a, c)
  {
    forall p | p in a
      ensures SameShapeProduct(a[p], c[p])
    {
      assert SameShapeProduct(a[p], b[p]) && SameShapeProduct(b[p], c[p]);
    }
  }

  /** Decremented composes with one more reservation. */
  lemma DecrementedStep(a: Catalog, b: Catalog, items: seq<CartItem>)
    requires items != []
    requires Decremented(a, b, items[..|items| - 1])
    requires var last := items[|items| - 1]; Reserve(b, last.product, last.size, last.quantity).Success?
    ensures var last := items[|items| - 1]; Decremented(a, Reserve(b, last.product, last.size, last.quantity).value.0, items)
  {
    var last := items[|items| - 1];
    var c := Reserve(b, last.product, last.size, last.quantity).value.0;
    var k := CheckAvailable(b, last.product, last.size, last.quantity).value;
    ReserveEffect(b, last.product, last.size, last.quantity);
    SameShapeTrans(a, b, c);
    forall p, j | p in a && 0 <= j < |a[p].sizes|
      ensures c[p].sizes[j].quantity
        == a[p].sizes[j].quantity - (if IsFirst(a[p].sizes, j) then Bought(items, p, a[p].sizes[j].size) else 0)
    {
      assert SameShapeProduct(a[p], b[p]);
      var sa, sb := a[p].sizes, b[p].sizes;
      if p == last.product {
        if j == k {
          assert sb[j].size == last.size;
          assert IsFirst(sa, j) by {
            forall i | 0 <= i < j ensures sa[i].size != sa[j].size {
              assert sb[i].size != sb[j].size;
            }
          }
        }
      }
    }
  }

  /** The empty checkout decrements nothing. */
  lemma DecrementedNothing(cat: Catalog)
    ensures Decremented(cat, cat, [])
  {
  }

  /** A successful checkout is the checkout of all items but the last, followed by the last one's reservation. */
  lemma CheckoutLast(cat: Catalog, items: seq<CartItem>)
    requires items != [] && Checkout(cat, items).Success?
    ensures
      var rc0, last := Checkout(cat, items[..|items| - 1]).value, items[|items| - 1];
      var res := Reserve(rc0.catalog, last.product, last.size, last.quantity);
      && Checkout(cat, items[..|items| - 1]).Success?
      && res.Success?
      && Checkout(cat, items).value == Receipt(res.value.0, rc0.lines + [res.value.1], rc0.total + res.value.1.price)
  {
  }

  /** Decremented carries over from the items before the last to all of them. */
  lemma CheckoutDecrementsStep(cat: Catalog, items: seq<CartItem>)
    requires items != [] && Checkout(cat, items).Success?
    requires Decremented(cat, Checkout(cat, items[..|items| - 1]).value.catalog, items[..|items| - 1])
    ensures Decremented(cat, Checkout(cat, items).value.catalog, items)
  {
    CheckoutLast(cat, items);
    DecrementedStep(cat, Checkout(cat, items[..|items| - 1]).value.catalog, items);
  }

  /** A successful checkout lowers the stock of every (product, size) by exactly the units bought of it. */
  lemma {:induction false} CheckoutDecrements(cat: Catalog, items: seq<CartItem>)
    requires Checkout(cat, items).Success?
    ensures Decremented(cat, Checkout(cat, items).value.catalog, items)
  {
    if items == [] {
      DecrementedNothing(cat);
    } else {
      CheckoutDecrements(cat, items[..|items| - 1]);
      CheckoutDecrementsStep(cat, items);
    }
  }

  /** A successful checkout changes stock quantities only. */
  lemma CheckoutSameShape(cat: Catalog, items: seq<CartItem>)
    requires Checkout(cat, items).Success?
    ensures SameShape(cat, Checkout(cat, items).value.catalog)
  {
    CheckoutDecrements(cat, items);
  }

  /** Every item's line, priced at the unit price of the product in cat. */
  predicate LinesMatch(cat: Catalog, items: seq<CartItem>, lines: seq<OrderLine>)
  {
    && |lines| == |items|
    && forall i :: 0 <= i < |items| ==>
         items[i].product in cat
         && lines[i] == OrderLine(items[i].product, items[i].quantity, items[i].size,
                                  cat[items[i].product].price * items[i].quantity)
  }

  /** A non-empty sequence is its items but the last, followed by the last. */
  lemma SplitLast(items: seq<CartItem>)
    requires items != []
    ensures items == items[..|items| - 1] + [items[|items| - 1]]
  {
  }

  /** LinesMatch carries over one more item and its line. */
  lemma LinesAppend(cat: Catalog, pre: seq<CartItem>, lines: seq<OrderLine>, last: CartItem, line: OrderLine)
    requires LinesMatch(cat, pre, lines)
    requires last.product in cat
    requires line == OrderLine(last.product, last.quantity, last.size, cat[last.product].price * last.quantity)
    ensures LinesMatch(cat, pre + [last], lines + [line])
  {
    var items, lines' := pre + [last], lines + [line];
    forall i | 0 <= i < |items|
      ensures items[i].product in cat
           && lines'[i] == OrderLine(items[i].product, items[i].quantity, items[i].size,
                                     cat[items[i].product].price * items[i].quantity)
    {
      if i < |pre| { assert items[i] == pre[i] && lines'[i] == lines[i]; }
    }
  }

  /** LinesMatch carries over from the items before the last to all of them. */
  lemma LinesMatchStep(cat: Catalog, items: seq<CartItem>)
    requires items != [] && Checkout(cat, items).Success?
    requires SameShape(cat, Checkout(cat, items[..|items| - 1]).value.catalog)
    requires LinesMatch(cat, items[..|items| - 1], Checkout(cat, items[..|items| - 1]).value.lines)
    ensures LinesMatch(cat, items, Checkout(cat, items).value.lines)
  {
    var pre, last := items[..|items| - 1], items[|items| - 1];
    var rc0 := Checkout(cat, pre).value;
    CheckoutLast(cat, items);
    var line := Reserve(rc0.catalog, last.product, last.size, last.quantity).value.1;
    assert last.product in cat && SameShapeProduct(cat[last.product], rc0.catalog[last.product]);
    LinesAppend(cat, pre, rc0.lines, last, line);
    SplitLast(items);
  }

  /**
   * A successful checkout makes one line per item, in cart order, each priced
   * at the unit price the product had before the checkout times the item's quantity.
   */
  lemma {:induction false} CheckoutLines(cat: Catalog, items: seq<CartItem>)
    requires Checkout(cat, items).Success?
    ensures LinesMatch(cat, items, Checkout(cat, items).value.lines)
  {
    if items != [] {
      CheckoutLines(cat, items[..|items| - 1]);
      CheckoutSameShape(cat, items[..|items| - 1]);
      LinesMatchStep(cat, items);
    }
  }

  /** The total of a successful checkout is the sum of its line prices. */
  lemma {:induction false} CheckoutTotal(cat: Catalog, items: seq<CartItem>)
    requires Checkout(cat, items).Success?
    ensures Checkout(cat, items).value.total == SumPrices(Checkout(cat, items).value.lines)
  {
    if items != [] {
      var pre := items[..|items| - 1];
      CheckoutTotal(cat, pre);
      var lines := Checkout(cat, items).value.lines;
      assert lines[..|lines| - 1] == Checkout(cat, pre).value.lines;
    }
  }

  /** A successful checkout of a valid catalog leaves it valid: no stock goes negative. */
  lemma {:induction false} CheckoutKeepsCatalogValid(cat: Catalog, items: seq<CartItem>)
    requires CatalogValid(cat)
    requires Checkout(cat, items).Success?
    ensures CatalogValid(Checkout(cat, items).value.catalog)
  {
    if items != [] {
      var pre, last := items[..|items| - 1], items[|items| - 1];
      CheckoutKeepsCatalogValid(cat, pre);
      ReserveKeepsCatalogValid(Checkout(cat, pre).value.catalog, last.product, last.size, last.quantity);
    }
  }

  /** The checkout of one more prefix item is one more step. */
  lemma CheckoutPrefixStep(cat: Catalog, items: seq<CartItem>, i: nat)
    requires i < |items|
    ensures Checkout(cat, items[..i + 1]) == Step(Checkout(cat, items[..i]), items[i])
  {
    assert items[..i + 1][..i] == items[..i];
  }

  /** Once a prefix of the items fails, the whole checkout fails with the same error. */
  lemma {:induction false} PrefixFailure(cat: Catalog, items: seq<CartItem>, n: nat)
    requires n <= |items|
    requires Checkout(cat, items[..n]).Failure?
    ensures Checkout(cat, items) == Checkout(cat, items[..n])
    decreases |items| - n
  {
    if n < |items| {
      var m := |items| - 1;
      assert items[..m][..n] == items[..n];
      PrefixFailure(cat, items[..m], n);
      assert items[..m] == items[..|items| - 1];
    } else {
      assert items[..n] == items;
    }
  }

  /** No two items ask for the same (product, size). */
  predicate PairsDistinct(items: seq<CartItem>)
  {
    forall i, j :: 0 <= i < j < |items| ==> (items[i].product, items[i].size) != (items[j].product, items[j].size)
  }

  /** Items that never name (p, size) buy none of it. */
  lemma {:induction false} BoughtNone(items: seq<CartItem>, p: Id, size: string)
    requires forall i :: 0 <= i < |items| ==> (items[i].product, items[i].size) != (p, size)
    ensures Bought(items, p, size) == 0
  {
    if items != [] {
      BoughtNone(items[..|items| - 1], p, size);
    }
  }

  /** Availability of a (product, size) the earlier items did not buy is what it was before them. */
  lemma AvailabilityUntouched(a: Catalog, b: Catalog, pre: seq<CartItem>, p: Id, size: string, q: int)
    requires Decremented(a, b, pre)
    requires Bought(pre, p, size) == 0
    ensures CheckAvailable(b, p, size, q) == CheckAvailable(a, p, size, q)
  {
    if p in a {
      assert SameShapeProduct(a[p], b[p]);
      FindSizeSameLabels(a[p].sizes, b[p].sizes, size);
    }
  }

  /**
   * When no two items ask for the same (product, size), as for the items of one
   * user's cart, a checkout succeeds exactly when each item on its own is
   * available in the catalog as it was before the checkout.
   */
  lemma {:induction false} CheckoutAgainstOriginal(cat: Catalog, items: seq<CartItem>)
    requires PairsDistinct(items)
    ensures Checkout(cat, items).Success? <==>
      forall k :: 0 <= k < |items| ==> CheckAvailable(cat, items[k].product, items[k].size, items[k].quantity).Success?
  {
    if items != [] {
      var pre, last := items[..|items| - 1], items[|items| - 1];
      assert PairsDistinct(pre) by {
        forall i, j | 0 <= i < j < |pre|
          ensures (pre[i].product, pre[i].size) != (pre[j].product, pre[j].size)
        {
          assert pre[i] == items[i] && pre[j] == items[j];
        }
      }
      CheckoutAgainstOriginal(cat, pre);
      if Checkout(cat, pre).Success? {
        var rc := Checkout(cat, pre).value;
        CheckoutDecrements(cat, pre);
        assert forall i :: 0 <= i < |pre| ==> (pre[i].product, pre[i].size) != (last.product, last.size) by {
          forall i | 0 <= i < |pre|
            ensures (pre[i].product, pre[i].size) != (last.product, last.size)
          {
            assert pre[i] == items[i];
          }
        }
        BoughtNone(pre, last.product, last.size);
        AvailabilityUntouched(cat, rc.catalog, pre, last.product, last.size, last.quantity);
      }
      assert forall k :: 0 <= k < |pre| ==> pre[k] == items[k];
    }
  }

  /** What `buyFromCart`'s loop as written leaves persisted, and what it answers. */
  datatype Attempt = Attempt(persisted: Catalog, outcome: Result<(seq<OrderLine>, int), Error>)

  /**
   * The cart purchase loop as written: each item is checked against the
   * catalog and its product saved before the next item is checked, so a
   * failure at item k leaves the decrements of items 0..k-1 persisted.
   */
  function CheckoutAsWritten(cat: Catalog, items: seq<CartItem>): (r: Attempt)
    ensures r.outcome.Success? ==> |r.outcome.value.0| == |items|
  {
    if items == [] then Attempt(cat, Success(([], 0)))
    else StepAsWritten(CheckoutAsWritten(cat, items[..|items| - 1]), items[|items| - 1])
  }

  /** One more iteration of the handler's loop: check the item, then save its product. */
  function StepAsWritten(prev: Attempt, it: CartItem): (r: Attempt)
    ensures prev.outcome.Failure? ==> r == prev
    ensures prev.outcome.Success? ==>
      (r.outcome.Failure? <==> CheckAvailable(prev.persisted, it.product, it.size, it.quantity).Failure?)
    ensures r.outcome.Failure? ==> r.persisted == prev.persisted
    ensures r.outcome.Success? ==> |r.outcome.value.0| == |prev.outcome.value.0| + 1
  {
    if prev.outcome.Failure? then prev
    else
      match Reserve(prev.persisted, it.product, it.size, it.quantity)
      case Failure(e) => Attempt(prev.persisted, Failure(e))
      case Success((after, line)) =>
        Attempt(after, Success((prev.outcome.value.0 + [line], prev.outcome.value.1 + line.price)))
  }

  /** The two readings answer alike after a step when they did before it. */
  predicate Agree(r: Result<Receipt, Error>, a: Attempt)
  {
    && (r.Failure? <==> a.outcome.Failure?)
    && (r.Failure? ==> r.error == a.outcome.error)
    && (r.Success? ==> a == Attempt(r.value.catalog, Success((r.value.lines, r.value.total))))
  }

  lemma StepAgrees(r: Result<Receipt, Error>, a: Attempt, it: CartItem)
    requires Agree(r, a)
    ensures Agree(Step(r, it), StepAsWritten(a, it))
  {
  }

  /**
   * The two readings answer alike, and when every item passes they persist
   * the same catalog; they differ only in what a failure leaves behind.
   */
  lemma {:induction false} AsWrittenAgreesOnSuccess(cat: Catalog, items: seq<CartItem>)
    ensures Agree(Checkout(cat, items), CheckoutAsWritten(cat, items))
  {
    if items != [] {
      var pre := items[..|items| - 1];
      AsWrittenAgreesOnSuccess(cat, pre);
      StepAgrees(Checkout(cat, pre), CheckoutAsWritten(cat, pre), items[|items| - 1]);
    }
  }

  /**
   * Product 1 has sizes M (5 on hand) and L (none); a cart of two M and one
   * L fails at the L item, yet `buyFromCart` as written has already saved M down
   * to 3. The all-or-nothing checkout fails with the same error and commits
   * nothing.
   */
  lemma PartialDecrementPersists()
    ensures
      var cat := map[1 := Product("Shirt", "cotton", 20, 4, "shirt.png", [SizeStock("M", 5), SizeStock("L", 0)])];
      var items := [CartItem(10, 7, 1, "M", 2, 40), CartItem(11, 7, 1, "L", 1, 20)];
      && CheckoutAsWritten(cat, items).outcome == Failure(InsufficientStock)
      && Stock(CheckoutAsWritten(cat, items).persisted, 1, "M") == 3
      && Checkout(cat, items) == Failure(InsufficientStock)
  {
    var cat := map[1 := Product("Shirt", "cotton", 20, 4, "shirt.png", [SizeStock("M", 5), SizeStock("L", 0)])];
    var items := [CartItem(10, 7, 1, "M", 2, 40), CartItem(11, 7, 1, "L", 1, 20)];
    assert items[..1] == [items[0]] && [items[0]][..0] == [];
    assert items[..|items| - 1] == [items[0]];
    assert FindSize(cat[1].sizes, "M") == Some(0);
    assert FindSize(cat[1].sizes, "L") == Some(1);
    var after := Reserve(cat, 1, "M", 2).value.0;
    assert after[1].sizes == [SizeStock("M", 3), SizeStock("L", 0)];
    assert FindSize(after[1].sizes, "M") == Some(0);
    assert FindSize(after[1].sizes, "L") == Some(1);
    AsWrittenAgreesOnSuccess(cat, items);
  }

  /**
   * The storefront scenario: Shirt, size M, 5 on hand at 20 each. Buying 3
   * directly gives a line of 60 and leaves 2; a later cart checkout of 4 M
   * fails for stock and changes nothing.
   */
  lemma ShirtScenario()
    ensures
      var cat := map[1 := Product("Shirt", "cotton", 20, 4, "shirt.png", [SizeStock("M", 5)])];
      && Reserve(cat, 1, "M", 3).Success?
      && Reserve(cat, 1, "M", 3).value.1.price == 60
      && Stock(Reserve(cat, 1, "M", 3).value.0, 1, "M") == 2
      && Checkout(Reserve(cat, 1, "M", 3).value.0, [CartItem(10, 7, 1, "M", 4, 80)]) == Failure(InsufficientStock)
  {
    var cat := map[1 := Product("Shirt", "cotton", 20, 4, "shirt.png", [SizeStock("M", 5)])];
    assert FindSize(cat[1].sizes, "M") == Some(0);
    var after := Reserve(cat, 1, "M", 3).value.0;
    assert after[1].sizes == [SizeStock("M", 2)];
    assert FindSize(after[1].sizes, "M") == Some(0);
    var items := [CartItem(10, 7, 1, "M", 4, 80)];
    assert items[..0] == [];
  }
}
