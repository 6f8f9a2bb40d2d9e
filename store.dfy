/**
 * The storefront's persistent state and its request handlers: the catalog,
 * the cart collection, the order ledger and the accounts, with one method
 * per handler. Every handler checks everything before it writes anything,
 * so a refused request leaves the whole store as it was.
 */
module Shop {
  import opened Wrappers
  import opened Errors
  import opened Schema
  import opened Inventory
  import opened CartStore
  import opened CheckoutEngine
  import opened Accounts
  import opened CatalogAdmin
  import opened Purchase

  /** Every order in the ledger is well formed. */
  predicate LedgerValid(orders: seq<Order>)
  {
    forall i :: 0 <= i < |orders| ==> WellFormedOrder(orders[i])
  }

  /** The payload of a `Cart.findOneAndUpdate`: each field may be absent. */
  datatype CartUpdate = CartUpdate(product: Option<Id>, size: Option<string>, quantity: Option<int>, price: Option<int>)

  /**
   * The store invariant: every document satisfies its schema, product names
   * and emails are unique, the cart holds one item per (user, product, size),
   * and every id in use is below the next fresh one.
   */
  predicate StoreInvariant(products: Catalog, cart: seq<CartItem>, orders: seq<Order>, users: Users, nextId: nat)
  {
    && CatalogValid(products)
    && CartValid(cart)
    && LedgerValid(orders)
    && AccountsValid(users)
    && (forall p :: p in products ==> p < nextId)
    && (forall u :: u in users ==> u < nextId)
    && (forall j :: 0 <= j < |cart| ==> cart[j].id < nextId)
  }

  /** Adding to the cart, once its checks pass, keeps the invariant. */
  lemma AddToCartKeepsInvariant(products: Catalog, cart: seq<CartItem>, orders: seq<Order>, users: Users, nextId: nat,
                                user: Id, product: Id, size: string, quantity: int, unit: int)
    requires StoreInvariant(products, cart, orders, users, nextId)
    requires size != "" && HeldQuantity(cart, user, product, size) + quantity >= 1
    ensures
      var cart' := Upsert(cart, user, product, size, quantity, unit, nextId);
      var item := cart'[FindItem(cart', user, product, size).value];
      StoreInvariant(products, cart', orders, AddCartRef(users, user, item.id),
                     if FindItem(cart, user, product, size).Some? then nextId else nextId + 1)
  {
    var cart' := Upsert(cart, user, product, size, quantity, unit, nextId);
    var nextId' := if FindItem(cart, user, product, size).Some? then nextId else nextId + 1;
    UpsertKeepsValid(cart, user, product, size, quantity, unit, nextId);
    RefsKeepValid(users, user, cart'[FindItem(cart', user, product, size).value].id, 0);
    forall j | 0 <= j < |cart'| ensures cart'[j].id < nextId' {
      if Key(cart'[j]) != (user, product, size) {
        assert cart'[j] == cart[j];
      } else if FindItem(cart, user, product, size).Some? {
        assert cart'[j] == cart'[FindItem(cart', user, product, size).value];
      }
    }
  }

  /** A direct purchase that passes its checks keeps the invariant. */
  lemma BuyNowKeepsInvariant(products: Catalog, cart: seq<CartItem>, orders: seq<Order>, users: Users, nextId: nat,
                             user: Id, product: Id, size: string, quantity: int, order: Order)
    requires StoreInvariant(products, cart, orders, users, nextId)
    requires Reserve(products, product, size, quantity).Success?
    requires WellFormedOrder(order)
    ensures StoreInvariant(Reserve(products, product, size, quantity).value.0, DeleteOne(cart, user, product, size),
                           orders + [order], PushOrder(users, user, |orders|), nextId)
  {
    ReserveEffect(products, product, size, quantity);
    ReserveKeepsCatalogValid(products, product, size, quantity);
    LedgerAppend(orders, order);
    DeleteOneValid(cart, user, product, size);
    RefsKeepValid(users, user, 0, |orders|);
    var cart' := DeleteOne(cart, user, product, size);
    forall j | 0 <= j < |cart'| ensures cart'[j].id < nextId {
      assert cart'[j] in cart;
    }
  }

  /** Appending a well-formed order keeps the ledger valid. */
  lemma LedgerAppend(orders: seq<Order>, o: Order)
    requires LedgerValid(orders) && WellFormedOrder(o)
    ensures LedgerValid(orders + [o])
  {
    assert forall i :: 0 <= i < |orders| ==> (orders + [o])[i] == orders[i];
  }

  /** A placed cart order of items of at least one unit keeps the catalog valid and its shape, and is well formed. */
  lemma CartOrderKeepsParts(products: Catalog, items: seq<CartItem>, user: Id, shippingAddress: string, paymentMethod: string)
    requires CatalogValid(products)
    requires forall i :: 0 <= i < |items| ==> items[i].quantity >= 1
    requires CartOrder(products, items, user, shippingAddress, paymentMethod).Success?
    ensures
      var (after, order) := CartOrder(products, items, user, shippingAddress, paymentMethod).value;
      CatalogValid(after) && SameShape(products, after) && WellFormedOrder(order)
  {
    CartOrderFacts(products, items, user, shippingAddress, paymentMethod);
    CheckoutKeepsCatalogValid(products, items);
    CheckoutSameShape(products, items);
  }

  /** A cart purchase that passes its checks keeps the invariant. */
  lemma BuyFromCartKeepsInvariant(products: Catalog, cart: seq<CartItem>, orders: seq<Order>, users: Users, nextId: nat,
                                  user: Id, shippingAddress: string, paymentMethod: string)
    requires StoreInvariant(products, cart, orders, users, nextId)
    requires CartOrder(products, Filter(cart, user, true), user, shippingAddress, paymentMethod).Success?
    ensures
      var (after, order) := CartOrder(products, Filter(cart, user, true), user, shippingAddress, paymentMethod).value;
      StoreInvariant(after, Filter(cart, user, false), orders + [order], PushOrder(users, user, |orders|), nextId)
  {
    var items := Filter(cart, user, true);
    var (after, order) := CartOrder(products, items, user, shippingAddress, paymentMethod).value;
    forall i | 0 <= i < |items| ensures items[i].quantity >= 1 {
      assert items[i] in cart;
    }
    CartOrderKeepsParts(products, items, user, shippingAddress, paymentMethod);
    LedgerAppend(orders, order);
    FilterValid(cart, user, false);
    RefsKeepValid(users, user, 0, |orders|);
    var cart' := Filter(cart, user, false);
    forall j | 0 <= j < |cart'| ensures cart'[j].id < nextId {
      assert cart'[j] in cart;
    }
  }

  /** The product an update hook looks up: the update's own, else the query filter's. */
  function HookProduct(update: CartUpdate, filterProduct: Option<Id>): Option<Id>
  {
    if update.product.Some? then update.product else filterProduct
  }

  class Store {
    var products: Catalog
    var cart: seq<CartItem>
    /** The order ledger; an order's id is its position. */
    var orders: seq<Order>
    var users: Users
    /** The next unused document id. */
    var nextId: nat

    ghost predicate Valid()
      reads this
    {
      StoreInvariant(products, cart, orders, users, nextId)
    }

    constructor()
      ensures Valid()
      ensures products == map[] && cart == [] && orders == [] && users == map[]
    {
      products, cart, orders, users, nextId := map[], [], [], map[], 0;
    }

    /** `createUser`: validate, then store the new account under a fresh id. */
    method CreateUser(name: string, email: string, password: string, role: string) returns (r: Result<Id, Error>)
      requires Valid()
      modifies this
      ensures Valid()
      ensures var a := NewAccount(old(users), name, email, password, role);
        && (r.Failure? <==> a.Failure?)
        && (r.Failure? ==> r.error == a.error && unchanged(this))
        && (r.Success? ==>
              && r.value == old(nextId) && r.value !in old(users)
              && users == old(users)[r.value := a.value]
              && nextId == old(nextId) + 1
              && products == old(products) && cart == old(cart) && orders == old(orders))
    {
      var a := NewAccount(users, name, email, password, role);
      if a.Failure? {
        return Failure(a.error);
      }
      NewAccountKeepsValid(users, nextId, name, email, password, role);
      users := users[nextId := a.value];
      r := Success(nextId);
      nextId := nextId + 1;
    }

    /** `updateUser`: validate, then store the updated account in place. */
    method UpdateUser(id: Id, name: string, email: string, role: string) returns (r: Result<(), Error>)
      requires Valid()
      modifies this
      ensures Valid()
      ensures var a := UpdatedAccount(old(users), id, name, email, role);
        && (r.Failure? <==> a.Failure?)
        && (r.Failure? ==> r.error == a.error && unchanged(this))
        && (r.Success? ==>
              && users == old(users)[id := a.value]
              && products == old(products) && cart == old(cart) && orders == old(orders) && nextId == old(nextId))
    {
      var a := UpdatedAccount(users, id, name, email, role);
      if a.Failure? {
        return Failure(a.error);
      }
      UpdatedAccountKeepsValid(users, id, name, email, role);
      users := users[id := a.value];
      r := Success(());
    }

    /**
     * The cart schema's validators and then its `pre("save")` hook: the item
     * needs a size and a quantity of at least 1; its product must exist, carry
     * the size and hold at least that quantity of it; the price is then
     * overwritten with the unit price times the quantity, whatever the caller put there.
     */
    method PreSaveCartItem(item: CartItem) returns (r: Result<CartItem, Error>)
      ensures !ValidCartItem(item) ==> r == Failure(SchemaViolation)
      ensures ValidCartItem(item) ==>
        var c := CheckAvailable(products, item.product, item.size, item.quantity);
        && (r.Failure? <==> c.Failure?)
        && (r.Failure? ==> r.error == c.error)
      ensures r.Success? ==>
        && item.product in products
        && Stock(products, item.product, item.size) >= item.quantity >= 1
        && r.value == item.(price := products[item.product].price * item.quantity)
    {
      if !ValidCartItem(item) {
        return Failure(SchemaViolation);
      }
      var c := CheckAvailable(products, item.product, item.size, item.quantity);
      if c.Failure? {
        return Failure(c.error);
      }
      r := Success(item.(price := products[item.product].price * item.quantity));
    }

    /**
     * The cart's `pre("findOneAndUpdate")` hook: the product comes from the
     * update or else from the query filter; it must exist and carry the
     * update's size; a quantity in the update must not exceed that size's
     * stock and sets the price to unit price times quantity. Without a
     * quantity the stock check passes and the price is left unset.
     */
    method PreUpdateCartItem(update: CartUpdate, filterProduct: Option<Id>) returns (r: Result<CartUpdate, Error>)
      ensures var pid := HookProduct(update, filterProduct);
        (pid.None? || pid.value !in products) ==> r == Failure(NotFound)
      ensures var pid := HookProduct(update, filterProduct);
        (pid.Some? && pid.value in products && (update.size.None? || FindSize(products[pid.value].sizes, update.size.value).None?))
          ==> r == Failure(InvalidSize)
      ensures var pid := HookProduct(update, filterProduct);
        pid.Some? && update.size.Some? && update.quantity.Some? ==>
          var c := CheckAvailable(products, pid.value, update.size.value, update.quantity.value);
          && (r.Failure? <==> c.Failure?)
          && (r.Failure? ==> r.error == c.error)
      ensures var pid := HookProduct(update, filterProduct);
        (&& pid.Some? && pid.value in products && update.size.Some?
         && FindSize(products[pid.value].sizes, update.size.value).Some? && update.quantity.None?)
          ==> r.Success?
      ensures var pid := HookProduct(update, filterProduct);
        r.Success? ==>
          && pid.Some? && pid.value in products && update.size.Some?
          && FindSize(products[pid.value].sizes, update.size.value).Some?
          && r.value == update.(price := if update.quantity.Some?
                                         then Some(products[pid.value].price * update.quantity.value)
                                         else None)
    {
      var pid := HookProduct(update, filterProduct);
      if pid.None? || pid.value !in products {
        return Failure(NotFound);
      }
      var p := products[pid.value];
      if update.size.None? || FindSize(p.sizes, update.size.value).None? {
        return Failure(InvalidSize);
      }
      var k := FindSize(p.sizes, update.size.value).value;
      if update.quantity.Some? && update.quantity.value > p.sizes[k].quantity {
        return Failure(InsufficientStock);
      }
      r := Success(update.(price := if update.quantity.Some? then Some(p.price * update.quantity.value) else None));
    }

    /** The write the cart handlers end with: a new cart, accounts and next id. */
    method CommitCart(cart': seq<CartItem>, users': Users, nextId': nat)
      requires StoreInvariant(products, cart', orders, users', nextId')
      modifies this
      ensures Valid()
      ensures cart == cart' && users == users' && nextId == nextId'
      ensures products == old(products) && orders == old(orders)
    {
      cart, users, nextId := cart', users', nextId';
    }

    /**
     * `addToCartProduct`: the requested quantity must be available; an item
     * the user already holds for (product, size) is raised by that quantity,
     * which must still be available, otherwise a new item is made; the item
     * goes through the save pipeline and its id is added to the user's cart list.
     */
    method AddToCart(user: Id, product: Id, size: string, quantity: int) returns (r: Result<CartItem, Error>)
      requires Valid()
      modifies this
      ensures Valid()
      ensures
        var c := CheckAvailable(old(products), product, size, quantity);
        var n := HeldQuantity(old(cart), user, product, size) + quantity;
        && (r.Failure? <==> c.Failure? || n > Stock(old(products), product, size) || n < 1)
        && (r.Failure? ==>
              && r.error == (if c.Failure? then c.error else if n > Stock(old(products), product, size) then InsufficientStock else SchemaViolation)
              && unchanged(this))
      ensures r.Success? ==>
        && product in old(products)
        && cart == Upsert(old(cart), user, product, size, quantity, old(products)[product].price, old(nextId))
        && r.value == cart[FindItem(cart, user, product, size).value]
        && r.value.quantity <= Stock(old(products), product, size)
        && users == AddCartRef(old(users), user, r.value.id)
        && products == old(products) && orders == old(orders)
        && nextId == old(nextId) + (if FindItem(old(cart), user, product, size).Some? then 0 else 1)
    {
      var c := CheckAvailable(products, product, size, quantity);
      if c.Failure? {
        return Failure(c.error);
      }
      var unit, stock := products[product].price, products[product].sizes[c.value].quantity;
      assert ValidSizeStock(products[product].sizes[c.value]);
      var found := FindItem(cart, user, product, size);
      var item;
      if found.Some? {
        item := cart[found.value].(quantity := cart[found.value].quantity + quantity);
        if item.quantity > stock {
          return Failure(InsufficientStock);
        }
        item := item.(price := unit * item.quantity);
      } else {
        item := CartItem(nextId, user, product, size, quantity, unit * quantity);
      }
      var saved := PreSaveCartItem(item);
      if saved.Failure? {
        return Failure(saved.error);
      }
      AddToCartKeepsInvariant(products, cart, orders, users, nextId, user, product, size, quantity, unit);
      var cart' := Upsert(cart, user, product, size, quantity, unit, nextId);
      assert cart'[FindItem(cart', user, product, size).value] == saved.value;
      CommitCart(cart', AddCartRef(users, user, saved.value.id), if found.Some? then nextId else nextId + 1);
      r := Success(saved.value);
    }

    /**
     * `removeProductFromCart`: the user's item for (product, size) is deleted
     * and its id pulled from the user's cart list; NotFound when there is none.
     */
    method RemoveFromCart(user: Id, product: Id, size: string) returns (r: Result<(), Error>)
      requires Valid()
      modifies this
      ensures Valid()
      ensures r.Failure? <==> FindItem(old(cart), user, product, size).None?
      ensures r.Failure? ==> r.error == NotFound && unchanged(this)
      ensures r.Success? ==>
        var i := FindItem(old(cart), user, product, size).value;
        && cart == RemoveAt(old(cart), i)
        && FindItem(cart, user, product, size).None?
        && users == PullCartRef(old(users), user, old(cart)[i].id)
        && products == old(products) && orders == old(orders) && nextId == old(nextId)
    {
      var found := FindItem(cart, user, product, size);
      if found.None? {
        return Failure(NotFound);
      }
      var id := cart[found.value].id;
      RemoveFoundItem(cart, user, product, size);
      cart := RemoveAt(cart, found.value);
      RefsKeepValid(users, user, id, 0);
      users := PullCartRef(users, user, id);
      r := Success(());
    }

    /**
     * `buyNow`: when every check passes, the order is appended to the ledger,
     * the stock lowered, the user's cart item for that (product, size)
     * deleted and the order id pushed to the user's orders.
     */
    method BuyNow(user: Id, product: Id, size: string, quantity: int, shippingAddress: string, paymentMethod: string)
      returns (r: Result<Id, Error>)
      requires Valid()
      modifies this
      ensures Valid()
      ensures var d := DirectOrder(old(products), user, product, size, quantity, shippingAddress, paymentMethod);
        && (r.Failure? <==> d.Failure?)
        && (r.Failure? ==> r.error == d.error && unchanged(this))
        && (r.Success? ==>
              && r.value == |old(orders)|
              && orders == old(orders) + [d.value.1]
              && products == d.value.0
              && cart == DeleteOne(old(cart), user, product, size)
              && users == PushOrder(old(users), user, |old(orders)|)
              && nextId == old(nextId))
    {
      var d := DirectOrder(products, user, product, size, quantity, shippingAddress, paymentMethod);
      if d.Failure? {
        return Failure(d.error);
      }
      BuyNowKeepsInvariant(products, cart, orders, users, nextId, user, product, size, quantity, d.value.1);
      var id := CommitOrder(d.value.0, DeleteOne(cart, user, product, size), d.value.1, user);
      r := Success(id);
    }

    /**
     * The write both purchase handlers end with: the new catalog and cart,
     * the order appended to the ledger and its id pushed to the buyer's orders.
     */
    method CommitOrder(after: Catalog, cart': seq<CartItem>, order: Order, user: Id) returns (id: Id)
      requires StoreInvariant(after, cart', orders + [order], PushOrder(users, user, |orders|), nextId)
      modifies this
      ensures Valid()
      ensures id == |old(orders)| && orders == old(orders) + [order]
      ensures products == after && cart == cart'
      ensures users == PushOrder(old(users), user, id) && nextId == old(nextId)
    {
      id := |orders|;
      products, cart, orders, users := after, cart', orders + [order], PushOrder(users, user, id);
    }

    /**
     * The loop of `buyFromCart`: each item in turn takes one checkout step
     * (checked and reserved against the working copy of the catalog, its line
     * appended and its price added to the total); the first failure is
     * returned and the store is not written.
     */
    method ReserveItems(items: seq<CartItem>) returns (r: Result<Receipt, Error>)
      ensures r == Checkout(products, items)
    {
      var rc := Receipt(products, [], 0);
      var i := 0;
      while i < |items|
        invariant 0 <= i <= |items|
        invariant Checkout(products, items[..i]) == Success(rc)
      {
        CheckoutPrefixStep(products, items, i);
        var next := Step(Success(rc), items[i]);
        if next.Failure? {
          PrefixFailure(products, items, i + 1);
          return Failure(next.error);
        }
        rc := next.value;
        i := i + 1;
      }
      assert items[..i] == items;
      r := Success(rc);
    }

    /**
     * `buyFromCart`, all or nothing: the user's items, in cart order, are
     * reserved against one working copy of the catalog, so two items of one
     * product compose; only when every item passes and the order document is
     * valid are the new catalog, the order, the order id and the deletion of
     * the user's items written.
     */
    method BuyFromCart(user: Id, shippingAddress: string, paymentMethod: string) returns (r: Result<Id, Error>)
      requires Valid()
      modifies this
      ensures Valid()
      ensures var d := CartOrder(old(products), Filter(old(cart), user, true), user, shippingAddress, paymentMethod);
        && (r.Failure? <==> d.Failure?)
        && (r.Failure? ==> r.error == d.error && unchanged(this))
        && (r.Success? ==>
              && r.value == |old(orders)|
              && orders == old(orders) + [d.value.1]
              && products == d.value.0
              && cart == Filter(old(cart), user, false)
              && users == PushOrder(old(users), user, |old(orders)|)
              && nextId == old(nextId))
    {
      var products0, cart0, orders0, users0 := products, cart, orders, users;
      var items := Filter(cart0, user, true);
      if items == [] {
        return Failure(EmptyCart);
      }
      var co := ReserveItems(items);
      if co.Failure? {
        return Failure(co.error);
      }
      var pm := PaymentMethodOrDefault(paymentMethod);
      if pm.None? || shippingAddress == "" {
        return Failure(SchemaViolation);
      }
      ghost var d := CartOrder(products0, items, user, shippingAddress, paymentMethod);
      var order := Order(user, co.value.lines, co.value.total, pm.value, Pending, shippingAddress);
      assert d == Success((co.value.catalog, order));
      BuyFromCartKeepsInvariant(products0, cart0, orders0, users0, nextId, user, shippingAddress, paymentMethod);
      var id := CommitOrder(co.value.catalog, Filter(cart0, user, false), order, user);
      r := Success(id);
    }

    /**
     * `changeOrderStatusByAdmin`: the status must be one of the three names,
     * checked before the order is looked up; then only that order's status
     * changes, to any status from any status.
     */
    method SetOrderStatus(orderId: Id, status: string) returns (r: Result<(), Error>)
      requires Valid()
      modifies this
      ensures Valid()
      ensures r.Failure? <==> ParseStatus(status).None? || orderId >= |old(orders)|
      ensures r.Failure? ==>
        && r.error == (if ParseStatus(status).None? then InvalidStatus else NotFound)
        && unchanged(this)
      ensures r.Success? ==>
        && |orders| == |old(orders)|
        && orders[orderId] == old(orders)[orderId].(status := ParseStatus(status).value)
        && (forall k :: 0 <= k < |orders| && k != orderId ==> orders[k] == old(orders)[k])
        && products == old(products) && cart == old(cart) && users == old(users) && nextId == old(nextId)
    {
      var st := ParseStatus(status);
      if st.None? {
        return Failure(InvalidStatus);
      }
      if orderId >= |orders| {
        return Failure(NotFound);
      }
      assert WellFormedOrder(orders[orderId]);
      orders := orders[orderId := orders[orderId].(status := st.value)];
      r := Success(());
    }

    /** `addProduct`: validate, then store the new product under a fresh id. */
    method AddProduct(name: string, description: string, price: Option<int>, rating: Option<int>,
                      image: ImageUpload, sizes: SizesField) returns (r: Result<Id, Error>)
      requires Valid()
      modifies this
      ensures Valid()
      ensures var p := NewProduct(old(products), name, description, price, rating, image, sizes);
        && (r.Failure? <==> p.Failure?)
        && (r.Failure? ==> r.error == p.error && unchanged(this))
        && (r.Success? ==>
              && r.value == old(nextId) && r.value !in old(products)
              && products == old(products)[r.value := p.value]
              && nextId == old(nextId) + 1
              && cart == old(cart) && orders == old(orders) && users == old(users))
    {
      var p := NewProduct(products, name, description, price, rating, image, sizes);
      if p.Failure? {
        return Failure(p.error);
      }
      NewProductKeepsValid(products, nextId, name, description, price, rating, image, sizes);
      products := products[nextId := p.value];
      r := Success(nextId);
      nextId := nextId + 1;
    }

    /** `updateProduct`: validate, then store the updated product in place. */
    method UpdateProduct(id: Id, name: string, description: string, price: Option<int>, rating: Option<int>,
                         sizes: SizesField, image: ImageUpload) returns (r: Result<(), Error>)
      requires Valid()
      modifies this
      ensures Valid()
      ensures var p := UpdatedProduct(old(products), id, name, description, price, rating, sizes, image);
        && (r.Failure? <==> p.Failure?)
        && (r.Failure? ==> r.error == p.error && unchanged(this))
        && (r.Success? ==>
              && products == old(products)[id := p.value]
              && cart == old(cart) && orders == old(orders) && users == old(users) && nextId == old(nextId))
    {
      var p := UpdatedProduct(products, id, name, description, price, rating, sizes, image);
      if p.Failure? {
        return Failure(p.error);
      }
      UpdatedProductKeepsValid(products, id, name, description, price, rating, sizes, image);
      products := products[id := p.value];
      r := Success(());
    }
  }
}
