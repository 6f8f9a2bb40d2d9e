/**
 * The cart collection, in the order the store returns its documents
 * (insertion order). The handlers keep at most one item per
 * (user, product, size); here that is the invariant KeysUnique, which every
 * operation below preserves.
 */
module CartStore {
  import opened Wrappers
  import opened Schema

  function Key(c: CartItem): (Id, Id, string)
  {
    (c.user, c.product, c.size)
  }

  predicate KeysUnique(cart: seq<CartItem>)
  {
    forall i, j :: 0 <= i < j < |cart| ==> Key(cart[i]) != Key(cart[j])
  }

  predicate IdsUnique(cart: seq<CartItem>)
  {
    forall i, j :: 0 <= i < j < |cart| ==> cart[i].id != cart[j].id
  }

  /** Every stored item satisfies the cart schema; keys and ids are unique. */
  predicate CartValid(cart: seq<CartItem>)
  {
    && (forall i :: 0 <= i < |cart| ==> ValidCartItem(cart[i]))
    && KeysUnique(cart)
    && IdsUnique(cart)
  }

  /** `Cart.findOne({user, product, size})`: the position of the first matching item. */
  function FindItem(cart: seq<CartItem>, user: Id, product: Id, size: string): (r: Option<nat>)
    ensures r.Some? ==> r.value < |cart| && Key(cart[r.value]) == (user, product, size)
    ensures r.Some? ==> forall j :: 0 <= j < r.value ==> Key(cart[j]) != (user, product, size)
    ensures r.None? <==> forall j :: 0 <= j < |cart| ==> Key(cart[j]) != (user, product, size)
    decreases |cart|
  {
    if cart == [] then None
    else if Key(cart[0]) == (user, product, size) then Some(0)
    else match FindItem(cart[1..], user, product, size)
      case None => None
      case Some(k) => Some(k + 1)
  }

  /** The quantity the user already holds of that product and size; 0 when none. */
  function HeldQuantity(cart: seq<CartItem>, user: Id, product: Id, size: string): int
  {
    match FindItem(cart, user, product, size)
    case None => 0
    case Some(i) => cart[i].quantity
  }

  /** Under unique keys, the item FindItem returns is the only one with its key. */
  lemma FoundIsOnly(cart: seq<CartItem>, user: Id, product: Id, size: string)
    requires KeysUnique(cart)
    requires FindItem(cart, user, product, size).Some?
    ensures forall j :: 0 <= j < |cart| && j != FindItem(cart, user, product, size).value ==>
      Key(cart[j]) != (user, product, size)
  {
    var i := FindItem(cart, user, product, size).value;
    forall j | 0 <= j < |cart| && j != i
      ensures Key(cart[j]) != (user, product, size)
    {
      if j > i { assert Key(cart[i]) != Key(cart[j]); }
    }
  }

  /**
   * An addition to the cart: an existing item for (user, product, size) has
   * its quantity raised by q, otherwise a new item with id `newId` is appended;
   * in both cases its price becomes unit × the resulting quantity.
   */
  function Upsert(cart: seq<CartItem>, user: Id, product: Id, size: string, q: int, unit: int, newId: Id): (r: seq<CartItem>)
    ensures FindItem(r, user, product, size).Some?
    ensures
      var it := r[FindItem(r, user, product, size).value];
      && it.quantity == HeldQuantity(cart, user, product, size) + q
      && it.price == unit * it.quantity
      && it.id == (match FindItem(cart, user, product, size) case Some(i) => cart[i].id case None => newId)
    ensures FindItem(r, user, product, size).value
         == (match FindItem(cart, user, product, size) case Some(i) => i case None => |cart|)
    ensures |r| == |cart| + (if FindItem(cart, user, product, size).Some? then 0 else 1)
    ensures forall j :: 0 <= j < |cart| && Key(cart[j]) != (user, product, size) ==> r[j] == cart[j]
    ensures KeysUnique(cart) ==> KeysUnique(r)
  {
    match FindItem(cart, user, product, size)
    case Some(i) =>
      var n := cart[i].quantity + q;
      var r := cart[i := cart[i].(quantity := n, price := unit * n)];
      assert forall j :: 0 <= j < i ==> r[j] == cart[j];
      assert Key(r[i]) == (user, product, size);
      assert FindItem(r, user, product, size) == Some(i);
      r
    case None =>
      var r := cart + [CartItem(newId, user, product, size, q, unit * q)];
      assert Key(r[|cart|]) == (user, product, size);
      r
  }

  /**
   * Adding a then b units of the same (user, product, size) leaves the same
   * cart as adding a + b at once: one item, not two.
   */
  lemma UpsertTwice(cart: seq<CartItem>, user: Id, product: Id, size: string, a: int, b: int, unit: int, f1: Id, f2: Id)
    ensures Upsert(Upsert(cart, user, product, size, a, unit, f1), user, product, size, b, unit, f2)
         == Upsert(cart, user, product, size, a + b, unit, f1)
  {
    var once := Upsert(cart, user, product, size, a, unit, f1);
    if FindItem(cart, user, product, size).None? {
      assert forall j :: 0 <= j < |cart| ==> once[j] == cart[j];
    }
  }

  /**
   * An addition that leaves the item with a quantity of at least 1 and uses
   * an id no stored item holds keeps the cart valid.
   */
  lemma UpsertKeepsValid(cart: seq<CartItem>, user: Id, product: Id, size: string, q: int, unit: int, newId: Id)
    requires CartValid(cart)
    requires size != "" && HeldQuantity(cart, user, product, size) + q >= 1
    requires forall j :: 0 <= j < |cart| ==> cart[j].id != newId
    ensures CartValid(Upsert(cart, user, product, size, q, unit, newId))
  {
    var r := Upsert(cart, user, product, size, q, unit, newId);
    var i := FindItem(r, user, product, size).value;
    assert Key(r[i]) == (user, product, size);
    forall j | 0 <= j < |r|
      ensures ValidCartItem(r[j]) && (j != i ==> j < |cart| && r[j] == cart[j])
    {
      if j != i {
        if FindItem(cart, user, product, size).Some? {
          assert i == FindItem(cart, user, product, size).value;
          FoundIsOnly(cart, user, product, size);
        } else {
          assert i == |cart|;
        }
      }
    }
    forall j, k | 0 <= j < k < |r|
      ensures r[j].id != r[k].id
    {
      if j != i && k != i {
        assert cart[j].id != cart[k].id;
      }
    }
  }

  /** `Cart.findByIdAndDelete` of the item at position i. */
  function RemoveAt(cart: seq<CartItem>, i: nat): (r: seq<CartItem>)
    requires i < |cart|
    ensures |r| == |cart| - 1
    ensures forall j :: 0 <= j < i ==> r[j] == cart[j]
    ensures forall j :: i <= j < |r| ==> r[j] == cart[j + 1]
    ensures multiset(r) == multiset(cart) - multiset{cart[i]}
  {
    assert cart == cart[..i] + [cart[i]] + cart[i + 1..];
    cart[..i] + cart[i + 1..]
  }

  /** Removing an item keeps the cart valid and leaves no item with the removed key. */
  lemma RemoveFoundItem(cart: seq<CartItem>, user: Id, product: Id, size: string)
    requires CartValid(cart)
    requires FindItem(cart, user, product, size).Some?
    ensures CartValid(RemoveAt(cart, FindItem(cart, user, product, size).value))
    ensures FindItem(RemoveAt(cart, FindItem(cart, user, product, size).value), user, product, size).None?
  {
    var i := FindItem(cart, user, product, size).value;
    var r := RemoveAt(cart, i);
    FoundIsOnly(cart, user, product, size);
    forall j | 0 <= j < |r|
      ensures Key(r[j]) != (user, product, size)
    {
      if j >= i { assert r[j] == cart[j + 1]; }
    }
    forall j, k | 0 <= j < k < |r|
      ensures Key(r[j]) != Key(r[k]) && r[j].id != r[k].id
    {
      var j', k' := if j < i then j else j + 1, if k < i then k else k + 1;
      assert r[j] == cart[j'] && r[k] == cart[k'];
    }
  }

  /** `Cart.findOneAndDelete({user, product, size})`: the first matching item, if any, is deleted. */
  function DeleteOne(cart: seq<CartItem>, user: Id, product: Id, size: string): (r: seq<CartItem>)
    ensures |r| == (if FindItem(cart, user, product, size).Some? then |cart| - 1 else |cart|)
    ensures FindItem(cart, user, product, size).None? ==> r == cart
    ensures FindItem(cart, user, product, size).Some? ==>
      var i := FindItem(cart, user, product, size).value;
      r == cart[..i] + cart[i + 1..]
  {
    match FindItem(cart, user, product, size)
    case None => cart
    case Some(i) => RemoveAt(cart, i)
  }

  /** In a valid cart, deleting the user's item for (product, size) keeps it valid and leaves none. */
  lemma DeleteOneValid(cart: seq<CartItem>, user: Id, product: Id, size: string)
    requires CartValid(cart)
    ensures CartValid(DeleteOne(cart, user, product, size))
    ensures FindItem(DeleteOne(cart, user, product, size), user, product, size).None?
    ensures forall x :: x in DeleteOne(cart, user, product, size) ==> x in cart
  {
    if FindItem(cart, user, product, size).Some? {
      RemoveFoundItem(cart, user, product, size);
      var i := FindItem(cart, user, product, size).value;
      forall x | x in DeleteOne(cart, user, product, size) ensures x in cart {
        assert x in multiset(RemoveAt(cart, i));
      }
    }
  }

  /** Removal undoes the addition of an item that was not in the cart. */
  lemma RemoveUndoesInsert(cart: seq<CartItem>, user: Id, product: Id, size: string, q: int, unit: int, newId: Id)
    requires FindItem(cart, user, product, size).None?
    ensures RemoveAt(Upsert(cart, user, product, size, q, unit, newId), |cart|) == cart
  {
    assert Upsert(cart, user, product, size, q, unit, newId)[..|cart|] == cart;
  }

  /**
   * `Cart.find({user})` (keep = true) and the part of the collection that
   * `Cart.deleteMany({user})` leaves behind (keep = false), in store order.
   */
  function Filter(cart: seq<CartItem>, user: Id, keep: bool): (r: seq<CartItem>)
    ensures |r| <= |cart|
    ensures forall x :: x in r <==> x in cart && (x.user == user) == keep
    decreases |cart|
  {
    if cart == [] then []
    else if (cart[0].user == user) == keep then [cart[0]] + Filter(cart[1..], user, keep)
    else Filter(cart[1..], user, keep)
  }

  /** Filtering keeps the items of the cart in their relative order: it distributes over concatenation. */
  lemma {:induction false} FilterAppend(a: seq<CartItem>, b: seq<CartItem>, user: Id, keep: bool)
    ensures Filter(a + b, user, keep) == Filter(a, user, keep) + Filter(b, user, keep)
    decreases |a|
  {
    if a != [] {
      assert (a + b)[0] == a[0];
      assert (a + b)[1..] == a[1..] + b;
      FilterAppend(a[1..], b, user, keep);
    } else {
      assert a + b == b;
    }
  }

  /** The tail of a valid cart is valid, and no item in it shares the head's key or id. */
  lemma TailValid(cart: seq<CartItem>)
    requires CartValid(cart) && cart != []
    ensures CartValid(cart[1..])
    ensures forall y :: y in cart[1..] ==> Key(y) != Key(cart[0]) && y.id != cart[0].id
  {
    var rest := cart[1..];
    forall j, k | 0 <= j < k < |rest|
      ensures Key(rest[j]) != Key(rest[k]) && rest[j].id != rest[k].id
    {
      assert rest[j] == cart[j + 1] && rest[k] == cart[k + 1];
    }
    forall y | y in rest
      ensures Key(y) != Key(cart[0]) && y.id != cart[0].id
    {
      var k :| 0 <= k < |rest| && rest[k] == y;
      assert cart[k + 1] == y;
    }
  }

  /** Putting in front of a valid cart an item whose key and id it does not hold keeps it valid. */
  lemma PrependValid(x: CartItem, s: seq<CartItem>)
    requires CartValid(s) && ValidCartItem(x)
    requires forall y :: y in s ==> Key(y) != Key(x) && y.id != x.id
    ensures CartValid([x] + s)
  {
    var r := [x] + s;
    forall j, k | 0 <= j < k < |r|
      ensures Key(r[j]) != Key(r[k]) && r[j].id != r[k].id
    {
      if j > 0 {
        assert r[j] == s[j - 1] && r[k] == s[k - 1];
      } else {
        assert r[k] in s;
      }
    }
  }

  /** Filtering a valid cart gives a valid cart. */
  lemma {:induction false} FilterValid(cart: seq<CartItem>, user: Id, keep: bool)
    requires CartValid(cart)
    ensures CartValid(Filter(cart, user, keep))
    decreases |cart|
  {
    if cart != [] {
      TailValid(cart);
      FilterValid(cart[1..], user, keep);
      if (cart[0].user == user) == keep {
        PrependValid(cart[0], Filter(cart[1..], user, keep));
      }
    }
  }

  /** The items of one user in a valid cart: no two share a (product, size). */
  lemma UserItemsDistinct(cart: seq<CartItem>, user: Id)
    requires CartValid(cart)
    ensures forall i, j :: 0 <= i < j < |Filter(cart, user, true)| ==>
      (Filter(cart, user, true)[i].product, Filter(cart, user, true)[i].size)
        != (Filter(cart, user, true)[j].product, Filter(cart, user, true)[j].size)
  {
    var items := Filter(cart, user, true);
    FilterValid(cart, user, true);
    forall i, j | 0 <= i < j < |items|
      ensures (items[i].product, items[i].size) != (items[j].product, items[j].size)
    {
      assert items[i] in items && items[j] in items;
      assert Key(items[i]) != Key(items[j]);
    }
  }
}
