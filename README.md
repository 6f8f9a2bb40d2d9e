# Storefront checkout and cart, modelled in Dafny

This project models the part of an e-commerce backend (Express + Mongoose)
that moves stock around. It has three collections:

- the catalog, where each product has a unit price and a list of
  (size label, quantity on hand) entries;
- the cart collection, with at most one item per (user, product, size); an
  item's price is the unit price at its last addition times its quantity (a
  later price change leaves stored items as they are);
- the order ledger, whose orders freeze their line items at purchase time.

Around these sit the account records that keep lists of cart item ids and
order ids. The model covers these request handlers:

- the user-side handlers that add to the cart, remove from it, buy one
  product directly, and buy the whole cart;
- the cart schema and its two hooks;
- the administrator's handlers that add a product, update it, and change
  an order's status;
- the account rules of user creation and user update.

Module layout, following the program's structure:

| file | module | what it holds |
|---|---|---|
| wrappers.dfy | Wrappers | `Option`, `Result` |
| errors.dfy | Errors | the error kinds the handlers answer with (HTTP codes dropped) |
| schema.dfy | Schema | the documents and their schema rules (`required`, `min`, `max`, `enum`, defaults) |
| inventory.dfy | Inventory | the catalog, the stock check every purchase and cart addition performs, and the decrement |
| cart.dfy | CartStore | the cart collection: lookup by (user, product, size), upsert, deletions, `find`/`deleteMany` by user |
| checkout.dfy | CheckoutEngine | the cart checkout as a pure function, both all-or-nothing and as the handler writes it |
| purchase.dfy | Purchase | the checks and the order document of the two purchase handlers |
| accounts.dfy | Accounts | account creation and update rules, and the `$addToSet`/`$pull`/`$push` reference lists |
| catalog_admin.dfy | CatalogAdmin | product creation and the field-by-field product update |
| store.dfy | Shop | class `Store`: the persistent state and one method per handler |

How the model is built:

- **State.** `Shop.Store` holds the catalog (`map<Id, Product>`), the cart
  collection, the ledger (`seq<Order>`; an order's id is its position), the
  accounts and a counter for fresh ids.
- **Invariant.** `Valid()` says that:
  - every document satisfies its schema;
  - product names and emails are unique;
  - the cart holds one item per (user, product, size);
  - every order is well formed: at least one line, each of at least one
    unit, and a total equal to the sum of its line prices;
  - every id in use is below the next fresh one.
- **Handlers.** Each handler checks everything first and then writes, so a
  refused request leaves the store unchanged (`unchanged(this)`).
- **Specifications.** Each handler's result and new state are tied to a pure
  specification function. The properties are proved about those functions.

The cart collection is a sequence in store (insertion) order, not a map
keyed by the triple: `Cart.find` returns items in store order, and the
cart checkout's line order follows it. Per-triple uniqueness is part of the
invariant and is proved to be preserved.

Where this model departs from the handler as written:

- **`buyFromCart` is modelled all-or-nothing.** The handler saves each
  product inside its validation loop, so a failure at a later item leaves
  the earlier decrements persisted. It also validates the order document
  (shipping address, payment method) only after those saves.
  `CheckoutEngine.CheckoutAsWritten` models the loop as written, and
  `Purchase.CartOrderAsWritten` the whole handler as written.
  `CheckoutEngine.Checkout` is the all-or-nothing version, and
  `CheckoutEngine.AsWrittenAgreesOnSuccess` proves the two answer alike and
  agree whenever every item passes.
- **`buyNow` writes both documents in one step.** The handler also checks
  everything (stock at line 416, the order schema on the save at line 434)
  before its first write, and the product save at line 438 cannot fail
  validation once the stock check has passed. It saves the order before it
  lowers the stock, so the two differ only when an I/O failure falls between
  the two saves, which this model does not represent.
- **One shared catalog.** In the cart checkout, all decrements act on one
  working copy of the catalog. `CheckoutEngine.CheckoutAgainstOriginal`
  shows this is the same as checking each item against the catalog as
  loaded, for the items of one user's cart, because no two of them share a
  (product, size).

## Model

| member | source | states |
|---|---|---|
| Schema.FindSize | Controllers/userController.js:239-241 | returns the index of the first size entry whose label matches, and None exactly when no entry carries the label |
| Schema.FindSizeSameLabels | Models/productModel.js:30-42 | the size lookup depends on the labels only, so changing quantities never changes which entry a later lookup resolves to |
| Schema.ParsePaymentMethod | Models/orderModel.js:36-40 | accepts exactly "COD" and "Online", and the parsed method's name is the input |
| Schema.PaymentMethodOrDefault | Controllers/userController.js:430 | a missing payment method becomes COD; a given one must pass the enum |
| Schema.PaymentMethodRoundTrip | Models/orderModel.js:36-40 | every payment method's name parses back to it |
| Schema.ParseStatus | Controllers/adminController.js:355-358 | accepts exactly "Pending", "Shipped" and "Delivered", and the parsed status's name is the input |
| Schema.StatusRoundTrip | Models/orderModel.js:41-45 | every status's name parses back to it |
| Schema.ParseRole | Models/userModel.js:22-26 | accepts exactly "admin" and "user", and the parsed role's name is the input |
| Inventory.CheckAvailable | Controllers/userController.js:231-255 | success means the product exists, the first entry with the label was found, and the quantity does not exceed its stock; the only refusals are NotFound, InvalidSize and InsufficientStock |
| Inventory.CheckAvailableRefusals | Controllers/userController.js:397-421 | NotFound exactly when the product is absent; InvalidSize exactly when no entry carries the label; InsufficientStock exactly when a label exists and the quantity exceeds the stock |
| Inventory.Decrement | Controllers/userController.js:436 | lowers entry k by q and changes no other entry and no other field |
| Inventory.Reserve | Controllers/userController.js:405-438 | fails exactly when the availability check fails, with its error; on success the line is priced at unit price times quantity |
| Inventory.ReserveEffect | Controllers/userController.js:436-438 | only the matched entry changes, and the stock of that (product, size) drops by exactly q |
| Inventory.ReserveKeepsCatalogValid | Models/productModel.js:30-42 | a reservation that passes the check keeps every stock at least 0 and every product valid |
| Inventory.ReserveDepletes | Controllers/userController.js:416-436 | for a quantity of at least one, the stock strictly drops and stays at least 0 |
| Inventory.NegativeQuantityRestocks | Controllers/userController.js:416-436 | the check as written lets a quantity of -3 through: stock rises from 5 to 8 and the line costs -60 |
| CartStore.FindItem | Controllers/userController.js:257-261 | finds the first item with the (user, product, size) key, and None exactly when no item has it |
| CartStore.Upsert | Controllers/userController.js:257-298 | the keyed item ends with the held quantity plus q, priced at unit times that quantity, keeping its old id or taking the fresh one; it stays in place or is appended; other items are unchanged; unique keys stay unique |
| CartStore.UpsertTwice | Controllers/userController.js:263-275 | adding a then b units is adding a + b at once: the key never gets a second item |
| CartStore.UpsertKeepsValid | Models/cartModel.js:4-33 | an addition that leaves at least one unit and uses an unused id keeps the cart valid |
| CartStore.RemoveAt | Controllers/userController.js:335 | deletes exactly one item and keeps the others in order |
| CartStore.RemoveFoundItem | Controllers/userController.js:322-335 | deleting the found item keeps the cart valid and leaves no item with that key |
| CartStore.DeleteOne | Controllers/userController.js:440 | one item shorter exactly when an item matches; then the first match is removed and the others keep their order; otherwise the cart is unchanged |
| CartStore.DeleteOneValid | Controllers/userController.js:440 | the deletion keeps the cart valid, leaves no item with the key, and adds no item |
| CartStore.RemoveUndoesInsert | Controllers/userController.js:288-298 | removing a newly appended item restores the cart |
| CartStore.Filter | Controllers/userController.js:466 | keeps the user's items (or all the others), and membership is exactly that condition |
| CartStore.FilterAppend | Controllers/userController.js:466 | filtering keeps store order: it distributes over concatenation |
| CartStore.FilterValid | Controllers/userController.js:528 | what the user filter and `deleteMany` leave of a valid cart is valid |
| CartStore.UserItemsDistinct | Controllers/userController.js:466-478 | in a valid cart, no two of one user's items share a (product, size) |
| CheckoutEngine.Step | Controllers/userController.js:481-511 | one more item: an earlier failure is kept; otherwise it fails exactly when the item is unavailable, with that error, and on success appends the item's line at unit price times quantity and adds its price to the total |
| CheckoutEngine.Checkout | Controllers/userController.js:478-512 | the items checked in cart order against one shared catalog, committing nothing on failure; a success has one line per item |
| CheckoutEngine.StepAsWritten | Controllers/userController.js:481-511 | one iteration as written: an earlier failure is kept; the item fails exactly when unavailable against what is already saved, and a failing item adds no save of its own but keeps the earlier ones |
| CheckoutEngine.CheckoutAsWritten | Controllers/userController.js:478-511 | the loop as written, saving each product as it goes; a success has one line per item |
| CheckoutEngine.CheckoutDecrements | Controllers/userController.js:478-512 | after a successful checkout, every (product, size) has lost exactly the units the items bought of it, and nothing else changed |
| CheckoutEngine.CheckoutSameShape | Controllers/userController.js:509-511 | a checkout changes stock quantities only |
| CheckoutEngine.CheckoutLines | Controllers/userController.js:499-507 | one line per item, in cart order, each priced at the unit price before the checkout times the item's quantity |
| CheckoutEngine.CheckoutTotal | Controllers/userController.js:499-500 | the total is the sum of the line prices |
| CheckoutEngine.CheckoutKeepsCatalogValid | Controllers/userController.js:492-509 | a successful checkout never takes a stock below 0 |
| CheckoutEngine.CheckoutPrefixStep | Controllers/userController.js:478 | checking one more item is one more step after the earlier items |
| CheckoutEngine.PrefixFailure | Controllers/userController.js:485-497 | once item k fails, the whole checkout fails with item k's error |
| CheckoutEngine.AvailabilityUntouched | Controllers/userController.js:481-497 | an item no earlier item competes with sees the availability it had before the checkout |
| CheckoutEngine.CheckoutAgainstOriginal | Controllers/userController.js:466-497 | for the items of one cart, the checkout succeeds if and only if each item on its own is available in the catalog as loaded |
| CheckoutEngine.AsWrittenAgreesOnSuccess | Controllers/userController.js:478-512 | the handler's loop as written gives the same answer as the all-or-nothing checkout, and the same catalog whenever every item passes |
| CheckoutEngine.PartialDecrementPersists | Controllers/userController.js:485-511 | a cart of two M and one L, with no L in stock, fails at the L item, yet the handler has already saved M down from 5 to 3; the all-or-nothing checkout fails the same way |
| CheckoutEngine.ShirtScenario | Controllers/userController.js:416-496 | buying 3 of 5 directly (lines 416-436) leaves 2 at a line price of 60, after which a cart checkout of 4 fails for stock (lines 492-496) |
| Purchase.DirectOrder | Controllers/userController.js:397-438 | the refusals in the handler's order, then InvalidQuantity below 1, then the order schema; the order has one line at unit price times quantity, a total equal to that price, COD by default and status Pending, and it is well formed; that size's stock drops by exactly the quantity and stays at least 0 |
| Purchase.CartOrder | Controllers/userController.js:466-522 | EmptyCart, then the first failing item's error, then the order schema; the order carries the checkout's lines and total, COD by default, status Pending |
| Purchase.CartOrderAsWritten | Controllers/userController.js:461-522 | the whole handler as written: it answers exactly as the all-or-nothing cart order does, and on success stores the same catalog and order; whatever the answer, the catalog left stored is what the loop as written saved |
| Purchase.LateValidationPersists | Controllers/userController.js:509-522 | a valid cart of two M (5 on hand) with no shipping address is refused by the order schema, yet the handler has already saved M down to 3; the all-or-nothing cart order is refused the same way |
| Purchase.CartOrderFacts | Controllers/userController.js:475-520 | a placed cart order lowers each (product, size) by the units bought, lists the lines in cart order at the old unit prices, totals their sum, and is well formed for items of at least one unit |
| Accounts.NewAccount | Controllers/userController.js:14-45 | fails exactly when a field is missing, a given role is outside the enum, or the email is in use, with those errors in that order; the account gets the given role, "user" by default, and empty lists |
| Accounts.NewAccountKeepsValid | Models/userModel.js:9-16 | storing a created account keeps names and emails present and emails unique |
| Accounts.UpdatedAccount | Controllers/userController.js:156-187 | NotFound, then an email held by another account, then a bad role; a given field replaces the old one, and a missing one (and the cart and order lists) is kept |
| Accounts.UpdatedAccountKeepsValid | Models/userModel.js:11-16 | a successful update keeps emails unique |
| Accounts.UpdatedAccountIdempotent | Controllers/userController.js:167-185 | repeating an update returns the account the first one stored |
| Accounts.AddToSet | Controllers/userController.js:277-279 | the id is present afterwards, nothing else is added, an id already there changes nothing, and an absent id is appended at the end |
| Accounts.Pull | Controllers/userController.js:337-339 | every occurrence of the id is removed and nothing else |
| Accounts.PullUndoesAddToSet | Controllers/userController.js:337-339 | pulling an id that was added to a list without it restores the list |
| Accounts.AddCartRef | Controllers/userController.js:300-302 | only the buyer's cart list changes |
| Accounts.PullCartRef | Controllers/userController.js:337-339 | only the buyer's cart list changes |
| Accounts.PushOrder | Controllers/userController.js:442-444 | only the buyer's order list changes, by appending the order id |
| Accounts.RefsKeepValid | Controllers/userController.js:524-526 | changing reference lists keeps the accounts valid |
| Accounts.PullCartRefUndoesAdd | Controllers/userController.js:337-339 | removing a cart reference undoes adding it |
| CatalogAdmin.NewProduct | Controllers/adminController.js:83-129 | fails exactly when some check fails, and then with the first failing check's error in the handler's order: MissingFields for an absent or empty field (a price or rating of 0 is present, as a form string) or a missing file or sizes, NameTaken for a name in use, InvalidSizes for sizes that are not a non-empty array, UploadFailed for a failed upload, SchemaViolation for a product breaking its schema; on success the product is built from the fields and is valid |
| CatalogAdmin.NewProductAcceptsZero | Models/productModel.js:15-25 | a product with a price and a rating of 0 (form strings that are present) is created, not refused |
| CatalogAdmin.NewProductKeepsValid | Models/productModel.js:6-10 | storing a new product keeps names unique and every product valid |
| CatalogAdmin.Patch | Controllers/adminController.js:166-169 | name and description replaced only when given, price and rating whenever present (0 included) |
| CatalogAdmin.PatchNothing | Controllers/adminController.js:166-169 | a patch with no fields is the identity |
| CatalogAdmin.PatchIdempotent | Controllers/adminController.js:166-169 | patching twice is patching once |
| CatalogAdmin.Updated | Controllers/adminController.js:166-198 | the product the update would store: the patched fields, the sizes replaced wholesale when an array is given, the image replaced when one was uploaded |
| CatalogAdmin.UpdatedProduct | Controllers/adminController.js:159-202 | NotFound for an unknown id; otherwise fails exactly when the given sizes are not a non-empty array, the upload failed, the patched product breaks its schema, or another product holds its name, with those errors in that order; every update passing them is stored as patched, valid, and with a name no other product holds |
| CatalogAdmin.UpdatedProductKeepsValid | Models/productModel.js:4-42 | a successful update keeps names unique and every product valid |
| CatalogAdmin.UpdatedProductIdempotent | Controllers/adminController.js:166-202 | repeating an update returns the product the first one stored |
| Shop.AddToCartKeepsInvariant | Controllers/userController.js:257-302 | a cart addition that passes its checks keeps the store invariant |
| Shop.BuyNowKeepsInvariant | Controllers/userController.js:434-444 | a direct purchase that passes its checks keeps the store invariant |
| Shop.CartOrderKeepsParts | Controllers/userController.js:509-520 | a placed cart order of items of at least one unit keeps the catalog valid and its shape, and the order is well formed |
| Shop.BuyFromCartKeepsInvariant | Controllers/userController.js:509-528 | a cart purchase that passes its checks keeps the store invariant |
| Shop.Store.CreateUser | Controllers/userController.js:14-79 | refuses exactly as account creation does, changing nothing; otherwise stores the account under a fresh id and nothing else |
| Shop.Store.UpdateUser | Controllers/userController.js:156-222 | refuses exactly as the account update does, changing nothing; otherwise replaces that account only |
| Shop.Store.PreSaveCartItem | Models/cartModel.js:35-64 | refuses an item breaking the cart schema, then a missing product, an unknown size or too little stock; the saved item is the input with its price overwritten by unit price times quantity |
| Shop.Store.PreUpdateCartItem | Models/cartModel.js:66-97 | takes the product from the update, else from the filter; NotFound, InvalidSize, and with a quantity InsufficientStock exactly when the availability check fails; an update without a quantity for a known product and size passes; the price is overwritten from the quantity |
| Shop.Store.AddToCart | Controllers/userController.js:226-316 | fails exactly on the availability check, on a merged quantity above stock, or on a total below 1, changing nothing; otherwise the cart is the upsert (one item per key, price unit times new quantity), the item id is added to the user's cart list, and nothing else changes |
| Shop.Store.RemoveFromCart | Controllers/userController.js:318-352 | NotFound exactly when no item has the key, changing nothing; otherwise deletes that item, pulls its id from the user's list, and changes nothing else |
| Shop.Store.CommitCart | Controllers/userController.js:275-302 | the cart handlers' write: stores the new cart, accounts and next id, keeps the catalog and ledger, and keeps the invariant |
| Shop.Store.CommitOrder | Controllers/userController.js:434-444 | the purchase handlers' write: stores the lowered catalog and the new cart, appends the order under the next ledger position, pushes that id to the buyer, and keeps the invariant |
| Shop.Store.BuyNow | Controllers/userController.js:391-458 | fails exactly when the direct order is refused, changing nothing; otherwise appends that order, stores the lowered catalog, deletes the matching cart item, and pushes the order id |
| Shop.Store.ReserveItems | Controllers/userController.js:475-512 | the loop over the cart items computes exactly the all-or-nothing checkout |
| Shop.Store.BuyFromCart | Controllers/userController.js:461-542 | fails exactly when the cart order is refused, changing nothing; otherwise appends the order, stores the lowered catalog, deletes exactly the user's items, and pushes the order id |
| Shop.Store.SetOrderStatus | Controllers/adminController.js:353-392 | InvalidStatus before NotFound, both changing nothing; otherwise only that order's status changes, to any status from any status |
| Shop.Store.AddProduct | Controllers/adminController.js:79-152 | refuses exactly as product creation does, changing nothing; otherwise stores the product under a fresh id and nothing else |
| Shop.Store.UpdateProduct | Controllers/adminController.js:154-225 | refuses exactly as the product update does, changing nothing; otherwise replaces that product only |

## Left out

- Password hashing, JWT issuing and checking, and login: the authenticated user id is a method parameter. The password argument of `updateUser` is not modelled, since only its hash would change.
- The `isEmail` validator and the password's minimum length are not modelled: they are string checks from a foreign library. A user email is required to be non-empty only.
- Image upload, destroy and local file removal are external I/O. The upload's outcome is the `ImageUpload` parameter (no file, a URL, or a failure).
- `JSON.parse` of the sizes field is not modelled: the parsed value is the `SizesField` parameter.
- Express routing, the response bodies and HTTP status codes are not modelled: each refusal is one `Error` kind.
- Mongoose `populate`, timestamps, newest-first sorting and the plain list and get-by-id queries are not modelled: they only read the state.
- Product deletion (`deleteProduct`) and user deletion (`deleteUser`) are not modelled. They do change the state: they remove a catalog entry or an account, leaving cart items, orders and reference lists that name it. The model never removes either, but its cart checkout still refuses an item whose product is absent.
- Concurrency is not modelled: each request is one sequential step.
- JavaScript numbers are modelled as unbounded integers, with no floats and no NaN. A numeric field is absent (`None`) or a number. The product handlers receive multipart form strings, so a 0 is a present value. On product creation `None` is an absent or empty field; on product update `None` is a field not sent.
- Shop.Store.PreUpdateCartItem: without a quantity in the update, the price is left absent, where the source writes NaN.
- Purchase.CartOrder: an item whose product was deleted is refused with NotFound, where the source fails on the missing populated product and answers 500.
- CatalogAdmin.UpdatedProduct: a price or rating sent blank (`""`) is not representable; the source assigns it, Mongoose casts it to null, and the `required` rule refuses the save with 400, so nothing is stored.
- CatalogAdmin.UpdatedProduct: a name another product holds is refused with NameTaken, where the source lets the unique index refuse the save and answers 500.
- Cart item ids deleted by `Cart.findOneAndDelete` and `Cart.deleteMany` stay in the user's cart list, as in the source; the model keeps them rather than pulling them.

## Findings

| source | as written | input that shows it | evidently intended | confidence | as-written member | corrected member |
|---|---|---|---|---|---|---|
| Controllers/userController.js:509-511 | `buyFromCart` saves each product inside the validation loop, before later items are checked | product 1 with sizes M (5 on hand) and L (none); a cart of 2 M then 1 L is refused for stock, yet M has been saved down to 3 | all checks pass before any write, so a refused purchase changes nothing | not executed | CheckoutEngine.PartialDecrementPersists | Shop.Store.BuyFromCart |
| Controllers/userController.js:509-522 | `buyFromCart` validates the order document only after the loop has saved every product | product 1 with 5 of size M on hand; a cart of 2 M with no shipping address is refused by the order schema, yet M has been saved down to 3 and the cart is kept | the order document is checked before any write, so a refused purchase changes nothing | not executed | Purchase.LateValidationPersists | Shop.Store.BuyFromCart |
| Controllers/userController.js:416-436 | `buyNow` checks only that the quantity does not exceed the stock | quantity -3 of a size with 5 on hand: the order is placed, the stock rises to 8 and the line costs -60 | a purchase buys at least one unit and never raises the stock | not executed | Inventory.NegativeQuantityRestocks | Purchase.DirectOrder |
