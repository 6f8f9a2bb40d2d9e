/**
 * The documents of the storefront and the constraints their schemas put on
 * them: products with per-size stock, cart items, orders with frozen line
 * items, and accounts. A schema's `required`, `min`, `max` and `enum` rules
 * become the validity predicates below; a string field that is missing is
 * modelled as the empty string, which a `required` rule also refuses.
 */
module Schema {
  import opened Wrappers

  /** Document identities (Mongo ObjectIds). */
  type Id = nat

  /** One (size label, quantity on hand) entry of a product. */
  datatype SizeStock = SizeStock(size: string, quantity: int)

  datatype Product = Product(
    name: string,
    description: string,
    price: int,
    rating: int,
    image: string,
    sizes: seq<SizeStock>)

  /** A size entry needs a label and a quantity of at least 0. */
  predicate ValidSizeStock(s: SizeStock)
  {
    s.size != "" && s.quantity >= 0
  }

  /**
   * The product schema: all fields required, price at least 0, rating between
   * 0 and 5. Size labels are NOT required to be distinct.
   */
  predicate ValidProduct(p: Product)
  {
    && p.name != ""
    && p.description != ""
    && p.price >= 0
    && 0 <= p.rating <= 5
    && p.image != ""
    && forall j :: 0 <= j < |p.sizes| ==> ValidSizeStock(p.sizes[j])
  }

  /** Entry j is the first one carrying its label. */
  predicate IsFirst(sizes: seq<SizeStock>, j: nat)
    requires j < |sizes|
  {
    forall k :: 0 <= k < j ==> sizes[k].size != sizes[j].size
  }

  /**
   * `product.sizes.find(o => o.size === size)`: the index of the first entry
   * whose label is `size`, or None when no entry has it.
   */
  function FindSize(sizes: seq<SizeStock>, size: string): (r: Option<nat>)
    ensures r.Some? ==> r.value < |sizes| && sizes[r.value].size == size && IsFirst(sizes, r.value)
    ensures r.None? <==> forall j :: 0 <= j < |sizes| ==> sizes[j].size != size
    decreases |sizes|
  {
    if sizes == [] then None
    else if sizes[0].size == size then Some(0)
    else match FindSize(sizes[1..], size)
      case None => None
      case Some(k) => Some(k + 1)
  }

  /** FindSize looks at the labels only: two entry lists with the same labels answer alike. */
  lemma FindSizeSameLabels(a: seq<SizeStock>, b: seq<SizeStock>, size: string)
    requires |a| == |b|
    requires forall j :: 0 <= j < |a| ==> a[j].size == b[j].size
    ensures FindSize(a, size) == FindSize(b, size)
  {
  }

  /** A cart item: one user's wish for a quantity of one size of one product. */
  datatype CartItem = CartItem(
    id: Id,
    user: Id,
    product: Id,
    size: string,
    quantity: int,
    price: int)

  /** The cart schema: size required, quantity at least 1. */
  predicate ValidCartItem(c: CartItem)
  {
    c.size != "" && c.quantity >= 1
  }

  datatype PaymentMethod = COD | Online

  datatype Status = Pending | Shipped | Delivered

  /** An order line item, a snapshot taken at purchase time. */
  datatype OrderLine = OrderLine(product: Id, quantity: int, size: string, price: int)

  datatype Order = Order(
    user: Id,
    lines: seq<OrderLine>,
    totalAmount: int,
    paymentMethod: PaymentMethod,
    status: Status,
    shippingAddress: string)

  /** The sum of the line prices; earlier lines first. */
  function SumPrices(lines: seq<OrderLine>): int
  {
    if lines == [] then 0 else SumPrices(lines[..|lines| - 1]) + lines[|lines| - 1].price
  }

  /** The order schema's own rule: it requires a shipping address. */
  predicate ValidOrderDocument(o: Order)
  {
    o.shippingAddress != ""
  }

  /**
   * What every order in the ledger satisfies: a valid document, at least one
   * line, each line of at least one unit, and a total that is the sum of the
   * line prices.
   */
  predicate WellFormedOrder(o: Order)
  {
    && ValidOrderDocument(o)
    && |o.lines| >= 1
    && (forall i :: 0 <= i < |o.lines| ==> o.lines[i].quantity >= 1)
    && o.totalAmount == SumPrices(o.lines)
  }

  function PaymentMethodName(m: PaymentMethod): string
  {
    match m
    case COD => "COD"
    case Online => "Online"
  }

  /** The `enum: ["COD", "Online"]` rule of the order schema. */
  function ParsePaymentMethod(s: string): (r: Option<PaymentMethod>)
    ensures r.Some? <==> s == "COD" || s == "Online"
    ensures r.Some? ==> PaymentMethodName(r.value) == s
  {
    if s == "COD" then Some(COD)
    else if s == "Online" then Some(Online)
    else None
  }

  /** `paymentMethod || "COD"` followed by the enum rule: a missing method becomes COD. */
  function PaymentMethodOrDefault(s: string): (r: Option<PaymentMethod>)
    ensures s == "" ==> r == Some(COD)
    ensures s != "" ==> r == ParsePaymentMethod(s)
  {
    ParsePaymentMethod(if s == "" then "COD" else s)
  }

  function StatusName(st: Status): string
  {
    match st
    case Pending => "Pending"
    case Shipped => "Shipped"
    case Delivered => "Delivered"
  }

  /** `["Pending", "Shipped", "Delivered"].includes(status)`; a missing status is not included. */
  function ParseStatus(s: string): (r: Option<Status>)
    ensures r.Some? <==> s == "Pending" || s == "Shipped" || s == "Delivered"
    ensures r.Some? ==> StatusName(r.value) == s
  {
    if s == "Pending" then Some(Pending)
    else if s == "Shipped" then Some(Shipped)
    else if s == "Delivered" then Some(Delivered)
    else None
  }

  /** Every status has a name that parses back to it. */
  lemma StatusRoundTrip(st: Status)
    ensures ParseStatus(StatusName(st)) == Some(st)
  {
    match st
    case Pending =>
    case Shipped =>
    case Delivered =>
  }

  /** Every payment method has a name that parses back to it. */
  lemma PaymentMethodRoundTrip(m: PaymentMethod)
    ensures ParsePaymentMethod(PaymentMethodName(m)) == Some(m)
  {
    match m
    case COD =>
    case Online =>
  }

  datatype Role = Admin | User

  function RoleName(role: Role): string
  {
    match role
    case Admin => "admin"
    case User => "user"
  }

  /** `["admin", "user"].includes(role)`. */
  function ParseRole(s: string): (r: Option<Role>)
    ensures r.Some? <==> s == "admin" || s == "user"
    ensures r.Some? ==> RoleName(r.value) == s
  {
    if s == "admin" then Some(Admin)
    else if s == "user" then Some(User)
    else None
  }

  /** An account, with its back-reference lists of cart item ids and order ids. */
  datatype Account = Account(
    name: string,
    email: string,
    role: Role,
    cart: seq<Id>,
    orders: seq<Id>)
}
