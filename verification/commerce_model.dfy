/** The records of the commerce service and the store that holds them.

    Time is an integer number of minutes since 1970-01-01T00:00Z; the
    service's "today" is the UTC day. A `date` column (a batch's production
    and expiration dates) holds the minute its day starts. Each table is a
    sequence of rows in insertion order. A reservation is identified by its
    position in its table; every other record carries its own id. */
module CommerceModel {
  import opened Common

  const MinutesPerDay: int := 1440

  /** Midnight of the day holding `t` (`setHours(0, 0, 0, 0)`). */
  function StartOfDay(t: int): (r: int)
    ensures r <= t < r + MinutesPerDay
    ensures r % MinutesPerDay == 0
  {
    t - t % MinutesPerDay
  }

  /** A later instant never falls on an earlier day. */
  lemma StartOfDayMonotone(a: int, b: int)
    requires a <= b
    ensures StartOfDay(a) <= StartOfDay(b)
  {
  }

  /** A day start is its own day start. */
  lemma StartOfDayOfMidnight(d: int)
    requires d % MinutesPerDay == 0
    ensures StartOfDay(d) == d
  {
  }

  datatype BatchStatus = Active | Depleted | Expired | ManualOut | Deleted

  datatype ReservationStatus = Active | Released | Consumed | Expired

  datatype MovementType = Restock | Sale | Adjustment | ManualOut | ExpiredRemoval

  datatype OrderStatus =
    | PendingKioskConfirmation
    | Accepted
    | Rejected
    | ReadyForPayment
    | Paid
    | CancelRequested
    | Cancelled
    | AutoRejectedTimeout

  datatype CartStatus = Active | Abandoned | Checkout

  /** A decimal price column: the stored text and what `parseFloat` makes
      of it (`None` for `NaN`). */
  datatype Price = Price(text: string, value: Option<real>)

  datatype Product = Product(
    id: string, kioskUserId: int, name: string, category: string,
    unitMeasure: Option<string>, customUnitMeasure: Option<string>,
    price: Price, durationDays: int, description: Option<string>,
    photos: seq<string>, active: bool, createdAt: int, deletedAt: Option<int>)

  datatype Batch = Batch(
    id: string, productId: string, productionDate: int, expirationDate: int,
    initialQuantity: int, currentQuantity: int, reservedQuantity: int,
    status: BatchStatus, createdAt: int)

  datatype Reservation = Reservation(
    batchId: string, productId: string, orderId: string, kioskUserId: int,
    quantity: int, status: ReservationStatus, expiresAt: int, createdAt: int)

  datatype Movement = Movement(batchId: string, kind: MovementType, delta: int, createdAt: int)

  datatype Order = Order(
    id: string, checkoutSessionId: string, userId: string, kioskUserId: int,
    status: OrderStatus, subtotalProducts: string,
    acceptedAt: Option<int>, rejectedAt: Option<int>, paidAt: Option<int>,
    expiresAt: Option<int>, paymentInfo: Option<string>,
    createdAt: int, updatedAt: int)

  datatype OrderItem = OrderItem(
    id: string, orderId: string, productId: string, quantity: int,
    unitPrice: string, totalPrice: string)

  datatype Cart = Cart(
    id: string, userId: string, status: CartStatus, lastActivityAt: Option<int>,
    createdAt: int, updatedAt: int, deletedAt: Option<int>)

  datatype CartItem = CartItem(id: string, cartId: string, productId: string, quantity: int)

  datatype Store = Store(
    products: seq<Product>, batches: seq<Batch>, reservations: seq<Reservation>,
    movements: seq<Movement>, orders: seq<Order>, orderItems: seq<OrderItem>,
    carts: seq<Cart>, cartItems: seq<CartItem>)

  /** What a service call leaves behind: the store after its writes (kept
      even when it fails part-way, as outside a transaction) and its value
      or error. */
  datatype Outcome<T> = Outcome(store: Store, result: Result<T, string>)
}
