/** `CartService`: a user's shopping cart. Lines are checked against the
    product (present and active) and against the stock of its sellable
    batches; the totals read each line's product price with `parseFloat`;
    two maintenance jobs abandon idle carts and soft-delete old abandoned
    ones. Nothing runs in a transaction: a cart created at the start of a
    failing `addItem` stays. */
module CartService {
  import opened Common
  import opened Tables
  import opened CommerceModel
  import opened JsText
  import opened CartRepository
  import BatchRepository
  import ProductService

  const InactivityThresholdMinutes: int := 30
  const CleanupAbandonedAfterDays: int := 7

  const QuantityMessage := "Quantity must be greater than zero"
  const UnavailableMessage := "Product not found or not available"
  const ItemNotFoundMessage := "Item not found in cart"
  const CartNotFoundMessage := "Cart not found"
  /** What JavaScript throws when a line's product relation came back
      null (the product row is missing or soft-deleted) and its price is
      read. */
  const NullProductMessage := "Cannot read properties of null (reading 'price')"

  function InsufficientMessage(available: int, solicited: int): string
  {
    "Insufficient stock. Available: " + IntToString(available) + ", Solicited: " + IntToString(solicited)
  }

  // ---------------------------------------------------------------------------
  // Stock and product checks
  // ---------------------------------------------------------------------------

  /** `getProductCurrentQuantity`: Σ currentQuantity over the product's
      sellable batches (`findActiveByProductId`). */
  function CurrentQuantity(bs: seq<Batch>, productId: string, now: int): int
  {
    SumOf(BatchRepository.FindActiveByProductId(bs, productId, now), BatchRepository.Quantity)
  }

  /** A batch's share of the cart stock: its current quantity when it is
      sellable for the product, nothing otherwise. */
  function SellableQuantity(productId: string, now: int): Batch -> int
  {
    (b: Batch) => if BatchRepository.Sellable(b, productId, now) then b.currentQuantity else 0
  }

  /** The cart stock is the current quantity summed over the sellable
      batches, in any order. */
  lemma CurrentQuantityIsSellableSum(bs: seq<Batch>, productId: string, now: int)
    ensures CurrentQuantity(bs, productId, now) == SumOf(bs, SellableQuantity(productId, now))
  {
    var sellable := (b: Batch) => BatchRepository.Sellable(b, productId, now);
    SumOfFilter(bs, sellable, BatchRepository.Quantity, SellableQuantity(productId, now));
    SumOfPermutation(BatchRepository.FindActiveByProductId(bs, productId, now), Filter(bs, sellable), BatchRepository.Quantity);
  }

  /** Reservations do not lower the cart stock: batches that differ only in
      their reserved quantity give the same stock. */
  lemma CurrentQuantityIgnoresReserved(bs: seq<Batch>, other: seq<Batch>, productId: string, now: int)
    requires |other| == |bs|
    requires forall i :: 0 <= i < |bs| ==> other[i] == bs[i].(reservedQuantity := other[i].reservedQuantity)
    ensures CurrentQuantity(other, productId, now) == CurrentQuantity(bs, productId, now)
  {
    CurrentQuantityIsSellableSum(bs, productId, now);
    CurrentQuantityIsSellableSum(other, productId, now);
    SumOfPairwise(other, bs, SellableQuantity(productId, now), SellableQuantity(productId, now));
  }

  /** The product is present (not soft-deleted) and active. */
  predicate Available(ps: seq<Product>, productId: string)
  {
    match ProductService.FindById(ps, productId)
    case None => false
    case Some(k) => ps[k].active
  }

  /** `validateProduct`. */
  function ValidateProduct(ps: seq<Product>, productId: string): (r: Result<Product, string>)
    ensures r.Ok? <==> Available(ps, productId)
    ensures r.Ok? ==> r.value in ps && r.value.id == productId && r.value.active && r.value.deletedAt.None?
    ensures r.Err? ==> r.error == UnavailableMessage
  {
    match ProductService.FindById(ps, productId)
    case None => Err(UnavailableMessage)
    case Some(k) => if ps[k].active then Ok(ps[k]) else Err(UnavailableMessage)
  }

  // ---------------------------------------------------------------------------
  // The cart and its lines
  // ---------------------------------------------------------------------------

  /** `getOrCreateCart`: the user's active cart, or a new empty ACTIVE one
      whose last activity is now. */
  function GetOrCreateCart(st: Store, userId: string, newId: string, now: int): (r: (Store, Cart))
    ensures r.1.userId == userId && r.1.status.Active? && Live(r.1)
    ensures FindActiveByUserId(r.0.carts, userId).Some? && r.0.carts[FindActiveByUserId(r.0.carts, userId).value] == r.1
    ensures r.0 == st.(carts := r.0.carts)
    ensures FindActiveByUserId(st.carts, userId).Some? ==> r.0 == st
    ensures FindActiveByUserId(st.carts, userId).None? ==>
      r.0.carts == st.carts + [r.1] && r.1.id == newId && r.1.lastActivityAt == Some(now)
  {
    match FindActiveByUserId(st.carts, userId)
    case Some(k) => (st, st.carts[k])
    case None =>
      var c := Cart(newId, userId, CartStatus.Active, Some(now), now, now, None);
      assert (st.carts + [c])[|st.carts|] == c;
      (st.(carts := st.carts + [c]), c)
  }

  /** Asking again gives the same cart and writes nothing. */
  lemma GetOrCreateCartIdempotent(st: Store, userId: string, newId: string, now: int, laterId: string, later: int)
    ensures var r := GetOrCreateCart(st, userId, newId, now);
      GetOrCreateCart(r.0, userId, laterId, later) == r
  {
  }

  /** `updateCartActivity`. */
  function Touch(st: Store, cartId: string, now: int): Store
  {
    st.(carts := UpdateActivity(st.carts, cartId, now))
  }

  /** `findActiveByUserIdWithItems`. */
  function ActiveCartOf(cs: seq<Cart>, userId: string): Option<Cart>
  {
    match FindActiveByUserId(cs, userId)
    case None => None
    case Some(k) => Some(cs[k])
  }

  /** The quantity on the cart's line for the product, 0 without one. */
  function LineQuantity(items: seq<CartItem>, cartId: string, productId: string): int
  {
    match FindByCartAndProduct(items, cartId, productId)
    case None => 0
    case Some(k) => items[k].quantity
  }

  /** `updateItemQuantity`: quantity first, then the item, then the stock
      of its product; on success the item's quantity is set exactly and its
      cart's activity is updated. */
  function UpdateItemQuantity(st: Store, itemId: string, newQuantity: int, now: int): (o: Outcome<CartItem>)
    ensures o.result.Err? ==> o.store == st
    ensures newQuantity <= 0 ==> o.result == Err(QuantityMessage)
    ensures newQuantity > 0 && FindItem(st.cartItems, itemId).None? ==> o.result == Err(ItemNotFoundMessage)
    ensures newQuantity > 0 && FindItem(st.cartItems, itemId).Some? ==>
      var item := st.cartItems[FindItem(st.cartItems, itemId).value];
      var stock := CurrentQuantity(st.batches, item.productId, now);
      (newQuantity > stock ==> o.result == Err(InsufficientMessage(stock, newQuantity)))
      && (newQuantity <= stock ==>
            o.result == Ok(item.(quantity := newQuantity)) && o.store == Touch(st, item.cartId, now).(cartItems := o.store.cartItems))
    ensures o.result.Ok? ==>
      |o.store.cartItems| == |st.cartItems|
      && (forall i :: 0 <= i < |st.cartItems| && st.cartItems[i].id == itemId ==> o.store.cartItems[i] == st.cartItems[i].(quantity := newQuantity))
      && (forall i :: 0 <= i < |st.cartItems| && st.cartItems[i].id != itemId ==> o.store.cartItems[i] == st.cartItems[i])
  {
    if newQuantity <= 0 then Outcome(st, Err(QuantityMessage))
    else match FindItem(st.cartItems, itemId)
      case None => Outcome(st, Err(ItemNotFoundMessage))
      case Some(k) =>
        var item := st.cartItems[k];
        var stock := CurrentQuantity(st.batches, item.productId, now);
        if newQuantity > stock then Outcome(st, Err(InsufficientMessage(stock, newQuantity)))
        else
          var written := Touch(st, item.cartId, now).(cartItems := SetQuantity(st.cartItems, itemId, newQuantity));
          Outcome(written, Ok(written.cartItems[k]))
  }

  /** The line `addItem` writes for a product already in the cart: its
      quantity raised by `quantity`, through `updateItemQuantity`, which
      finds the row by id and re-checks the stock. */
  function AddToLine(s1: Store, cart: Cart, userId: string, k: nat, quantity: int, now: int): (o: Outcome<Option<Cart>>)
    requires k < |s1.cartItems|
    ensures o.result.Err? ==> o.store == s1
    ensures o.store.products == s1.products && o.store.batches == s1.batches
    ensures o.result.Ok? ==>
      o.store.cartItems == SetQuantity(s1.cartItems, s1.cartItems[k].id, s1.cartItems[k].quantity + quantity)
      && s1.cartItems[k].quantity + quantity <= CurrentQuantity(s1.batches, s1.cartItems[FindItem(s1.cartItems, s1.cartItems[k].id).value].productId, now)
  {
    var u := UpdateItemQuantity(s1, s1.cartItems[k].id, s1.cartItems[k].quantity + quantity, now);
    if u.result.Err? then Outcome(u.store, Err(u.result.error))
    else
      var s := Touch(u.store, cart.id, now);
      Outcome(s, Ok(ActiveCartOf(s.carts, userId)))
  }

  /** The last step of `addItem`, once the product and the stock have
      passed: raise the existing line or add a new one, then record the
      cart's activity. */
  function PlaceLine(s1: Store, cart: Cart, userId: string, productId: string, quantity: int, newItemId: string, now: int): (o: Outcome<Option<Cart>>)
    ensures o.result.Err? ==> o.store == s1
    ensures o.store.products == s1.products && o.store.batches == s1.batches
  {
    match FindByCartAndProduct(s1.cartItems, cart.id, productId)
    case Some(k) => AddToLine(s1, cart, userId, k, quantity, now)
    case None =>
      var s := Touch(s1.(cartItems := s1.cartItems + [CartItem(newItemId, cart.id, productId, quantity)]), cart.id, now);
      Outcome(s, Ok(ActiveCartOf(s.carts, userId)))
  }

  /** `addItem`: the quantity, then the cart (found or created), the
      product, the stock and finally the line: an existing line for the
      product gets the sum of both quantities, re-checked against the stock;
      otherwise a new line is added. The cart's activity is updated and the
      user's active cart returned. */
  function AddItem(st: Store, userId: string, productId: string, quantity: int, newCartId: string, newItemId: string, now: int): (o: Outcome<Option<Cart>>)
    ensures quantity <= 0 ==> o == Outcome(st, Err(QuantityMessage))
    ensures o.result.Err? ==> o.store.cartItems == st.cartItems
    ensures o.result.Err? && quantity > 0 ==> o.store == GetOrCreateCart(st, userId, newCartId, now).0
    ensures quantity > 0 && !Available(st.products, productId) ==> o.result == Err(UnavailableMessage)
    ensures quantity > 0 && Available(st.products, productId) && quantity > CurrentQuantity(st.batches, productId, now) ==>
      o.result == Err(InsufficientMessage(CurrentQuantity(st.batches, productId, now), quantity))
    ensures o.result.Ok? ==> quantity > 0 && Available(st.products, productId) && quantity <= CurrentQuantity(st.batches, productId, now)
    ensures o.store.products == st.products && o.store.batches == st.batches
  {
    if quantity <= 0 then Outcome(st, Err(QuantityMessage))
    else
      var (s1, cart) := GetOrCreateCart(st, userId, newCartId, now);
      match ValidateProduct(s1.products, productId)
      case Err(e) => Outcome(s1, Err(e))
      case Ok(_) =>
        var stock := CurrentQuantity(s1.batches, productId, now);
        if quantity > stock then Outcome(s1, Err(InsufficientMessage(stock, quantity)))
        else PlaceLine(s1, cart, userId, productId, quantity, newItemId, now)
  }

  /** When `addItem` succeeds, its writes are those of `PlaceLine` on the
      store holding the user's cart. */
  lemma AddItemPlaces(st: Store, userId: string, productId: string, quantity: int, newCartId: string, newItemId: string, now: int)
    requires AddItem(st, userId, productId, quantity, newCartId, newItemId, now).result.Ok?
    ensures var (s1, cart) := GetOrCreateCart(st, userId, newCartId, now);
      AddItem(st, userId, productId, quantity, newCartId, newItemId, now) == PlaceLine(s1, cart, userId, productId, quantity, newItemId, now)
      && s1.cartItems == st.cartItems && s1.batches == st.batches
  {
  }

  /** Placing a line raises the cart's line for the product by exactly the
      quantity placed (a new line holds just that quantity). */
  lemma PlaceLineQuantity(s1: Store, cart: Cart, userId: string, productId: string, quantity: int, newItemId: string, now: int)
    requires PlaceLine(s1, cart, userId, productId, quantity, newItemId, now).result.Ok?
    ensures var after := PlaceLine(s1, cart, userId, productId, quantity, newItemId, now).store.cartItems;
      LineQuantity(after, cart.id, productId) == LineQuantity(s1.cartItems, cart.id, productId) + quantity
  {
    var after := PlaceLine(s1, cart, userId, productId, quantity, newItemId, now).store.cartItems;
    match FindByCartAndProduct(s1.cartItems, cart.id, productId)
    case Some(k) =>
      SameKeysSameLine(s1.cartItems, after, cart.id, productId);
    case None =>
      var items := s1.cartItems + [CartItem(newItemId, cart.id, productId, quantity)];
      assert after == items;
      FirstWhereFirst(items, (x: CartItem) => x.cartId == cart.id && x.productId == productId, |s1.cartItems|);
  }

  /** A successful add raises the cart's line for the product by exactly
      the quantity added; a new line holds just that quantity. */
  lemma AddItemLine(st: Store, userId: string, productId: string, quantity: int, newCartId: string, newItemId: string, now: int)
    requires AddItem(st, userId, productId, quantity, newCartId, newItemId, now).result.Ok?
    ensures var cart := GetOrCreateCart(st, userId, newCartId, now).1;
      var after := AddItem(st, userId, productId, quantity, newCartId, newItemId, now).store.cartItems;
      LineQuantity(after, cart.id, productId) == LineQuantity(st.cartItems, cart.id, productId) + quantity
  {
    var (s1, cart) := GetOrCreateCart(st, userId, newCartId, now);
    AddItemPlaces(st, userId, productId, quantity, newCartId, newItemId, now);
    PlaceLineQuantity(s1, cart, userId, productId, quantity, newItemId, now);
  }

  /** With item ids unique, the line a successful add leaves never exceeds
      the product's stock. */
  lemma AddItemWithinStock(st: Store, userId: string, productId: string, quantity: int, newCartId: string, newItemId: string, now: int)
    requires UniqueItemIds(st.cartItems)
    requires AddItem(st, userId, productId, quantity, newCartId, newItemId, now).result.Ok?
    ensures var cart := GetOrCreateCart(st, userId, newCartId, now).1;
      var after := AddItem(st, userId, productId, quantity, newCartId, newItemId, now).store.cartItems;
      LineQuantity(after, cart.id, productId) <= CurrentQuantity(st.batches, productId, now)
  {
    var (s1, cart) := GetOrCreateCart(st, userId, newCartId, now);
    AddItemPlaces(st, userId, productId, quantity, newCartId, newItemId, now);
    PlaceLineQuantity(s1, cart, userId, productId, quantity, newItemId, now);
    match FindByCartAndProduct(s1.cartItems, cart.id, productId)
    case Some(k) =>
      assert FindItem(s1.cartItems, s1.cartItems[k].id) == Some(k);
    case None =>
  }

  /** Two item tables with the same keys row by row find the same line. */
  lemma SameKeysSameLine(items: seq<CartItem>, other: seq<CartItem>, cartId: string, productId: string)
    requires |other| == |items|
    requires forall i :: 0 <= i < |items| ==> other[i].cartId == items[i].cartId && other[i].productId == items[i].productId
    ensures FindByCartAndProduct(other, cartId, productId) == FindByCartAndProduct(items, cartId, productId)
  {
    if FindByCartAndProduct(items, cartId, productId).Some? {
      FirstWhereFirst(other, (x: CartItem) => x.cartId == cartId && x.productId == productId, FindByCartAndProduct(items, cartId, productId).value);
    }
  }

  /** `addItem` never gives a cart a second line for a product. */
  lemma AddItemKeepsOneLine(st: Store, userId: string, productId: string, quantity: int, newCartId: string, newItemId: string, now: int)
    requires OneLinePerProduct(st.cartItems)
    ensures OneLinePerProduct(AddItem(st, userId, productId, quantity, newCartId, newItemId, now).store.cartItems)
  {
    var o := AddItem(st, userId, productId, quantity, newCartId, newItemId, now);
    if o.result.Ok? {
      var (s1, cart) := GetOrCreateCart(st, userId, newCartId, now);
      AddItemPlaces(st, userId, productId, quantity, newCartId, newItemId, now);
      PlaceLineKeepsOneLine(s1, cart, userId, productId, quantity, newItemId, now);
    }
  }

  lemma PlaceLineKeepsOneLine(s1: Store, cart: Cart, userId: string, productId: string, quantity: int, newItemId: string, now: int)
    requires OneLinePerProduct(s1.cartItems)
    ensures OneLinePerProduct(PlaceLine(s1, cart, userId, productId, quantity, newItemId, now).store.cartItems)
  {
    var after := PlaceLine(s1, cart, userId, productId, quantity, newItemId, now).store.cartItems;
    match FindByCartAndProduct(s1.cartItems, cart.id, productId)
    case Some(k) =>
      if after != s1.cartItems {
        SameKeysKeepOneLine(s1.cartItems, after);
      }
    case None =>
      var x := CartItem(newItemId, cart.id, productId, quantity);
      if after != s1.cartItems {
        assert after == s1.cartItems + [x];
        NewLineKeepsOneLine(s1.cartItems, x);
      }
  }

  lemma SameKeysKeepOneLine(items: seq<CartItem>, other: seq<CartItem>)
    requires OneLinePerProduct(items) && |other| == |items|
    requires forall i :: 0 <= i < |items| ==> other[i].cartId == items[i].cartId && other[i].productId == items[i].productId
    ensures OneLinePerProduct(other)
  {
  }

  lemma NewLineKeepsOneLine(items: seq<CartItem>, x: CartItem)
    requires OneLinePerProduct(items)
    requires FindByCartAndProduct(items, x.cartId, x.productId).None?
    ensures OneLinePerProduct(items + [x])
  {
    var r := items + [x];
    assert forall i :: 0 <= i < |items| ==> r[i] == items[i];
  }

  /** `removeItem`: 'Item not found in cart' for an unknown id; otherwise
      the item is deleted and its cart's activity updated. */
  function RemoveItem(st: Store, itemId: string, now: int): (o: Outcome<()>)
    ensures o.result.Err? <==> FindItem(st.cartItems, itemId).None?
    ensures o.result.Err? ==> o.store == st && o.result.error == ItemNotFoundMessage
    ensures o.result.Ok? ==>
      |o.store.cartItems| < |st.cartItems| && forall x :: x in o.store.cartItems <==> x in st.cartItems && x.id != itemId
  {
    match FindItem(st.cartItems, itemId)
    case None => Outcome(st, Err(ItemNotFoundMessage))
    case Some(k) =>
      FilterDropsMiss(st.cartItems, NotId(itemId), k);
      Outcome(Touch(st, st.cartItems[k].cartId, now).(cartItems := DeleteItem(st.cartItems, itemId)), Ok(()))
  }

  /** `clearCart`: every line of the cart deleted, other carts' lines kept;
      an unknown cart is not an error. */
  function ClearCart(st: Store, cartId: string, now: int): (r: Store)
    ensures CountByCartId(r.cartItems, cartId) == 0
    ensures forall x :: x in r.cartItems <==> x in st.cartItems && x.cartId != cartId
    ensures r.carts == UpdateActivity(st.carts, cartId, now) && r.products == st.products
  {
    DeleteByCartIdEmpties(st.cartItems, cartId);
    Touch(st, cartId, now).(cartItems := DeleteByCartId(st.cartItems, cartId))
  }

  // ---------------------------------------------------------------------------
  // Checks and totals over a cart
  // ---------------------------------------------------------------------------

  /** A line asks for more than its product's stock. */
  function OverStock(bs: seq<Batch>, now: int): CartItem -> bool
  {
    (x: CartItem) => x.quantity > CurrentQuantity(bs, x.productId, now)
  }

  /** `validateCartStock`: 'Cart not found' for a missing cart; otherwise
      false at the first line over its product's stock. */
  function ValidateCartStock(st: Store, cartId: string, now: int): (r: Result<bool, string>)
    ensures r.Err? <==> FindById(st.carts, cartId).None?
    ensures r.Err? ==> r.error == CartNotFoundMessage
    ensures r.Ok? ==> (r.value <==> forall x :: x in ItemsOf(st.cartItems, cartId) ==> x.quantity <= CurrentQuantity(st.batches, x.productId, now))
  {
    match FindById(st.carts, cartId)
    case None => Err(CartNotFoundMessage)
    case Some(_) =>
      var items := ItemsOf(st.cartItems, cartId);
      var first := FirstWhere(items, OverStock(st.batches, now));
      assert forall x :: x in items ==> exists i :: 0 <= i < |items| && items[i] == x;
      Ok(first.None?)
  }

  /** `parseFloat(price) || 0`: an unparsable price counts as zero. */
  function PriceOrZero(p: Price): real
  {
    p.value.GetOr(0.0)
  }

  /** The line's product as the `items.product` relation loads it: absent
      when the row is missing or soft-deleted. */
  function LineProduct(ps: seq<Product>, x: CartItem): Option<Product>
  {
    ProductRow(ps, x.productId)
  }

  /** The first product row with the id that is not soft-deleted. */
  function ProductRow(ps: seq<Product>, id: string): Option<Product>
  {
    if |ps| == 0 then None
    else if ps[0].id == id && ps[0].deletedAt.None? then Some(ps[0])
    else ProductRow(ps[1..], id)
  }

  /** The relation loads the row `findById` finds. */
  lemma {:induction false} ProductRowIsFindById(ps: seq<Product>, id: string)
    ensures ProductRow(ps, id) == (match ProductService.FindById(ps, id) case None => None case Some(k) => Some(ps[k]))
  {
    if |ps| > 0 {
      ProductRowIsFindById(ps[1..], id);
      if !(ps[0].id == id && ps[0].deletedAt.None?) {
        match ProductService.FindById(ps[1..], id)
        case None =>
        case Some(k) =>
          FirstWhereFirst(ps, (p: Product) => p.id == id && p.deletedAt.None?, k + 1);
      }
    }
  }

  /** What a line adds to the total: price (zero when unparsable) times
      quantity. */
  function LineAmount(p: Product, x: CartItem): real
  {
    PriceOrZero(p.price) * x.quantity as real
  }

  /** The `reduce` of `calculateCartTotal` over the lines, left to right. */
  function TotalOf(ps: seq<Product>, items: seq<CartItem>): (r: Result<real, string>)
    ensures r.Ok? <==> forall i :: 0 <= i < |items| ==> LineProduct(ps, items[i]).Some?
    ensures r.Err? ==> r.error == NullProductMessage
  {
    if |items| == 0 then Ok(0.0)
    else
      var n := |items| - 1;
      match TotalOf(ps, items[..n])
      case Err(e) => Err(e)
      case Ok(t) =>
        match LineProduct(ps, items[n])
        case None => Err(NullProductMessage)
        case Some(p) => Ok(t + LineAmount(p, items[n]))
  }

  /** `calculateCartTotal`: Σ price × quantity over the cart's lines. */
  function CalculateCartTotal(st: Store, cartId: string): (r: Result<real, string>)
    ensures r.Err? <==> FindById(st.carts, cartId).None? || exists x :: x in ItemsOf(st.cartItems, cartId) && LineProduct(st.products, x).None?
    ensures FindById(st.carts, cartId).None? ==> r == Err(CartNotFoundMessage)
  {
    match FindById(st.carts, cartId)
    case None => Err(CartNotFoundMessage)
    case Some(_) =>
      var items := ItemsOf(st.cartItems, cartId);
      assert forall x :: x in items ==> exists i :: 0 <= i < |items| && items[i] == x;
      TotalOf(st.products, items)
  }

  /** A cleared cart totals zero. */
  lemma ClearedCartTotalsZero(st: Store, cartId: string, now: int)
    requires FindById(st.carts, cartId).Some?
    ensures CalculateCartTotal(ClearCart(st, cartId, now), cartId) == Ok(0.0)
  {
    var r := ClearCart(st, cartId, now);
    UpdateActivityKeepsFinders(st.carts, cartId, now, cartId);
    assert |ItemsOf(r.cartItems, cartId)| == 0;
  }

  datatype SummaryLine = SummaryLine(
    id: string, productId: string, productName: string, quantity: int,
    price: Option<real>, subtotal: Option<real>)

  datatype Summary = Summary(
    cartId: string, userId: string, status: CartStatus, lastActivityAt: Option<int>,
    itemCount: nat, total: real, isEmpty: bool, items: seq<SummaryLine>)

  /** One line of the summary: `parseFloat` of the price as it is (`None`
      for `NaN`) and that times the quantity. */
  function LineFor(p: Product, x: CartItem): SummaryLine
  {
    var subtotal := match p.price.value case None => None case Some(v) => Some(v * x.quantity as real);
    SummaryLine(x.id, x.productId, p.name, x.quantity, p.price.value, subtotal)
  }

  /** The `items.map(...)` of `getCartSummary`, failing like the total on a
      line whose product relation is null. */
  function LinesOf(ps: seq<Product>, items: seq<CartItem>): (r: Result<seq<SummaryLine>, string>)
    ensures r.Ok? <==> forall i :: 0 <= i < |items| ==> LineProduct(ps, items[i]).Some?
    ensures r.Ok? ==> |r.value| == |items|
  {
    if |items| == 0 then Ok([])
    else
      var n := |items| - 1;
      match LinesOf(ps, items[..n])
      case Err(e) => Err(e)
      case Ok(front) =>
        match LineProduct(ps, items[n])
        case None => Err(NullProductMessage)
        case Some(p) => Ok(front + [LineFor(p, items[n])])
  }

  /** `getCartSummary`: the total first, then the line count
      (`countByCartId`), then one summary line per cart line. */
  function GetCartSummary(st: Store, cartId: string): (r: Result<Summary, string>)
    ensures r.Err? <==> CalculateCartTotal(st, cartId).Err?
    ensures r.Ok? ==>
      r.value.cartId == cartId && r.value.total == CalculateCartTotal(st, cartId).value
      && r.value.itemCount == CountByCartId(st.cartItems, cartId) == |r.value.items|
      && (r.value.isEmpty <==> r.value.itemCount == 0)
  {
    match FindById(st.carts, cartId)
    case None => Err(CartNotFoundMessage)
    case Some(k) =>
      match CalculateCartTotal(st, cartId)
      case Err(e) => Err(e)
      case Ok(total) =>
        var items := ItemsOf(st.cartItems, cartId);
        match LinesOf(st.products, items)
        case Err(e) => Err(e)
        case Ok(lines) =>
          var count := CountByCartId(st.cartItems, cartId);
          var c := st.carts[k];
          Ok(Summary(c.id, c.userId, c.status, c.lastActivityAt, count, total, count == 0, lines))
  }

  /** Each summary line copies its cart line, and its subtotal is the
      parsed price times the quantity (`NaN` when the price is). */
  lemma {:induction false} SummaryLines(ps: seq<Product>, items: seq<CartItem>, i: nat)
    requires LinesOf(ps, items).Ok? && i < |items|
    ensures var l := LinesOf(ps, items).value[i];
      l.id == items[i].id && l.productId == items[i].productId && l.quantity == items[i].quantity
      && (l.price.None? <==> l.subtotal.None?)
      && (l.price.Some? ==> l.subtotal.value == l.price.value * items[i].quantity as real)
    decreases |items|
  {
    var n := |items| - 1;
    var front := LinesOf(ps, items[..n]);
    assert front.Ok? by {
      assert forall j :: 0 <= j < n ==> items[..n][j] == items[j];
    }
    var p := LineProduct(ps, items[n]).value;
    assert LinesOf(ps, items).value == front.value + [LineFor(p, items[n])];
    if i < n {
      SummaryLines(ps, items[..n], i);
    }
  }

  /** The subtotal the summary shows, zero where it is `NaN`. */
  function ShownSubtotal(l: SummaryLine): real
  {
    l.subtotal.GetOr(0.0)
  }

  function SumShown(lines: seq<SummaryLine>): real
  {
    if |lines| == 0 then 0.0 else SumShown(lines[..|lines| - 1]) + ShownSubtotal(lines[|lines| - 1])
  }

  /** The summary's total is the sum of its lines' subtotals, a `NaN`
      subtotal counting as zero. */
  lemma SummaryTotalIsSumOfLines(st: Store, cartId: string)
    requires GetCartSummary(st, cartId).Ok?
    ensures var s := GetCartSummary(st, cartId).value; s.total == SumShown(s.items)
  {
    var items := ItemsOf(st.cartItems, cartId);
    TotalMatchesLines(st.products, items);
  }

  /** A line's shown subtotal is what the total adds for it. */
  lemma ShownOfLine(p: Product, x: CartItem)
    ensures ShownSubtotal(LineFor(p, x)) == LineAmount(p, x)
  {
    match p.price.value
    case None =>
      assert ShownSubtotal(LineFor(p, x)) == 0.0;
    case Some(v) =>
  }

  lemma {:induction false} TotalMatchesLines(ps: seq<Product>, items: seq<CartItem>)
    requires LinesOf(ps, items).Ok?
    ensures TotalOf(ps, items) == Ok(SumShown(LinesOf(ps, items).value))
    decreases |items|
  {
    if |items| > 0 {
      var n := |items| - 1;
      var front := LinesOf(ps, items[..n]);
      assert front.Ok? by {
        assert forall j :: 0 <= j < n ==> items[..n][j] == items[j];
      }
      TotalMatchesLines(ps, items[..n]);
      var p := LineProduct(ps, items[n]).value;
      var last := LineFor(p, items[n]);
      var lines := front.value + [last];
      assert LinesOf(ps, items).value == lines;
      assert lines[..|lines| - 1] == front.value;
      assert SumShown(lines) == SumShown(front.value) + ShownSubtotal(last);
      ShownOfLine(p, items[n]);
      assert TotalOf(ps, items) == Ok(SumShown(front.value) + LineAmount(p, items[n]));
    }
  }

  // ---------------------------------------------------------------------------
  // Price sync and status
  // ---------------------------------------------------------------------------

  /** The `syncItemPrices` loop over the lines read at its start: a line
      whose product is not available is deleted by id. */
  function SyncLoop(ps: seq<Product>, items: seq<CartItem>, todo: seq<CartItem>): seq<CartItem>
    decreases |todo|
  {
    if |todo| == 0 then items
    else SyncLoop(ps, if Available(ps, todo[0].productId) then items else DeleteItem(items, todo[0].id), todo[1..])
  }

  /** No line of `todo` with the row's id points at an unavailable
      product. */
  predicate Spared(ps: seq<Product>, todo: seq<CartItem>, x: CartItem)
  {
    forall j :: 0 <= j < |todo| ==> todo[j].id != x.id || Available(ps, todo[j].productId)
  }

  /** The loop keeps exactly the rows no unavailable line shares an id
      with. */
  lemma {:induction false} SyncLoopKeeps(ps: seq<Product>, items: seq<CartItem>, todo: seq<CartItem>, x: CartItem)
    ensures x in SyncLoop(ps, items, todo) <==> x in items && Spared(ps, todo, x)
    decreases |todo|
  {
    if |todo| > 0 {
      var next := if Available(ps, todo[0].productId) then items else DeleteItem(items, todo[0].id);
      SyncLoopKeeps(ps, next, todo[1..], x);
      assert Spared(ps, todo, x) <==> (todo[0].id != x.id || Available(ps, todo[0].productId)) && Spared(ps, todo[1..], x) by {
        assert forall j :: 1 <= j < |todo| ==> todo[j] == todo[1..][j - 1];
      }
    }
  }

  /** `syncItemPrices`: 'Cart not found' for a missing cart; otherwise each
      of its lines whose product is missing, soft-deleted or inactive is
      deleted. */
  function SyncItemPrices(st: Store, cartId: string): (o: Outcome<()>)
    ensures o.result.Err? <==> FindById(st.carts, cartId).None?
    ensures o.result.Err? ==> o.store == st && o.result.error == CartNotFoundMessage
    ensures o.store == st.(cartItems := o.store.cartItems)
  {
    match FindById(st.carts, cartId)
    case None => Outcome(st, Err(CartNotFoundMessage))
    case Some(_) => Outcome(st.(cartItems := SyncLoop(st.products, st.cartItems, ItemsOf(st.cartItems, cartId))), Ok(()))
  }

  /** With item ids unique, the sync deletes exactly the cart's lines whose
      product is not available and keeps every other row. */
  lemma SyncItemPricesDeletesUnavailable(st: Store, cartId: string, x: CartItem)
    requires UniqueItemIds(st.cartItems)
    requires FindById(st.carts, cartId).Some?
    ensures x in SyncItemPrices(st, cartId).store.cartItems <==>
      x in st.cartItems && (x.cartId != cartId || Available(st.products, x.productId))
  {
    var todo := ItemsOf(st.cartItems, cartId);
    SyncLoopKeeps(st.products, st.cartItems, todo, x);
    if x in st.cartItems {
      if x.cartId == cartId && !Available(st.products, x.productId) {
        var j :| 0 <= j < |todo| && todo[j] == x by {
          assert x in todo;
        }
        assert !Spared(st.products, todo, x);
      } else if !Spared(st.products, todo, x) {
        var j :| 0 <= j < |todo| && todo[j].id == x.id && !Available(st.products, todo[j].productId);
        assert todo[j] in todo;
        SameIdSameRow(st.cartItems, todo[j], x);
      }
    }
  }

  lemma SameIdSameRow(items: seq<CartItem>, a: CartItem, b: CartItem)
    requires UniqueItemIds(items) && a in items && b in items && a.id == b.id
    ensures a == b
  {
  }

  /** `updateCartStatus`. */
  function UpdateCartStatus(st: Store, cartId: string, status: CartStatus, now: int): (o: Outcome<Cart>)
    ensures o.result.Err? <==> FindById(st.carts, cartId).None?
    ensures o.result.Ok? ==> o.result.value.id == cartId && o.result.value.status == status
    ensures o.store == st.(carts := o.store.carts)
  {
    var (cs, r) := UpdateStatus(st.carts, cartId, status, now);
    Outcome(st.(carts := cs), r)
  }

  // ---------------------------------------------------------------------------
  // Maintenance
  // ---------------------------------------------------------------------------

  /** `markAbandonedCarts`: carts idle for more than 30 minutes. */
  function MarkAbandoned(st: Store, now: int): (r: (Store, nat))
    ensures r.0 == st.(carts := r.0.carts)
  {
    var (cs, n) := MarkAbandonedCarts(st.carts, now - InactivityThresholdMinutes, now);
    (st.(carts := cs), n)
  }

  /** `cleanupOldAbandonedCarts`: abandoned carts last updated more than
      7 days ago. */
  function CleanupOldAbandoned(st: Store, now: int): (r: (Store, nat))
    ensures r.0 == st.(carts := r.0.carts)
  {
    var (cs, n) := CleanupOldAbandonedCarts(st.carts, now - CleanupAbandonedAfterDays * MinutesPerDay, now);
    (st.(carts := cs), n)
  }

  /** `performMaintenance`: abandon, then clean up. */
  function PerformMaintenance(st: Store, now: int): Store
  {
    CleanupOldAbandoned(MarkAbandoned(st, now).0, now).0
  }

  /** After maintenance no visible ACTIVE cart has been idle for more than
      30 minutes, and a cart abandoned by this run is not deleted by it. */
  lemma MaintenanceOutcome(st: Store, now: int, i: nat)
    requires i < |st.carts|
    ensures var r := PerformMaintenance(st, now);
      |r.carts| == |st.carts|
      && !Stale(now - InactivityThresholdMinutes)(r.carts[i])
      && (Stale(now - InactivityThresholdMinutes)(st.carts[i]) ==> r.carts[i].status.Abandoned? && Live(r.carts[i]))
  {
    var m := MarkAbandoned(st, now).0;
    MarkAbandonedSettles(st.carts, now - InactivityThresholdMinutes, now);
    assert !Stale(now - InactivityThresholdMinutes)(m.carts[i]);
  }
}
