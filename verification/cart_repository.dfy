/** `CartRepository` and the cart-item queries the cart service uses. The
    finders skip soft-deleted carts; `update(id, ...)` writes every row with
    the id, soft-deleted or not; the two bulk jobs return the number of rows
    they wrote. Cart items are hard-deleted. */
module CartRepository {
  import opened Common
  import opened Tables
  import opened CommerceModel

  /** Not soft-deleted. */
  predicate Live(c: Cart)
  {
    c.deletedAt.None?
  }

  /** `findById` / `findByIdWithItems`: the cart with that id unless it is
      soft-deleted. */
  function FindById(cs: seq<Cart>, id: string): (r: Option<nat>)
    ensures r.Some? ==> r.value < |cs| && cs[r.value].id == id && Live(cs[r.value])
    ensures r.None? <==> forall i :: 0 <= i < |cs| ==> cs[i].id != id || !Live(cs[i])
  {
    FirstWhere(cs, (c: Cart) => c.id == id && Live(c))
  }

  /** `findActiveByUserId` / `findActiveByUserIdWithItems`: the user's
      ACTIVE cart that is not soft-deleted. */
  function FindActiveByUserId(cs: seq<Cart>, userId: string): (r: Option<nat>)
    ensures r.Some? ==> r.value < |cs| && cs[r.value].userId == userId && cs[r.value].status.Active? && Live(cs[r.value])
    ensures r.None? <==> forall i :: 0 <= i < |cs| ==> !(cs[i].userId == userId && cs[i].status.Active? && Live(cs[i]))
  {
    FirstWhere(cs, (c: Cart) => c.userId == userId && c.status.Active? && Live(c))
  }

  /** A soft-deleted cart is found by neither finder. */
  lemma FindersSkipDeleted(cs: seq<Cart>, i: nat)
    requires i < |cs| && !Live(cs[i])
    ensures FindById(cs, cs[i].id) != Some(i)
    ensures FindActiveByUserId(cs, cs[i].userId) != Some(i)
  {
  }

  /** `repo.update(id, patch)` with a status: every row with the id. */
  function SetStatus(cs: seq<Cart>, id: string, status: CartStatus, now: int): (r: seq<Cart>)
    ensures |r| == |cs|
  {
    seq(|cs|, i requires 0 <= i < |cs| => if cs[i].id == id then cs[i].(status := status, updatedAt := now) else cs[i])
  }

  /** `updateStatus`: the status is written first, then the cart is read
      back through `findById`; a missing or soft-deleted cart is reported
      as 'Cart not found', although a soft-deleted row has been written. */
  function UpdateStatus(cs: seq<Cart>, id: string, status: CartStatus, now: int): (r: (seq<Cart>, Result<Cart, string>))
    ensures r.1.Err? <==> FindById(cs, id).None?
    ensures r.1.Err? ==> r.1.error == "Cart not found"
    ensures r.1.Ok? ==> r.1.value in r.0 && r.1.value.id == id && r.1.value.status == status && Live(r.1.value)
    ensures |r.0| == |cs| && forall i :: 0 <= i < |cs| && cs[i].id != id ==> r.0[i] == cs[i]
  {
    var written := SetStatus(cs, id, status, now);
    assert forall i :: 0 <= i < |cs| ==> (written[i].id == id && Live(written[i])) == (cs[i].id == id && Live(cs[i]));
    match FindById(written, id)
    case None => (written, Err("Cart not found"))
    case Some(k) => (written, Ok(written[k]))
  }

  /** `updateActivity`: last activity and update time set to now on every
      row with the id. */
  function UpdateActivity(cs: seq<Cart>, id: string, now: int): (r: seq<Cart>)
    ensures |r| == |cs|
    ensures forall i :: 0 <= i < |cs| && cs[i].id == id ==> r[i].lastActivityAt == Some(now) && r[i].updatedAt == now
    ensures forall i :: 0 <= i < |cs| ==> r[i] == cs[i].(lastActivityAt := r[i].lastActivityAt, updatedAt := r[i].updatedAt)
    ensures forall i :: 0 <= i < |cs| && cs[i].id != id ==> r[i] == cs[i]
  {
    seq(|cs|, i requires 0 <= i < |cs| => if cs[i].id == id then cs[i].(lastActivityAt := Some(now), updatedAt := now) else cs[i])
  }

  /** Activity changes neither which carts exist nor their status, so the
      finders give the same answer afterwards. */
  lemma UpdateActivityKeepsFinders(cs: seq<Cart>, id: string, now: int, other: string)
    ensures FindById(UpdateActivity(cs, id, now), other) == FindById(cs, other)
    ensures FindActiveByUserId(UpdateActivity(cs, id, now), other) == FindActiveByUserId(cs, other)
  {
    var r := UpdateActivity(cs, id, now);
    FindByIdSameKeys(cs, r, other);
    FindActiveSameKeys(cs, r, other);
  }

  lemma FindByIdSameKeys(cs: seq<Cart>, r: seq<Cart>, id: string)
    requires |r| == |cs|
    requires forall i :: 0 <= i < |cs| ==> r[i].id == cs[i].id && r[i].deletedAt == cs[i].deletedAt
    ensures FindById(r, id) == FindById(cs, id)
  {
    if FindById(cs, id).Some? {
      FirstWhereFirst(r, (c: Cart) => c.id == id && Live(c), FindById(cs, id).value);
    }
  }

  lemma FindActiveSameKeys(cs: seq<Cart>, r: seq<Cart>, userId: string)
    requires |r| == |cs|
    requires forall i :: 0 <= i < |cs| ==> r[i].userId == cs[i].userId && r[i].status == cs[i].status && r[i].deletedAt == cs[i].deletedAt
    ensures FindActiveByUserId(r, userId) == FindActiveByUserId(cs, userId)
  {
    if FindActiveByUserId(cs, userId).Some? {
      FirstWhereFirst(r, (c: Cart) => c.userId == userId && c.status.Active? && Live(c), FindActiveByUserId(cs, userId).value);
    }
  }

  // ---------------------------------------------------------------------------
  // The two bulk jobs
  // ---------------------------------------------------------------------------

  /** The rows `markAbandonedCarts` selects: ACTIVE, not soft-deleted, last
      active before the threshold (a NULL last activity compares as
      unknown and is not selected). */
  function Stale(threshold: int): Cart -> bool
  {
    (c: Cart) => c.status.Active? && c.lastActivityAt.Some? && c.lastActivityAt.value < threshold && Live(c)
  }

  function AbandonRow(c: Cart, threshold: int, now: int): Cart
  {
    if Stale(threshold)(c) then c.(status := Abandoned, updatedAt := now) else c
  }

  function AbandonRows(cs: seq<Cart>, threshold: int, now: int): (r: seq<Cart>)
    ensures |r| == |cs| && forall i :: 0 <= i < |cs| ==> r[i] == AbandonRow(cs[i], threshold, now)
  {
    seq(|cs|, i requires 0 <= i < |cs| => AbandonRow(cs[i], threshold, now))
  }

  /** `markAbandonedCarts`: every selected row becomes ABANDONED (update
      time now), and the count of rows written is returned. */
  function MarkAbandonedCarts(cs: seq<Cart>, threshold: int, now: int): (r: (seq<Cart>, nat))
    ensures |r.0| == |cs|
    ensures forall i :: 0 <= i < |cs| ==> r.0[i].id == cs[i].id && r.0[i].userId == cs[i].userId && r.0[i].deletedAt == cs[i].deletedAt
  {
    (AbandonRows(cs, threshold, now), Count(cs, Stale(threshold)))
  }

  function IsAbandoned(c: Cart): bool
  {
    c.status.Abandoned?
  }

  lemma AbandonRowCount(c: Cart, threshold: int, now: int)
    ensures (if IsAbandoned(AbandonRow(c, threshold, now)) then 1 else 0)
      == (if IsAbandoned(c) then 1 else 0) + (if Stale(threshold)(c) then 1 else 0)
  {
  }

  /** The count the job returns is the number of carts it turned
      ABANDONED. */
  lemma {:induction false} MarkAbandonedCount(cs: seq<Cart>, threshold: int, now: int)
    ensures var r := MarkAbandonedCarts(cs, threshold, now);
      Count(r.0, IsAbandoned) == Count(cs, IsAbandoned) + r.1
    decreases |cs|
  {
    if |cs| > 0 {
      var n := |cs| - 1;
      var rows := AbandonRows(cs, threshold, now);
      MarkAbandonedCount(cs[..n], threshold, now);
      assert rows[..n] == AbandonRows(cs[..n], threshold, now);
      AbandonRowCount(cs[n], threshold, now);
      assert Count(rows, IsAbandoned) == Count(rows[..n], IsAbandoned) + (if IsAbandoned(rows[n]) then 1 else 0);
    }
  }

  /** After the job no selected row is left: every stale cart is ABANDONED,
      every other cart is as it was, and a second run writes nothing. */
  lemma MarkAbandonedSettles(cs: seq<Cart>, threshold: int, now: int)
    ensures var r := MarkAbandonedCarts(cs, threshold, now);
      Count(r.0, Stale(threshold)) == 0
      && (forall i :: 0 <= i < |cs| && Stale(threshold)(cs[i]) ==> r.0[i].status.Abandoned? && r.0[i].id == cs[i].id && r.0[i].deletedAt.None?)
      && (forall i :: 0 <= i < |cs| && !Stale(threshold)(cs[i]) ==> r.0[i] == cs[i])
      && MarkAbandonedCarts(r.0, threshold, now) == (r.0, 0)
  {
    var r := MarkAbandonedCarts(cs, threshold, now);
    assert forall i :: 0 <= i < |r.0| ==> !Stale(threshold)(r.0[i]);
    assert AbandonRows(r.0, threshold, now) == r.0;
  }

  /** The rows `cleanupOldAbandonedCarts` selects: ABANDONED and last
      updated before the cleanup date. The soft delete adds no condition on
      an existing deletion time. */
  function OldAbandoned(cleanupDate: int): Cart -> bool
  {
    (c: Cart) => c.status.Abandoned? && c.updatedAt < cleanupDate
  }

  function CleanupRow(c: Cart, cleanupDate: int, now: int): Cart
  {
    if OldAbandoned(cleanupDate)(c) then c.(deletedAt := Some(now), updatedAt := now) else c
  }

  function CleanupRows(cs: seq<Cart>, cleanupDate: int, now: int): (r: seq<Cart>)
    ensures |r| == |cs| && forall i :: 0 <= i < |cs| ==> r[i] == CleanupRow(cs[i], cleanupDate, now)
  {
    seq(|cs|, i requires 0 <= i < |cs| => CleanupRow(cs[i], cleanupDate, now))
  }

  /** `cleanupOldAbandonedCarts`: every selected row is soft-deleted, and
      the count of rows written is returned. */
  function CleanupOldAbandonedCarts(cs: seq<Cart>, cleanupDate: int, now: int): (r: (seq<Cart>, nat))
    ensures |r.0| == |cs|
    ensures forall i :: 0 <= i < |cs| ==> r.0[i].id == cs[i].id && r.0[i].status == cs[i].status
  {
    (CleanupRows(cs, cleanupDate, now), Count(cs, OldAbandoned(cleanupDate)))
  }

  function IsLive(c: Cart): bool
  {
    Live(c)
  }

  function LiveAndRecent(cleanupDate: int): Cart -> bool
  {
    (c: Cart) => Live(c) && !OldAbandoned(cleanupDate)(c)
  }

  /** The carts still visible after the cleanup are exactly the visible
      carts it did not select. */
  lemma {:induction false} CleanupCount(cs: seq<Cart>, cleanupDate: int, now: int)
    ensures Count(CleanupOldAbandonedCarts(cs, cleanupDate, now).0, IsLive) == Count(cs, LiveAndRecent(cleanupDate))
    decreases |cs|
  {
    if |cs| > 0 {
      var n := |cs| - 1;
      var rows := CleanupRows(cs, cleanupDate, now);
      CleanupCount(cs[..n], cleanupDate, now);
      assert rows[..n] == CleanupRows(cs[..n], cleanupDate, now);
      assert IsLive(rows[n]) == LiveAndRecent(cleanupDate)(cs[n]);
      assert Count(rows, IsLive) == Count(rows[..n], IsLive) + (if IsLive(rows[n]) then 1 else 0);
    }
  }

  /** After the cleanup every selected cart is hidden from the finders,
      every other cart is as it was, and (the cleanup date being in the
      past) a second run selects nothing. */
  lemma CleanupHidesOldCarts(cs: seq<Cart>, cleanupDate: int, now: int)
    requires cleanupDate <= now
    ensures var r := CleanupOldAbandonedCarts(cs, cleanupDate, now);
      (forall i :: 0 <= i < |cs| && OldAbandoned(cleanupDate)(cs[i]) ==> !Live(r.0[i]) && FindById(r.0, cs[i].id) != Some(i))
      && (forall i :: 0 <= i < |cs| && !OldAbandoned(cleanupDate)(cs[i]) ==> r.0[i] == cs[i])
      && Count(r.0, OldAbandoned(cleanupDate)) == 0
  {
    var r := CleanupOldAbandonedCarts(cs, cleanupDate, now);
    assert forall i :: 0 <= i < |r.0| ==> !OldAbandoned(cleanupDate)(r.0[i]);
  }

  // ---------------------------------------------------------------------------
  // Cart items
  // ---------------------------------------------------------------------------

  /** The cart's items (`cart.items`, `findByCartId`), in table order. */
  function ItemsOf(items: seq<CartItem>, cartId: string): (r: seq<CartItem>)
    ensures forall x :: x in r <==> x in items && x.cartId == cartId
  {
    Filter(items, InCart(cartId))
  }

  function InCart(cartId: string): CartItem -> bool
  {
    (x: CartItem) => x.cartId == cartId
  }

  /** `countByCartId`. */
  function CountByCartId(items: seq<CartItem>, cartId: string): (n: nat)
    ensures n == |ItemsOf(items, cartId)|
    ensures n == 0 <==> forall i :: 0 <= i < |items| ==> items[i].cartId != cartId
  {
    Count(items, InCart(cartId))
  }

  /** `findById` / `findByIdWithRelations` on the item table. */
  function FindItem(items: seq<CartItem>, id: string): (r: Option<nat>)
    ensures r.Some? ==> r.value < |items| && items[r.value].id == id
    ensures r.None? <==> forall i :: 0 <= i < |items| ==> items[i].id != id
  {
    FirstWhere(items, (x: CartItem) => x.id == id)
  }

  /** `findByCartAndProduct`: the cart's line for the product. */
  function FindByCartAndProduct(items: seq<CartItem>, cartId: string, productId: string): (r: Option<nat>)
    ensures r.Some? ==> r.value < |items| && items[r.value].cartId == cartId && items[r.value].productId == productId
    ensures r.None? <==> forall i :: 0 <= i < |items| ==> items[i].cartId != cartId || items[i].productId != productId
  {
    FirstWhere(items, (x: CartItem) => x.cartId == cartId && x.productId == productId)
  }

  /** `update(itemId, {quantity})`: every row with the id. */
  function SetQuantity(items: seq<CartItem>, id: string, quantity: int): (r: seq<CartItem>)
    ensures |r| == |items|
    ensures forall i :: 0 <= i < |items| && items[i].id == id ==> r[i] == items[i].(quantity := quantity)
    ensures forall i :: 0 <= i < |items| && items[i].id != id ==> r[i] == items[i]
  {
    seq(|items|, i requires 0 <= i < |items| => if items[i].id == id then items[i].(quantity := quantity) else items[i])
  }

  function NotId(id: string): CartItem -> bool
  {
    (x: CartItem) => x.id != id
  }

  function NotInCart(cartId: string): CartItem -> bool
  {
    (x: CartItem) => x.cartId != cartId
  }

  /** `delete(itemId)`: every row with the id goes, the rest keep their
      order. */
  function DeleteItem(items: seq<CartItem>, id: string): (r: seq<CartItem>)
    ensures forall x :: x in r <==> x in items && x.id != id
  {
    Filter(items, NotId(id))
  }

  /** `deleteByCartId`. */
  function DeleteByCartId(items: seq<CartItem>, cartId: string): (r: seq<CartItem>)
    ensures forall x :: x in r <==> x in items && x.cartId != cartId
  {
    Filter(items, NotInCart(cartId))
  }

  /** After `deleteByCartId` the cart counts no items. */
  lemma DeleteByCartIdEmpties(items: seq<CartItem>, cartId: string)
    ensures CountByCartId(DeleteByCartId(items, cartId), cartId) == 0
  {
    var r := DeleteByCartId(items, cartId);
    assert forall i :: 0 <= i < |r| ==> r[i] in r;
  }

  /** No two item rows share an id (the table's primary key). */
  predicate UniqueItemIds(items: seq<CartItem>)
  {
    forall i, j :: 0 <= i < j < |items| ==> items[i].id != items[j].id
  }

  /** A cart holds at most one line per product. */
  predicate OneLinePerProduct(items: seq<CartItem>)
  {
    forall i, j :: 0 <= i < j < |items| ==> items[i].cartId != items[j].cartId || items[i].productId != items[j].productId
  }
}
