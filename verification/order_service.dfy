/** `OrderService`: creating an order with its items and stock reservations,
    and the order lifecycle driven by the kiosk, the payment flow and the
    timeout jobs.

    Every transition looks the order up first ('Order not found'), checks
    its status, and only then writes: a refused transition leaves the store
    as it was. The allowed moves are collected in `Next`, a table of the
    lifecycle; each operation is proved to follow it. */
module OrderService {
  import opened Common
  import opened Tables
  import opened CommerceModel
  import opened ReservationRepository
  import opened ReservationService
  import opened OrderRepository

  const OrderNotFoundMessage: string := "Order not found"

  /** The status as the messages print it. */
  function StatusText(s: OrderStatus): string
  {
    match s
    case PendingKioskConfirmation => "PENDING_KIOSK_CONFIRMATION"
    case Accepted => "ACCEPTED"
    case Rejected => "REJECTED"
    case ReadyForPayment => "READY_FOR_PAYMENT"
    case Paid => "PAID"
    case CancelRequested => "CANCEL_REQUESTED"
    case Cancelled => "CANCELLED"
    case AutoRejectedTimeout => "AUTO_REJECTED_TIMEOUT"
  }

  // ---------------------------------------------------------------------------
  // The lifecycle table
  // ---------------------------------------------------------------------------

  /** The operations that move an order. */
  datatype Action =
    | Accept
    | Reject
    | MarkReady(expiresAt: int)
    | Pay(paymentInfo: Option<string>)
    | RequestCancel
    | CancelFinal
    | AutoReject

  /** The status an action leaves an order in, or `None` when the action
      refuses the order's status. The timeout leaves a non-pending order
      alone. */
  function Next(a: Action, s: OrderStatus): Option<OrderStatus>
  {
    match a
    case Accept => if s.PendingKioskConfirmation? then Some(Accepted) else None
    case Reject => if s.PendingKioskConfirmation? then Some(Rejected) else None
    case MarkReady(_) => if s.Accepted? then Some(ReadyForPayment) else None
    case Pay(_) => if s.Accepted? || s.ReadyForPayment? then Some(Paid) else None
    case RequestCancel =>
      if s.Paid? then Some(CancelRequested)
      else if s.PendingKioskConfirmation? || s.Accepted? || s.ReadyForPayment? then Some(Cancelled)
      else None
    case CancelFinal => if s.CancelRequested? then Some(Cancelled) else None
    case AutoReject => if s.PendingKioskConfirmation? then Some(AutoRejectedTimeout) else Some(s)
  }

  /** REJECTED, CANCELLED and AUTO_REJECTED_TIMEOUT: no operation moves an
      order out of them. */
  predicate Terminal(s: OrderStatus)
  {
    s.Rejected? || s.Cancelled? || s.AutoRejectedTimeout?
  }

  /** A terminal order is refused by every action except the timeout, which
      leaves it where it is. */
  lemma TerminalIsFinal(a: Action, s: OrderStatus)
    requires Terminal(s)
    ensures Next(a, s) == None || Next(a, s) == Some(s)
    ensures !a.AutoReject? ==> Next(a, s) == None
  {
  }

  /** Once paid, an order leaves only through a cancellation request. */
  lemma PaidLeavesOnlyByCancelRequest(a: Action)
    ensures Next(a, Paid).Some? <==> a.RequestCancel? || a.AutoReject?
    ensures a.RequestCancel? ==> Next(a, Paid) == Some(CancelRequested)
  {
  }

  /** The status of the order with that id, if there is one. */
  function StatusOf(os: seq<Order>, id: string): (r: Option<OrderStatus>)
    ensures r.Some? <==> FindById(os, id).Some?
    ensures r.Some? ==> r.value == os[FindById(os, id).value].status
  {
    match FindById(os, id)
    case None => None
    case Some(i) => Some(os[i].status)
  }

  // ---------------------------------------------------------------------------
  // Creation
  // ---------------------------------------------------------------------------

  /** The order row as first stored: the caller's fields with status
      PENDING_KIOSK_CONFIRMATION. */
  function NewOrder(draft: Order, now: int): (r: Order)
    ensures r.status.PendingKioskConfirmation? && r.id == draft.id
    ensures r == draft.(status := PendingKioskConfirmation, createdAt := now, updatedAt := now)
  {
    draft.(status := PendingKioskConfirmation, createdAt := now, updatedAt := now)
  }

  /** The item rows as stored: each caller's item bound to the order. */
  function StampedItems(items: seq<OrderItem>, orderId: string): (r: seq<OrderItem>)
    ensures |r| == |items|
    ensures forall i :: 0 <= i < |r| ==> r[i] == items[i].(orderId := orderId)
  {
    seq(|items|, i requires 0 <= i < |items| => items[i].(orderId := orderId))
  }

  /** The reservation request for the stored items, one line each. */
  function RequestedItems(items: seq<OrderItem>): (r: seq<Item>)
    ensures |r| == |items|
    ensures forall i :: 0 <= i < |r| ==> r[i] == Item(items[i].productId, items[i].quantity)
  {
    seq(|items|, i requires 0 <= i < |items| => Item(items[i].productId, items[i].quantity))
  }

  /** The store inside the creation transaction once the order and its
      items are saved. */
  function WithOrder(st: Store, draft: Order, items: seq<OrderItem>, now: int): Store
  {
    st.(orders := st.orders + [NewOrder(draft, now)],
        orderItems := st.orderItems + StampedItems(items, draft.id))
  }

  /** `createOrderWithItemsAndReserveStock`: saves the order as
      PENDING_KIOSK_CONFIRMATION and its items bound to it, then reserves
      stock for the items (for `expiresInMinutes`, 15 by default), all in
      one transaction. Any failure rolls the whole transaction back. */
  function CreateOrderWithItemsAndReserveStock(st: Store, draft: Order, items: seq<OrderItem>, expiresInMinutes: Option<int>, now: int): (o: Outcome<Order>)
    ensures o.result.Err? ==> o.store == st
    ensures o.result.Ok? ==>
      o.result.value == NewOrder(draft, now)
      && o.store.orders == st.orders + [o.result.value]
      && o.store.orderItems == st.orderItems + StampedItems(items, draft.id)
      && o.store.products == st.products && o.store.movements == st.movements
      && o.store.carts == st.carts && o.store.cartItems == st.cartItems
      && |o.store.batches| == |st.batches| && |o.store.reservations| >= |st.reservations|
      && o.store.reservations[..|st.reservations|] == st.reservations
  {
    var st1 := WithOrder(st, draft, items, now);
    var r := CreateReservations(st1, draft.id, draft.kioskUserId, RequestedItems(StampedItems(items, draft.id)),
                                Some(expiresInMinutes.GetOr(InitialReservationMinutes)), now, true);
    if r.result.Err? then Outcome(st, Err(r.result.error))
    else Outcome(r.store, Ok(NewOrder(draft, now)))
  }

  /** On success every new reservation row belongs to the new order and its
      kiosk and expires `expiresInMinutes` (15 by default) from now. */
  lemma CreateOrderReserves(st: Store, draft: Order, items: seq<OrderItem>, expiresInMinutes: Option<int>, now: int)
    ensures var o := CreateOrderWithItemsAndReserveStock(st, draft, items, expiresInMinutes, now);
      o.result.Ok? ==>
        forall i :: |st.reservations| <= i < |o.store.reservations| ==>
          MadeFor(o.store.reservations[i], draft.id, draft.kioskUserId, now + expiresInMinutes.GetOr(InitialReservationMinutes))
  {
    var st1 := WithOrder(st, draft, items, now);
    var minutes := Some(expiresInMinutes.GetOr(InitialReservationMinutes));
    CreateReservationsRows(st1, draft.id, draft.kioskUserId, RequestedItems(StampedItems(items, draft.id)), minutes, now, true);
  }

  /** Creating an order, successfully or not, keeps every batch's reserved
      counter equal to what its ACTIVE reservations hold. */
  lemma CreateOrderKeepsCounters(st: Store, draft: Order, items: seq<OrderItem>, expiresInMinutes: Option<int>, now: int)
    requires CountersAgree(st.batches, st.reservations)
    ensures var o := CreateOrderWithItemsAndReserveStock(st, draft, items, expiresInMinutes, now);
      CountersAgree(o.store.batches, o.store.reservations)
  {
    var st1 := WithOrder(st, draft, items, now);
    var minutes := Some(expiresInMinutes.GetOr(InitialReservationMinutes));
    CreateReservationsKeepsCounters(st1, draft.id, draft.kioskUserId, RequestedItems(StampedItems(items, draft.id)), minutes, now, true);
  }

  // ---------------------------------------------------------------------------
  // Transitions
  // ---------------------------------------------------------------------------

  function CannotAcceptMessage(s: OrderStatus): string
  {
    "Order cannot be accepted in status: " + StatusText(s)
  }

  function CannotRejectMessage(s: OrderStatus): string
  {
    "Order cannot be rejected in status: " + StatusText(s)
  }

  function NotAcceptedMessage(s: OrderStatus): string
  {
    "Order must be ACCEPTED to be READY_FOR_PAYMENT. Current: " + StatusText(s)
  }

  function CannotPayMessage(s: OrderStatus): string
  {
    "Order cannot be PAID in status: " + StatusText(s)
  }

  function CannotCancelMessage(s: OrderStatus): string
  {
    "Order cannot be cancelled in status: " + StatusText(s)
  }

  function CannotCancelFinalMessage(s: OrderStatus): string
  {
    "Order cannot be finally cancelled in status: " + StatusText(s)
  }

  /** `acceptOrder`: a pending order gets its live reservations extended
      and becomes ACCEPTED; the updated order is returned. */
  function AcceptOrder(st: Store, id: string, now: int): (o: Outcome<Order>)
    ensures StatusOf(st.orders, id).None? ==> o == Outcome(st, Err(OrderNotFoundMessage))
    ensures o.result.Err? ==> o.store == st
    ensures StatusOf(st.orders, id).Some? && !StatusOf(st.orders, id).value.PendingKioskConfirmation? ==>
      o.result == Err(CannotAcceptMessage(StatusOf(st.orders, id).value))
    ensures o.result.Ok? ==>
      StatusOf(st.orders, id) == Some(PendingKioskConfirmation)
      && o.store == st.(reservations := ExtendForAcceptedOrder(st, id, now).reservations,
                        orders := MarkAccepted(st.orders, id, now))
      && o.result.value.id == id && o.result.value.status.Accepted? && o.result.value.acceptedAt == Some(now)
  {
    match FindById(st.orders, id)
    case None => Outcome(st, Err(OrderNotFoundMessage))
    case Some(i) =>
      var order := st.orders[i];
      if !order.status.PendingKioskConfirmation? then Outcome(st, Err(CannotAcceptMessage(order.status)))
      else
        var st1 := ExtendForAcceptedOrder(st, id, now);
        var st2 := st1.(orders := MarkAccepted(st1.orders, id, now));
        Outcome(st2, Ok(st2.orders[i]))
  }

  /** `rejectOrder`: a pending order has its reservations released and
      becomes REJECTED; the updated order is returned. */
  function RejectOrder(st: Store, id: string, now: int): (o: Outcome<Order>)
    ensures StatusOf(st.orders, id).None? ==> o == Outcome(st, Err(OrderNotFoundMessage))
    ensures o.result.Err? ==> o.store == st
    ensures StatusOf(st.orders, id).Some? && !StatusOf(st.orders, id).value.PendingKioskConfirmation? ==>
      o.result == Err(CannotRejectMessage(StatusOf(st.orders, id).value))
    ensures o.result.Ok? ==>
      StatusOf(st.orders, id) == Some(PendingKioskConfirmation)
      && o.store == ReleaseByOrder(st, id, now).0.(orders := MarkRejected(st.orders, id, now))
      && o.result.value.id == id && o.result.value.status.Rejected? && o.result.value.rejectedAt == Some(now)
  {
    match FindById(st.orders, id)
    case None => Outcome(st, Err(OrderNotFoundMessage))
    case Some(i) =>
      var order := st.orders[i];
      if !order.status.PendingKioskConfirmation? then Outcome(st, Err(CannotRejectMessage(order.status)))
      else
        var st1 := ReleaseByOrder(st, id, now).0;
        var st2 := st1.(orders := MarkRejected(st1.orders, id, now));
        Outcome(st2, Ok(st2.orders[i]))
  }

  /** `markOrderReadyForPayment`: only an ACCEPTED order becomes
      READY_FOR_PAYMENT, with the given payment deadline; reservations are
      not touched. */
  function MarkOrderReadyForPayment(st: Store, id: string, expiresAt: int, now: int): (o: Outcome<()>)
    ensures StatusOf(st.orders, id).None? ==> o == Outcome(st, Err(OrderNotFoundMessage))
    ensures o.result.Err? ==> o.store == st
    ensures StatusOf(st.orders, id).Some? && !StatusOf(st.orders, id).value.Accepted? ==>
      o.result == Err(NotAcceptedMessage(StatusOf(st.orders, id).value))
    ensures o.result.Ok? ==>
      StatusOf(st.orders, id) == Some(Accepted)
      && o.store == st.(orders := MarkReadyForPayment(st.orders, id, expiresAt, now))
  {
    match FindById(st.orders, id)
    case None => Outcome(st, Err(OrderNotFoundMessage))
    case Some(i) =>
      var order := st.orders[i];
      if !order.status.Accepted? then Outcome(st, Err(NotAcceptedMessage(order.status)))
      else Outcome(st.(orders := MarkReadyForPayment(st.orders, id, expiresAt, now)), Ok(()))
  }

  /** The columns `markOrderAsPaid` writes: PAID, paid now, and the given
      payment information, or the stored one when none is given. */
  function PaidPatch(order: Order, paymentInfo: Option<string>, now: int): (p: OrderPatch)
    ensures p.status == Some(Paid) && p.paidAt == Some(now)
    ensures p.paymentInfo == Some(if paymentInfo.Some? then paymentInfo else order.paymentInfo)
  {
    NoChange.(status := Some(Paid), paidAt := Some(now),
              paymentInfo := Some(if paymentInfo.Some? then paymentInfo else order.paymentInfo))
  }

  /** `markOrderAsPaid`: an ACCEPTED or READY_FOR_PAYMENT order has its
      reservations consumed and becomes PAID; the updated order is
      returned. */
  function MarkOrderAsPaid(st: Store, id: string, paymentInfo: Option<string>, now: int): (o: Outcome<Order>)
    ensures StatusOf(st.orders, id).None? ==> o == Outcome(st, Err(OrderNotFoundMessage))
    ensures o.result.Err? ==> o.store == st
    ensures StatusOf(st.orders, id).Some? && !(StatusOf(st.orders, id).value.Accepted? || StatusOf(st.orders, id).value.ReadyForPayment?) ==>
      o.result == Err(CannotPayMessage(StatusOf(st.orders, id).value))
    ensures o.result.Ok? ==>
      var before := st.orders[FindById(st.orders, id).value];
      (before.status.Accepted? || before.status.ReadyForPayment?)
      && o.store == ConsumeByOrder(st, id, now).0.(orders := Update(st.orders, id, PaidPatch(before, paymentInfo, now), now))
      && o.result.value.id == id && o.result.value.status.Paid? && o.result.value.paidAt == Some(now)
      && o.result.value.paymentInfo == (if paymentInfo.Some? then paymentInfo else before.paymentInfo)
  {
    match FindById(st.orders, id)
    case None => Outcome(st, Err(OrderNotFoundMessage))
    case Some(i) =>
      var order := st.orders[i];
      if !(order.status.Accepted? || order.status.ReadyForPayment?) then Outcome(st, Err(CannotPayMessage(order.status)))
      else
        var st1 := ConsumeByOrder(st, id, now).0;
        var st2 := st1.(orders := Update(st1.orders, id, PaidPatch(order, paymentInfo, now), now));
        Outcome(st2, Ok(st2.orders[i]))
  }

  /** `cancellationRequested`: a PAID order only records the request; a
      pending, accepted or ready-for-payment order has its reservations
      released and becomes CANCELLED; any other status is refused. */
  function CancellationRequested(st: Store, id: string, now: int): (o: Outcome<()>)
    ensures StatusOf(st.orders, id).None? ==> o == Outcome(st, Err(OrderNotFoundMessage))
    ensures o.result.Err? ==> o.store == st
    ensures StatusOf(st.orders, id) == Some(Paid) ==>
      o == Outcome(st.(orders := MarkCancelRequested(st.orders, id, now)), Ok(()))
    ensures StatusOf(st.orders, id).Some? && StatusOf(st.orders, id).value in {PendingKioskConfirmation, Accepted, ReadyForPayment} ==>
      o == Outcome(ReleaseByOrder(st, id, now).0.(orders := MarkCancelled(st.orders, id, now)), Ok(()))
    ensures StatusOf(st.orders, id).Some? && StatusOf(st.orders, id).value in {Rejected, CancelRequested, Cancelled, AutoRejectedTimeout} ==>
      o.result == Err(CannotCancelMessage(StatusOf(st.orders, id).value))
  {
    match FindById(st.orders, id)
    case None => Outcome(st, Err(OrderNotFoundMessage))
    case Some(i) =>
      var order := st.orders[i];
      if order.status.Paid? then Outcome(st.(orders := MarkCancelRequested(st.orders, id, now)), Ok(()))
      else if !(order.status.PendingKioskConfirmation? || order.status.Accepted? || order.status.ReadyForPayment?) then
        Outcome(st, Err(CannotCancelMessage(order.status)))
      else
        var st1 := ReleaseByOrder(st, id, now).0;
        Outcome(st1.(orders := MarkCancelled(st1.orders, id, now)), Ok(()))
  }

  /** `cancelOrderFinal`: only a CANCEL_REQUESTED order becomes CANCELLED;
      its reservations are released first when it still holds a live one. */
  function CancelOrderFinal(st: Store, id: string, now: int): (o: Outcome<()>)
    ensures StatusOf(st.orders, id).None? ==> o == Outcome(st, Err(OrderNotFoundMessage))
    ensures o.result.Err? ==> o.store == st
    ensures StatusOf(st.orders, id).Some? && !StatusOf(st.orders, id).value.CancelRequested? ==>
      o.result == Err(CannotCancelFinalMessage(StatusOf(st.orders, id).value))
    ensures o.result.Ok? ==>
      StatusOf(st.orders, id) == Some(CancelRequested)
      && var released := if HasActiveReservations(st.reservations, id, now) then ReleaseByOrder(st, id, now).0 else st;
      o.store == released.(orders := MarkCancelled(st.orders, id, now))
  {
    match FindById(st.orders, id)
    case None => Outcome(st, Err(OrderNotFoundMessage))
    case Some(i) =>
      var order := st.orders[i];
      if !order.status.CancelRequested? then Outcome(st, Err(CannotCancelFinalMessage(order.status)))
      else
        var st1 := if HasActiveReservations(st.reservations, id, now) then ReleaseByOrder(st, id, now).0 else st;
        Outcome(st1.(orders := MarkCancelled(st1.orders, id, now)), Ok(()))
  }

  /** `autoRejectTimeout`: a pending order has its reservations released and
      becomes AUTO_REJECTED_TIMEOUT; an order in any other status is left
      alone without an error. */
  function AutoRejectTimeout(st: Store, id: string, now: int): (o: Outcome<()>)
    ensures StatusOf(st.orders, id).None? ==> o == Outcome(st, Err(OrderNotFoundMessage))
    ensures StatusOf(st.orders, id).Some? ==> o.result.Ok?
    ensures StatusOf(st.orders, id).Some? && !StatusOf(st.orders, id).value.PendingKioskConfirmation? ==> o.store == st
    ensures StatusOf(st.orders, id) == Some(PendingKioskConfirmation) ==>
      o.store == ReleaseByOrder(st, id, now).0.(orders := Update(st.orders, id, StatusPatch(AutoRejectedTimeout), now))
  {
    match FindById(st.orders, id)
    case None => Outcome(st, Err(OrderNotFoundMessage))
    case Some(i) =>
      var order := st.orders[i];
      if !order.status.PendingKioskConfirmation? then Outcome(st, Ok(()))
      else
        var st1 := ReleaseByOrder(st, id, now).0;
        Outcome(st1.(orders := Update(st1.orders, id, StatusPatch(AutoRejectedTimeout), now)), Ok(()))
  }

  /** A second timeout on the same order changes nothing. */
  lemma AutoRejectTimeoutIdempotent(st: Store, id: string, now: int, later: int)
    requires AutoRejectTimeout(st, id, now).result.Ok?
    ensures var once := AutoRejectTimeout(st, id, now).store;
      AutoRejectTimeout(once, id, later) == Outcome(once, Ok(()))
  {
    var once := AutoRejectTimeout(st, id, now).store;
    var i := FindById(st.orders, id).value;
    assert FindById(once.orders, id) == FindById(st.orders, id) by {
      if st.orders[i].status.PendingKioskConfirmation? {
        UpdateKeepsIds(st.orders, id, StatusPatch(AutoRejectedTimeout), now, id);
      }
    }
  }

  // ---------------------------------------------------------------------------
  // The operations follow the table
  // ---------------------------------------------------------------------------

  /** Runs one action on the order with that id. */
  function Perform(st: Store, a: Action, id: string, now: int): (o: Outcome<()>)
  {
    match a
    case Accept => Forget(AcceptOrder(st, id, now))
    case Reject => Forget(RejectOrder(st, id, now))
    case MarkReady(expiresAt) => MarkOrderReadyForPayment(st, id, expiresAt, now)
    case Pay(info) => Forget(MarkOrderAsPaid(st, id, info, now))
    case RequestCancel => CancellationRequested(st, id, now)
    case CancelFinal => CancelOrderFinal(st, id, now)
    case AutoReject => AutoRejectTimeout(st, id, now)
  }

  function Forget(o: Outcome<Order>): (r: Outcome<()>)
    ensures r.store == o.store && (r.result.Ok? <==> o.result.Ok?)
    ensures o.result.Err? ==> r.result == Err(o.result.error)
  {
    Outcome(o.store, if o.result.Ok? then Ok(()) else Err(o.result.error))
  }

  /** Every action succeeds exactly when the table allows it from the
      order's status, leaves the order in the status the table names, and
      refuses a missing order with 'Order not found'. */
  lemma PerformFollowsTable(st: Store, a: Action, id: string, now: int)
    ensures var o := Perform(st, a, id, now);
      StatusOf(st.orders, id).None? ==> o == Outcome(st, Err(OrderNotFoundMessage))
    ensures var o := Perform(st, a, id, now);
      StatusOf(st.orders, id).Some? ==>
        (o.result.Ok? <==> Next(a, StatusOf(st.orders, id).value).Some?)
        && (o.result.Ok? ==> StatusOf(o.store.orders, id) == Next(a, StatusOf(st.orders, id).value))
        && (o.result.Err? ==> o.store == st)
  {
    var o := Perform(st, a, id, now);
    match FindById(st.orders, id)
    case None =>
    case Some(i) =>
      var s := st.orders[i].status;
      if o.result.Ok? {
        LandsOn(st, a, id, now, i);
      }
  }

  /** After a successful action the order is found at the same place with
      the status the table names. */
  lemma LandsOn(st: Store, a: Action, id: string, now: int, i: nat)
    requires FindById(st.orders, id) == Some(i)
    requires Perform(st, a, id, now).result.Ok?
    ensures var o := Perform(st, a, id, now);
      FindById(o.store.orders, id) == Some(i)
      && Next(a, st.orders[i].status) == Some(o.store.orders[i].status)
  {
    var o := Perform(st, a, id, now);
    var s := st.orders[i].status;
    var patch := match a
      case Accept => StatusPatch(Accepted).(acceptedAt := Some(now))
      case Reject => StatusPatch(Rejected).(rejectedAt := Some(now))
      case MarkReady(e) => StatusPatch(ReadyForPayment).(expiresAt := Some(e))
      case Pay(info) => PaidPatch(st.orders[i], info, now)
      case RequestCancel => if s.Paid? then StatusPatch(CancelRequested) else StatusPatch(Cancelled)
      case CancelFinal => StatusPatch(Cancelled)
      case AutoReject => StatusPatch(AutoRejectedTimeout);
    if a.AutoReject? && !s.PendingKioskConfirmation? {
      assert o.store == st;
    } else {
      assert o.store.orders == Update(st.orders, id, patch, now);
      UpdateKeepsIds(st.orders, id, patch, now, id);
    }
  }

  /** Accepting and marking ready keep each batch's reserved counter equal
      to what its ACTIVE reservations hold; an action that releases or
      consumes the order's reservations does so when none of them has
      expired (see `ReleaseByOrderLeaks` for what happens otherwise). */
  lemma PerformKeepsCounters(st: Store, a: Action, id: string, now: int)
    requires CountersAgree(st.batches, st.reservations)
    requires !(a.Accept? || a.MarkReady?) ==> OrderReservationsLive(st.reservations, id, now)
    ensures var o := Perform(st, a, id, now);
      CountersAgree(o.store.batches, o.store.reservations)
  {
    if a.Pay? {
      ConsumeKeepsCountersWhenLive(st, id, now);
    } else if !(a.Accept? || a.MarkReady?) {
      ReleaseByOrderWhenLive(st, id, now);
    }
  }

  /** A refused action, or one on a missing order, writes nothing. */
  lemma RefusalWritesNothing(st: Store, a: Action, id: string, now: int)
    requires StatusOf(st.orders, id).None? || Next(a, StatusOf(st.orders, id).value).None?
    ensures Perform(st, a, id, now).store == st
    ensures Perform(st, a, id, now).result.Err?
  {
    PerformFollowsTable(st, a, id, now);
  }
}
