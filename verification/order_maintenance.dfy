/** `OrderMaintenanceService`: the two jobs that run every minute. One
    auto-rejects pending orders whose confirmation deadline has passed; the
    other cancels accepted or ready-for-payment orders whose payment
    deadline has passed. Each reads one page of at most 200 orders and runs
    the order operation on each in turn; a failure on one order is logged
    and the job goes on with the next. */
module OrderMaintenance {
  import opened Common
  import opened CommerceModel
  import opened OrderRepository
  import opened OrderService

  /** The filter of the auto-reject job. */
  function PendingFilter(now: int): OrderFilters
  {
    OrderFilters(Some(OneStatus(PendingKioskConfirmation)), None, None, Some(now), Some(DefaultLimit))
  }

  /** The filter of the payment-expiry job. */
  function PaymentFilter(now: int): OrderFilters
  {
    OrderFilters(Some(AnyStatus([Accepted, ReadyForPayment])), None, None, Some(now), Some(DefaultLimit))
  }

  function IdsOf(os: seq<Order>): (r: seq<string>)
    ensures |r| == |os| && forall i :: 0 <= i < |os| ==> r[i] == os[i].id
  {
    seq(|os|, i requires 0 <= i < |os| => os[i].id)
  }

  /** The job loop: the action on each id in turn; an order the action
      refuses is skipped (its error is only logged). */
  function RunJob(st: Store, a: Action, ids: seq<string>, now: int): Store
    decreases |ids|
  {
    if |ids| == 0 then st
    else
      var o := Perform(st, a, ids[0], now);
      RunJob(if o.result.Ok? then o.store else st, a, ids[1..], now)
  }

  /** `autoRejectPendingOrders`: `autoRejectTimeout` on every selected
      pending order whose deadline is before now. */
  function AutoRejectPendingOrders(st: Store, now: int): (r: Store)
    ensures |FindMany(st.orders, PendingFilter(now))| == 0 ==> r == st
  {
    JobOn(st, AutoReject, FindMany(st.orders, PendingFilter(now)), now)
  }

  /** A job over the page it read: nothing at all for an empty page. */
  function JobOn(st: Store, a: Action, page: seq<Order>, now: int): Store
  {
    if |page| == 0 then st else RunJob(st, a, IdsOf(page), now)
  }

  /** `cancelExpiredPaymentOrders`: `cancellationRequested` on every
      selected accepted or ready-for-payment order whose deadline is before
      now. */
  function CancelExpiredPaymentOrders(st: Store, now: int): (r: Store)
    ensures |FindMany(st.orders, PaymentFilter(now))| == 0 ==> r == st
  {
    JobOn(st, RequestCancel, FindMany(st.orders, PaymentFilter(now)), now)
  }

  /** A page holds at most 200 orders. */
  lemma PageSize(os: seq<Order>, f: OrderFilters)
    requires f.limit == Some(DefaultLimit)
    ensures |FindMany(os, f)| <= DefaultLimit
  {
  }

  /** The auto-reject page holds pending orders past their deadline. */
  lemma InPendingPage(os: seq<Order>, now: int, x: Order)
    requires x in FindMany(os, PendingFilter(now))
    ensures x in os && x.status.PendingKioskConfirmation? && ExpiredBefore(x, now)
  {
    assert Matches(x, PendingFilter(now));
  }

  /** The payment-expiry page holds accepted or ready-for-payment orders
      past their deadline. */
  lemma InPaymentPage(os: seq<Order>, now: int, x: Order)
    requires x in FindMany(os, PaymentFilter(now))
    ensures x in os && (x.status.Accepted? || x.status.ReadyForPayment?) && ExpiredBefore(x, now)
  {
    assert Matches(x, PaymentFilter(now));
    assert StatusMatches(x.status, AnyStatus([Accepted, ReadyForPayment]));
  }

  // ---------------------------------------------------------------------------
  // What the jobs leave behind
  // ---------------------------------------------------------------------------

  /** The status an order is left in by the action: the table's status, or
      the same one when the action refuses it. */
  function After(a: Action, s: OrderStatus): OrderStatus
  {
    Next(a, s).GetOr(s)
  }

  /** For the two job actions, acting twice is acting once. */
  lemma AfterIdempotent(a: Action, s: OrderStatus)
    requires a.AutoReject? || a.RequestCancel?
    ensures After(a, After(a, s)) == After(a, s)
  {
  }

  /** One action moves the order it names to `After`, and no other. */
  lemma PerformStatus(st: Store, a: Action, id: string, now: int, other: string)
    ensures var o := Perform(st, a, id, now);
      var r := if o.result.Ok? then o.store else st;
      StatusOf(r.orders, other) ==
        (if other == id && StatusOf(st.orders, id).Some? then Some(After(a, StatusOf(st.orders, id).value))
         else StatusOf(st.orders, other))
  {
    PerformFollowsTable(st, a, id, now);
    if other != id {
      PerformLeavesOthers(st, a, id, now, other);
    }
  }

  /** An action changes no order but the one it names. */
  lemma PerformLeavesOthers(st: Store, a: Action, id: string, now: int, other: string)
    requires other != id
    ensures StatusOf(Perform(st, a, id, now).store.orders, other) == StatusOf(st.orders, other)
  {
    var o := Perform(st, a, id, now);
    if o.store.orders != st.orders {
      var patch :| o.store.orders == Update(st.orders, id, patch, now) by {
        PerformWritesOnePatch(st, a, id, now);
      }
      UpdateKeepsIds(st.orders, id, patch, now, other);
    }
  }

  /** Whatever an action writes to the order table is one patch of the
      orders with its id. */
  lemma PerformWritesOnePatch(st: Store, a: Action, id: string, now: int)
    requires Perform(st, a, id, now).store.orders != st.orders
    ensures exists patch :: Perform(st, a, id, now).store.orders == Update(st.orders, id, patch, now)
  {
    var o := Perform(st, a, id, now);
    var i := FindById(st.orders, id).value;
    var s := st.orders[i].status;
    var patch := match a
      case Accept => StatusPatch(Accepted).(acceptedAt := Some(now))
      case Reject => StatusPatch(Rejected).(rejectedAt := Some(now))
      case MarkReady(e) => StatusPatch(ReadyForPayment).(expiresAt := Some(e))
      case Pay(info) => PaidPatch(st.orders[i], info, now)
      case RequestCancel => if s.Paid? then StatusPatch(CancelRequested) else StatusPatch(Cancelled)
      case CancelFinal => StatusPatch(Cancelled)
      case AutoReject => StatusPatch(AutoRejectedTimeout);
    assert o.store.orders == Update(st.orders, id, patch, now);
  }

  /** After a job over a list of ids, every listed order is in the status
      the action leaves it in, however often it is listed, and every other
      order is as it was: a refused order does not stop the rest. */
  lemma {:induction false} RunJobStatus(st: Store, a: Action, ids: seq<string>, now: int, id: string)
    requires a.AutoReject? || a.RequestCancel?
    ensures StatusOf(RunJob(st, a, ids, now).orders, id) ==
      (if id in ids && StatusOf(st.orders, id).Some? then Some(After(a, StatusOf(st.orders, id).value))
       else StatusOf(st.orders, id))
    decreases |ids|
  {
    if |ids| > 0 {
      var o := Perform(st, a, ids[0], now);
      var next := if o.result.Ok? then o.store else st;
      PerformStatus(st, a, ids[0], now, id);
      RunJobStatus(next, a, ids[1..], now, id);
      assert id in ids <==> id == ids[0] || id in ids[1..];
      if StatusOf(st.orders, id).Some? {
        AfterIdempotent(a, StatusOf(st.orders, id).value);
      }
    }
  }

  /** No two orders share an id (the table's primary key). */
  predicate UniqueOrderIds(os: seq<Order>)
  {
    forall i, j :: 0 <= i < j < |os| ==> os[i].id != os[j].id
  }

  lemma FoundIsTheRow(os: seq<Order>, x: Order)
    requires UniqueOrderIds(os) && x in os
    ensures StatusOf(os, x.id) == Some(x.status)
  {
    var k :| 0 <= k < |os| && os[k] == x;
    assert FindById(os, x.id) == Some(k);
  }

  /** A job over a page of existing orders, each of which the action takes
      to `target`, leaves every order on the page at `target` and every
      other order as it was. */
  lemma JobOverPage(st: Store, a: Action, page: seq<Order>, now: int, id: string, target: OrderStatus)
    requires a.AutoReject? || a.RequestCancel?
    requires UniqueOrderIds(st.orders)
    requires forall y :: y in page ==> y in st.orders && After(a, y.status) == target
    ensures var r := JobOn(st, a, page, now);
      (id in IdsOf(page) ==> StatusOf(r.orders, id) == Some(target))
      && (id !in IdsOf(page) ==> StatusOf(r.orders, id) == StatusOf(st.orders, id))
  {
    if |page| > 0 {
      RunJobStatus(st, a, IdsOf(page), now, id);
    }
    if id in IdsOf(page) {
      var k :| 0 <= k < |page| && IdsOf(page)[k] == id;
      assert page[k] in page;
      FoundIsTheRow(st.orders, page[k]);
    }
  }

  /** The auto-reject job leaves every selected order AUTO_REJECTED_TIMEOUT
      and every order it did not select as it was. */
  lemma AutoRejectJobOutcome(st: Store, now: int, id: string)
    requires UniqueOrderIds(st.orders)
    ensures var page := FindMany(st.orders, PendingFilter(now));
      var r := AutoRejectPendingOrders(st, now);
      (id in IdsOf(page) ==> StatusOf(r.orders, id) == Some(AutoRejectedTimeout))
      && (id !in IdsOf(page) ==> StatusOf(r.orders, id) == StatusOf(st.orders, id))
  {
    PendingPageSettles(st.orders, now);
    JobOverPage(st, AutoReject, FindMany(st.orders, PendingFilter(now)), now, id, AutoRejectedTimeout);
  }

  /** Every order on the auto-reject page is one the timeout takes to
      AUTO_REJECTED_TIMEOUT. */
  lemma PendingPageSettles(os: seq<Order>, now: int)
    ensures forall y :: y in FindMany(os, PendingFilter(now)) ==> y in os && After(AutoReject, y.status) == AutoRejectedTimeout
  {
    var f := PendingFilter(now);
    forall x: Order | Matches(x, f)
      ensures After(AutoReject, x.status) == AutoRejectedTimeout
    {
    }
    PageSettles(os, f, AutoReject, AutoRejectedTimeout);
  }

  /** The payment-expiry job leaves every selected order CANCELLED and
      every order it did not select as it was. */
  lemma PaymentJobOutcome(st: Store, now: int, id: string)
    requires UniqueOrderIds(st.orders)
    ensures var page := FindMany(st.orders, PaymentFilter(now));
      var r := CancelExpiredPaymentOrders(st, now);
      (id in IdsOf(page) ==> StatusOf(r.orders, id) == Some(Cancelled))
      && (id !in IdsOf(page) ==> StatusOf(r.orders, id) == StatusOf(st.orders, id))
  {
    PaymentPageSettles(st.orders, now);
    JobOverPage(st, RequestCancel, FindMany(st.orders, PaymentFilter(now)), now, id, Cancelled);
  }

  /** Every order on the payment-expiry page is one the cancellation
      request takes to CANCELLED. */
  lemma PaymentPageSettles(os: seq<Order>, now: int)
    ensures forall y :: y in FindMany(os, PaymentFilter(now)) ==> y in os && After(RequestCancel, y.status) == Cancelled
  {
    var f := PaymentFilter(now);
    forall x: Order | Matches(x, f)
      ensures After(RequestCancel, x.status) == Cancelled
    {
      assert StatusMatches(x.status, AnyStatus([Accepted, ReadyForPayment]));
    }
    PageSettles(os, f, RequestCancel, Cancelled);
  }

  /** When the action takes every order the filter admits to `target`, it
      takes every order on the page to `target`. */
  lemma PageSettles(os: seq<Order>, f: OrderFilters, a: Action, target: OrderStatus)
    requires forall x: Order :: Matches(x, f) ==> After(a, x.status) == target
    ensures forall y :: y in FindMany(os, f) ==> y in os && After(a, y.status) == target
  {
  }
}
