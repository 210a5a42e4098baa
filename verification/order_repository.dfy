/** `OrderRepository`: the order finder by id, the partial update, the
    status transitions (`mark*`, none of which looks at the current status),
    the bulk expiry of pending orders and the filtered listings the
    maintenance jobs read. */
module OrderRepository {
  import opened Common
  import opened Tables
  import opened Sorting
  import opened CommerceModel

  /** `findById`: the order with that id. */
  function FindById(os: seq<Order>, id: string): (r: Option<nat>)
    ensures r.Some? ==> r.value < |os| && os[r.value].id == id
    ensures r.None? <==> forall i :: 0 <= i < |os| ==> os[i].id != id
  {
    FirstWhere(os, (o: Order) => o.id == id)
  }

  // ---------------------------------------------------------------------------
  // Partial updates
  // ---------------------------------------------------------------------------

  /** The columns a `Partial<Order>` may carry here; a missing one is left
      as it is. */
  datatype OrderPatch = OrderPatch(
    status: Option<OrderStatus>, acceptedAt: Option<int>, rejectedAt: Option<int>,
    paidAt: Option<int>, expiresAt: Option<int>, paymentInfo: Option<Option<string>>)

  const NoChange: OrderPatch := OrderPatch(None, None, None, None, None, None)

  /** A row after a patch: each supplied column replaced, `updatedAt`
      stamped, everything else as it was. */
  function Patched(o: Order, patch: OrderPatch, now: int): (r: Order)
    ensures r.id == o.id && r.checkoutSessionId == o.checkoutSessionId && r.userId == o.userId
    ensures r.kioskUserId == o.kioskUserId && r.subtotalProducts == o.subtotalProducts && r.createdAt == o.createdAt
    ensures r.status == patch.status.GetOr(o.status)
    ensures r.acceptedAt == (if patch.acceptedAt.Some? then patch.acceptedAt else o.acceptedAt)
    ensures r.rejectedAt == (if patch.rejectedAt.Some? then patch.rejectedAt else o.rejectedAt)
    ensures r.paidAt == (if patch.paidAt.Some? then patch.paidAt else o.paidAt)
    ensures r.expiresAt == (if patch.expiresAt.Some? then patch.expiresAt else o.expiresAt)
    ensures r.paymentInfo == patch.paymentInfo.GetOr(o.paymentInfo)
    ensures r.updatedAt == now
  {
    o.(status := patch.status.GetOr(o.status),
       acceptedAt := if patch.acceptedAt.Some? then patch.acceptedAt else o.acceptedAt,
       rejectedAt := if patch.rejectedAt.Some? then patch.rejectedAt else o.rejectedAt,
       paidAt := if patch.paidAt.Some? then patch.paidAt else o.paidAt,
       expiresAt := if patch.expiresAt.Some? then patch.expiresAt else o.expiresAt,
       paymentInfo := patch.paymentInfo.GetOr(o.paymentInfo),
       updatedAt := now)
  }

  /** `update(orderId, data)`: the rows with that id get the patch; an
      unknown id changes nothing. */
  function Update(os: seq<Order>, id: string, patch: OrderPatch, now: int): (r: seq<Order>)
    ensures |r| == |os|
    ensures forall i :: 0 <= i < |os| && os[i].id != id ==> r[i] == os[i]
    ensures forall i :: 0 <= i < |os| && os[i].id == id ==> r[i] == Patched(os[i], patch, now)
  {
    seq(|os|, i requires 0 <= i < |os| => if os[i].id == id then Patched(os[i], patch, now) else os[i])
  }

  /** Patching a row twice with the same patch at the same instant is
      patching it once. */
  lemma PatchedIdempotent(o: Order, patch: OrderPatch, now: int)
    ensures Patched(Patched(o, patch, now), patch, now) == Patched(o, patch, now)
  {
  }

  /** An update keeps the set of ids, so the same orders can be found
      afterwards. */
  lemma UpdateKeepsIds(os: seq<Order>, id: string, patch: OrderPatch, now: int, other: string)
    ensures FindById(Update(os, id, patch, now), other) == FindById(os, other)
  {
    var r := Update(os, id, patch, now);
    var p := (o: Order) => o.id == other;
    match FindById(os, other)
    case None =>
    case Some(i) =>
      FirstWhereFirst(r, p, i);
  }

  // ---------------------------------------------------------------------------
  // Status transitions
  // ---------------------------------------------------------------------------

  function StatusPatch(s: OrderStatus): OrderPatch
  {
    NoChange.(status := Some(s))
  }

  /** `markAccepted`: ACCEPTED, accepted now. */
  function MarkAccepted(os: seq<Order>, id: string, now: int): (r: seq<Order>)
    ensures |r| == |os|
    ensures forall i :: 0 <= i < |os| ==>
      if os[i].id == id then r[i] == os[i].(status := Accepted, acceptedAt := Some(now), updatedAt := now)
      else r[i] == os[i]
  {
    Update(os, id, StatusPatch(Accepted).(acceptedAt := Some(now)), now)
  }

  /** `markRejected`: REJECTED, rejected now. */
  function MarkRejected(os: seq<Order>, id: string, now: int): (r: seq<Order>)
    ensures |r| == |os|
    ensures forall i :: 0 <= i < |os| ==>
      if os[i].id == id then r[i] == os[i].(status := Rejected, rejectedAt := Some(now), updatedAt := now)
      else r[i] == os[i]
  {
    Update(os, id, StatusPatch(Rejected).(rejectedAt := Some(now)), now)
  }

  /** `markReadyForPayment`: READY_FOR_PAYMENT with the given payment
      deadline. */
  function MarkReadyForPayment(os: seq<Order>, id: string, expiresAt: int, now: int): (r: seq<Order>)
    ensures |r| == |os|
    ensures forall i :: 0 <= i < |os| ==>
      if os[i].id == id then r[i] == os[i].(status := ReadyForPayment, expiresAt := Some(expiresAt), updatedAt := now)
      else r[i] == os[i]
  {
    Update(os, id, StatusPatch(ReadyForPayment).(expiresAt := Some(expiresAt)), now)
  }

  /** `markPaid`: PAID, paid now. */
  function MarkPaid(os: seq<Order>, id: string, now: int): (r: seq<Order>)
    ensures |r| == |os|
    ensures forall i :: 0 <= i < |os| ==>
      if os[i].id == id then r[i] == os[i].(status := Paid, paidAt := Some(now), updatedAt := now)
      else r[i] == os[i]
  {
    Update(os, id, StatusPatch(Paid).(paidAt := Some(now)), now)
  }

  /** `markCancelRequested`. */
  function MarkCancelRequested(os: seq<Order>, id: string, now: int): (r: seq<Order>)
    ensures |r| == |os|
    ensures forall i :: 0 <= i < |os| ==>
      if os[i].id == id then r[i] == os[i].(status := CancelRequested, updatedAt := now)
      else r[i] == os[i]
  {
    Update(os, id, StatusPatch(CancelRequested), now)
  }

  /** `markCancelled`. */
  function MarkCancelled(os: seq<Order>, id: string, now: int): (r: seq<Order>)
    ensures |r| == |os|
    ensures forall i :: 0 <= i < |os| ==>
      if os[i].id == id then r[i] == os[i].(status := Cancelled, updatedAt := now)
      else r[i] == os[i]
  {
    Update(os, id, StatusPatch(Cancelled), now)
  }

  /** The transitions do not look at the status they leave: marking an
      order reached by any status lands on the same status. */
  lemma MarkIgnoresCurrentStatus(os: seq<Order>, id: string, now: int, i: nat, s: OrderStatus)
    requires i < |os| && os[i].id == id
    ensures MarkCancelled(os[i := os[i].(status := s)], id, now)[i] == MarkCancelled(os, id, now)[i]
    ensures MarkAccepted(os[i := os[i].(status := s)], id, now)[i] == MarkAccepted(os, id, now)[i]
    ensures MarkPaid(os[i := os[i].(status := s)], id, now)[i] == MarkPaid(os, id, now)[i]
  {
  }

  // ---------------------------------------------------------------------------
  // Bulk expiry
  // ---------------------------------------------------------------------------

  /** A row `markExpiredOrders(threshold)` changes. */
  predicate StalePending(o: Order, threshold: int)
  {
    o.status.PendingKioskConfirmation? && o.createdAt < threshold
  }

  /** `markExpiredOrders`: every PENDING_KIOSK_CONFIRMATION order created
      before the threshold becomes AUTO_REJECTED_TIMEOUT; the count is the
      number of such orders. */
  function MarkExpiredOrders(os: seq<Order>, threshold: int, now: int): (r: (seq<Order>, nat))
    ensures |r.0| == |os|
    ensures forall i :: 0 <= i < |os| ==>
      if StalePending(os[i], threshold) then r.0[i] == os[i].(status := AutoRejectedTimeout, updatedAt := now)
      else r.0[i] == os[i]
    ensures r.1 == Count(os, (o: Order) => StalePending(o, threshold))
  {
    var rows := seq(|os|, i requires 0 <= i < |os| =>
      if StalePending(os[i], threshold) then os[i].(status := AutoRejectedTimeout, updatedAt := now) else os[i]);
    (rows, Count(os, (o: Order) => StalePending(o, threshold)))
  }

  /** After the bulk expiry no stale pending order is left, so running it
      again changes nothing and counts 0. */
  lemma MarkExpiredOrdersSettles(os: seq<Order>, threshold: int, now: int)
    ensures var r := MarkExpiredOrders(os, threshold, now).0;
      forall i :: 0 <= i < |r| ==> !StalePending(r[i], threshold)
    ensures var r := MarkExpiredOrders(os, threshold, now).0;
      MarkExpiredOrders(r, threshold, now) == (r, 0)
  {
    var r := MarkExpiredOrders(os, threshold, now).0;
    var again := MarkExpiredOrders(r, threshold, now);
    assert again.0 == r;
  }

  // ---------------------------------------------------------------------------
  // Listings
  // ---------------------------------------------------------------------------

  /** The default and the maintenance jobs' page size. */
  const DefaultLimit: int := 200

  /** `take(limit)`: at most `limit` rows from the front; a limit that is
      not positive takes them all. */
  function Take<T>(s: seq<T>, limit: int): (r: seq<T>)
    ensures |r| == (if 0 < limit < |s| then limit else |s|)
    ensures r == s[..|r|]
  {
    if 0 < limit < |s| then s[..limit] else s
  }

  /** `expiresAt < now`: a missing deadline never compares below. */
  predicate ExpiredBefore(o: Order, t: int)
  {
    o.expiresAt.Some? && o.expiresAt.value < t
  }

  /** The condition of `findPendingExpired`. */
  function PendingExpired(now: int): Order -> bool
  {
    (o: Order) => o.status.PendingKioskConfirmation? && ExpiredBefore(o, now)
  }

  /** The condition of `findPaymentExpired`. */
  function PaymentExpired(now: int): Order -> bool
  {
    (o: Order) => (o.status.Accepted? || o.status.ReadyForPayment?) && ExpiredBefore(o, now)
  }

  /** A page of the rows satisfying `p` holds only such rows, and all of
      them when they fit. */
  lemma TakeOfFilter<T(!new)>(s: seq<T>, p: T -> bool, limit: int)
    ensures forall x :: x in Take(Filter(s, p), limit) ==> x in s && p(x)
    ensures Count(s, p) <= limit ==> forall x :: x in s && p(x) ==> x in Take(Filter(s, p), limit)
  {
    var r := Take(Filter(s, p), limit);
    assert forall x :: x in r ==> x in Filter(s, p);
  }

  /** `findPendingExpired`: up to 200 pending orders whose deadline has
      passed. */
  function FindPendingExpired(os: seq<Order>, now: int): (r: seq<Order>)
    ensures |r| <= DefaultLimit
    ensures forall x :: x in r ==> x in os && x.status.PendingKioskConfirmation? && ExpiredBefore(x, now)
    ensures Count(os, PendingExpired(now)) <= DefaultLimit ==>
      forall x :: x in os && x.status.PendingKioskConfirmation? && ExpiredBefore(x, now) ==> x in r
  {
    TakeOfFilter(os, PendingExpired(now), DefaultLimit);
    Take(Filter(os, PendingExpired(now)), DefaultLimit)
  }

  /** `findPaymentExpired`: up to 200 accepted or ready-for-payment orders
      whose deadline has passed. */
  function FindPaymentExpired(os: seq<Order>, now: int): (r: seq<Order>)
    ensures |r| <= DefaultLimit
    ensures forall x :: x in r ==> x in os && (x.status.Accepted? || x.status.ReadyForPayment?) && ExpiredBefore(x, now)
    ensures Count(os, PaymentExpired(now)) <= DefaultLimit ==>
      forall x :: x in os && (x.status.Accepted? || x.status.ReadyForPayment?) && ExpiredBefore(x, now) ==> x in r
  {
    TakeOfFilter(os, PaymentExpired(now), DefaultLimit);
    Take(Filter(os, PaymentExpired(now)), DefaultLimit)
  }

  /** The status filter of `findMany`: one value, or a list (`IN (...)`). */
  datatype StatusFilter = OneStatus(status: OrderStatus) | AnyStatus(statuses: seq<OrderStatus>)

  datatype OrderFilters = OrderFilters(
    status: Option<StatusFilter>, kioskUserId: Option<int>, userId: Option<string>,
    expiresAtBefore: Option<int>, limit: Option<int>)

  predicate StatusMatches(s: OrderStatus, f: StatusFilter)
  {
    match f
    case OneStatus(t) => s == t
    case AnyStatus(ts) => s in ts
  }

  /** The conjunction of the supplied filters; a missing one lets every
      order through. */
  predicate Matches(o: Order, f: OrderFilters)
  {
    (f.kioskUserId.Some? ==> o.kioskUserId == f.kioskUserId.value)
    && (f.userId.Some? ==> o.userId == f.userId.value)
    && (f.status.Some? ==> StatusMatches(o.status, f.status.value))
    && (f.expiresAtBefore.Some? ==> ExpiredBefore(o, f.expiresAtBefore.value))
  }

  function MatchesFilter(f: OrderFilters): Order -> bool
  {
    (o: Order) => Matches(o, f)
  }

  function ExpiresKey(o: Order): real
  {
    o.expiresAt.GetOr(0) as real
  }

  /** `ORDER BY expiresAt ASC`, with orders lacking a deadline last. */
  function ByExpiry(s: seq<Order>): (r: seq<Order>)
    ensures forall x :: x in r <==> x in s
    ensures |r| == |s|
    ensures forall i, j :: 0 <= i < j < |r| && r[i].expiresAt.Some? && r[j].expiresAt.Some? ==>
      r[i].expiresAt.value <= r[j].expiresAt.value
    ensures forall i, j :: 0 <= i < j < |r| && r[i].expiresAt.None? ==> r[j].expiresAt.None?
  {
    var dated := Filter(s, (o: Order) => o.expiresAt.Some?);
    var undated := Filter(s, (o: Order) => o.expiresAt.None?);
    SortBySorted(dated, ExpiresKey);
    SortByMembers(dated, ExpiresKey);
    var sorted := SortBy(dated, ExpiresKey);
    FilterSplit(s, (o: Order) => o.expiresAt.Some?, (o: Order) => o.expiresAt.None?);
    DatedFirst(sorted, undated);
    sorted + undated
  }

  /** Orders with a deadline, in deadline order, followed by orders
      without one are ordered with missing deadlines last. */
  lemma DatedFirst(sorted: seq<Order>, undated: seq<Order>)
    requires SortedBy(sorted, ExpiresKey)
    requires forall x :: x in sorted ==> x.expiresAt.Some?
    requires forall x :: x in undated ==> x.expiresAt.None?
    ensures var r := sorted + undated;
      forall i, j :: 0 <= i < j < |r| && r[i].expiresAt.Some? && r[j].expiresAt.Some? ==>
        r[i].expiresAt.value <= r[j].expiresAt.value
    ensures var r := sorted + undated;
      forall i, j :: 0 <= i < j < |r| && r[i].expiresAt.None? ==> r[j].expiresAt.None?
  {
    var r := sorted + undated;
    forall j | |sorted| <= j < |r|
      ensures r[j].expiresAt.None?
    {
      assert r[j] == undated[j - |sorted|];
      assert r[j] in undated;
    }
    forall j | 0 <= j < |sorted|
      ensures r[j].expiresAt.Some? && r[j] == sorted[j]
    {
      assert sorted[j] in sorted;
    }
    forall i, j | 0 <= i < j < |sorted|
      ensures ExpiresKey(r[i]) <= ExpiresKey(r[j])
    {
    }
  }

  /** Splitting a list by a condition and its complement keeps its length. */
  lemma {:induction false} FilterSplit<T(!new)>(s: seq<T>, p: T -> bool, q: T -> bool)
    requires forall x :: q(x) <==> !p(x)
    ensures |Filter(s, p)| + |Filter(s, q)| == |s|
  {
    if |s| > 0 {
      FilterSplit(s[..|s| - 1], p, q);
    }
  }

  /** `findMany`: the orders matching every supplied filter, by deadline,
      at most `limit` of them (200 by default). */
  function FindMany(os: seq<Order>, f: OrderFilters): (r: seq<Order>)
    ensures forall x :: x in r ==> x in os && Matches(x, f)
    ensures |r| == (if 0 < f.limit.GetOr(DefaultLimit) < Count(os, MatchesFilter(f))
                    then f.limit.GetOr(DefaultLimit) else Count(os, MatchesFilter(f)))
    ensures forall i, j :: 0 <= i < j < |r| && r[i].expiresAt.Some? && r[j].expiresAt.Some? ==>
      r[i].expiresAt.value <= r[j].expiresAt.value
    ensures forall i, j :: 0 <= i < j < |r| && r[i].expiresAt.None? ==> r[j].expiresAt.None?
  {
    var matching := Filter(os, MatchesFilter(f));
    var ordered := ByExpiry(matching);
    PageOfOrdered(ordered, f.limit.GetOr(DefaultLimit));
    Take(ordered, f.limit.GetOr(DefaultLimit))
  }

  /** A page taken from the front of a list in deadline order is in
      deadline order and holds only rows of the list. */
  lemma PageOfOrdered(s: seq<Order>, limit: int)
    requires forall i, j :: 0 <= i < j < |s| && s[i].expiresAt.Some? && s[j].expiresAt.Some? ==>
      s[i].expiresAt.value <= s[j].expiresAt.value
    requires forall i, j :: 0 <= i < j < |s| && s[i].expiresAt.None? ==> s[j].expiresAt.None?
    ensures var r := Take(s, limit);
      && (forall x :: x in r ==> x in s)
      && (forall i, j :: 0 <= i < j < |r| && r[i].expiresAt.Some? && r[j].expiresAt.Some? ==>
            r[i].expiresAt.value <= r[j].expiresAt.value)
      && (forall i, j :: 0 <= i < j < |r| && r[i].expiresAt.None? ==> r[j].expiresAt.None?)
  {
    var r := Take(s, limit);
    assert forall i :: 0 <= i < |r| ==> r[i] == s[i];
  }

  /** When the matching orders fit in the page, `findMany` returns all of
      them. */
  lemma FindManyComplete(os: seq<Order>, f: OrderFilters, x: Order)
    requires Count(os, MatchesFilter(f)) <= f.limit.GetOr(DefaultLimit) || f.limit.GetOr(DefaultLimit) <= 0
    requires x in os && Matches(x, f)
    ensures x in FindMany(os, f)
  {
  }
}
