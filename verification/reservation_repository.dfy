/** `ReservationRepository`: the reservation queries (live reservations of
    an order, reservations past their expiry, the quantity reserved on a
    batch) and the bulk status updates (release, consume, expire, extend).

    A reservation is identified by its position in the table. Every bulk
    update touches ACTIVE rows only, chosen by a `Selector` over the
    position and the row; the updates differ in the selector and in the
    status they set. */
module ReservationRepository {
  import opened Common
  import opened Tables
  import opened CommerceModel

  /** Picks rows of the table by position and content. */
  type Selector = (nat, Reservation) -> bool

  /** ACTIVE and not past its expiry (`expiresAt >= now`). */
  predicate Live(r: Reservation, now: int)
  {
    r.status.Active? && r.expiresAt >= now
  }

  /** A row an update with selector `p` changes: selected and ACTIVE. */
  predicate Moves(p: Selector, i: nat, r: Reservation)
  {
    p(i, r) && r.status.Active?
  }

  /** The rows of one order. */
  function OfOrder(orderId: string): Selector
  {
    (i: nat, r: Reservation) => r.orderId == orderId
  }

  /** The rows of one order that have not passed their expiry. */
  function UnexpiredOfOrder(orderId: string, now: int): Selector
  {
    (i: nat, r: Reservation) => r.orderId == orderId && r.expiresAt >= now
  }

  /** The rows at the given positions. */
  function AtPositions(ids: seq<nat>): Selector
  {
    (i: nat, r: Reservation) => i in ids
  }

  /** The rows whose expiry is before `now`. */
  function ExpiredAt(now: int): Selector
  {
    (i: nat, r: Reservation) => r.expiresAt < now
  }

  // ---------------------------------------------------------------------------
  // Queries
  // ---------------------------------------------------------------------------

  /** `findActiveByOrderId`: the order's ACTIVE reservations that have not
      expired. The rows come in table order rather than newest first; the
      only use here asks whether the list is empty, which the order does
      not affect. */
  function FindActiveByOrderId(rs: seq<Reservation>, orderId: string, now: int): (r: seq<Reservation>)
    ensures forall x :: x in r <==> x in rs && x.orderId == orderId && Live(x, now)
  {
    Filter(rs, (x: Reservation) => x.orderId == orderId && Live(x, now))
  }

  /** `hasActiveReservations`: some reservation of the order is ACTIVE and
      not expired. */
  function HasActiveReservations(rs: seq<Reservation>, orderId: string, now: int): (r: bool)
    ensures r <==> exists i :: 0 <= i < |rs| && rs[i].orderId == orderId && Live(rs[i], now)
    ensures r <==> |FindActiveByOrderId(rs, orderId, now)| > 0
  {
    Count(rs, (x: Reservation) => x.orderId == orderId && Live(x, now)) > 0
  }

  /** `findExpiredActiveReservations`: ACTIVE reservations whose expiry is
      before `now`. */
  function FindExpiredActive(rs: seq<Reservation>, now: int): (r: seq<Reservation>)
    ensures forall x :: x in r <==> x in rs && x.status.Active? && x.expiresAt < now
  {
    Filter(rs, (x: Reservation) => x.status.Active? && x.expiresAt < now)
  }

  /** The quantity a row holds on a batch: its quantity when it is an ACTIVE
      reservation of that batch. */
  function ReservedOn(batchId: string): Reservation -> int
  {
    (x: Reservation) => if x.batchId == batchId && x.status.Active? then x.quantity else 0
  }

  function Quantity(x: Reservation): int
  {
    x.quantity
  }

  /** `getTotalReservedQuantityByBatch`: the quantity of the batch's ACTIVE
      reservations, expired or not, 0 when there are none. */
  function TotalReservedByBatch(rs: seq<Reservation>, batchId: string): int
  {
    SumOf(rs, ReservedOn(batchId))
  }

  /** The total is the sum over the batch's ACTIVE reservations, and 0 when
      the batch has none. */
  lemma TotalReservedIsActiveSum(rs: seq<Reservation>, batchId: string)
    ensures TotalReservedByBatch(rs, batchId)
      == SumOf(Filter(rs, (x: Reservation) => x.batchId == batchId && x.status.Active?), Quantity)
    ensures (forall i :: 0 <= i < |rs| ==> rs[i].batchId != batchId || !rs[i].status.Active?) ==> TotalReservedByBatch(rs, batchId) == 0
  {
    SumOfFilter(rs, (x: Reservation) => x.batchId == batchId && x.status.Active?, Quantity, ReservedOn(batchId));
    if forall i :: 0 <= i < |rs| ==> rs[i].batchId != batchId || !rs[i].status.Active? {
      SumOfZero(rs, ReservedOn(batchId));
    }
  }

  /** `validateStockAvailability`: what the batch holds beyond its ACTIVE
      reservations covers the request. */
  function ValidateStockAvailability(rs: seq<Reservation>, batchId: string, requested: int, currentQuantity: int): bool
  {
    currentQuantity - TotalReservedByBatch(rs, batchId) >= requested
  }

  // ---------------------------------------------------------------------------
  // Bulk updates
  // ---------------------------------------------------------------------------

  /** Sets the status of every row that moves under `p` to `to`. */
  function Transition(rs: seq<Reservation>, p: Selector, to: ReservationStatus): (r: seq<Reservation>)
    ensures |r| == |rs|
    ensures forall i :: 0 <= i < |rs| ==> r[i] == (if Moves(p, i, rs[i]) then rs[i].(status := to) else rs[i])
  {
    if |rs| == 0 then []
    else
      var n := |rs| - 1;
      Transition(rs[..n], p, to) + [if Moves(p, n, rs[n]) then rs[n].(status := to) else rs[n]]
  }

  /** The number of rows that move under `p` (`result.affected`). */
  function Affected(rs: seq<Reservation>, p: Selector): (n: nat)
    ensures n <= |rs|
    ensures n == 0 <==> forall i :: 0 <= i < |rs| ==> !Moves(p, i, rs[i])
  {
    if |rs| == 0 then 0
    else
      var n := |rs| - 1;
      Affected(rs[..n], p) + (if Moves(p, n, rs[n]) then 1 else 0)
  }

  /** The number of rows with status `s`. */
  function CountStatus(rs: seq<Reservation>, s: ReservationStatus): (n: nat)
    ensures n <= |rs|
  {
    if |rs| == 0 then 0
    else CountStatus(rs[..|rs| - 1], s) + (if rs[|rs| - 1].status == s then 1 else 0)
  }

  /** The count an update returns is the number of rows that gained its
      status, and as many left ACTIVE. */
  lemma TransitionCount(rs: seq<Reservation>, p: Selector, to: ReservationStatus)
    requires !to.Active?
    ensures CountStatus(Transition(rs, p, to), to) == CountStatus(rs, to) + Affected(rs, p)
    ensures CountStatus(Transition(rs, p, to), ReservationStatus.Active) + Affected(rs, p) == CountStatus(rs, ReservationStatus.Active)
  {
    TransitionGains(rs, p, to);
    TransitionLeaves(rs, p, to);
  }

  lemma {:induction false} TransitionGains(rs: seq<Reservation>, p: Selector, to: ReservationStatus)
    requires !to.Active?
    ensures CountStatus(Transition(rs, p, to), to) == CountStatus(rs, to) + Affected(rs, p)
  {
    if |rs| > 0 {
      var n := |rs| - 1;
      TransitionGains(rs[..n], p, to);
      var t := Transition(rs, p, to);
      assert t[..n] == Transition(rs[..n], p, to);
    }
  }

  lemma {:induction false} TransitionLeaves(rs: seq<Reservation>, p: Selector, to: ReservationStatus)
    requires !to.Active?
    ensures CountStatus(Transition(rs, p, to), ReservationStatus.Active) + Affected(rs, p) == CountStatus(rs, ReservationStatus.Active)
  {
    if |rs| > 0 {
      var n := |rs| - 1;
      TransitionLeaves(rs[..n], p, to);
      var t := Transition(rs, p, to);
      assert t[..n] == Transition(rs[..n], p, to);
    }
  }

  /** The quantity the rows that move under `p` hold on a batch. */
  function MovedOn(rs: seq<Reservation>, p: Selector, batchId: string): int
  {
    if |rs| == 0 then 0
    else
      var n := |rs| - 1;
      MovedOn(rs[..n], p, batchId) + (if Moves(p, n, rs[n]) && rs[n].batchId == batchId then rs[n].quantity else 0)
  }

  /** An update away from ACTIVE lowers each batch's reserved total by what
      the moved rows held on it. */
  lemma {:induction false} TransitionReserved(rs: seq<Reservation>, p: Selector, to: ReservationStatus, batchId: string)
    requires !to.Active?
    ensures TotalReservedByBatch(Transition(rs, p, to), batchId) == TotalReservedByBatch(rs, batchId) - MovedOn(rs, p, batchId)
  {
    if |rs| > 0 {
      var n := |rs| - 1;
      TransitionReserved(rs[..n], p, to, batchId);
      var t := Transition(rs, p, to);
      assert t[..n] == Transition(rs[..n], p, to);
    }
  }

  /** `releaseReservationsForOrder`: the order's ACTIVE reservations become
      RELEASED, expired or not; returns how many. */
  function ReleaseForOrder(rs: seq<Reservation>, orderId: string): (r: (seq<Reservation>, nat))
    ensures |r.0| == |rs|
    ensures forall i :: 0 <= i < |rs| ==> r.0[i] == (if rs[i].orderId == orderId && rs[i].status.Active? then rs[i].(status := Released) else rs[i])
    ensures r.1 + CountStatus(rs, Released) == CountStatus(r.0, Released)
  {
    TransitionCount(rs, OfOrder(orderId), Released);
    (Transition(rs, OfOrder(orderId), Released), Affected(rs, OfOrder(orderId)))
  }

  /** `consumeReservationsForOrder`: the order's ACTIVE reservations become
      CONSUMED; returns how many. */
  function ConsumeForOrder(rs: seq<Reservation>, orderId: string): (r: (seq<Reservation>, nat))
    ensures |r.0| == |rs|
    ensures forall i :: 0 <= i < |rs| ==> r.0[i] == (if rs[i].orderId == orderId && rs[i].status.Active? then rs[i].(status := Consumed) else rs[i])
    ensures r.1 + CountStatus(rs, Consumed) == CountStatus(r.0, Consumed)
  {
    TransitionCount(rs, OfOrder(orderId), Consumed);
    (Transition(rs, OfOrder(orderId), Consumed), Affected(rs, OfOrder(orderId)))
  }

  /** `releaseReservationsByIds`: the ACTIVE reservations among the ids
      become RELEASED; an empty list changes nothing. */
  function ReleaseByIds(rs: seq<Reservation>, ids: seq<nat>): (r: (seq<Reservation>, nat))
    ensures |r.0| == |rs|
    ensures forall i :: 0 <= i < |rs| ==> r.0[i] == (if i in ids && rs[i].status.Active? then rs[i].(status := Released) else rs[i])
    ensures r.1 + CountStatus(rs, Released) == CountStatus(r.0, Released)
    ensures |ids| == 0 ==> r == (rs, 0)
  {
    if |ids| == 0 then (rs, 0)
    else
      TransitionCount(rs, AtPositions(ids), Released);
      (Transition(rs, AtPositions(ids), Released), Affected(rs, AtPositions(ids)))
  }

  /** `markExpiredReservations`: ACTIVE reservations whose expiry is before
      `now` become EXPIRED. */
  function MarkExpired(rs: seq<Reservation>, now: int): (r: (seq<Reservation>, nat))
    ensures |r.0| == |rs|
    ensures forall i :: 0 <= i < |rs| ==> r.0[i] == (if rs[i].status.Active? && rs[i].expiresAt < now then rs[i].(status := ReservationStatus.Expired) else rs[i])
    ensures r.1 + CountStatus(rs, ReservationStatus.Expired) == CountStatus(r.0, ReservationStatus.Expired)
    ensures forall i :: 0 <= i < |r.0| ==> !Live(r.0[i], now) ==> !r.0[i].status.Active?
  {
    TransitionCount(rs, ExpiredAt(now), ReservationStatus.Expired);
    (Transition(rs, ExpiredAt(now), ReservationStatus.Expired), Affected(rs, ExpiredAt(now)))
  }

  /** Adds `minutes` to the expiry of every row that moves under `p`. */
  function ExtendWhere(rs: seq<Reservation>, p: Selector, minutes: int): (r: seq<Reservation>)
    ensures |r| == |rs|
    ensures forall i :: 0 <= i < |rs| ==> r[i] == (if Moves(p, i, rs[i]) then rs[i].(expiresAt := rs[i].expiresAt + minutes) else rs[i])
  {
    if |rs| == 0 then []
    else
      var n := |rs| - 1;
      ExtendWhere(rs[..n], p, minutes) + [if Moves(p, n, rs[n]) then rs[n].(expiresAt := rs[n].expiresAt + minutes) else rs[n]]
  }

  const DefaultExtensionMinutes: int := 15

  /** `extendReservationsForOrder`: the order's live reservations get
      `minutes` more; expired and non-ACTIVE ones are left alone; returns how
      many. */
  function ExtendForOrder(rs: seq<Reservation>, orderId: string, now: int, minutes: int): (r: (seq<Reservation>, nat))
    ensures |r.0| == |rs|
    ensures forall i :: 0 <= i < |rs| ==> r.0[i] == (if rs[i].orderId == orderId && Live(rs[i], now) then rs[i].(expiresAt := rs[i].expiresAt + minutes) else rs[i])
    ensures r.1 == 0 <==> !HasActiveReservations(rs, orderId, now)
  {
    (ExtendWhere(rs, UnexpiredOfOrder(orderId, now), minutes), Affected(rs, UnexpiredOfOrder(orderId, now)))
  }

  /** No update changes a row that is not ACTIVE, and each leaves every
      row's batch, product, order, kiosk and quantity as they were. */
  lemma UpdatesKeepSettledRows(rs: seq<Reservation>, orderId: string, ids: seq<nat>, now: int, minutes: int)
    ensures forall i :: 0 <= i < |rs| && !rs[i].status.Active? ==>
      ReleaseForOrder(rs, orderId).0[i] == rs[i] && ConsumeForOrder(rs, orderId).0[i] == rs[i]
      && ReleaseByIds(rs, ids).0[i] == rs[i] && MarkExpired(rs, now).0[i] == rs[i]
      && ExtendForOrder(rs, orderId, now, minutes).0[i] == rs[i]
  {
  }
}
