/** `ReservationService`: first-expired-first-out reservation of stock for an
    order, its release, consumption, expiry and extension, and the
    read-only availability check and allocation preview.

    Besides the reservation rows, each batch keeps a `reservedQuantity`
    counter that the service moves up and down by hand. `CountersAgree`
    states the bookkeeping the service aims at: each batch's counter equals
    the quantity its ACTIVE reservations hold. */
module ReservationService {
  import opened Common
  import opened Tables
  import opened CommerceModel
  import opened BatchRepository
  import opened ReservationRepository
  import opened JsText

  const InitialReservationMinutes: int := 15
  const AcceptedReservationMinutes: int := 20

  /** Every batch's counter equals the quantity its ACTIVE reservations
      hold. */
  predicate CountersAgree(bs: seq<Batch>, rs: seq<Reservation>)
  {
    forall k :: 0 <= k < |bs| ==> bs[k].reservedQuantity == TotalReservedByBatch(rs, bs[k].id)
  }

  /** Walks the reservation rows that move under `p` and takes each one's
      quantity off its batch's reserved counter, and off its stock as well
      when `consume` holds. */
  function AdjustFor(bs: seq<Batch>, rs: seq<Reservation>, p: Selector, consume: bool): (r: seq<Batch>)
    ensures |r| == |bs|
    ensures forall k :: 0 <= k < |bs| ==> r[k] == bs[k].(
      currentQuantity := bs[k].currentQuantity - (if consume then MovedOn(rs, p, bs[k].id) else 0),
      reservedQuantity := bs[k].reservedQuantity - MovedOn(rs, p, bs[k].id))
  {
    if |rs| == 0 then bs
    else
      var n := |rs| - 1;
      var before := AdjustFor(bs, rs[..n], p, consume);
      if Moves(p, n, rs[n]) then
        AdjustCounters(before, rs[n].batchId, if consume then -rs[n].quantity else 0, -rs[n].quantity)
      else before
  }

  /** Taking off exactly what the rows leaving ACTIVE held keeps the
      counters in step. */
  lemma AdjustForKeepsCounters(bs: seq<Batch>, rs: seq<Reservation>, p: Selector, consume: bool, to: ReservationStatus)
    requires !to.Active?
    ensures CountersAgree(bs, rs) ==> CountersAgree(AdjustFor(bs, rs, p, consume), Transition(rs, p, to))
  {
    if CountersAgree(bs, rs) {
      var after := AdjustFor(bs, rs, p, consume);
      forall k | 0 <= k < |after|
        ensures after[k].reservedQuantity == TotalReservedByBatch(Transition(rs, p, to), after[k].id)
      {
        TransitionReserved(rs, p, to, bs[k].id);
      }
    }
  }

  // ---------------------------------------------------------------------------
  // Release, consume, expire, extend
  // ---------------------------------------------------------------------------

  /** `releaseReservationsByOrder`: the counters give back only the
      quantities of the order's unexpired reservations, while every ACTIVE
      reservation of the order, expired or not, is released. */
  function ReleaseByOrder(st: Store, orderId: string, now: int): (r: (Store, nat))
    ensures r.0 == st.(
      batches := AdjustFor(st.batches, st.reservations, UnexpiredOfOrder(orderId, now), false),
      reservations := ReleaseForOrder(st.reservations, orderId).0)
  {
    var bs := AdjustFor(st.batches, st.reservations, UnexpiredOfOrder(orderId, now), false);
    var (rs, n) := ReleaseForOrder(st.reservations, orderId);
    (st.(batches := bs, reservations := rs), n)
  }

  /** An order holding one ACTIVE reservation past its expiry: releasing it
      leaves the batch counter where it was although nothing is reserved any
      more. */
  lemma ReleaseByOrderLeaks(st: Store, orderId: string, now: int)
    requires |st.batches| == 1 && |st.reservations| == 1
    requires st.reservations[0].batchId == st.batches[0].id
    requires st.reservations[0].orderId == orderId && st.reservations[0].status.Active?
    requires st.reservations[0].expiresAt < now && st.reservations[0].quantity > 0
    requires CountersAgree(st.batches, st.reservations)
    ensures ReleaseByOrder(st, orderId, now).0.batches[0].reservedQuantity == st.reservations[0].quantity
    ensures TotalReservedByBatch(ReleaseByOrder(st, orderId, now).0.reservations, st.batches[0].id) == 0
    ensures !CountersAgree(ReleaseByOrder(st, orderId, now).0.batches, ReleaseByOrder(st, orderId, now).0.reservations)
  {
    var rs := st.reservations;
    var id := st.batches[0].id;
    var r := ReleaseByOrder(st, orderId, now).0;
    OneExpiredReservation(rs, orderId, now, id);
    LeakedCounter(st, orderId, now);
    LeakedTotal(st, orderId, now, id);
    assert st.batches[0].reservedQuantity == TotalReservedByBatch(rs, id);
    assert r.batches[0].id == id;
    assert r.batches[0].reservedQuantity != TotalReservedByBatch(r.reservations, r.batches[0].id);
  }

  lemma LeakedCounter(st: Store, orderId: string, now: int)
    requires |st.batches| == 1
    ensures ReleaseByOrder(st, orderId, now).0.batches[0].reservedQuantity
      == st.batches[0].reservedQuantity - MovedOn(st.reservations, UnexpiredOfOrder(orderId, now), st.batches[0].id)
  {
  }

  lemma LeakedTotal(st: Store, orderId: string, now: int, id: string)
    ensures TotalReservedByBatch(ReleaseByOrder(st, orderId, now).0.reservations, id)
      == TotalReservedByBatch(st.reservations, id) - MovedOn(st.reservations, OfOrder(orderId), id)
  {
    TransitionReserved(st.reservations, OfOrder(orderId), Released, id);
  }

  /** The quantities behind the leak: the one reservation counts as
      reserved, is released with its order, and is not given back. */
  lemma OneExpiredReservation(rs: seq<Reservation>, orderId: string, now: int, id: string)
    requires |rs| == 1 && rs[0].batchId == id && rs[0].orderId == orderId
    requires rs[0].status.Active? && rs[0].expiresAt < now
    ensures TotalReservedByBatch(rs, id) == rs[0].quantity
    ensures MovedOn(rs, UnexpiredOfOrder(orderId, now), id) == 0
    ensures MovedOn(rs, OfOrder(orderId), id) == rs[0].quantity
  {
    assert rs[..0] == [];
    assert SumOf(rs, ReservedOn(id)) == SumOf(rs[..0], ReservedOn(id)) + ReservedOn(id)(rs[0]);
    assert !Moves(UnexpiredOfOrder(orderId, now), 0, rs[0]);
    assert Moves(OfOrder(orderId), 0, rs[0]);
  }

  /** `releaseReservationsByOrder` corrected: the counters are given back
      for every ACTIVE reservation of the order, the ones it releases. */
  function ReleaseByOrderFixed(st: Store, orderId: string): (r: (Store, nat))
    ensures r.0.reservations == ReleaseForOrder(st.reservations, orderId).0
    ensures r.1 == ReleaseForOrder(st.reservations, orderId).1
    ensures r.0 == st.(batches := r.0.batches, reservations := r.0.reservations)
    ensures CountersAgree(st.batches, st.reservations) ==> CountersAgree(r.0.batches, r.0.reservations)
  {
    var bs := AdjustFor(st.batches, st.reservations, OfOrder(orderId), false);
    AdjustForKeepsCounters(st.batches, st.reservations, OfOrder(orderId), false, Released);
    var (rs, n) := ReleaseForOrder(st.reservations, orderId);
    (st.(batches := bs, reservations := rs), n)
  }

  /** None of the order's ACTIVE reservations has passed its expiry. */
  predicate OrderReservationsLive(rs: seq<Reservation>, orderId: string, now: int)
  {
    forall i :: 0 <= i < |rs| && rs[i].orderId == orderId && rs[i].status.Active? ==> rs[i].expiresAt >= now
  }

  /** While none of the order's ACTIVE reservations has expired, the
      release as written and the corrected one are the same, so the release
      then keeps the counters in step. */
  lemma ReleaseByOrderWhenLive(st: Store, orderId: string, now: int)
    requires OrderReservationsLive(st.reservations, orderId, now)
    ensures ReleaseByOrder(st, orderId, now) == ReleaseByOrderFixed(st, orderId)
    ensures CountersAgree(st.batches, st.reservations) ==>
      CountersAgree(ReleaseByOrder(st, orderId, now).0.batches, ReleaseByOrder(st, orderId, now).0.reservations)
  {
    var rs := st.reservations;
    forall id: string ensures MovedOn(rs, UnexpiredOfOrder(orderId, now), id) == MovedOn(rs, OfOrder(orderId), id) {
      MovedOnSameRows(rs, UnexpiredOfOrder(orderId, now), OfOrder(orderId), id);
    }
    var a := AdjustFor(st.batches, rs, UnexpiredOfOrder(orderId, now), false);
    var b := AdjustFor(st.batches, rs, OfOrder(orderId), false);
    assert a == b by {
      assert |a| == |b|;
      forall k | 0 <= k < |a| ensures a[k] == b[k] {
      }
    }
  }

  /** `releaseReservationsByIds`: the ACTIVE reservations among the ids give
      their quantities back and become RELEASED; an empty list changes
      nothing. */
  function ReleaseReservationsByIds(st: Store, ids: seq<nat>): (r: (Store, nat))
    ensures r.0.reservations == ReleaseByIds(st.reservations, ids).0
    ensures r.1 == ReleaseByIds(st.reservations, ids).1
    ensures r.0 == st.(batches := r.0.batches, reservations := r.0.reservations)
    ensures |ids| == 0 ==> r == (st, 0)
    ensures CountersAgree(st.batches, st.reservations) ==> CountersAgree(r.0.batches, r.0.reservations)
  {
    if |ids| == 0 then (st, 0)
    else
      var bs := AdjustFor(st.batches, st.reservations, AtPositions(ids), false);
      AdjustForKeepsCounters(st.batches, st.reservations, AtPositions(ids), false, Released);
      var (rs, n) := ReleaseByIds(st.reservations, ids);
      (st.(batches := bs, reservations := rs), n)
  }

  /** `consumeReservationsByOrder`: with no live reservation of the order,
      0 and no change. Otherwise each live reservation's quantity leaves its
      batch's stock and reserved counter, and every ACTIVE reservation of the
      order, expired or not, becomes CONSUMED. */
  function ConsumeByOrder(st: Store, orderId: string, now: int): (r: (Store, nat))
    ensures !HasActiveReservations(st.reservations, orderId, now) ==> r == (st, 0)
    ensures HasActiveReservations(st.reservations, orderId, now) ==>
      r.0 == st.(
        batches := AdjustFor(st.batches, st.reservations, UnexpiredOfOrder(orderId, now), true),
        reservations := ConsumeForOrder(st.reservations, orderId).0)
      && r.1 == ConsumeForOrder(st.reservations, orderId).1 && r.1 > 0
  {
    if !HasActiveReservations(st.reservations, orderId, now) then (st, 0)
    else
      var bs := AdjustFor(st.batches, st.reservations, UnexpiredOfOrder(orderId, now), true);
      var (rs, n) := ConsumeForOrder(st.reservations, orderId);
      assert exists i :: 0 <= i < |st.reservations| && Moves(OfOrder(orderId), i, st.reservations[i]);
      (st.(batches := bs, reservations := rs), n)
  }

  /** When every ACTIVE reservation of the order is live, consuming keeps
      the counters in step and takes from each batch's stock exactly what the
      order reserved on it. */
  lemma ConsumeKeepsCountersWhenLive(st: Store, orderId: string, now: int)
    requires CountersAgree(st.batches, st.reservations)
    requires OrderReservationsLive(st.reservations, orderId, now)
    ensures CountersAgree(ConsumeByOrder(st, orderId, now).0.batches, ConsumeByOrder(st, orderId, now).0.reservations)
    ensures forall k :: 0 <= k < |st.batches| ==>
      ConsumeByOrder(st, orderId, now).0.batches[k].currentQuantity
        == st.batches[k].currentQuantity - MovedOn(st.reservations, OfOrder(orderId), st.batches[k].id)
  {
    var rs := st.reservations;
    forall id: string ensures MovedOn(rs, UnexpiredOfOrder(orderId, now), id) == MovedOn(rs, OfOrder(orderId), id) {
      MovedOnSameRows(rs, UnexpiredOfOrder(orderId, now), OfOrder(orderId), id);
    }
    if HasActiveReservations(rs, orderId, now) {
      AdjustForKeepsCounters(st.batches, rs, OfOrder(orderId), true, Consumed);
    } else {
      forall id: string ensures MovedOn(rs, OfOrder(orderId), id) == 0 {
        MovedOnNone(rs, OfOrder(orderId), id);
      }
    }
  }

  /** Two selectors that move the same rows move the same quantities. */
  lemma {:induction false} MovedOnSameRows(rs: seq<Reservation>, p: Selector, q: Selector, batchId: string)
    requires forall i :: 0 <= i < |rs| ==> (Moves(p, i, rs[i]) <==> Moves(q, i, rs[i]))
    ensures MovedOn(rs, p, batchId) == MovedOn(rs, q, batchId)
  {
    if |rs| > 0 {
      MovedOnSameRows(rs[..|rs| - 1], p, q, batchId);
    }
  }

  /** A selector that moves nothing moves no quantity. */
  lemma {:induction false} MovedOnNone(rs: seq<Reservation>, p: Selector, batchId: string)
    requires forall i :: 0 <= i < |rs| ==> !Moves(p, i, rs[i])
    ensures MovedOn(rs, p, batchId) == 0
  {
    if |rs| > 0 {
      MovedOnNone(rs[..|rs| - 1], p, batchId);
    }
  }

  lemma NoneExpiredActive(rs: seq<Reservation>, now: int)
    requires |FindExpiredActive(rs, now)| == 0
    ensures forall i :: 0 <= i < |rs| && rs[i].status.Active? ==> rs[i].expiresAt >= now
  {
    forall i | 0 <= i < |rs| && rs[i].status.Active?
      ensures rs[i].expiresAt >= now
    {
      assert rs[i] !in FindExpiredActive(rs, now);
    }
  }

  /** `processExpiredReservations`: every ACTIVE reservation past its expiry
      gives its quantity back and becomes EXPIRED; with none, 0 and no
      change. Afterwards no ACTIVE reservation is past its expiry. */
  function ProcessExpired(st: Store, now: int): (r: (Store, nat))
    ensures |FindExpiredActive(st.reservations, now)| == 0 ==> r == (st, 0)
    ensures r.0.reservations == MarkExpired(st.reservations, now).0 || r.0 == st
    ensures forall i :: 0 <= i < |r.0.reservations| && r.0.reservations[i].status.Active? ==> r.0.reservations[i].expiresAt >= now
    ensures CountersAgree(st.batches, st.reservations) ==> CountersAgree(r.0.batches, r.0.reservations)
  {
    if |FindExpiredActive(st.reservations, now)| == 0 then
      NoneExpiredActive(st.reservations, now);
      (st, 0)
    else
      var bs := AdjustFor(st.batches, st.reservations, ExpiredAt(now), false);
      AdjustForKeepsCounters(st.batches, st.reservations, ExpiredAt(now), false, ReservationStatus.Expired);
      var (rs, n) := MarkExpired(st.reservations, now);
      (st.(batches := bs, reservations := rs), n)
  }

  /** Moving expiries leaves every batch's reserved total as it was. */
  lemma ExtendKeepsTotals(rs: seq<Reservation>, extended: seq<Reservation>)
    requires |extended| == |rs|
    requires forall i :: 0 <= i < |rs| ==> extended[i] == rs[i].(expiresAt := extended[i].expiresAt)
    ensures forall id :: TotalReservedByBatch(extended, id) == TotalReservedByBatch(rs, id)
  {
    forall id: string ensures TotalReservedByBatch(extended, id) == TotalReservedByBatch(rs, id) {
      SumOfPairwise(extended, rs, ReservedOn(id), ReservedOn(id));
    }
  }

  /** `extendReservationsForAcceptedOrder`: the order's live reservations get
      twenty more minutes. */
  function ExtendForAcceptedOrder(st: Store, orderId: string, now: int): (r: Store)
    ensures r == st.(reservations := ExtendForOrder(st.reservations, orderId, now, AcceptedReservationMinutes).0)
    ensures CountersAgree(st.batches, st.reservations) ==> CountersAgree(r.batches, r.reservations)
  {
    var rs := ExtendForOrder(st.reservations, orderId, now, AcceptedReservationMinutes).0;
    ExtendKeepsTotals(st.reservations, rs);
    st.(reservations := rs)
  }

  // ---------------------------------------------------------------------------
  // First-expired-first-out allocation
  // ---------------------------------------------------------------------------

  /** What a batch offers beyond its ACTIVE reservations (its quantity as
      read when the batch list was fetched). */
  function Available(b: Batch, rs: seq<Reservation>): int
  {
    b.currentQuantity - TotalReservedByBatch(rs, b.id)
  }

  /** The fixed part of one product's reservation request. */
  datatype Request = Request(orderId: string, kioskUserId: int, productId: string, expiresAt: int, now: int)

  /** The state the greedy walk leaves: batches and reservation rows, the
      positions of the rows it added, and the quantity still missing. */
  datatype Reserved = Reserved(batches: seq<Batch>, reservations: seq<Reservation>, made: seq<nat>, remaining: int)

  /** The loop of `reserveForProduct`: batch by batch, while something is
      missing, a batch with quantity beyond its ACTIVE reservations (read
      from the table as it stands, new rows included) gets an ACTIVE
      reservation of the smaller of that and what is missing, and its
      reserved counter goes up by as much. */
  function ReserveFrom(list: seq<Batch>, bs: seq<Batch>, rs: seq<Reservation>, req: Request, remaining: int): (r: Reserved)
    ensures |r.batches| == |bs|
    ensures |rs| <= |r.reservations| && r.reservations[..|rs|] == rs
    ensures |r.made| == |r.reservations| - |rs|
    ensures forall j :: 0 <= j < |r.made| ==> r.made[j] == |rs| + j
    ensures remaining <= 0 || |list| == 0 ==> r == Reserved(bs, rs, [], remaining)
    decreases |list|
  {
    if |list| == 0 || remaining <= 0 then Reserved(bs, rs, [], remaining)
    else
      var b := list[0];
      var available := Available(b, rs);
      if available > 0 then
        var row := NewRow(b, rs, req, remaining);
        var q := row.quantity;
        var rest := ReserveFrom(list[1..], IncrementReserved(bs, b.id, q), rs + [row], req, remaining - q);
        assert (rs + [row])[..|rs|] == rs;
        assert rest.reservations[..|rs|] == (rs + [row])[..|rs|];
        Reserved(rest.batches, rest.reservations, [|rs|] + rest.made, rest.remaining)
      else ReserveFrom(list[1..], bs, rs, req, remaining)
  }

  /** The row the walk adds for a batch with something available. */
  function NewRow(b: Batch, rs: seq<Reservation>, req: Request, remaining: int): Reservation
  {
    Reservation(b.id, req.productId, req.orderId, req.kioskUserId, MinInt(remaining, Available(b, rs)), ReservationStatus.Active, req.expiresAt, req.now)
  }

  /** One step of the walk: a batch with something available contributes
      one row ahead of the rest of the walk's rows; a batch with nothing
      available contributes none. */
  lemma ReserveFromStep(list: seq<Batch>, bs: seq<Batch>, rs: seq<Reservation>, req: Request, remaining: int)
    requires |list| > 0 && remaining > 0
    ensures var r := ReserveFrom(list, bs, rs, req, remaining);
      var b := list[0];
      var row := NewRow(b, rs, req, remaining);
      if Available(b, rs) > 0 then
        var rest := ReserveFrom(list[1..], IncrementReserved(bs, b.id, row.quantity), rs + [row], req, remaining - row.quantity);
        r.reservations[|rs|..] == [row] + rest.reservations[|rs| + 1..] && r.remaining == rest.remaining
        && r.batches == rest.batches
      else
        r == ReserveFrom(list[1..], bs, rs, req, remaining)
  {
    var r := ReserveFrom(list, bs, rs, req, remaining);
    var b := list[0];
    var row := NewRow(b, rs, req, remaining);
    if Available(b, rs) > 0 {
      var rest := ReserveFrom(list[1..], IncrementReserved(bs, b.id, row.quantity), rs + [row], req, remaining - row.quantity);
      assert r == Reserved(rest.batches, rest.reservations, [|rs|] + rest.made, rest.remaining);
      var all, tail := rest.reservations, rest.reservations[|rs| + 1..];
      assert all[..|rs| + 1] == rs + [row];
      assert all == all[..|rs| + 1] + tail;
      assert all[|rs|..] == [row] + tail;
    }
  }

  /** Together with what is still missing, the rows the walk adds make up
      the requested quantity, and nothing is missing beyond the request. */
  lemma {:induction false} ReserveFromTotal(list: seq<Batch>, bs: seq<Batch>, rs: seq<Reservation>, req: Request, remaining: int)
    ensures var r := ReserveFrom(list, bs, rs, req, remaining);
      SumOf(r.reservations[|rs|..], ReservationRepository.Quantity) + r.remaining == remaining
      && (remaining >= 0 ==> r.remaining >= 0)
    decreases |list|
  {
    var r := ReserveFrom(list, bs, rs, req, remaining);
    if |list| == 0 || remaining <= 0 {
      assert r.reservations[|rs|..] == [];
    } else {
      ReserveFromStep(list, bs, rs, req, remaining);
      var b := list[0];
      var row := NewRow(b, rs, req, remaining);
      if Available(b, rs) > 0 {
        ReserveFromTotal(list[1..], IncrementReserved(bs, b.id, row.quantity), rs + [row], req, remaining - row.quantity);
        var rest := ReserveFrom(list[1..], IncrementReserved(bs, b.id, row.quantity), rs + [row], req, remaining - row.quantity);
        SumOfConcat([row], rest.reservations[|rs| + 1..], ReservationRepository.Quantity);
        assert SumOf([row], ReservationRepository.Quantity) == row.quantity by {
          assert [row][..0] == [];
        }
      } else {
        ReserveFromTotal(list[1..], bs, rs, req, remaining);
      }
    }
  }

  /** An ACTIVE reservation of a positive quantity for the request, on one
      of the listed batches. */
  predicate RowFromList(x: Reservation, req: Request, list: seq<Batch>)
  {
    MadeFor(x, req.orderId, req.kioskUserId, req.expiresAt) && x.productId == req.productId
    && exists j :: 0 <= j < |list| && list[j].id == x.batchId
  }

  /** A row from the tail of the list is a row from the list. */
  lemma RowFromTail(x: Reservation, req: Request, list: seq<Batch>)
    requires |list| > 0 && RowFromList(x, req, list[1..])
    ensures RowFromList(x, req, list)
  {
    var j :| 0 <= j < |list[1..]| && list[1..][j].id == x.batchId;
    assert list[j + 1].id == x.batchId;
  }

  /** The rows the walk adds are ACTIVE reservations of a positive quantity
      for the request, each on one of the listed batches. */
  lemma {:induction false} ReserveFromRows(list: seq<Batch>, bs: seq<Batch>, rs: seq<Reservation>, req: Request, remaining: int)
    ensures var r := ReserveFrom(list, bs, rs, req, remaining);
      forall i :: |rs| <= i < |r.reservations| ==> RowFromList(r.reservations[i], req, list)
    decreases |list|
  {
    var r := ReserveFrom(list, bs, rs, req, remaining);
    if |list| > 0 && remaining > 0 {
      ReserveFromStep(list, bs, rs, req, remaining);
      var b := list[0];
      var row := NewRow(b, rs, req, remaining);
      if Available(b, rs) > 0 {
        var rs' := rs + [row];
        ReserveFromRows(list[1..], IncrementReserved(bs, b.id, row.quantity), rs', req, remaining - row.quantity);
        var rest := ReserveFrom(list[1..], IncrementReserved(bs, b.id, row.quantity), rs', req, remaining - row.quantity);
        forall i | |rs| <= i < |r.reservations|
          ensures RowFromList(r.reservations[i], req, list)
        {
          assert r.reservations[i] == ([row] + rest.reservations[|rs'|..])[i - |rs|];
          if i == |rs| {
            assert list[0].id == row.batchId;
          } else {
            assert r.reservations[i] == rest.reservations[i];
            RowFromTail(r.reservations[i], req, list);
          }
        }
      } else {
        ReserveFromRows(list[1..], bs, rs, req, remaining);
        forall i | |rs| <= i < |r.reservations|
          ensures RowFromList(r.reservations[i], req, list)
        {
          RowFromTail(r.reservations[i], req, list);
        }
      }
    }
  }

  /** Each batch's reserved counter is up by exactly what `added` holds on
      it; nothing else about the batches differs. */
  predicate RaisedBy(after: seq<Batch>, bs: seq<Batch>, added: seq<Reservation>)
  {
    |after| == |bs|
    && forall k :: 0 <= k < |bs| ==>
      after[k] == bs[k].(reservedQuantity := bs[k].reservedQuantity + TotalReservedByBatch(added, bs[k].id))
  }

  /** Each batch's reserved counter goes up by exactly what the new rows
      hold on it; nothing else about the batches changes. */
  lemma {:induction false} ReserveFromBatches(list: seq<Batch>, bs: seq<Batch>, rs: seq<Reservation>, req: Request, remaining: int)
    ensures var r := ReserveFrom(list, bs, rs, req, remaining);
      RaisedBy(r.batches, bs, r.reservations[|rs|..])
    decreases |list|
  {
    if |list| == 0 || remaining <= 0 {
      ReserveFromBatchesDone(list, bs, rs, req, remaining);
    } else {
      var b := list[0];
      var row := NewRow(b, rs, req, remaining);
      if Available(b, rs) > 0 {
        ReserveFromBatches(list[1..], IncrementReserved(bs, b.id, row.quantity), rs + [row], req, remaining - row.quantity);
        ReserveFromBatchesCons(list, bs, rs, req, remaining);
      } else {
        ReserveFromBatches(list[1..], bs, rs, req, remaining);
        ReserveFromBatchesSkip(list, bs, rs, req, remaining);
      }
    }
  }

  lemma ReserveFromBatchesSkip(list: seq<Batch>, bs: seq<Batch>, rs: seq<Reservation>, req: Request, remaining: int)
    requires |list| > 0 && remaining > 0 && Available(list[0], rs) <= 0
    requires var rest := ReserveFrom(list[1..], bs, rs, req, remaining);
      RaisedBy(rest.batches, bs, rest.reservations[|rs|..])
    ensures var r := ReserveFrom(list, bs, rs, req, remaining);
      RaisedBy(r.batches, bs, r.reservations[|rs|..])
  {
    ReserveFromStep(list, bs, rs, req, remaining);
  }

  lemma ReserveFromBatchesDone(list: seq<Batch>, bs: seq<Batch>, rs: seq<Reservation>, req: Request, remaining: int)
    requires |list| == 0 || remaining <= 0
    ensures var r := ReserveFrom(list, bs, rs, req, remaining);
      RaisedBy(r.batches, bs, r.reservations[|rs|..])
  {
    var r := ReserveFrom(list, bs, rs, req, remaining);
    assert r.reservations[|rs|..] == [];
    assert forall k :: 0 <= k < |bs| ==> TotalReservedByBatch([], bs[k].id) == 0;
  }

  /** The step of `ReserveFromBatches` on a batch with something
      available: its counter goes up by the new row, which is the first of
      the new rows. */
  lemma ReserveFromBatchesCons(list: seq<Batch>, bs: seq<Batch>, rs: seq<Reservation>, req: Request, remaining: int)
    requires |list| > 0 && remaining > 0 && Available(list[0], rs) > 0
    requires var row := NewRow(list[0], rs, req, remaining);
      var rest := ReserveFrom(list[1..], IncrementReserved(bs, list[0].id, row.quantity), rs + [row], req, remaining - row.quantity);
      RaisedBy(rest.batches, IncrementReserved(bs, list[0].id, row.quantity), rest.reservations[|rs| + 1..])
    ensures var r := ReserveFrom(list, bs, rs, req, remaining);
      RaisedBy(r.batches, bs, r.reservations[|rs|..])
  {
    var b := list[0];
    var row := NewRow(b, rs, req, remaining);
    var bs' := IncrementReserved(bs, b.id, row.quantity);
    var rest := ReserveFrom(list[1..], bs', rs + [row], req, remaining - row.quantity);
    var r := ReserveFrom(list, bs, rs, req, remaining);
    var tail := rest.reservations[|rs| + 1..];
    assert r.reservations[|rs|..] == [row] + tail && r.batches == rest.batches by {
      ReserveFromStep(list, bs, rs, req, remaining);
    }
    RaisedByCons(bs, row, rest.batches, tail);
  }

  /** Raising by a new row and then by the rows after it is raising by all
      of them. */
  lemma RaisedByCons(bs: seq<Batch>, row: Reservation, after: seq<Batch>, tail: seq<Reservation>)
    requires row.status.Active?
    requires RaisedBy(after, IncrementReserved(bs, row.batchId, row.quantity), tail)
    ensures RaisedBy(after, bs, [row] + tail)
  {
    forall k | 0 <= k < |bs|
      ensures after[k] == bs[k].(reservedQuantity := bs[k].reservedQuantity + TotalReservedByBatch([row] + tail, bs[k].id))
    {
      RaisedAt(bs, row, after, tail, k);
    }
  }

  /** One batch raised first by a new row and then by the rows after it. */
  lemma RaisedAt(bs: seq<Batch>, row: Reservation, after: seq<Batch>, tail: seq<Reservation>, k: int)
    requires row.status.Active? && 0 <= k < |bs|
    requires RaisedBy(after, IncrementReserved(bs, row.batchId, row.quantity), tail)
    ensures after[k] == bs[k].(reservedQuantity := bs[k].reservedQuantity + TotalReservedByBatch([row] + tail, bs[k].id))
  {
    var bs' := IncrementReserved(bs, row.batchId, row.quantity);
    ReservedFront(row, tail, bs[k].id);
    assert bs'[k].reservedQuantity == bs[k].reservedQuantity + ReservedOn(bs[k].id)(row);
    assert after[k] == bs'[k].(reservedQuantity := bs'[k].reservedQuantity + TotalReservedByBatch(tail, bs[k].id));
  }

  /** The reserved total of a row put in front of others. */
  lemma ReservedFront(row: Reservation, rest: seq<Reservation>, batchId: string)
    ensures TotalReservedByBatch([row] + rest, batchId) == ReservedOn(batchId)(row) + TotalReservedByBatch(rest, batchId)
  {
    SumOfConcat([row], rest, ReservedOn(batchId));
    assert [row][..0] == [];
  }

  /** The walk keeps every batch's counter equal to what its ACTIVE
      reservations hold. */
  lemma ReserveFromKeepsCounters(list: seq<Batch>, bs: seq<Batch>, rs: seq<Reservation>, req: Request, remaining: int)
    requires CountersAgree(bs, rs)
    ensures var r := ReserveFrom(list, bs, rs, req, remaining);
      CountersAgree(r.batches, r.reservations)
  {
    var r := ReserveFrom(list, bs, rs, req, remaining);
    ReserveFromBatches(list, bs, rs, req, remaining);
    assert r.reservations == rs + r.reservations[|rs|..];
    forall k | 0 <= k < |r.batches|
      ensures r.batches[k].reservedQuantity == TotalReservedByBatch(r.reservations, r.batches[k].id)
    {
      SumOfConcat(rs, r.reservations[|rs|..], ReservedOn(bs[k].id));
    }
  }

  /** When the selected positions are exactly the rows from `lo` on, and
      those rows are ACTIVE, the quantity moved on a batch is what those
      rows reserve on it. */
  lemma {:induction false} MovedOnTail(all: seq<Reservation>, lo: nat, made: seq<nat>, batchId: string)
    requires lo <= |all|
    requires forall i :: 0 <= i < |all| ==> (i in made <==> lo <= i)
    requires forall i :: lo <= i < |all| ==> all[i].status.Active?
    ensures MovedOn(all, AtPositions(made), batchId) == TotalReservedByBatch(all[lo..], batchId)
    decreases |all|
  {
    if |all| == lo {
      MovedOnNone(all, AtPositions(made), batchId);
      assert all[lo..] == [];
    } else {
      var n := |all| - 1;
      MovedOnTail(all[..n], lo, made, batchId);
      assert all[..n][lo..] == all[lo..n];
      assert all[lo..] == all[lo..n] + [all[n]];
      SumOfAppend(all[lo..n], all[n], ReservedOn(batchId));
    }
  }

  // ---------------------------------------------------------------------------
  // Read-only counterparts: availability and simulated allocation
  // ---------------------------------------------------------------------------

  /** One line of a simulated allocation (`BatchAllocationDTO`). */
  datatype Allocation = Allocation(batchId: string, productId: string, quantity: int)

  function Allocated(a: Allocation): int
  {
    a.quantity
  }

  datatype Simulated = Simulated(allocations: seq<Allocation>, remaining: int)

  /** The allocation loop of `simulateReservationAllocation`: the same
      greedy walk as the reservation loop, against a reservation table that
      does not change. */
  function SimulateFrom(list: seq<Batch>, rs: seq<Reservation>, productId: string, remaining: int): (r: Simulated)
    ensures forall i :: 0 <= i < |r.allocations| ==> r.allocations[i].quantity > 0 && r.allocations[i].productId == productId
    ensures |r.allocations| <= |list|
    ensures remaining <= 0 ==> r == Simulated([], remaining)
    decreases |list|
  {
    if |list| == 0 || remaining <= 0 then Simulated([], remaining)
    else
      var b := list[0];
      var available := Available(b, rs);
      if available > 0 then
        var q := MinInt(remaining, available);
        var rest := SimulateFrom(list[1..], rs, productId, remaining - q);
        Simulated([Allocation(b.id, productId, q)] + rest.allocations, rest.remaining)
      else SimulateFrom(list[1..], rs, productId, remaining)
  }

  /** What a batch adds to the availability check: its quantity beyond its
      ACTIVE reservations, or nothing when that is not positive. */
  function PositiveAvailable(rs: seq<Reservation>): Batch -> int
  {
    (b: Batch) => MaxInt(0, Available(b, rs))
  }

  /** `totalAvailable` of `checkStockAvailability`. */
  function TotalAvailable(list: seq<Batch>, rs: seq<Reservation>): int
  {
    SumOf(list, PositiveAvailable(rs))
  }

  lemma {:induction false} TotalAvailableFront(list: seq<Batch>, rs: seq<Reservation>)
    requires |list| > 0
    ensures TotalAvailable(list, rs) == MaxInt(0, Available(list[0], rs)) + TotalAvailable(list[1..], rs)
    ensures TotalAvailable(list, rs) >= 0
  {
    assert list == [list[0]] + list[1..];
    SumOfConcat([list[0]], list[1..], PositiveAvailable(rs));
    assert [list[0]][..0] == [];
    SumOfNonNegative(list, PositiveAvailable(rs));
  }

  /** The simulated walk misses exactly what the listed batches cannot
      cover: the shortfall is the request less the total the availability
      check reports, or nothing. */
  lemma {:induction false} SimulateShortfall(list: seq<Batch>, rs: seq<Reservation>, productId: string, remaining: int)
    requires remaining >= 0
    ensures SimulateFrom(list, rs, productId, remaining).remaining == MaxInt(0, remaining - TotalAvailable(list, rs))
    decreases |list|
  {
    if |list| == 0 {
    } else if remaining == 0 {
      SumOfNonNegative(list, PositiveAvailable(rs));
    } else {
      TotalAvailableFront(list, rs);
      var available := Available(list[0], rs);
      if available > 0 {
        SimulateShortfall(list[1..], rs, productId, remaining - MinInt(remaining, available));
        SumOfNonNegative(list[1..], PositiveAvailable(rs));
      } else {
        SimulateShortfall(list[1..], rs, productId, remaining);
      }
    }
  }

  /** The allocations together with the shortfall make up the request. */
  lemma {:induction false} SimulateTotal(list: seq<Batch>, rs: seq<Reservation>, productId: string, remaining: int)
    ensures var r := SimulateFrom(list, rs, productId, remaining);
      SumOf(r.allocations, Allocated) + r.remaining == remaining
    decreases |list|
  {
    var r := SimulateFrom(list, rs, productId, remaining);
    if |list| > 0 && remaining > 0 {
      var available := Available(list[0], rs);
      if available > 0 {
        var q := MinInt(remaining, available);
        SimulateTotal(list[1..], rs, productId, remaining - q);
        var rest := SimulateFrom(list[1..], rs, productId, remaining - q);
        SumOfConcat([Allocation(list[0].id, productId, q)], rest.allocations, Allocated);
        assert [Allocation(list[0].id, productId, q)][..0] == [];
      } else {
        SimulateTotal(list[1..], rs, productId, remaining);
      }
    }
  }

  /** A new row on one batch leaves what every other batch offers as it
      was. */
  lemma AvailableElsewhere(b: Batch, rs: seq<Reservation>, row: Reservation)
    requires row.batchId != b.id
    ensures Available(b, rs + [row]) == Available(b, rs)
  {
    SumOfAppend(rs, row, ReservedOn(b.id));
  }

  /** The allocations a run of reservation rows stands for, one per row. */
  function AsAllocations(rows: seq<Reservation>, productId: string): (r: seq<Allocation>)
    ensures |r| == |rows|
    ensures forall i :: 0 <= i < |rows| ==> r[i] == Allocation(rows[i].batchId, productId, rows[i].quantity)
  {
    seq(|rows|, i requires 0 <= i < |rows| => Allocation(rows[i].batchId, productId, rows[i].quantity))
  }

  lemma AsAllocationsCons(row: Reservation, tail: seq<Reservation>, productId: string)
    ensures AsAllocations([row] + tail, productId) == [Allocation(row.batchId, productId, row.quantity)] + AsAllocations(tail, productId)
  {
    var rows := [row] + tail;
    var a := AsAllocations(rows, productId);
    var b := [Allocation(row.batchId, productId, row.quantity)] + AsAllocations(tail, productId);
    forall i | 0 <= i < |a| ensures a[i] == b[i] {
      if i > 0 {
        assert rows[i] == tail[i - 1];
      }
    }
  }

  /** The reservation walk and the simulated walk agree when they start
      from tables that offer the same on every listed batch: the rows the
      first adds are the allocations the second reports, and both miss the
      same quantity. */
  lemma {:induction false} ReserveAsSimulated(list: seq<Batch>, bs: seq<Batch>, rs0: seq<Reservation>, rs1: seq<Reservation>, req: Request, remaining: int)
    requires UniqueIds(list)
    requires forall j :: 0 <= j < |list| ==> Available(list[j], rs0) == Available(list[j], rs1)
    ensures var r := ReserveFrom(list, bs, rs0, req, remaining);
      var s := SimulateFrom(list, rs1, req.productId, remaining);
      r.remaining == s.remaining && s.allocations == AsAllocations(r.reservations[|rs0|..], req.productId)
    decreases |list|
  {
    if |list| > 0 && remaining > 0 {
      var b := list[0];
      var row := NewRow(b, rs0, req, remaining);
      assert Available(list[0], rs0) == Available(list[0], rs1);
      if Available(b, rs0) > 0 {
        AvailableAfterRow(list, rs0, rs1, row);
        ReserveAsSimulated(list[1..], IncrementReserved(bs, b.id, row.quantity), rs0 + [row], rs1, req, remaining - row.quantity);
        ReserveAsSimulatedCons(list, bs, rs0, rs1, req, remaining);
      } else {
        ReserveAsSimulated(list[1..], bs, rs0, rs1, req, remaining);
        ReserveAsSimulatedSkip(list, bs, rs0, rs1, req, remaining);
      }
    } else {
      ReserveAsSimulatedDone(list, bs, rs0, rs1, req, remaining);
    }
  }

  /** With nothing listed or nothing missing, neither walk adds anything. */
  lemma ReserveAsSimulatedDone(list: seq<Batch>, bs: seq<Batch>, rs0: seq<Reservation>, rs1: seq<Reservation>, req: Request, remaining: int)
    requires |list| == 0 || remaining <= 0
    ensures var r := ReserveFrom(list, bs, rs0, req, remaining);
      var s := SimulateFrom(list, rs1, req.productId, remaining);
      r.remaining == s.remaining && s.allocations == AsAllocations(r.reservations[|rs0|..], req.productId)
  {
    assert ReserveFrom(list, bs, rs0, req, remaining).reservations[|rs0|..] == [];
  }

  /** The step of `ReserveAsSimulated` on a batch with nothing available:
      both walks pass it by. */
  lemma ReserveAsSimulatedSkip(list: seq<Batch>, bs: seq<Batch>, rs0: seq<Reservation>, rs1: seq<Reservation>, req: Request, remaining: int)
    requires |list| > 0 && remaining > 0
    requires Available(list[0], rs0) <= 0 && Available(list[0], rs0) == Available(list[0], rs1)
    requires var r := ReserveFrom(list[1..], bs, rs0, req, remaining);
      var s := SimulateFrom(list[1..], rs1, req.productId, remaining);
      r.remaining == s.remaining && s.allocations == AsAllocations(r.reservations[|rs0|..], req.productId)
    ensures var r := ReserveFrom(list, bs, rs0, req, remaining);
      var s := SimulateFrom(list, rs1, req.productId, remaining);
      r.remaining == s.remaining && s.allocations == AsAllocations(r.reservations[|rs0|..], req.productId)
  {
  }

  /** A row on the first listed batch leaves what the other listed batches
      offer as it was. */
  lemma AvailableAfterRow(list: seq<Batch>, rs0: seq<Reservation>, rs1: seq<Reservation>, row: Reservation)
    requires UniqueIds(list) && |list| > 0 && row.batchId == list[0].id
    requires forall j :: 0 <= j < |list| ==> Available(list[j], rs0) == Available(list[j], rs1)
    ensures forall j :: 0 <= j < |list[1..]| ==> Available(list[1..][j], rs0 + [row]) == Available(list[1..][j], rs1)
  {
    forall j | 0 <= j < |list[1..]|
      ensures Available(list[1..][j], rs0 + [row]) == Available(list[1..][j], rs1)
    {
      assert list[1..][j] == list[j + 1];
      AvailableElsewhere(list[j + 1], rs0, row);
    }
  }

  /** The step of `ReserveAsSimulated` on a batch with something available:
      the row the walk adds is the allocation the simulation reports. */
  lemma ReserveAsSimulatedCons(list: seq<Batch>, bs: seq<Batch>, rs0: seq<Reservation>, rs1: seq<Reservation>, req: Request, remaining: int)
    requires |list| > 0 && remaining > 0
    requires Available(list[0], rs0) > 0 && Available(list[0], rs0) == Available(list[0], rs1)
    requires var row := NewRow(list[0], rs0, req, remaining);
      var r := ReserveFrom(list[1..], IncrementReserved(bs, list[0].id, row.quantity), rs0 + [row], req, remaining - row.quantity);
      var s := SimulateFrom(list[1..], rs1, req.productId, remaining - row.quantity);
      r.remaining == s.remaining && s.allocations == AsAllocations(r.reservations[|rs0| + 1..], req.productId)
    ensures var r := ReserveFrom(list, bs, rs0, req, remaining);
      var s := SimulateFrom(list, rs1, req.productId, remaining);
      r.remaining == s.remaining && s.allocations == AsAllocations(r.reservations[|rs0|..], req.productId)
  {
    var row := NewRow(list[0], rs0, req, remaining);
    var q := row.quantity;
    var rest := ReserveFrom(list[1..], IncrementReserved(bs, list[0].id, q), rs0 + [row], req, remaining - q);
    var srest := SimulateFrom(list[1..], rs1, req.productId, remaining - q);
    ReserveFromStep(list, bs, rs0, req, remaining);
    SimulateFromStep(list, rs1, req.productId, remaining);
    assert q == MinInt(remaining, Available(list[0], rs1));
    AsAllocationsCons(row, rest.reservations[|rs0| + 1..], req.productId);
  }

  /** One step of the simulated walk on a batch with something available. */
  lemma SimulateFromStep(list: seq<Batch>, rs: seq<Reservation>, productId: string, remaining: int)
    requires |list| > 0 && remaining > 0 && Available(list[0], rs) > 0
    ensures var q := MinInt(remaining, Available(list[0], rs));
      var rest := SimulateFrom(list[1..], rs, productId, remaining - q);
      SimulateFrom(list, rs, productId, remaining) == Simulated([Allocation(list[0].id, productId, q)] + rest.allocations, rest.remaining)
  {
  }

  // ---------------------------------------------------------------------------
  // Reserving one product and a whole order
  // ---------------------------------------------------------------------------

  function NoBatchesMessage(productId: string): string
  {
    "No active batches found for product " + productId
  }

  function InsufficientMessage(productId: string, requested: int, remaining: int): string
  {
    "Insufficient stock for product " + productId + ". Requested: " + IntToString(requested)
      + ", Available: " + IntToString(requested - remaining)
  }

  /** The batches `reserveForProduct` walks: the kiosk's sellable batches of
      the product, first to expire first. */
  function Candidates(st: Store, productId: string, kioskUserId: int, now: int): seq<Batch>
  {
    FindActiveForKiosk(st.products, st.batches, productId, kioskUserId, now)
  }

  /** Releases the rows at the given positions, all of them at or after
      `lo`; the rows before `lo` stay as they are. */
  function ReleaseFrom(st: Store, made: seq<nat>, lo: nat): (r: Store)
    ensures r == ReleaseReservationsByIds(st, made).0
    ensures |r.batches| == |st.batches| && |r.reservations| == |st.reservations|
    ensures (forall j :: 0 <= j < |made| ==> made[j] >= lo) && lo <= |st.reservations| ==>
      r.reservations[..lo] == st.reservations[..lo]
  {
    var r := ReleaseReservationsByIds(st, made).0;
    assert (forall j :: 0 <= j < |made| ==> made[j] >= lo) && lo <= |st.reservations| ==>
      forall i :: 0 <= i < lo ==> r.reservations[i] == st.reservations[i];
    r
  }

  /** `reserveForProduct`. No candidate batch is an error that changes
      nothing. Otherwise the walk runs; when it falls short, the rows it
      added are released again unless a transaction surrounds the call (the
      transaction's rollback undoes them then), and the shortfall is an
      error; the positions of the new rows are the result. */
  function ReserveForProduct(st: Store, req: Request, quantity: int, inTransaction: bool): (r: Outcome<seq<nat>>)
    ensures |Candidates(st, req.productId, req.kioskUserId, req.now)| == 0 ==> r == Outcome(st, Err(NoBatchesMessage(req.productId)))
    ensures r.store == st.(batches := r.store.batches, reservations := r.store.reservations)
    ensures |r.store.batches| == |st.batches|
    ensures |st.reservations| <= |r.store.reservations| && r.store.reservations[..|st.reservations|] == st.reservations
    ensures r.result.Ok? ==> forall j :: 0 <= j < |r.result.value| ==> r.result.value[j] == |st.reservations| + j
    ensures r.result.Ok? ==> |r.result.value| == |r.store.reservations| - |st.reservations|
  {
    var list := Candidates(st, req.productId, req.kioskUserId, req.now);
    if |list| == 0 then Outcome(st, Err(NoBatchesMessage(req.productId)))
    else
      var w := ReserveFrom(Candidates(st, req.productId, req.kioskUserId, req.now), st.batches, st.reservations, req, quantity);
      var walked := st.(batches := w.batches, reservations := w.reservations);
      if w.remaining > 0 then
        var back := if !inTransaction && |w.made| > 0 then ReleaseFrom(walked, w.made, |st.reservations|) else walked;
        Outcome(back, Err(InsufficientMessage(req.productId, quantity, w.remaining)))
      else Outcome(walked, Ok(w.made))
  }

  /** Reserving a product succeeds exactly when it has candidate batches
      and they offer at least the requested quantity beyond their ACTIVE
      reservations, the figure the availability check reports; on success
      the new rows hold exactly the requested quantity. */
  lemma ReserveForProductSucceeds(st: Store, req: Request, quantity: int, inTransaction: bool)
    requires UniqueIds(Candidates(st, req.productId, req.kioskUserId, req.now))
    ensures var r := ReserveForProduct(st, req, quantity, inTransaction);
      r.result.Ok? <==> |Candidates(st, req.productId, req.kioskUserId, req.now)| > 0 && quantity <= TotalAvailable(Candidates(st, req.productId, req.kioskUserId, req.now), st.reservations)
    ensures var r := ReserveForProduct(st, req, quantity, inTransaction);
      r.result.Ok? && quantity >= 0 ==> SumOf(r.store.reservations[|st.reservations|..], ReservationRepository.Quantity) == quantity
  {
    var list := Candidates(st, req.productId, req.kioskUserId, req.now);
    if |list| > 0 {
      ReserveAsSimulated(list, st.batches, st.reservations, st.reservations, req, quantity);
      ReserveFromTotal(list, st.batches, st.reservations, req, quantity);
      TotalAvailableFront(list, st.reservations);
      if quantity >= 0 {
        SimulateShortfall(list, st.reservations, req.productId, quantity);
      }
    }
  }

  /** Reserving a product, successfully or not, keeps every batch's counter
      equal to what its ACTIVE reservations hold. */
  lemma ReserveForProductKeepsCounters(st: Store, req: Request, quantity: int, inTransaction: bool)
    requires CountersAgree(st.batches, st.reservations)
    ensures var r := ReserveForProduct(st, req, quantity, inTransaction);
      CountersAgree(r.store.batches, r.store.reservations)
  {
    var list := Candidates(st, req.productId, req.kioskUserId, req.now);
    if |list| > 0 {
      ReserveFromKeepsCounters(list, st.batches, st.reservations, req, quantity);
    }
  }

  /** The positions a walk records are exactly the rows from `lo` on. */
  lemma MadePositions(all: seq<Reservation>, lo: nat, made: seq<nat>)
    requires lo <= |all| && |made| == |all| - lo
    requires forall j :: 0 <= j < |made| ==> made[j] == lo + j
    ensures forall i :: 0 <= i < |all| ==> (i in made <==> lo <= i)
  {
    forall i | 0 <= i < |all|
      ensures i in made <==> lo <= i
    {
      if lo <= i {
        assert made[i - lo] == i;
      }
    }
  }

  /** Releasing the rows a walk added, all of them ACTIVE, takes the
      counters back to what they were before the walk. */
  lemma ReleaseAddedRows(bs0: seq<Batch>, bs1: seq<Batch>, all: seq<Reservation>, lo: nat, made: seq<nat>)
    requires lo <= |all|
    requires forall i :: 0 <= i < |all| ==> (i in made <==> lo <= i)
    requires forall i :: lo <= i < |all| ==> all[i].status.Active?
    requires |bs1| == |bs0|
    requires forall k :: 0 <= k < |bs0| ==>
      bs1[k] == bs0[k].(reservedQuantity := bs0[k].reservedQuantity + TotalReservedByBatch(all[lo..], bs0[k].id))
    ensures AdjustFor(bs1, all, AtPositions(made), false) == bs0
  {
    var after := AdjustFor(bs1, all, AtPositions(made), false);
    forall k | 0 <= k < |bs0|
      ensures after[k] == bs0[k]
    {
      MovedOnTail(all, lo, made, bs0[k].id);
      assert bs1[k].id == bs0[k].id;
    }
  }

  /** Releasing the rows a walk added marks every one of them RELEASED. */
  lemma ReleaseAddedRowsReleased(all: seq<Reservation>, lo: nat, made: seq<nat>)
    requires lo <= |all|
    requires forall i :: 0 <= i < |all| ==> (i in made <==> lo <= i)
    requires forall i :: lo <= i < |all| ==> all[i].status.Active?
    ensures forall i :: lo <= i < |all| ==> ReleaseByIds(all, made).0[i].status.Released?
  {
  }

  /** The rows a walk adds are ACTIVE. */
  lemma ReserveFromActive(list: seq<Batch>, bs: seq<Batch>, rs: seq<Reservation>, req: Request, remaining: int)
    ensures var r := ReserveFrom(list, bs, rs, req, remaining);
      forall i :: |rs| <= i < |r.reservations| ==> r.reservations[i].status.Active?
  {
    ReserveFromRows(list, bs, rs, req, remaining);
  }

  /** The walk's rows, released again: the batches are as before. */
  lemma UndoneWalk(st: Store, req: Request, quantity: int)
    requires |ReserveFrom(Candidates(st, req.productId, req.kioskUserId, req.now), st.batches, st.reservations, req, quantity).made| > 0
    ensures var w := ReserveFrom(Candidates(st, req.productId, req.kioskUserId, req.now), st.batches, st.reservations, req, quantity);
      var back := ReleaseFrom(st.(batches := w.batches, reservations := w.reservations), w.made, |st.reservations|);
      back.batches == st.batches
      && forall i :: |st.reservations| <= i < |back.reservations| ==> back.reservations[i].status.Released?
  {
    var list := Candidates(st, req.productId, req.kioskUserId, req.now);
    var w := ReserveFrom(Candidates(st, req.productId, req.kioskUserId, req.now), st.batches, st.reservations, req, quantity);
    var lo := |st.reservations|;
    ReserveFromActive(list, st.batches, st.reservations, req, quantity);
    ReserveFromBatches(list, st.batches, st.reservations, req, quantity);
    MadePositions(w.reservations, lo, w.made);
    ReleaseAddedRows(st.batches, w.batches, w.reservations, lo, w.made);
    ReleaseAddedRowsReleased(w.reservations, lo, w.made);
  }

  /** A walk that adds no row leaves the store as it was. */
  lemma IdleWalk(st: Store, req: Request, quantity: int)
    requires |ReserveFrom(Candidates(st, req.productId, req.kioskUserId, req.now), st.batches, st.reservations, req, quantity).made| == 0
    ensures ReserveFrom(Candidates(st, req.productId, req.kioskUserId, req.now), st.batches, st.reservations, req, quantity).batches == st.batches
    ensures ReserveFrom(Candidates(st, req.productId, req.kioskUserId, req.now), st.batches, st.reservations, req, quantity).reservations == st.reservations
  {
    var w := ReserveFrom(Candidates(st, req.productId, req.kioskUserId, req.now), st.batches, st.reservations, req, quantity);
    ReserveFromBatches(Candidates(st, req.productId, req.kioskUserId, req.now), st.batches, st.reservations, req, quantity);
    assert w.reservations[|st.reservations|..] == [];
  }

  /** A shortfall outside a transaction undoes itself: the batches are
      exactly as before, the earlier rows are untouched and every row the
      walk added is RELEASED. */
  lemma ReserveShortfallRollsBack(st: Store, req: Request, quantity: int)
    ensures var r := ReserveForProduct(st, req, quantity, false);
      r.result.Err? ==>
        r.store.batches == st.batches
        && forall i :: |st.reservations| <= i < |r.store.reservations| ==> r.store.reservations[i].status.Released?
  {
    if |Candidates(st, req.productId, req.kioskUserId, req.now)| > 0 {
      if |ReserveFrom(Candidates(st, req.productId, req.kioskUserId, req.now), st.batches, st.reservations, req, quantity).made| > 0 {
        UndoneWalk(st, req, quantity);
      } else {
        IdleWalk(st, req, quantity);
      }
    }
  }

  /** A new row made for the request. */
  predicate MadeFor(x: Reservation, orderId: string, kioskUserId: int, expiresAt: int)
  {
    x.orderId == orderId && x.kioskUserId == kioskUserId && x.expiresAt == expiresAt
    && x.status.Active? && x.quantity > 0
  }

  /** A successful reservation adds ACTIVE rows of a positive quantity that
      carry the request's order, kiosk and expiry. */
  lemma ReserveForProductRows(st: Store, req: Request, quantity: int, inTransaction: bool)
    ensures var r := ReserveForProduct(st, req, quantity, inTransaction);
      r.result.Ok? ==>
        forall i :: |st.reservations| <= i < |r.store.reservations| ==>
          MadeFor(r.store.reservations[i], req.orderId, req.kioskUserId, req.expiresAt)
  {
    var r := ReserveForProduct(st, req, quantity, inTransaction);
    if |Candidates(st, req.productId, req.kioskUserId, req.now)| > 0 && r.result.Ok? {
      assert r.store.reservations == ReserveFrom(Candidates(st, req.productId, req.kioskUserId, req.now), st.batches, st.reservations, req, quantity).reservations;
      forall i | |st.reservations| <= i < |r.store.reservations|
        ensures MadeFor(r.store.reservations[i], req.orderId, req.kioskUserId, req.expiresAt)
      {
        WalkMadeFor(st, req, quantity, i);
      }
    }
  }

  lemma WalkMadeFor(st: Store, req: Request, quantity: int, i: int)
    requires |st.reservations| <= i < |ReserveFrom(Candidates(st, req.productId, req.kioskUserId, req.now), st.batches, st.reservations, req, quantity).reservations|
    ensures MadeFor(ReserveFrom(Candidates(st, req.productId, req.kioskUserId, req.now), st.batches, st.reservations, req, quantity).reservations[i], req.orderId, req.kioskUserId, req.expiresAt)
  {
    ReserveFromMadeFor(Candidates(st, req.productId, req.kioskUserId, req.now), st.batches, st.reservations, req, quantity);
  }

  lemma ReserveFromMadeFor(list: seq<Batch>, bs: seq<Batch>, rs: seq<Reservation>, req: Request, remaining: int)
    ensures var r := ReserveFrom(list, bs, rs, req, remaining);
      forall i :: |rs| <= i < |r.reservations| ==> MadeFor(r.reservations[i], req.orderId, req.kioskUserId, req.expiresAt)
  {
    ReserveFromRows(list, bs, rs, req, remaining);
  }

  /** One line of a reservation request (`ReservationRequestItemDTO`). */
  datatype Item = Item(productId: string, quantity: int)

  /** The loop of `createReservations`: the items in order, stopping at the
      first that fails; the positions of all new rows on success. */
  function ReserveItems(st: Store, orderId: string, kioskUserId: int, expiresAt: int, now: int, items: seq<Item>, inTransaction: bool): (r: Outcome<seq<nat>>)
    ensures r.store == st.(batches := r.store.batches, reservations := r.store.reservations)
    ensures |r.store.batches| == |st.batches|
    ensures |st.reservations| <= |r.store.reservations| && r.store.reservations[..|st.reservations|] == st.reservations
    ensures r.result.Ok? ==> |r.result.value| == |r.store.reservations| - |st.reservations|
    ensures r.result.Ok? ==> forall j :: 0 <= j < |r.result.value| ==> r.result.value[j] == |st.reservations| + j
    decreases |items|
  {
    if |items| == 0 then Outcome(st, Ok([]))
    else
      var req := Request(orderId, kioskUserId, items[0].productId, expiresAt, now);
      var first := ReserveForProduct(st, req, items[0].quantity, inTransaction);
      if first.result.Err? then first
      else
        var rest := ReserveItems(first.store, orderId, kioskUserId, expiresAt, now, items[1..], inTransaction);
        assert rest.store.reservations[..|st.reservations|] == first.store.reservations[..|st.reservations|];
        if rest.result.Err? then rest
        else Outcome(rest.store, Ok(first.result.value + rest.result.value))
  }

  /** Reserving the items keeps every batch's counter equal to what its
      ACTIVE reservations hold. */
  lemma {:induction false} ReserveItemsKeepsCounters(st: Store, orderId: string, kioskUserId: int, expiresAt: int, now: int, items: seq<Item>, inTransaction: bool)
    requires CountersAgree(st.batches, st.reservations)
    ensures var r := ReserveItems(st, orderId, kioskUserId, expiresAt, now, items, inTransaction);
      CountersAgree(r.store.batches, r.store.reservations)
    decreases |items|
  {
    if |items| > 0 {
      var req := Request(orderId, kioskUserId, items[0].productId, expiresAt, now);
      ReserveForProductKeepsCounters(st, req, items[0].quantity, inTransaction);
      var first := ReserveForProduct(st, req, items[0].quantity, inTransaction);
      if first.result.Ok? {
        ReserveItemsKeepsCounters(first.store, orderId, kioskUserId, expiresAt, now, items[1..], inTransaction);
      }
    }
  }

  /** Successfully reserving the items adds ACTIVE rows of the order that
      expire at the request's instant. */
  lemma {:induction false} ReserveItemsRows(st: Store, orderId: string, kioskUserId: int, expiresAt: int, now: int, items: seq<Item>, inTransaction: bool)
    ensures var r := ReserveItems(st, orderId, kioskUserId, expiresAt, now, items, inTransaction);
      r.result.Ok? ==>
        forall i :: |st.reservations| <= i < |r.store.reservations| ==>
          MadeFor(r.store.reservations[i], orderId, kioskUserId, expiresAt)
    decreases |items|
  {
    var r := ReserveItems(st, orderId, kioskUserId, expiresAt, now, items, inTransaction);
    if |items| > 0 && r.result.Ok? {
      var req := Request(orderId, kioskUserId, items[0].productId, expiresAt, now);
      var first := ReserveForProduct(st, req, items[0].quantity, inTransaction);
      ReserveItemsSplit(st, orderId, kioskUserId, expiresAt, now, items, inTransaction);
      ReserveForProductRows(st, req, items[0].quantity, inTransaction);
      ReserveItemsRows(first.store, orderId, kioskUserId, expiresAt, now, items[1..], inTransaction);
      RowsMadeForJoin(st.reservations, first.store.reservations, r.store.reservations, orderId, kioskUserId, expiresAt);
    }
  }

  /** A successful reservation of the items is the first item's followed
      by the rest's. */
  lemma ReserveItemsSplit(st: Store, orderId: string, kioskUserId: int, expiresAt: int, now: int, items: seq<Item>, inTransaction: bool)
    requires |items| > 0
    requires ReserveItems(st, orderId, kioskUserId, expiresAt, now, items, inTransaction).result.Ok?
    ensures var first := ReserveForProduct(st, Request(orderId, kioskUserId, items[0].productId, expiresAt, now), items[0].quantity, inTransaction);
      first.result.Ok?
      && ReserveItems(first.store, orderId, kioskUserId, expiresAt, now, items[1..], inTransaction).result.Ok?
      && ReserveItems(st, orderId, kioskUserId, expiresAt, now, items, inTransaction).store
         == ReserveItems(first.store, orderId, kioskUserId, expiresAt, now, items[1..], inTransaction).store
  {
  }

  /** Rows made for the order after `a` and after `b` make every row after
      `a` one made for it. */
  lemma RowsMadeForJoin(a: seq<Reservation>, b: seq<Reservation>, c: seq<Reservation>, orderId: string, kioskUserId: int, expiresAt: int)
    requires |a| <= |b| <= |c| && c[..|b|] == b
    requires forall i :: |a| <= i < |b| ==> MadeFor(b[i], orderId, kioskUserId, expiresAt)
    requires forall i :: |b| <= i < |c| ==> MadeFor(c[i], orderId, kioskUserId, expiresAt)
    ensures forall i :: |a| <= i < |c| ==> MadeFor(c[i], orderId, kioskUserId, expiresAt)
  {
    forall i | |a| <= i < |c| ensures MadeFor(c[i], orderId, kioskUserId, expiresAt) {
      if i < |b| {
        assert c[..|b|][i] == b[i];
      }
    }
  }

  /** After the order's reservations are released none of its rows is
      ACTIVE. */
  lemma ReleasedOrderHasNoActive(st: Store, orderId: string, now: int)
    ensures var r := ReleaseByOrder(st, orderId, now).0;
      forall i :: 0 <= i < |r.reservations| && r.reservations[i].orderId == orderId ==> !r.reservations[i].status.Active?
  {
  }

  /** The instant new reservations expire: `expiresInMinutes` after `now`,
      15 minutes when the request leaves it out. */
  function ReservationExpiry(now: int, expiresInMinutes: Option<int>): int
  {
    now + expiresInMinutes.GetOr(InitialReservationMinutes)
  }

  /** `createReservations`: the reservations expire `expiresInMinutes`
      (15 by default) after `now`; when an item fails outside a transaction
      every ACTIVE reservation of the order is released before the error
      is passed on. */
  function CreateReservations(st: Store, orderId: string, kioskUserId: int, items: seq<Item>, expiresInMinutes: Option<int>, now: int, inTransaction: bool): (r: Outcome<seq<nat>>)
    ensures r.store == st.(batches := r.store.batches, reservations := r.store.reservations)
    ensures |r.store.reservations| >= |st.reservations|
    ensures r.result.Ok? ==> r == ReserveItems(st, orderId, kioskUserId, ReservationExpiry(now, expiresInMinutes), now, items, inTransaction)
    ensures r.result.Err? && !inTransaction ==>
      forall i :: 0 <= i < |r.store.reservations| && r.store.reservations[i].orderId == orderId ==> !r.store.reservations[i].status.Active?
  {
    var o := ReserveItems(st, orderId, kioskUserId, ReservationExpiry(now, expiresInMinutes), now, items, inTransaction);
    if o.result.Err? && !inTransaction then
      ReleasedOrderHasNoActive(o.store, orderId, now);
      Outcome(ReleaseByOrder(o.store, orderId, now).0, o.result)
    else o
  }

  /** Creating reservations, successfully or not, keeps every batch's
      counter equal to what its ACTIVE reservations hold. */
  lemma CreateReservationsKeepsCounters(st: Store, orderId: string, kioskUserId: int, items: seq<Item>, expiresInMinutes: Option<int>, now: int, inTransaction: bool)
    requires CountersAgree(st.batches, st.reservations)
    requires !inTransaction ==> OrderReservationsLive(st.reservations, orderId, now) && ReservationExpiry(now, expiresInMinutes) >= now
    ensures var r := CreateReservations(st, orderId, kioskUserId, items, expiresInMinutes, now, inTransaction);
      CountersAgree(r.store.batches, r.store.reservations)
  {
    var e := ReservationExpiry(now, expiresInMinutes);
    ReserveItemsKeepsCounters(st, orderId, kioskUserId, e, now, items, inTransaction);
    var o := ReserveItems(st, orderId, kioskUserId, e, now, items, inTransaction);
    if o.result.Err? && !inTransaction {
      ReserveItemsNewActive(st, orderId, kioskUserId, e, now, items, inTransaction);
      var rs := o.store.reservations;
      forall i | 0 <= i < |rs| && rs[i].orderId == orderId && rs[i].status.Active?
        ensures rs[i].expiresAt >= now
      {
        if i < |st.reservations| {
          assert rs[..|st.reservations|][i] == st.reservations[i];
        }
      }
      ReleaseByOrderWhenLive(o.store, orderId, now);
    }
  }

  /** The rows appended after position `lo` that are still ACTIVE all
      expire at `e`. */
  predicate ActiveFromExpireAt(rs: seq<Reservation>, lo: nat, e: int)
  {
    forall i :: lo <= i < |rs| && rs[i].status.Active? ==> rs[i].expiresAt == e
  }

  /** Whatever reserving a product leaves behind, a new row still ACTIVE
      carries the request's expiry: a shortfall releases the rows it
      made. */
  lemma ReserveForProductNewActive(st: Store, req: Request, quantity: int, inTransaction: bool)
    ensures ActiveFromExpireAt(ReserveForProduct(st, req, quantity, inTransaction).store.reservations, |st.reservations|, req.expiresAt)
  {
    var list := Candidates(st, req.productId, req.kioskUserId, req.now);
    if |list| > 0 {
      var w := ReserveFrom(list, st.batches, st.reservations, req, quantity);
      WalkNewActive(list, st.batches, st.reservations, req, quantity);
      var walked := st.(batches := w.batches, reservations := w.reservations);
      if w.remaining > 0 && !inTransaction && |w.made| > 0 {
        ReleaseKeepsActiveFrom(walked, w.made, |st.reservations|, req.expiresAt);
      }
    }
  }

  lemma WalkNewActive(list: seq<Batch>, bs: seq<Batch>, rs: seq<Reservation>, req: Request, remaining: int)
    ensures ActiveFromExpireAt(ReserveFrom(list, bs, rs, req, remaining).reservations, |rs|, req.expiresAt)
  {
    ReserveFromMadeFor(list, bs, rs, req, remaining);
  }

  /** Releasing rows makes none of them ACTIVE. */
  lemma ReleaseKeepsActiveFrom(st: Store, made: seq<nat>, lo: nat, e: int)
    requires ActiveFromExpireAt(st.reservations, lo, e)
    ensures ActiveFromExpireAt(ReleaseFrom(st, made, lo).reservations, lo, e)
  {
    var r := ReleaseFrom(st, made, lo).reservations;
    forall i | lo <= i < |r| && r[i].status.Active?
      ensures r[i].expiresAt == e
    {
      assert r[i] == (if i in made && st.reservations[i].status.Active? then st.reservations[i].(status := Released) else st.reservations[i]);
    }
  }

  lemma {:induction false} ReserveItemsNewActive(st: Store, orderId: string, kioskUserId: int, expiresAt: int, now: int, items: seq<Item>, inTransaction: bool)
    ensures ActiveFromExpireAt(ReserveItems(st, orderId, kioskUserId, expiresAt, now, items, inTransaction).store.reservations, |st.reservations|, expiresAt)
    decreases |items|
  {
    if |items| > 0 {
      var req := Request(orderId, kioskUserId, items[0].productId, expiresAt, now);
      var first := ReserveForProduct(st, req, items[0].quantity, inTransaction);
      ReserveForProductNewActive(st, req, items[0].quantity, inTransaction);
      if first.result.Ok? {
        var rest := ReserveItems(first.store, orderId, kioskUserId, expiresAt, now, items[1..], inTransaction);
        ReserveItemsNewActive(first.store, orderId, kioskUserId, expiresAt, now, items[1..], inTransaction);
        forall i | |st.reservations| <= i < |rest.store.reservations| && rest.store.reservations[i].status.Active?
          ensures rest.store.reservations[i].expiresAt == expiresAt
        {
          if i < |first.store.reservations| {
            assert rest.store.reservations[..|first.store.reservations|][i] == first.store.reservations[i];
          }
        }
      }
    }
  }

  /** On success the new rows are exactly the ones reported, all ACTIVE
      reservations of the order expiring `expiresInMinutes` after `now`,
      and the earlier rows are untouched. */
  lemma CreateReservationsRows(st: Store, orderId: string, kioskUserId: int, items: seq<Item>, expiresInMinutes: Option<int>, now: int, inTransaction: bool)
    ensures var r := CreateReservations(st, orderId, kioskUserId, items, expiresInMinutes, now, inTransaction);
      r.result.Ok? ==>
        r.store.reservations[..|st.reservations|] == st.reservations
        && |r.result.value| == |r.store.reservations| - |st.reservations|
        && forall i :: |st.reservations| <= i < |r.store.reservations| ==>
          MadeFor(r.store.reservations[i], orderId, kioskUserId, ReservationExpiry(now, expiresInMinutes))
  {
    var e := ReservationExpiry(now, expiresInMinutes);
    var r := CreateReservations(st, orderId, kioskUserId, items, expiresInMinutes, now, inTransaction);
    if r.result.Ok? {
      assert r == ReserveItems(st, orderId, kioskUserId, e, now, items, inTransaction);
      ReserveItemsRows(st, orderId, kioskUserId, e, now, items, inTransaction);
    }
  }

  // ---------------------------------------------------------------------------
  // Availability check, simulation and batch availability
  // ---------------------------------------------------------------------------

  /** The checks `ReservationRequestItemDTO` declares: a UUID product id and
      a quantity of at least 1. */
  predicate ValidItem(item: Item)
  {
    IsUuid(item.productId) && item.quantity >= 1
  }

  /** One entry of the availability answer (`StockAvailabilityResponseDTO`). */
  datatype StockAvailability = StockAvailability(productId: string, available: bool, requested: int, availableQuantity: int, hasSufficientStock: bool)

  /** The answer for one item: the sum over the kiosk's candidate batches of
      what each offers beyond its ACTIVE reservations, and whether that
      covers the request. */
  function ItemAvailability(st: Store, kioskUserId: int, item: Item, now: int): (r: StockAvailability)
    ensures r.productId == item.productId && r.requested == item.quantity
    ensures r.availableQuantity >= 0
    ensures r.hasSufficientStock == r.available
  {
    var total := TotalAvailable(Candidates(st, item.productId, kioskUserId, now), st.reservations);
    SumOfNonNegative(Candidates(st, item.productId, kioskUserId, now), PositiveAvailable(st.reservations));
    StockAvailability(item.productId, total >= item.quantity, item.quantity, total, total >= item.quantity)
  }

  /** `checkStockAvailability`: the first item failing validation is an
      error; otherwise one answer per item, in order. */
  function CheckStockAvailability(st: Store, kioskUserId: int, items: seq<Item>, now: int): (r: Result<seq<StockAvailability>, string>)
    ensures r.Err? <==> exists i :: 0 <= i < |items| && !ValidItem(items[i])
    ensures r.Ok? ==> (|r.value| == |items|
      && forall i :: 0 <= i < |items| ==> r.value[i] == ItemAvailability(st, kioskUserId, items[i], now))
  {
    match FirstWhere(items, (item: Item) => !ValidItem(item))
    case Some(_) => Err("Invalid item data")
    case None => Ok(seq(|items|, i requires 0 <= i < |items| => ItemAvailability(st, kioskUserId, items[i], now)))
  }

  /** The availability check and the reservation agree: an item is reported
      as covered exactly when reserving it from the same store would
      succeed, and exactly when the simulated allocation misses nothing. */
  lemma AvailabilityMatchesReservation(st: Store, kioskUserId: int, item: Item, now: int, orderId: string, expiresAt: int, inTransaction: bool)
    requires item.quantity >= 0
    requires UniqueIds(Candidates(st, item.productId, kioskUserId, now))
    ensures var a := ItemAvailability(st, kioskUserId, item, now);
      var req := Request(orderId, kioskUserId, item.productId, expiresAt, now);
      |Candidates(st, item.productId, kioskUserId, now)| > 0 ==>
        (a.hasSufficientStock <==> ReserveForProduct(st, req, item.quantity, inTransaction).result.Ok?)
    ensures var a := ItemAvailability(st, kioskUserId, item, now);
      a.hasSufficientStock <==>
        SimulateFrom(Candidates(st, item.productId, kioskUserId, now), st.reservations, item.productId, item.quantity).remaining == 0
  {
    var req := Request(orderId, kioskUserId, item.productId, expiresAt, now);
    ReserveForProductSucceeds(st, req, item.quantity, inTransaction);
    SimulateShortfall(Candidates(st, item.productId, kioskUserId, now), st.reservations, item.productId, item.quantity);
  }

  /** The allocations for one item, or the shortfall as an error. */
  function SimulateItem(st: Store, kioskUserId: int, item: Item, now: int): (r: Result<seq<Allocation>, string>)
  {
    var s := SimulateFrom(Candidates(st, item.productId, kioskUserId, now), st.reservations, item.productId, item.quantity);
    if s.remaining > 0 then Err(InsufficientMessage(item.productId, item.quantity, s.remaining))
    else Ok(s.allocations)
  }

  /** `simulateReservationAllocation`: the items in order, each walked like a
      reservation against the reservations as they stand; the first item
      that cannot be covered is an error. Unlike the reservation, an item
      without candidate batches is not an error by itself. */
  function SimulateAllocation(st: Store, kioskUserId: int, items: seq<Item>, now: int): (r: Result<seq<seq<Allocation>>, string>)
    ensures r.Ok? ==> (|r.value| == |items|
      && forall i :: 0 <= i < |items| ==> SimulateItem(st, kioskUserId, items[i], now) == Ok(r.value[i]))
    ensures r.Err? <==> exists i :: 0 <= i < |items| && SimulateItem(st, kioskUserId, items[i], now).Err?
  {
    TraverseAll(items, (item: Item) => SimulateItem(st, kioskUserId, item, now))
  }

  /** An item's simulation succeeds exactly when its candidate batches offer
      at least the requested quantity, and its allocations then add up to
      the request (nothing for a request of zero or less). */
  lemma SimulateItemCovers(st: Store, kioskUserId: int, item: Item, now: int)
    ensures var total := TotalAvailable(Candidates(st, item.productId, kioskUserId, now), st.reservations);
      SimulateItem(st, kioskUserId, item, now).Ok? <==> item.quantity <= total
    ensures SimulateItem(st, kioskUserId, item, now).Ok? ==>
      SumOf(SimulateItem(st, kioskUserId, item, now).value, Allocated) == MaxInt(item.quantity, 0)
  {
    var list := Candidates(st, item.productId, kioskUserId, now);
    SimulateTotal(list, st.reservations, item.productId, item.quantity);
    SumOfNonNegative(list, PositiveAvailable(st.reservations));
    if item.quantity >= 0 {
      SimulateShortfall(list, st.reservations, item.productId, item.quantity);
    }
  }

  function BatchNotFound(batchId: string): string
  {
    "Batch " + batchId + " not found"
  }

  /** `getBatchAvailableQuantity`: the batch's quantity less what its ACTIVE
      reservations hold; an unknown or deleted batch is an error. */
  function GetBatchAvailableQuantity(st: Store, batchId: string): (r: Result<int, string>)
    ensures r.Err? <==> FindById(st.batches, batchId).None?
    ensures r.Err? ==> r.error == BatchNotFound(batchId)
  {
    match FindById(st.batches, batchId)
    case None => Err(BatchNotFound(batchId))
    case Some(k) => Ok(Available(st.batches[k], st.reservations))
  }

  /** With the counters in agreement, the available quantity is the
      batch's quantity less its reserved counter. */
  lemma AvailableFromCounters(st: Store, batchId: string)
    requires CountersAgree(st.batches, st.reservations)
    ensures var r := GetBatchAvailableQuantity(st, batchId);
      r.Ok? ==> exists k :: (0 <= k < |st.batches| && st.batches[k].id == batchId
        && r.value == st.batches[k].currentQuantity - st.batches[k].reservedQuantity)
  {
    match FindById(st.batches, batchId)
    case None =>
    case Some(k) =>
      assert st.batches[k].id == batchId;
  }
}
