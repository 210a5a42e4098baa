/** `BatchService`, with the two movement primitives of `StockMovementService`
    that it calls and that call it back (`createMovement`, `applyMovement`):
    batch creation, quantity updates, the status refresh, expiry handling,
    depletion, withdrawal of a whole product and soft deletion.

    The stock ledger: every batch's quantity is the sum of the deltas of its
    movements. Every operation that moves stock through a movement keeps it;
    a bare `updateBatchQuantity` breaks it. */
module BatchService {
  import opened Common
  import opened Tables
  import opened JsText
  import opened CommerceModel
  import opened BatchRepository
  import ProductService

  // ---------------------------------------------------------------------------
  // The ledger
  // ---------------------------------------------------------------------------

  function DeltaOn(batchId: string): Movement -> int
  {
    (m: Movement) => if m.batchId == batchId then m.delta else 0
  }

  /** `getTotalMovementByBatch`: Σ delta of the batch's movements, 0 when it
      has none. */
  function MovementTotal(ms: seq<Movement>, batchId: string): int
  {
    SumOf(ms, DeltaOn(batchId))
  }

  /** Every movement belongs to a stored batch. */
  predicate Anchored(st: Store)
  {
    forall k :: 0 <= k < |st.movements| ==> st.movements[k].batchId in Ids(st.batches)
  }

  predicate Balanced(b: Batch, ms: seq<Movement>)
  {
    b.currentQuantity == MovementTotal(ms, b.id)
  }

  /** The stock invariant: unique batch ids, movements of stored batches only,
      no negative quantity, and every quantity equal to its movement total. */
  predicate StockInvariant(st: Store)
  {
    UniqueIds(st.batches) && Anchored(st) && NonNegativeStock(st.batches)
    && forall i :: 0 <= i < |st.batches| ==> Balanced(st.batches[i], st.movements)
  }

  lemma MovementTotalAppend(ms: seq<Movement>, added: seq<Movement>, batchId: string)
    ensures MovementTotal(ms + added, batchId) == MovementTotal(ms, batchId) + MovementTotal(added, batchId)
  {
    SumOfConcat(ms, added, DeltaOn(batchId));
  }

  lemma MovementTotalSingle(m: Movement, batchId: string)
    ensures MovementTotal([m], batchId) == if m.batchId == batchId then m.delta else 0
  {
    assert [m][..0] == [];
    assert SumOf([m], DeltaOn(batchId)) == SumOf([], DeltaOn(batchId)) + DeltaOn(batchId)(m);
  }

  lemma MovementTotalOther(added: seq<Movement>, batchId: string)
    requires forall k :: 0 <= k < |added| ==> added[k].batchId != batchId
    ensures MovementTotal(added, batchId) == 0
  {
    SumOfZero(added, DeltaOn(batchId));
  }

  /** The step every stock operation is an instance of: one batch row is
      replaced by a row with the same id whose quantity moved by exactly the
      deltas of the movements recorded for it. */
  lemma {:induction false} InvariantRowStep(st: Store, i: nat, b: Batch, added: seq<Movement>)
    requires StockInvariant(st)
    requires i < |st.batches| && b.id == st.batches[i].id && b.currentQuantity >= 0
    requires forall k :: 0 <= k < |added| ==> added[k].batchId == b.id
    requires b.currentQuantity == st.batches[i].currentQuantity + MovementTotal(added, b.id)
    ensures StockInvariant(st.(batches := st.batches[i := b], movements := st.movements + added))
  {
    SameIdRowIds(st.batches, i, b);
    AnchoredStep(st.batches, st.movements, added, i, b);
    BalancedStep(st.batches, st.batches[i := b], st.movements, added, i, b);
  }

  /** A row replaced by one with the same id keeps the ids. */
  lemma SameIdRowIds(bs: seq<Batch>, i: nat, b: Batch)
    requires i < |bs| && b.id == bs[i].id
    ensures Ids(bs[i := b]) == Ids(bs)
    ensures UniqueIds(bs) ==> UniqueIds(bs[i := b])
  {
    assert forall k :: 0 <= k < |bs| ==> Ids(bs[i := b])[k] == Ids(bs)[k];
  }

  /** Movements of the replaced row's id stay anchored. */
  lemma AnchoredStep(bs: seq<Batch>, ms: seq<Movement>, added: seq<Movement>, i: nat, b: Batch)
    requires i < |bs| && b.id == bs[i].id && Ids(bs[i := b]) == Ids(bs)
    requires forall k :: 0 <= k < |ms| ==> ms[k].batchId in Ids(bs)
    requires forall k :: 0 <= k < |added| ==> added[k].batchId == b.id
    ensures forall k :: 0 <= k < |ms + added| ==> (ms + added)[k].batchId in Ids(bs[i := b])
  {
    var all := ms + added;
    forall k | 0 <= k < |all| ensures all[k].batchId in Ids(bs) {
      if k >= |ms| {
        assert all[k] == added[k - |ms|];
        assert Ids(bs)[i] == b.id;
      } else {
        assert all[k] == ms[k];
      }
    }
  }

  /** The replaced row moved by its new movements, and every other row has
      none: every row stays balanced. */
  lemma BalancedStep(bs: seq<Batch>, nb: seq<Batch>, ms: seq<Movement>, added: seq<Movement>, i: nat, b: Batch)
    requires UniqueIds(bs) && i < |bs| && b.id == bs[i].id && nb == bs[i := b]
    requires forall j :: 0 <= j < |bs| ==> Balanced(bs[j], ms)
    requires forall k :: 0 <= k < |added| ==> added[k].batchId == b.id
    requires b.currentQuantity == bs[i].currentQuantity + MovementTotal(added, b.id)
    ensures forall j :: 0 <= j < |nb| ==> Balanced(nb[j], ms + added)
  {
    forall j | 0 <= j < |nb| ensures Balanced(nb[j], ms + added) {
      MovementTotalAppend(ms, added, nb[j].id);
      if j != i {
        MovementTotalOther(added, bs[j].id);
      }
    }
  }

  /** A row replaced by one with the same id and quantity, with no
      movement: a status-only change. */
  lemma InvariantStatusStep(st: Store, i: nat, b: Batch)
    requires StockInvariant(st)
    requires i < |st.batches| && b.id == st.batches[i].id && b.currentQuantity == st.batches[i].currentQuantity
    ensures StockInvariant(st.(batches := st.batches[i := b]))
  {
    InvariantRowStep(st, i, b, []);
    assert st.movements + [] == st.movements;
  }

  /** With unique ids, an undeleted row is the one its id finds. */
  lemma FoundAt(bs: seq<Batch>, i: nat)
    requires UniqueIds(bs) && i < |bs| && !bs[i].status.Deleted?
    ensures FindById(bs, bs[i].id) == Some(i)
  {
  }

  /** Replacing the row an id finds by an undeleted row with that id keeps
      finding it there. */
  lemma FoundAgain(bs: seq<Batch>, id: string, b: Batch)
    requires FindById(bs, id).Some?
    requires b.id == id && !b.status.Deleted?
    ensures FindById(bs[FindById(bs, id).value := b], id) == FindById(bs, id)
  {
    var i := FindById(bs, id).value;
    var bs' := bs[i := b];
    assert bs'[i] == b;
    assert forall j :: 0 <= j < |bs| && j != i ==> bs'[j] == bs[j];
  }

  // ---------------------------------------------------------------------------
  // Messages
  // ---------------------------------------------------------------------------

  const ZeroDeltaMessage: string := "Delta cannot be zero"

  function NotFoundMessage(id: string): string
  {
    "Batch with id " + id + " not found"
  }

  /** The batch-status enum values (the enum file is not part of this model;
      the values are taken to be the members' names). */
  function StatusName(s: BatchStatus): string
  {
    match s
    case Active => "ACTIVE"
    case Depleted => "DEPLETED"
    case Expired => "EXPIRED"
    case ManualOut => "MANUAL_OUT"
    case Deleted => "DELETED"
  }

  function WrongStatusMessage(s: BatchStatus): string
  {
    "Cannot update quantity for batch in status: " + StatusName(s)
  }

  const ExpiredUpdateMessage: string := "Cannot update quantity for expired batch"

  function InsufficientMessage(available: int, delta: int): string
  {
    "Insufficient stock. Available: " + IntToString(available) + ", requested: "
      + IntToString(if delta < 0 then -delta else delta)
  }

  function InsufficientInBatchMessage(id: string, available: int, delta: int): string
  {
    "Insufficient stock in batch " + id + ". Available: " + IntToString(available)
      + ", requested: " + IntToString(-delta)
  }

  // ---------------------------------------------------------------------------
  // createMovement, updateBatchQuantity
  // ---------------------------------------------------------------------------

  /** `createMovement`: records a movement of a non-zero delta. */
  function CreateMovement(st: Store, batchId: string, kind: MovementType, delta: int, now: int): (o: Outcome<Movement>)
    ensures o.result.Ok? <==> delta != 0
    ensures o.result.Err? ==> o.store == st && o.result.error == ZeroDeltaMessage
    ensures o.result.Ok? ==>
      o.result.value == Movement(batchId, kind, delta, now)
      && o.store == st.(movements := st.movements + [o.result.value])
  {
    if delta == 0 then Outcome(st, Err(ZeroDeltaMessage))
    else
      var m := Movement(batchId, kind, delta, now);
      Outcome(st.(movements := st.movements + [m]), Ok(m))
  }

  /** What `updateBatchQuantity` accepts of a found batch: ACTIVE, not past
      its expiration instant, and not driven below zero. The expiry test
      follows the column's declared `Date` type; the driver returns a `date`
      column as a 'YYYY-MM-DD' string, against which the comparison with a
      Date is never true. */
  predicate UpdateAllowed(b: Batch, delta: int, now: int)
  {
    b.status.Active? && b.expirationDate >= now && b.currentQuantity + delta >= 0
  }

  function UpdatedRow(b: Batch, delta: int): Batch
  {
    var q := b.currentQuantity + delta;
    b.(currentQuantity := q, status := if q == 0 then Depleted else b.status)
  }

  /** `updateBatchQuantity`: checks, in order, a zero delta, a missing
      batch, a status other than ACTIVE, an expiration instant already past,
      and a quantity that would go below zero; otherwise moves the quantity
      by `delta` (DEPLETED at 0) without recording any movement. */
  function UpdateBatchQuantity(st: Store, batchId: string, delta: int, now: int): (o: Outcome<Batch>)
    ensures o.result.Ok? <==>
      delta != 0 && FindById(st.batches, batchId).Some?
      && UpdateAllowed(st.batches[FindById(st.batches, batchId).value], delta, now)
    ensures o.result.Err? ==> o.store == st
    ensures delta == 0 ==> o.result == Err(ZeroDeltaMessage)
    ensures delta != 0 && FindById(st.batches, batchId).None? ==> o.result == Err(NotFoundMessage(batchId))
    ensures o.result.Ok? ==>
      var i := FindById(st.batches, batchId).value;
      var b := st.batches[i];
      var r := o.result.value;
      o.store == st.(batches := st.batches[i := r])
      && r.currentQuantity == b.currentQuantity + delta && r.currentQuantity >= 0
      && (r.currentQuantity == 0 ==> r.status.Depleted?)
      && (r.currentQuantity > 0 ==> r.status.Active?)
      && r == b.(currentQuantity := r.currentQuantity, status := r.status)
  {
    if delta == 0 then Outcome(st, Err(ZeroDeltaMessage))
    else match FindById(st.batches, batchId)
      case None => Outcome(st, Err(NotFoundMessage(batchId)))
      case Some(i) =>
        var b := st.batches[i];
        if !b.status.Active? then Outcome(st, Err(WrongStatusMessage(b.status)))
        else if b.expirationDate < now then Outcome(st, Err(ExpiredUpdateMessage))
        else if b.currentQuantity + delta < 0 then Outcome(st, Err(InsufficientMessage(b.currentQuantity, delta)))
        else
          var r := UpdatedRow(b, delta);
          Outcome(st.(batches := st.batches[i := r]), Ok(r))
  }

  /** Called on its own, `updateBatchQuantity` records no movement, so it
      always breaks the ledger it finds intact. */
  lemma UpdateAloneBreaksLedger(st: Store, batchId: string, delta: int, now: int)
    requires StockInvariant(st)
    requires UpdateBatchQuantity(st, batchId, delta, now).result.Ok?
    ensures !StockInvariant(UpdateBatchQuantity(st, batchId, delta, now).store)
  {
    var i := FindById(st.batches, batchId).value;
    var after := UpdateBatchQuantity(st, batchId, delta, now).store;
    assert after.movements == st.movements;
    assert after.batches[i].id == st.batches[i].id;
    assert !Balanced(after.batches[i], after.movements);
  }

  // ---------------------------------------------------------------------------
  // Expiry and the status refresh
  // ---------------------------------------------------------------------------

  /** The batch's expiration day is today or earlier (both truncated to the
      day). */
  predicate ExpiredBy(b: Batch, now: int)
  {
    StartOfDay(b.expirationDate) <= StartOfDay(now)
  }

  /** `handleExpiredBatchWithStock` on one row: EXPIRED, and any stock
      removed. */
  function ExpiredRow(b: Batch): (r: Batch)
    ensures r.status.Expired?
    ensures b.currentQuantity > 0 ==> r.currentQuantity == 0
    ensures b.currentQuantity <= 0 ==> r.currentQuantity == b.currentQuantity
    ensures r == b.(currentQuantity := r.currentQuantity, status := BatchStatus.Expired)
  {
    b.(currentQuantity := if b.currentQuantity > 0 then 0 else b.currentQuantity, status := BatchStatus.Expired)
  }

  /** The EXPIRED_REMOVAL movement `handleExpiredBatchWithStock` records for
      the stock it removes, none without stock. */
  function ExpiryMovements(b: Batch, now: int): (ms: seq<Movement>)
    ensures forall k :: 0 <= k < |ms| ==> ms[k].batchId == b.id
    ensures ExpiredRow(b).currentQuantity == b.currentQuantity + MovementTotal(ms, b.id)
  {
    MovementTotalSingle(Movement(b.id, ExpiredRemoval, -b.currentQuantity, now), b.id);
    if b.currentQuantity > 0 then [Movement(b.id, ExpiredRemoval, -b.currentQuantity, now)] else []
  }

  /** The row `refreshBatchStatus` leaves: EXPIRED (stock removed) when the
      expiration day has come; otherwise, without stock, MANUAL_OUT kept or
      DEPLETED; with stock, ACTIVE. */
  function RefreshedRow(b: Batch, now: int): (r: Batch)
    ensures r.status.Expired? <==> ExpiredBy(b, now)
    ensures ExpiredBy(b, now) ==> r == ExpiredRow(b)
    ensures !ExpiredBy(b, now) ==>
      r.currentQuantity == b.currentQuantity
      && (r.status.Active? <==> b.currentQuantity > 0)
      && (r.status.ManualOut? <==> b.currentQuantity <= 0 && b.status.ManualOut?)
      && (r.status.Depleted? <==> b.currentQuantity <= 0 && !b.status.ManualOut?)
    ensures r == b.(currentQuantity := r.currentQuantity, status := r.status)
  {
    if ExpiredBy(b, now) then ExpiredRow(b)
    else if b.currentQuantity <= 0 then b.(status := if b.status.ManualOut? then BatchStatus.ManualOut else Depleted)
    else b.(status := BatchStatus.Active)
  }

  function RefreshMovements(b: Batch, now: int): (ms: seq<Movement>)
    ensures forall k :: 0 <= k < |ms| ==> ms[k].batchId == b.id
    ensures RefreshedRow(b, now).currentQuantity == b.currentQuantity + MovementTotal(ms, b.id)
  {
    if ExpiredBy(b, now) then ExpiryMovements(b, now) else []
  }

  /** `refreshBatchStatus`: fails for a missing batch; otherwise writes the
      refreshed row and the expiry movement it may need. */
  function RefreshBatchStatus(st: Store, batchId: string, now: int): (o: Outcome<Batch>)
    ensures o.result.Ok? <==> FindById(st.batches, batchId).Some?
    ensures o.result.Err? ==> o.store == st && o.result.error == NotFoundMessage(batchId)
    ensures o.result.Ok? ==>
      var i := FindById(st.batches, batchId).value;
      o.result.value == RefreshedRow(st.batches[i], now)
      && o.store == st.(batches := st.batches[i := o.result.value],
                        movements := st.movements + RefreshMovements(st.batches[i], now))
  {
    match FindById(st.batches, batchId)
    case None => Outcome(st, Err(NotFoundMessage(batchId)))
    case Some(i) =>
      var b := st.batches[i];
      var r := RefreshedRow(b, now);
      Outcome(st.(batches := st.batches[i := r], movements := st.movements + RefreshMovements(b, now)), Ok(r))
  }

  /** A refreshed row is already up to date: refreshing it again changes
      nothing and records nothing. */
  lemma RefreshedRowStable(b: Batch, now: int)
    ensures RefreshedRow(RefreshedRow(b, now), now) == RefreshedRow(b, now)
    ensures RefreshMovements(RefreshedRow(b, now), now) == []
  {
  }

  /** Refreshing twice is refreshing once. */
  lemma RefreshIdempotent(st: Store, batchId: string, now: int)
    ensures var once := RefreshBatchStatus(st, batchId, now);
      RefreshBatchStatus(once.store, batchId, now) == once
  {
    var once := RefreshBatchStatus(st, batchId, now);
    if once.result.Ok? {
      var i := FindById(st.batches, batchId).value;
      var r := RefreshedRow(st.batches[i], now);
      FoundAgain(st.batches, batchId, r);
      RefreshedRowStable(st.batches[i], now);
      assert once.store.batches[i := r] == once.store.batches;
      assert once.store.movements + [] == once.store.movements;
    }
  }

  /** The refresh keeps the stock invariant. */
  lemma RefreshKeepsInvariant(st: Store, batchId: string, now: int)
    requires StockInvariant(st)
    ensures StockInvariant(RefreshBatchStatus(st, batchId, now).store)
  {
    if FindById(st.batches, batchId).Some? {
      var i := FindById(st.batches, batchId).value;
      InvariantRowStep(st, i, RefreshedRow(st.batches[i], now), RefreshMovements(st.batches[i], now));
    }
  }

  /** `handleExpiredBatchWithStock` on the batch in row `i`. */
  function HandleExpiredBatchWithStock(st: Store, i: nat, now: int): (r: Store)
    requires i < |st.batches|
    ensures |r.batches| == |st.batches|
    ensures r.batches[i].status.Expired?
    ensures st.batches[i].currentQuantity >= 0 ==> r.batches[i].currentQuantity == 0
    ensures forall j :: 0 <= j < |st.batches| && j != i ==> r.batches[j] == st.batches[j]
    ensures Ids(r.batches) == Ids(st.batches)
  {
    var b := st.batches[i];
    var r := st.(batches := st.batches[i := ExpiredRow(b)], movements := st.movements + ExpiryMovements(b, now));
    assert forall k :: 0 <= k < |r.batches| ==> Ids(r.batches)[k] == Ids(st.batches)[k];
    r
  }

  lemma HandleExpiredKeepsInvariant(st: Store, i: nat, now: int)
    requires StockInvariant(st) && i < |st.batches|
    ensures StockInvariant(HandleExpiredBatchWithStock(st, i, now))
  {
    InvariantRowStep(st, i, ExpiredRow(st.batches[i]), ExpiryMovements(st.batches[i], now));
  }

  // ---------------------------------------------------------------------------
  // applyMovement
  // ---------------------------------------------------------------------------

  /** `applyMovement`, in one transaction: rejects a zero delta, a missing
      batch and a quantity that would go below zero; then updates the
      quantity (whose own checks may still fail), records the movement and
      refreshes the status. On any failure nothing is written. */
  function ApplyMovement(st: Store, batchId: string, kind: MovementType, delta: int, now: int): (o: Outcome<Batch>)
    ensures o.result.Ok? <==>
      delta != 0 && FindById(st.batches, batchId).Some?
      && UpdateAllowed(st.batches[FindById(st.batches, batchId).value], delta, now)
    ensures o.result.Err? ==> o.store == st
    ensures delta == 0 ==> o.result == Err(ZeroDeltaMessage)
    ensures delta != 0 && FindById(st.batches, batchId).None? ==> o.result == Err(NotFoundMessage(batchId))
    ensures (delta != 0 && FindById(st.batches, batchId).Some?
             && st.batches[FindById(st.batches, batchId).value].currentQuantity + delta < 0) ==>
      o.result == Err(InsufficientInBatchMessage(batchId, st.batches[FindById(st.batches, batchId).value].currentQuantity, delta))
    ensures o.result.Ok? ==>
      var i := FindById(st.batches, batchId).value;
      var u := UpdatedRow(st.batches[i], delta);
      o.result.value == RefreshedRow(u, now)
      && o.store == st.(batches := st.batches[i := o.result.value],
                        movements := st.movements + [Movement(batchId, kind, delta, now)] + RefreshMovements(u, now))
  {
    if delta == 0 then Outcome(st, Err(ZeroDeltaMessage))
    else match FindById(st.batches, batchId)
      case None => Outcome(st, Err(NotFoundMessage(batchId)))
      case Some(i) =>
        var b := st.batches[i];
        if b.currentQuantity + delta < 0 then
          Outcome(st, Err(InsufficientInBatchMessage(batchId, b.currentQuantity, delta)))
        else
          var updated := UpdateBatchQuantity(st, batchId, delta, now);
          if updated.result.Err? then Outcome(st, Err(updated.result.error))
          else
            var recorded := CreateMovement(updated.store, batchId, kind, delta, now);
            FoundAgain(st.batches, batchId, updated.result.value);
            var refreshed := RefreshBatchStatus(recorded.store, batchId, now);
            if refreshed.result.Err? then Outcome(st, Err(refreshed.result.error))
            else refreshed
  }

  /** Away from its expiration day, a movement moves the batch's quantity by
      exactly its delta and records exactly that movement; on the
      expiration day the refresh then removes the rest of the stock. */
  lemma ApplyMovementMoves(st: Store, batchId: string, kind: MovementType, delta: int, now: int)
    requires ApplyMovement(st, batchId, kind, delta, now).result.Ok?
    ensures var i := FindById(st.batches, batchId).value;
      var o := ApplyMovement(st, batchId, kind, delta, now);
      var b := st.batches[i];
      |o.store.batches| == |st.batches|
      && (forall j :: 0 <= j < |st.batches| && j != i ==> o.store.batches[j] == st.batches[j])
      && o.store.movements[..|st.movements| + 1] == st.movements + [Movement(batchId, kind, delta, now)]
      && o.store.batches[i].currentQuantity >= 0
      && (!ExpiredBy(b, now) ==>
            o.store.batches[i].currentQuantity == b.currentQuantity + delta
            && o.store.movements == st.movements + [Movement(batchId, kind, delta, now)])
      && (ExpiredBy(b, now) ==> o.store.batches[i].currentQuantity == 0 && o.store.batches[i].status.Expired?)
  {
    var i := FindById(st.batches, batchId).value;
    var u := UpdatedRow(st.batches[i], delta);
    var o := ApplyMovement(st, batchId, kind, delta, now);
    assert o.store.movements == (st.movements + [Movement(batchId, kind, delta, now)]) + RefreshMovements(u, now);
  }

  /** Every applied movement keeps the stock invariant. */
  lemma ApplyMovementKeepsInvariant(st: Store, batchId: string, kind: MovementType, delta: int, now: int)
    requires StockInvariant(st)
    ensures StockInvariant(ApplyMovement(st, batchId, kind, delta, now).store)
  {
    var o := ApplyMovement(st, batchId, kind, delta, now);
    if o.result.Ok? {
      var i := FindById(st.batches, batchId).value;
      var b := st.batches[i];
      var u := UpdatedRow(b, delta);
      var added := [Movement(batchId, kind, delta, now)] + RefreshMovements(u, now);
      MovementTotalAppend([Movement(batchId, kind, delta, now)], RefreshMovements(u, now), batchId);
      MovementTotalSingle(Movement(batchId, kind, delta, now), batchId);
      assert st.movements + [Movement(batchId, kind, delta, now)] + RefreshMovements(u, now) == st.movements + added;
      InvariantRowStep(st, i, RefreshedRow(u, now), added);
    }
  }

  /** A movement that takes a batch's whole stock (from a row found by its
      id, ACTIVE and not past its expiration instant) leaves it at 0 with one
      movement recorded and no expiry movement. */
  lemma ApplyDrains(st: Store, batchId: string, kind: MovementType, now: int)
    requires FindById(st.batches, batchId).Some?
    requires var b := st.batches[FindById(st.batches, batchId).value];
      b.currentQuantity > 0 && b.status.Active? && b.expirationDate >= now
    ensures var i := FindById(st.batches, batchId).value;
      var q := st.batches[i].currentQuantity;
      var o := ApplyMovement(st, batchId, kind, -q, now);
      o.result.Ok?
      && o.store.movements == st.movements + [Movement(batchId, kind, -q, now)]
      && |o.store.batches| == |st.batches|
      && o.store.batches[i].currentQuantity == 0
      && o.store.batches == st.batches[i := o.store.batches[i]]
  {
    var i := FindById(st.batches, batchId).value;
    var q := st.batches[i].currentQuantity;
    var u := UpdatedRow(st.batches[i], -q);
    assert RefreshMovements(u, now) == [];
    assert st.movements + [Movement(batchId, kind, -q, now)] + [] == st.movements + [Movement(batchId, kind, -q, now)];
  }

  /** Draining a batch and then saving row `i` as `w`: the store gets `w`
      in that row and the draining movement, nothing else. */
  lemma DrainThenSave(st: Store, i: nat, batchId: string, kind: MovementType, q: int, now: int, w: Batch)
    requires FindById(st.batches, batchId) == Some(i) && q == st.batches[i].currentQuantity
    requires q > 0 && st.batches[i].status.Active? && st.batches[i].expirationDate >= now
    ensures var o := ApplyMovement(st, batchId, kind, -q, now);
      o.result.Ok?
      && o.store.(batches := o.store.batches[i := w])
         == st.(batches := st.batches[i := w], movements := st.movements + [Movement(batchId, kind, -q, now)])
  {
    ApplyDrains(st, batchId, kind, now);
    var o := ApplyMovement(st, batchId, kind, -q, now);
    assert o.store.batches[i := w] == st.batches[i := w];
  }

  // ---------------------------------------------------------------------------
  // createBatch
  // ---------------------------------------------------------------------------

  const NonPositiveInitialMessage: string := "initialQuantity must be greater than 0"
  const FutureProductionMessage: string := "productionDate must be a valid date not in the future"

  /** The batch `createBatch` stores: dated on its production day, expiring
      `durationDays` days later, with its whole initial quantity, ACTIVE and
      nothing reserved. */
  function NewBatch(id: string, productId: string, productionDate: int, durationDays: int, initialQuantity: int, now: int): (b: Batch)
    ensures b.productionDate == StartOfDay(productionDate)
    ensures b.expirationDate == b.productionDate + durationDays * MinutesPerDay
    ensures b.initialQuantity == initialQuantity && b.currentQuantity == initialQuantity
    ensures b.reservedQuantity == 0 && b.status.Active?
  {
    var day := StartOfDay(productionDate);
    Batch(id, productId, day, day + durationDays * MinutesPerDay, initialQuantity, initialQuantity, 0, BatchStatus.Active, now)
  }

  /** `createBatch`: rejects a non-positive initial quantity, a production
      date in the future and a missing product, in that order; then stores
      the batch under the next id of its production day and records its
      initial stock as a RESTOCK movement. */
  function CreateBatch(st: Store, productId: string, initialQuantity: int, productionDate: int, now: int): (o: Outcome<Batch>)
    ensures o.result.Ok? <==>
      initialQuantity > 0 && productionDate <= now && ProductService.FindById(st.products, productId).Some?
    ensures o.result.Err? ==> o.store == st
    ensures initialQuantity <= 0 ==> o.result == Err(NonPositiveInitialMessage)
    ensures initialQuantity > 0 && productionDate > now ==> o.result == Err(FutureProductionMessage)
    ensures o.result.Ok? ==>
      var p := st.products[ProductService.FindById(st.products, productId).value];
      var b := o.result.value;
      b == NewBatch(b.id, productId, productionDate, p.durationDays, initialQuantity, now)
      && b.id == NextBatchId(Ids(st.batches), IsoDateStamp(productionDate))
      && o.store == st.(batches := SaveBatch(st.batches, b),
                        movements := st.movements + [Movement(b.id, Restock, initialQuantity, now)])
  {
    if initialQuantity <= 0 then Outcome(st, Err(NonPositiveInitialMessage))
    else if productionDate > now then Outcome(st, Err(FutureProductionMessage))
    else match ProductService.FindById(st.products, productId)
      case None => Outcome(st, Err(ProductService.NotFoundMessage(productId)))
      case Some(k) =>
        var id := NextBatchId(Ids(st.batches), IsoDateStamp(productionDate));
        var b := NewBatch(id, productId, productionDate, st.products[k].durationDays, initialQuantity, now);
        var saved := st.(batches := SaveBatch(st.batches, b));
        var recorded := CreateMovement(saved, id, Restock, initialQuantity, now);
        Outcome(recorded.store, Ok(b))
  }

  /** Creating a batch under an id not yet taken keeps the stock
      invariant: no earlier movement counts towards the new row, and its one
      movement is its initial quantity. */
  lemma CreateBatchKeepsInvariant(st: Store, productId: string, initialQuantity: int, productionDate: int, now: int)
    requires StockInvariant(st)
    requires NextBatchId(Ids(st.batches), IsoDateStamp(productionDate)) !in Ids(st.batches)
    ensures StockInvariant(CreateBatch(st, productId, initialQuantity, productionDate, now).store)
  {
    var o := CreateBatch(st, productId, initialQuantity, productionDate, now);
    if o.result.Ok? {
      InvariantNewRow(st, o.result.value, Movement(o.result.value.id, Restock, initialQuantity, now));
    }
  }

  /** When the next id is already taken (see `NextBatchIdRepeats`), the
      new batch overwrites the batch stored under it: the table does not
      grow and the earlier batch's row is gone. */
  lemma CreateBatchOverwrites(st: Store, productId: string, initialQuantity: int, productionDate: int, now: int)
    requires NextBatchId(Ids(st.batches), IsoDateStamp(productionDate)) in Ids(st.batches)
    ensures var o := CreateBatch(st, productId, initialQuantity, productionDate, now);
      o.result.Ok? ==>
        |o.store.batches| == |st.batches|
        && exists i :: 0 <= i < |st.batches| && st.batches[i].id == o.result.value.id && o.store.batches[i] == o.result.value
  {
  }

  /** A new batch under a new id whose one movement is its quantity. */
  lemma InvariantNewRow(st: Store, b: Batch, m: Movement)
    requires StockInvariant(st)
    requires b.id !in Ids(st.batches) && m.batchId == b.id && b.currentQuantity == m.delta >= 0
    ensures StockInvariant(st.(batches := st.batches + [b], movements := st.movements + [m]))
  {
    var bs := st.batches + [b];
    var ms := st.movements + [m];
    var n := |st.batches|;
    assert Ids(bs) == Ids(st.batches) + [b.id] by {
      assert forall k :: 0 <= k < n ==> Ids(bs)[k] == Ids(st.batches)[k];
    }
    assert UniqueIds(bs) by {
      forall i, j | 0 <= i < j < |bs| ensures bs[i].id != bs[j].id {
        if j == n {
          assert Ids(st.batches)[i] == bs[i].id;
        }
      }
    }
    assert forall k :: 0 <= k < |ms| ==> ms[k].batchId in Ids(bs) by {
      forall k | 0 <= k < |ms| ensures ms[k].batchId in Ids(bs) {
        if k < |st.movements| {
          assert ms[k] == st.movements[k];
        }
      }
    }
    forall j | 0 <= j < |bs| ensures Balanced(bs[j], ms) {
      NewRowBalanced(st, b, m, j);
    }
  }

  lemma NewRowBalanced(st: Store, b: Batch, m: Movement, j: nat)
    requires StockInvariant(st)
    requires b.id !in Ids(st.batches) && m.batchId == b.id && b.currentQuantity == m.delta
    requires j <= |st.batches|
    ensures Balanced((st.batches + [b])[j], st.movements + [m])
  {
    MovementTotalAppend(st.movements, [m], (st.batches + [b])[j].id);
    if j == |st.batches| {
      MovementTotalSingle(m, b.id);
      MovementTotalOther(st.movements, b.id);
    } else {
      assert (st.batches + [b])[j] == st.batches[j];
      assert Ids(st.batches)[j] == st.batches[j].id;
      MovementTotalSingle(m, st.batches[j].id);
    }
  }

  // ---------------------------------------------------------------------------
  // markBatchAsDepleted, markProductAsOutOfStock, deleteBatch
  // ---------------------------------------------------------------------------

  const AlreadyDepletedMessage: string := "Batch is already depleted"

  /** `markBatchAsDepleted`: fails for a missing batch or one without stock;
      otherwise, in one transaction, takes the whole stock out with a
      MANUAL_OUT movement and saves the batch at 0 as DEPLETED. */
  function MarkBatchAsDepleted(st: Store, batchId: string, now: int): (o: Outcome<Batch>)
    ensures o.result.Err? ==> o.store == st
    ensures o.result.Ok? <==>
      FindById(st.batches, batchId).Some?
      && var b := st.batches[FindById(st.batches, batchId).value];
      b.currentQuantity > 0 && b.status.Active? && b.expirationDate >= now
    ensures FindById(st.batches, batchId).Some? && st.batches[FindById(st.batches, batchId).value].currentQuantity <= 0 ==>
      o.result == Err(AlreadyDepletedMessage)
    ensures o.result.Ok? ==>
      var i := FindById(st.batches, batchId).value;
      var b := st.batches[i];
      o.result.value == b.(currentQuantity := 0, status := Depleted)
      && o.store == DepletedStore(st, i, now)
  {
    match FindById(st.batches, batchId)
    case None => Outcome(st, Err(NotFoundMessage(batchId)))
    case Some(i) =>
      var b := st.batches[i];
      if b.currentQuantity <= 0 then Outcome(st, Err(AlreadyDepletedMessage))
      else
        var applied := ApplyMovement(st, batchId, MovementType.ManualOut, -b.currentQuantity, now);
        if applied.result.Err? then Outcome(st, Err(applied.result.error))
        else
          var d := b.(currentQuantity := 0, status := Depleted);
          DrainThenSave(st, i, batchId, MovementType.ManualOut, b.currentQuantity, now, d);
          Outcome(applied.store.(batches := applied.store.batches[i := d]), Ok(d))
  }

  lemma MarkBatchAsDepletedKeepsInvariant(st: Store, batchId: string, now: int)
    requires StockInvariant(st)
    ensures StockInvariant(MarkBatchAsDepleted(st, batchId, now).store)
  {
    var o := MarkBatchAsDepleted(st, batchId, now);
    if o.result.Ok? {
      var i := FindById(st.batches, batchId).value;
      DepletedKeepsInvariant(st, i, now);
    }
  }

  /** The store after depleting the batch in row `i`: the row at 0 as
      DEPLETED, and a MANUAL_OUT movement of its whole stock. */
  function DepletedStore(st: Store, i: nat, now: int): Store
    requires i < |st.batches|
  {
    var b := st.batches[i];
    st.(batches := st.batches[i := b.(currentQuantity := 0, status := Depleted)],
        movements := st.movements + [Movement(b.id, MovementType.ManualOut, -b.currentQuantity, now)])
  }

  lemma DepletedKeepsInvariant(st: Store, i: nat, now: int)
    requires StockInvariant(st) && i < |st.batches|
    ensures StockInvariant(DepletedStore(st, i, now))
  {
    var b := st.batches[i];
    var m := Movement(b.id, MovementType.ManualOut, -b.currentQuantity, now);
    MovementTotalSingle(m, b.id);
    InvariantRowStep(st, i, b.(currentQuantity := 0, status := Depleted), [m]);
  }

  /** A batch `markProductAsOutOfStock` withdraws: the product's, not
      deleted, ACTIVE and with stock. */
  predicate OutOfStockTarget(b: Batch, productId: string)
  {
    b.productId == productId && b.status.Active? && b.currentQuantity > 0
  }

  /** The row withdrawn: no stock, MANUAL_OUT. */
  function WithdrawnRow(b: Batch, productId: string): Batch
  {
    if OutOfStockTarget(b, productId) then b.(currentQuantity := 0, status := BatchStatus.ManualOut) else b
  }

  /** Withdraws the target batches from row `k` on: each gets a MANUAL_OUT
      movement of its whole stock and is saved at 0 as MANUAL_OUT; the first
      failure stops the walk. */
  function OutOfStockFrom(st: Store, productId: string, k: nat, now: int): (o: Outcome<()>)
    ensures |o.store.batches| == |st.batches|
    decreases |st.batches| - k
  {
    if k >= |st.batches| then Outcome(st, Ok(()))
    else
      var b := st.batches[k];
      if !OutOfStockTarget(b, productId) then OutOfStockFrom(st, productId, k + 1, now)
      else
        var applied := ApplyMovement(st, b.id, MovementType.ManualOut, -b.currentQuantity, now);
        if applied.result.Err? then Outcome(st, Err(applied.result.error))
        else
          var i := FindById(st.batches, b.id).value;
          var saved := applied.store.(batches := applied.store.batches[i := b.(currentQuantity := 0, status := BatchStatus.ManualOut)]);
          OutOfStockFrom(saved, productId, k + 1, now)
  }

  /** Every target batch at or after row `k` can take the withdrawal. */
  predicate Withdrawable(bs: seq<Batch>, productId: string, k: nat, now: int)
  {
    forall j :: k <= j < |bs| && OutOfStockTarget(bs[j], productId) ==> bs[j].expirationDate >= now
  }

  /** `markProductAsOutOfStock`: with no target batch nothing happens;
      otherwise all of them are withdrawn in one transaction (the recorded
      movements follow table order). */
  function MarkProductAsOutOfStock(st: Store, productId: string, now: int): (o: Outcome<()>)
    ensures o.result.Err? ==> o.store == st
    ensures (forall j :: 0 <= j < |st.batches| ==> !OutOfStockTarget(st.batches[j], productId)) ==> o == Outcome(st, Ok(()))
  {
    if forall j :: 0 <= j < |st.batches| ==> !OutOfStockTarget(st.batches[j], productId) then Outcome(st, Ok(()))
    else
      var walked := OutOfStockFrom(st, productId, 0, now);
      if walked.result.Err? then Outcome(st, walked.result) else walked
  }

  /** The store after withdrawing the batch in row `k`. */
  function Withdrawn(st: Store, productId: string, k: nat, now: int): Store
    requires k < |st.batches|
  {
    var b := st.batches[k];
    st.(batches := st.batches[k := WithdrawnRow(b, productId)],
        movements := st.movements + [Movement(b.id, MovementType.ManualOut, -b.currentQuantity, now)])
  }

  /** One withdrawal step on a store that keeps the invariant. */
  lemma WithdrawStep(st: Store, productId: string, k: nat, now: int)
    requires StockInvariant(st) && k < |st.batches|
    requires OutOfStockTarget(st.batches[k], productId) && st.batches[k].expirationDate >= now
    ensures OutOfStockFrom(st, productId, k, now) == OutOfStockFrom(Withdrawn(st, productId, k, now), productId, k + 1, now)
    ensures StockInvariant(Withdrawn(st, productId, k, now))
  {
    WithdrawUnfolds(st, productId, k, now);
    WithdrawKeepsInvariant(st, productId, k, now);
  }

  /** The walk at a target it can withdraw goes on from the withdrawn
      store. */
  lemma WithdrawUnfolds(st: Store, productId: string, k: nat, now: int)
    requires UniqueIds(st.batches) && k < |st.batches|
    requires OutOfStockTarget(st.batches[k], productId) && st.batches[k].expirationDate >= now
    ensures OutOfStockFrom(st, productId, k, now) == OutOfStockFrom(Withdrawn(st, productId, k, now), productId, k + 1, now)
  {
    var b := st.batches[k];
    FoundAt(st.batches, k);
    DrainThenSave(st, k, b.id, MovementType.ManualOut, b.currentQuantity, now, WithdrawnRow(b, productId));
  }

  /** The withdrawn store keeps the invariant. */
  lemma WithdrawKeepsInvariant(st: Store, productId: string, k: nat, now: int)
    requires StockInvariant(st) && k < |st.batches|
    requires OutOfStockTarget(st.batches[k], productId)
    ensures StockInvariant(Withdrawn(st, productId, k, now))
  {
    var b := st.batches[k];
    var m := Movement(b.id, MovementType.ManualOut, -b.currentQuantity, now);
    MovementTotalSingle(m, b.id);
    InvariantRowStep(st, k, WithdrawnRow(b, productId), [m]);
  }

  /** A target batch past its expiration instant stops the walk. */
  lemma WithdrawFails(st: Store, productId: string, k: nat, now: int)
    requires StockInvariant(st) && k < |st.batches|
    requires OutOfStockTarget(st.batches[k], productId) && st.batches[k].expirationDate < now
    ensures OutOfStockFrom(st, productId, k, now).result.Err?
  {
    FoundAt(st.batches, k);
  }

  /** The walk from row `k` on a store that keeps the invariant succeeds
      exactly when every remaining target can be withdrawn. */
  lemma {:induction false} OutOfStockFromSucceeds(st: Store, productId: string, k: nat, now: int)
    requires StockInvariant(st) && k <= |st.batches|
    ensures OutOfStockFrom(st, productId, k, now).result.Ok? <==> Withdrawable(st.batches, productId, k, now)
    decreases |st.batches| - k
  {
    if k < |st.batches| {
      var b := st.batches[k];
      if !OutOfStockTarget(b, productId) {
        OutOfStockFromSucceeds(st, productId, k + 1, now);
      } else if b.expirationDate < now {
        WithdrawFails(st, productId, k, now);
      } else {
        WithdrawStep(st, productId, k, now);
        var saved := Withdrawn(st, productId, k, now);
        OutOfStockFromSucceeds(saved, productId, k + 1, now);
        WithdrawableAfter(st.batches, saved.batches, productId, k, now);
      }
    }
  }

  /** Once row `k` is replaced, whether the rest can be withdrawn is
      decided by the rows after it. */
  lemma WithdrawableAfter(bs: seq<Batch>, nb: seq<Batch>, productId: string, k: nat, now: int)
    requires k < |bs| && |nb| == |bs| && forall j :: k < j < |bs| ==> nb[j] == bs[j]
    requires OutOfStockTarget(bs[k], productId) && bs[k].expirationDate >= now
    ensures Withdrawable(nb, productId, k + 1, now) <==> Withdrawable(bs, productId, k, now)
  {
    if Withdrawable(nb, productId, k + 1, now) {
      forall j | k <= j < |bs| && OutOfStockTarget(bs[j], productId) ensures bs[j].expirationDate >= now {
        if j > k { assert nb[j] == bs[j]; }
      }
    }
  }

  /** A successful walk keeps the invariant. */
  lemma {:induction false} OutOfStockFromKeepsInvariant(st: Store, productId: string, k: nat, now: int)
    requires StockInvariant(st) && k <= |st.batches|
    ensures var o := OutOfStockFrom(st, productId, k, now);
      o.result.Ok? ==> StockInvariant(o.store)
    decreases |st.batches| - k
  {
    if k < |st.batches| {
      var b := st.batches[k];
      if !OutOfStockTarget(b, productId) {
        OutOfStockFromKeepsInvariant(st, productId, k + 1, now);
      } else if b.expirationDate < now {
        WithdrawFails(st, productId, k, now);
      } else {
        WithdrawStep(st, productId, k, now);
        var saved := Withdrawn(st, productId, k, now);
        OutOfStockFromKeepsInvariant(saved, productId, k + 1, now);
      }
    }
  }

  /** The rows a successful walk from row `k` leaves: earlier rows alone,
      later rows withdrawn. */
  predicate WithdrawnFrom(before: seq<Batch>, after: seq<Batch>, productId: string, k: nat)
  {
    |after| == |before|
    && forall j :: 0 <= j < |before| ==>
         after[j] == if j < k then before[j] else WithdrawnRow(before[j], productId)
  }

  lemma WithdrawnFromStep(before: seq<Batch>, productId: string, k: nat, after: seq<Batch>)
    requires k < |before|
    requires WithdrawnFrom(before[k := WithdrawnRow(before[k], productId)], after, productId, k + 1)
    ensures WithdrawnFrom(before, after, productId, k)
  {
    var mid := before[k := WithdrawnRow(before[k], productId)];
    forall j | 0 <= j < |before|
      ensures after[j] == if j < k then before[j] else WithdrawnRow(before[j], productId)
    {
      if j != k {
        assert mid[j] == before[j];
      }
    }
  }

  lemma WithdrawnFromSkip(before: seq<Batch>, productId: string, k: nat, after: seq<Batch>)
    requires k < |before| && !OutOfStockTarget(before[k], productId)
    requires WithdrawnFrom(before, after, productId, k + 1)
    ensures WithdrawnFrom(before, after, productId, k)
  {
  }

  /** A successful walk from row `k` leaves rows before `k` alone and
      withdraws every later row. */
  lemma {:induction false} OutOfStockFromEffect(st: Store, productId: string, k: nat, now: int)
    requires StockInvariant(st) && k <= |st.batches|
    ensures var o := OutOfStockFrom(st, productId, k, now);
      o.result.Ok? ==> WithdrawnFrom(st.batches, o.store.batches, productId, k)
    decreases |st.batches| - k
  {
    if k < |st.batches| {
      var b := st.batches[k];
      if !OutOfStockTarget(b, productId) {
        OutOfStockFromEffect(st, productId, k + 1, now);
        var o := OutOfStockFrom(st, productId, k + 1, now);
        if o.result.Ok? {
          WithdrawnFromSkip(st.batches, productId, k, o.store.batches);
        }
      } else if b.expirationDate < now {
        WithdrawFails(st, productId, k, now);
      } else {
        WithdrawStep(st, productId, k, now);
        var saved := Withdrawn(st, productId, k, now);
        OutOfStockFromEffect(saved, productId, k + 1, now);
        var o := OutOfStockFrom(saved, productId, k + 1, now);
        if o.result.Ok? {
          WithdrawnFromStep(st.batches, productId, k, o.store.batches);
        }
      }
    }
  }

  /** `markProductAsOutOfStock` on a store that keeps the invariant:
      succeeds exactly when no target batch is past its expiration instant,
      and then leaves every target batch at 0 as MANUAL_OUT and every other
      batch as it was, keeping the invariant. */
  lemma MarkProductAsOutOfStockEffect(st: Store, productId: string, now: int)
    requires StockInvariant(st)
    ensures var o := MarkProductAsOutOfStock(st, productId, now);
      (o.result.Ok? <==> Withdrawable(st.batches, productId, 0, now))
      && StockInvariant(o.store)
      && |o.store.batches| == |st.batches|
      && (o.result.Ok? ==> forall j :: 0 <= j < |st.batches| ==> o.store.batches[j] == WithdrawnRow(st.batches[j], productId))
  {
    OutOfStockFromSucceeds(st, productId, 0, now);
    OutOfStockFromKeepsInvariant(st, productId, 0, now);
    OutOfStockFromEffect(st, productId, 0, now);
  }

  const DeleteStatusMessage: string := "Batch can only be deleted if DEPLETED or EXPIRED"

  /** `deleteBatch`: only a DEPLETED or EXPIRED batch, which becomes
      DELETED and is no longer found. */
  function DeleteBatch(st: Store, batchId: string): (o: Outcome<()>)
    ensures o.result.Ok? <==>
      FindById(st.batches, batchId).Some?
      && var s := st.batches[FindById(st.batches, batchId).value].status; s.Depleted? || s.Expired?
    ensures o.result.Err? ==> o.store == st
    ensures o.result.Ok? ==>
      var i := FindById(st.batches, batchId).value;
      o.store == st.(batches := st.batches[i := st.batches[i].(status := Deleted)])
  {
    match FindById(st.batches, batchId)
    case None => Outcome(st, Err(NotFoundMessage(batchId)))
    case Some(i) =>
      var b := st.batches[i];
      if !b.status.Depleted? && !b.status.Expired? then Outcome(st, Err(DeleteStatusMessage))
      else Outcome(st.(batches := st.batches[i := b.(status := Deleted)]), Ok(()))
  }

  /** A deleted batch is gone for every later lookup (with unique ids), and
      deletion keeps the invariant. */
  lemma DeleteBatchEffect(st: Store, batchId: string)
    requires StockInvariant(st)
    ensures StockInvariant(DeleteBatch(st, batchId).store)
    ensures DeleteBatch(st, batchId).result.Ok? ==> FindById(DeleteBatch(st, batchId).store.batches, batchId).None?
  {
    var o := DeleteBatch(st, batchId);
    if o.result.Ok? {
      var i := FindById(st.batches, batchId).value;
      InvariantStatusStep(st, i, st.batches[i].(status := Deleted));
    }
  }

  // ---------------------------------------------------------------------------
  // expireBatchesJob
  // ---------------------------------------------------------------------------

  /** `getBatchesNeedingExpiration`'s condition. */
  predicate NeedsExpiration(b: Batch, now: int)
  {
    b.status.Active? && b.currentQuantity >= 0 && b.expirationDate < StartOfDay(now)
  }

  function ExpiryDue(now: int): Batch -> bool
  {
    (b: Batch) => NeedsExpiration(b, now)
  }

  /** Handles the batches needing expiration from row `k` on, counting
      them. */
  function ExpireFrom(st: Store, k: nat, now: int): (r: (Store, nat))
    ensures |r.0.batches| == |st.batches|
    decreases |st.batches| - k
  {
    if k >= |st.batches| then (st, 0)
    else if NeedsExpiration(st.batches[k], now) then
      var next := ExpireFrom(HandleExpiredBatchWithStock(st, k, now), k + 1, now);
      (next.0, next.1 + 1)
    else ExpireFrom(st, k + 1, now)
  }

  /** `expireBatchesJob`: expires every batch needing it and returns how
      many it handled. */
  function ExpireBatchesJob(st: Store, now: int): (r: (Store, nat))
    ensures |r.0.batches| == |st.batches|
  {
    ExpireFrom(st, 0, now)
  }

  /** The job counts the batches needing expiration. */
  lemma {:induction false} ExpireFromCount(st: Store, k: nat, now: int)
    requires k <= |st.batches|
    ensures ExpireFrom(st, k, now).1 == Count(st.batches[k..], ExpiryDue(now))
    decreases |st.batches| - k
  {
    if k < |st.batches| {
      var rest := st.batches[k..];
      CountFront(rest, ExpiryDue(now));
      assert rest[0] == st.batches[k] && rest[1..] == st.batches[k + 1..];
      if NeedsExpiration(st.batches[k], now) {
        var h := HandleExpiredBatchWithStock(st, k, now);
        ExpireFromCount(h, k + 1, now);
        HandledTail(st, k, now);
      } else {
        ExpireFromCount(st, k + 1, now);
      }
    }
  }

  lemma HandledTail(st: Store, k: nat, now: int)
    requires k < |st.batches|
    ensures HandleExpiredBatchWithStock(st, k, now).batches[k + 1..] == st.batches[k + 1..]
  {
  }

  /** The job keeps the invariant. */
  lemma {:induction false} ExpireFromKeepsInvariant(st: Store, k: nat, now: int)
    requires StockInvariant(st) && k <= |st.batches|
    ensures StockInvariant(ExpireFrom(st, k, now).0)
    decreases |st.batches| - k
  {
    if k < |st.batches| {
      if NeedsExpiration(st.batches[k], now) {
        HandleExpiredKeepsInvariant(st, k, now);
        ExpireFromKeepsInvariant(HandleExpiredBatchWithStock(st, k, now), k + 1, now);
      } else {
        ExpireFromKeepsInvariant(st, k + 1, now);
      }
    }
  }

  /** The job leaves each batch needing expiration EXPIRED at 0 and every
      other batch as it was. */
  lemma {:induction false} ExpireFromRows(st: Store, k: nat, now: int)
    requires k <= |st.batches|
    ensures var r := ExpireFrom(st, k, now);
      forall j :: 0 <= j < |st.batches| ==>
           r.0.batches[j] == if j >= k && NeedsExpiration(st.batches[j], now)
                             then st.batches[j].(currentQuantity := 0, status := BatchStatus.Expired)
                             else st.batches[j]
    decreases |st.batches| - k
  {
    if k < |st.batches| {
      if NeedsExpiration(st.batches[k], now) {
        var h := HandleExpiredBatchWithStock(st, k, now);
        ExpireFromRows(h, k + 1, now);
        assert h.batches[k] == ExpiredRow(st.batches[k]);
        ExpireRowsStep(st.batches, h.batches, ExpireFrom(h, k + 1, now).0.batches, k, now);
      } else {
        ExpireFromRows(st, k + 1, now);
        ExpireRowsStep(st.batches, st.batches, ExpireFrom(st, k + 1, now).0.batches, k, now);
      }
    }
  }

  /** Row `k` handled, then the rows after it: every row from `k` on that
      needs expiration is expired, every other row is as it was. */
  lemma ExpireRowsStep(bs: seq<Batch>, hs: seq<Batch>, rs: seq<Batch>, k: nat, now: int)
    requires k < |bs| && |hs| == |bs| && |rs| == |bs|
    requires NeedsExpiration(bs[k], now) ==> hs[k] == ExpiredRow(bs[k])
    requires !NeedsExpiration(bs[k], now) ==> hs[k] == bs[k]
    requires forall j :: 0 <= j < |bs| && j != k ==> hs[j] == bs[j]
    requires forall j :: 0 <= j < |hs| ==>
      rs[j] == if j >= k + 1 && NeedsExpiration(hs[j], now)
               then hs[j].(currentQuantity := 0, status := BatchStatus.Expired)
               else hs[j]
    ensures forall j :: 0 <= j < |bs| ==>
      rs[j] == if j >= k && NeedsExpiration(bs[j], now)
               then bs[j].(currentQuantity := 0, status := BatchStatus.Expired)
               else bs[j]
  {
    forall j | 0 <= j < |bs|
      ensures rs[j] == if j >= k && NeedsExpiration(bs[j], now)
                       then bs[j].(currentQuantity := 0, status := BatchStatus.Expired)
                       else bs[j]
    {
      if j != k {
        assert hs[j] == bs[j];
      }
    }
  }

  lemma ExpireBatchesJobEffect(st: Store, now: int)
    requires StockInvariant(st)
    ensures var r := ExpireBatchesJob(st, now);
      StockInvariant(r.0)
      && r.1 == Count(st.batches, ExpiryDue(now))
      && forall j :: 0 <= j < |st.batches| ==>
           r.0.batches[j] == if NeedsExpiration(st.batches[j], now) then st.batches[j].(currentQuantity := 0, status := BatchStatus.Expired) else st.batches[j]
  {
    ExpireFromCount(st, 0, now);
    ExpireFromKeepsInvariant(st, 0, now);
    ExpireFromRows(st, 0, now);
    assert st.batches[0..] == st.batches;
  }
}
