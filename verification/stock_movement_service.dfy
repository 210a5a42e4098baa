/**
 * The stock-movement service (apps/commerce/src/services/stockmovement.service.ts):
 * manual adjustments, restocking, first-expired-first-out consumption,
 * expired removal, the movement summaries and the integrity check.
 * `createMovement` and `applyMovement` sit with the batch service, which
 * they call into and which calls them.
 */
module StockMovementService {
  import opened Common
  import opened Tables
  import opened Sorting
  import opened JsText
  import opened CommerceModel
  import opened BatchRepository
  import opened BatchService

  // ---------------------------------------------------------------------------
  // adjustStock and restockBatch
  // ---------------------------------------------------------------------------

  const AdjustZeroMessage: string := "Delta cannot be zero for adjustment"

  /** `adjustStock`: an ADJUSTMENT movement of `delta` through
      `applyMovement`. */
  function AdjustStock(st: Store, batchId: string, delta: int, now: int): (o: Outcome<Batch>)
    ensures delta == 0 ==> o == Outcome(st, Err(AdjustZeroMessage))
    ensures o.result.Ok? <==>
      delta != 0 && FindById(st.batches, batchId).Some?
      && UpdateAllowed(st.batches[FindById(st.batches, batchId).value], delta, now)
    ensures o.result.Err? ==> o.store == st
    ensures o.result.Ok? ==>
      |o.store.movements| > |st.movements|
      && o.store.movements[|st.movements|] == Movement(batchId, MovementType.Adjustment, delta, now)
  {
    if delta == 0 then Outcome(st, Err(AdjustZeroMessage))
    else ApplyMovement(st, batchId, MovementType.Adjustment, delta, now)
  }

  lemma AdjustStockKeepsInvariant(st: Store, batchId: string, delta: int, now: int)
    requires StockInvariant(st)
    ensures StockInvariant(AdjustStock(st, batchId, delta, now).store)
  {
    ApplyMovementKeepsInvariant(st, batchId, MovementType.Adjustment, delta, now);
  }

  const RestockQuantityMessage: string := "Restock quantity must be greater than 0"
  const RestockExpiredMessage: string := "Cannot restock expired batch"

  /** `restockBatch`: refuses a quantity that is not positive, a missing
      batch and a batch whose expiration day is before today; otherwise a
      RESTOCK movement of `quantity` through `applyMovement`. */
  function RestockBatch(st: Store, batchId: string, quantity: int, now: int): (o: Outcome<Batch>)
    ensures quantity <= 0 ==> o == Outcome(st, Err(RestockQuantityMessage))
    ensures quantity > 0 && FindById(st.batches, batchId).None? ==> o == Outcome(st, Err(NotFoundMessage(batchId)))
    ensures (quantity > 0 && FindById(st.batches, batchId).Some?
             && StartOfDay(st.batches[FindById(st.batches, batchId).value].expirationDate) < StartOfDay(now)) ==>
      o == Outcome(st, Err(RestockExpiredMessage))
    ensures o.result.Err? ==> o.store == st
    ensures o.result.Ok? <==>
      quantity > 0 && FindById(st.batches, batchId).Some?
      && UpdateAllowed(st.batches[FindById(st.batches, batchId).value], quantity, now)
    ensures o.result.Ok? ==>
      |o.store.movements| > |st.movements|
      && o.store.movements[|st.movements|] == Movement(batchId, MovementType.Restock, quantity, now)
  {
    if quantity <= 0 then Outcome(st, Err(RestockQuantityMessage))
    else match FindById(st.batches, batchId)
      case None => Outcome(st, Err(NotFoundMessage(batchId)))
      case Some(i) =>
        if StartOfDay(st.batches[i].expirationDate) < StartOfDay(now) then Outcome(st, Err(RestockExpiredMessage))
        else ApplyMovement(st, batchId, MovementType.Restock, quantity, now)
  }

  /** A batch whose expiration instant passed earlier today gets through
      the day-truncated check of the restock and is then refused by the
      instant check of the quantity update. */
  lemma RestockEarlierToday(st: Store, batchId: string, quantity: int, now: int)
    requires quantity > 0 && FindById(st.batches, batchId).Some?
    requires var b := st.batches[FindById(st.batches, batchId).value];
      b.status.Active? && b.currentQuantity >= 0
      && StartOfDay(b.expirationDate) == StartOfDay(now) && b.expirationDate < now
    ensures RestockBatch(st, batchId, quantity, now) == Outcome(st, Err(ExpiredUpdateMessage))
  {
    assert UpdateBatchQuantity(st, batchId, quantity, now).result == Err(ExpiredUpdateMessage);
    assert ApplyMovement(st, batchId, MovementType.Restock, quantity, now) == Outcome(st, Err(ExpiredUpdateMessage));
  }

  lemma RestockKeepsInvariant(st: Store, batchId: string, quantity: int, now: int)
    requires StockInvariant(st)
    ensures StockInvariant(RestockBatch(st, batchId, quantity, now).store)
  {
    ApplyMovementKeepsInvariant(st, batchId, MovementType.Restock, quantity, now);
  }

  // ---------------------------------------------------------------------------
  // consumeStockFEFO
  // ---------------------------------------------------------------------------

  /** One line of the consumption report. */
  datatype BatchConsumed = BatchConsumed(batchId: string, consumed: int, remaining: int, status: BatchStatus)

  /** What the consumption loop leaves: the quantity still missing, the
      SALE movements and the report lines, one per batch touched. */
  datatype Consumption = Consumption(remaining: int, movements: seq<Movement>, entries: seq<BatchConsumed>)

  datatype ConsumeResult = ConsumeResult(
    success: bool, consumedQuantity: int, remainingQuantity: int,
    movements: seq<Movement>, batchesConsumed: seq<BatchConsumed>)

  function ConsumedOf(e: BatchConsumed): int
  {
    e.consumed
  }

  /** The consumption report is well formed: each line took something and
      its movement is the SALE of exactly that. */
  predicate Accounted(movements: seq<Movement>, entries: seq<BatchConsumed>, now: int)
  {
    |movements| == |entries|
    && forall k :: 0 <= k < |entries| ==>
         entries[k].consumed > 0
         && movements[k] == Movement(entries[k].batchId, MovementType.Sale, -entries[k].consumed, now)
  }

  /** The loop of `consumeStockFEFO` over a batch list fetched beforehand:
      while something remains, it takes min(listed quantity, remaining)
      from each listed batch holding any, as a SALE movement through
      `applyMovement`; the first failure stops it and nothing is kept. The
      walk always succeeds over drawable batches and then misses only what
      their listed quantities cannot cover; it fails at once when the first
      draw is refused. */
  method ConsumeFrom(st: Store, list: seq<Batch>, requested: int, now: int) returns (o: Outcome<Consumption>)
    requires requested >= 0
    ensures o.result.Err? ==> o.store == st
    ensures o.result.Ok? ==>
      var c := o.result.value;
      0 <= c.remaining <= requested
      && SumOf(c.entries, ConsumedOf) == requested - c.remaining
      && Accounted(c.movements, c.entries, now)
    ensures StockInvariant(st) ==> StockInvariant(o.store)
    ensures Drawable(st.batches, list, now) ==>
      o.result.Ok? && o.result.value.remaining == MaxInt(0, requested - SumOf(list, Quantity))
    ensures FirstDrawRefused(st, list, requested, now) ==> o.result.Err?
  {
    var w := Walk(0, st, requested, [], []);
    while w.k < |list| && w.remaining > 0
      invariant WalkAccounts(st, list, requested, now, w)
      invariant WalkSound(st, w.cur)
      invariant WalkCovers(st, list, requested, now, w.k, w.cur, w.remaining)
      decreases |list| - w.k
    {
      var b := list[w.k];
      if MinInt(b.currentQuantity, w.remaining) <= 0 {
        SkipAccounts(st, list, requested, now, w);
        SkipCovers(st, list, requested, now, w.k, w.cur, w.remaining);
        w := w.(k := w.k + 1);
      } else {
        var applied := Draw(w.cur, b, w.remaining, now);
        if applied.result.Err? {
          RefusedNotDrawable(st, list, requested, now, w);
          RefusedFirst(st, list, requested, now, w);
          return Outcome(st, Err(applied.result.error));
        }
        DrawAccounts(st, list, requested, now, w);
        DrawSound(w.cur, b, w.remaining, now);
        DrawCovers(st, list, requested, now, w);
        w := Drawn(list, now, w);
      }
    }
    WalkEnds(st, list, requested, now, w.k, w.cur, w.remaining);
    o := Outcome(w.cur, Ok(Consumption(w.remaining, w.movements, w.entries)));
  }

  /** The state of the walk: the next listed batch, the store so far, what
      remains, and the movements and report lines so far. */
  datatype Walk = Walk(k: int, cur: Store, remaining: int, movements: seq<Movement>, entries: seq<BatchConsumed>)

  /** The walk's first draw, on the first listed batch, is refused. */
  predicate FirstDrawRefused(st: Store, list: seq<Batch>, requested: int, now: int)
  {
    requested > 0 && |list| > 0 && list[0].currentQuantity > 0
    && ApplyMovement(st, list[0].id, MovementType.Sale, -MinInt(list[0].currentQuantity, requested), now).result.Err?
  }

  /** The draw the walk makes on batch `b`: a SALE movement of
      min(listed quantity, remaining). */
  function Draw(cur: Store, b: Batch, remaining: int, now: int): Outcome<Batch>
  {
    ApplyMovement(cur, b.id, MovementType.Sale, -MinInt(b.currentQuantity, remaining), now)
  }

  /** The walk after a granted draw on the next listed batch: one SALE
      movement and one report line more. */
  function Drawn(list: seq<Batch>, now: int, w: Walk): Walk
    requires 0 <= w.k < |list| && Draw(w.cur, list[w.k], w.remaining, now).result.Ok?
  {
    var take := MinInt(list[w.k].currentQuantity, w.remaining);
    var applied := Draw(w.cur, list[w.k], w.remaining, now);
    var e := BatchConsumed(list[w.k].id, take, applied.result.value.currentQuantity, applied.result.value.status);
    Walk(w.k + 1, applied.store, w.remaining - take,
         w.movements + [Movement(list[w.k].id, MovementType.Sale, -take, now)], w.entries + [e])
  }

  /** What the walk accounts for so far. */
  predicate WalkAccounts(st: Store, list: seq<Batch>, requested: int, now: int, w: Walk)
  {
    0 <= w.k <= |list| && 0 <= w.remaining <= requested
    && (w.k == 0 ==> w.cur == st && w.remaining == requested)
    && (w.k > 0 ==> !FirstDrawRefused(st, list, requested, now))
    && SumOf(w.entries, ConsumedOf) == requested - w.remaining
    && Accounted(w.movements, w.entries, now)
  }

  predicate WalkSound(st: Store, cur: Store)
  {
    StockInvariant(st) ==> StockInvariant(cur)
  }

  /** Over drawable batches, the rest stays drawable and what remains is
      what the batches passed could not cover. */
  predicate WalkCovers(st: Store, list: seq<Batch>, requested: int, now: int, k: int, cur: Store, remaining: int)
  {
    0 <= k <= |list|
    && (Drawable(st.batches, list, now) ==>
          Drawable(cur.batches, list[k..], now) && remaining == MaxInt(0, requested - SumOf(list[..k], Quantity)))
  }

  lemma SkipAccounts(st: Store, list: seq<Batch>, requested: int, now: int, w: Walk)
    requires WalkAccounts(st, list, requested, now, w) && w.k < |list| && w.remaining > 0
    requires MinInt(list[w.k].currentQuantity, w.remaining) <= 0
    ensures WalkAccounts(st, list, requested, now, w.(k := w.k + 1))
  {
  }

  lemma SkipCovers(st: Store, list: seq<Batch>, requested: int, now: int, k: int, cur: Store, remaining: int)
    requires WalkCovers(st, list, requested, now, k, cur, remaining) && k < |list| && remaining > 0
    requires MinInt(list[k].currentQuantity, remaining) <= 0
    ensures WalkCovers(st, list, requested, now, k + 1, cur, remaining)
  {
    if Drawable(st.batches, list, now) {
      assert list[..k + 1] == list[..k] + [list[k]];
      SumOfAppend(list[..k], list[k], Quantity);
      assert list[k..][1..] == list[k + 1..];
      assert list[k..][0] == list[k];
    }
  }

  lemma RefusedNotDrawable(st: Store, list: seq<Batch>, requested: int, now: int, w: Walk)
    requires WalkCovers(st, list, requested, now, w.k, w.cur, w.remaining) && w.k < |list| && w.remaining > 0
    requires MinInt(list[w.k].currentQuantity, w.remaining) > 0 && Draw(w.cur, list[w.k], w.remaining, now).result.Err?
    ensures !Drawable(st.batches, list, now)
  {
    if Drawable(st.batches, list, now) {
      var rest := list[w.k..];
      assert rest[0] == list[w.k];
      DrawStep(w.cur, rest, w.remaining, now);
    }
  }

  lemma RefusedFirst(st: Store, list: seq<Batch>, requested: int, now: int, w: Walk)
    requires WalkAccounts(st, list, requested, now, w) && w.k < |list| && w.remaining > 0
    requires MinInt(list[w.k].currentQuantity, w.remaining) > 0 && Draw(w.cur, list[w.k], w.remaining, now).result.Err?
    ensures FirstDrawRefused(st, list, requested, now) ==> w.k == 0
  {
  }

  lemma DrawAccounts(st: Store, list: seq<Batch>, requested: int, now: int, w: Walk)
    requires WalkAccounts(st, list, requested, now, w) && w.k < |list| && w.remaining > 0
    requires MinInt(list[w.k].currentQuantity, w.remaining) > 0 && Draw(w.cur, list[w.k], w.remaining, now).result.Ok?
    ensures WalkAccounts(st, list, requested, now, Drawn(list, now, w))
  {
    var take := MinInt(list[w.k].currentQuantity, w.remaining);
    var applied := Draw(w.cur, list[w.k], w.remaining, now);
    var e := BatchConsumed(list[w.k].id, take, applied.result.value.currentQuantity, applied.result.value.status);
    SumOfAppend(w.entries, e, ConsumedOf);
  }

  /** A granted or refused draw keeps the stock invariant. */
  lemma DrawSound(cur: Store, b: Batch, remaining: int, now: int)
    ensures StockInvariant(cur) ==> StockInvariant(Draw(cur, b, remaining, now).store)
  {
    if StockInvariant(cur) {
      ApplyMovementKeepsInvariant(cur, b.id, MovementType.Sale, -MinInt(b.currentQuantity, remaining), now);
    }
  }

  lemma DrawCovers(st: Store, list: seq<Batch>, requested: int, now: int, w: Walk)
    requires WalkCovers(st, list, requested, now, w.k, w.cur, w.remaining) && w.k < |list| && w.remaining > 0
    requires MinInt(list[w.k].currentQuantity, w.remaining) > 0
    ensures WalkCovers(st, list, requested, now, w.k + 1, Draw(w.cur, list[w.k], w.remaining, now).store,
                       w.remaining - MinInt(list[w.k].currentQuantity, w.remaining))
  {
    if Drawable(st.batches, list, now) {
      var rest := list[w.k..];
      assert rest[0] == list[w.k];
      assert rest[1..] == list[w.k + 1..];
      DrawStep(w.cur, rest, w.remaining, now);
      RemainingStep(list, requested, w.k, w.remaining);
    }
  }

  /** Taking min(listed, remaining) keeps what remains equal to what the
      batches passed could not cover. */
  lemma RemainingStep(list: seq<Batch>, requested: int, k: int, remaining: int)
    requires 0 <= k < |list| && list[k].currentQuantity >= 0
    requires remaining == MaxInt(0, requested - SumOf(list[..k], Quantity))
    ensures remaining - MinInt(list[k].currentQuantity, remaining)
      == MaxInt(0, requested - SumOf(list[..k + 1], Quantity))
  {
    assert list[..k + 1] == list[..k] + [list[k]];
    SumOfAppend(list[..k], list[k], Quantity);
  }

  lemma WalkEnds(st: Store, list: seq<Batch>, requested: int, now: int, k: int, cur: Store, remaining: int)
    requires WalkCovers(st, list, requested, now, k, cur, remaining) && 0 <= remaining
    requires k == |list| || remaining <= 0
    ensures Drawable(st.batches, list, now) ==> remaining == MaxInt(0, requested - SumOf(list, Quantity))
  {
    if Drawable(st.batches, list, now) {
      assert remaining == MaxInt(0, requested - SumOf(list[..k], Quantity));
      DrawableNonNegative(st.batches, list, now);
      RemainingAtEnd(list, k, requested, remaining);
    }
  }

  /** Every batch of a drawable list holds a non-negative quantity. */
  lemma DrawableNonNegative(bs: seq<Batch>, list: seq<Batch>, now: int)
    requires Drawable(bs, list, now)
    ensures forall j :: 0 <= j < |list| ==> list[j].currentQuantity >= 0
  {
  }

  /** Where the walk stops, what remains is what the whole list could not
      cover: either the list is done, or nothing remains and the batches
      left hold no negative quantity. */
  lemma RemainingAtEnd(list: seq<Batch>, k: int, requested: int, remaining: int)
    requires 0 <= k <= |list| && 0 <= remaining
    requires remaining == MaxInt(0, requested - SumOf(list[..k], Quantity))
    requires k == |list| || remaining <= 0
    requires forall j :: 0 <= j < |list| ==> list[j].currentQuantity >= 0
    ensures remaining == MaxInt(0, requested - SumOf(list, Quantity))
  {
    var rest := list[k..];
    SumOfSplit(list, k, Quantity);
    if k < |list| {
      assert forall j :: 0 <= j < |rest| ==> Quantity(rest[j]) >= 0;
      SumOfNonNegative(rest, Quantity);
    } else {
      assert rest == [];
    }
  }

  const ConsumeQuantityMessage: string := "Requested quantity must be greater than 0"

  function ConsumeInsufficientMessage(productId: string, available: int, requested: int): string
  {
    "Insufficient stock for product " + productId + ". Available: " + IntToString(available)
      + ", requested: " + IntToString(requested)
  }

  function NoActiveBatchesMessage(productId: string): string
  {
    "No active batches found for product " + productId
  }

  /** The report of a finished loop: success when nothing remains. */
  function Reported(o: Outcome<Consumption>, requested: int): Outcome<ConsumeResult>
  {
    match o.result
    case Err(e) => Outcome(o.store, Err(e))
    case Ok(c) => Outcome(o.store, Ok(ConsumeResult(c.remaining == 0, requested - c.remaining, c.remaining, c.movements, c.entries)))
  }

  /** What every successful consumption reports: consumed and remaining add
      up to the request, success means nothing remains, and the lines add
      up to what was consumed. */
  predicate ConsumeReportSound(r: ConsumeResult, requested: int, now: int)
  {
    r.consumedQuantity + r.remainingQuantity == requested
    && 0 <= r.remainingQuantity <= requested
    && (r.success <==> r.remainingQuantity == 0)
    && SumOf(r.batchesConsumed, ConsumedOf) == r.consumedQuantity
    && Accounted(r.movements, r.batchesConsumed, now)
  }

  /** A sellable batch of the product whose expiration day is today but
      whose expiration instant has passed; every such batch holds stock. */
  predicate ExpiringEarlierToday(bs: seq<Batch>, productId: string, now: int)
  {
    (exists a :: 0 <= a < |bs| && Sellable(bs[a], productId, now) && bs[a].expirationDate < now)
    && forall j :: 0 <= j < |bs| && Sellable(bs[j], productId, now) && bs[j].expirationDate < now ==> bs[j].currentQuantity > 0
  }

  /** Such a batch is first in the sellable list or comes after another
      one like it: no sellable batch expires earlier. */
  lemma ExpiringEarlierTodayHeadsList(bs: seq<Batch>, productId: string, now: int)
    requires ExpiringEarlierToday(bs, productId, now)
    ensures var active := FindActiveByProductId(bs, productId, now);
      |active| > 0 && active[0] in bs && active[0].status.Active?
      && active[0].expirationDate < now && active[0].currentQuantity > 0
  {
    var active := FindActiveByProductId(bs, productId, now);
    var a :| 0 <= a < |bs| && Sellable(bs[a], productId, now) && bs[a].expirationDate < now;
    assert bs[a] in active;
    var t :| 0 <= t < |active| && active[t] == bs[a];
    if t > 0 {
      assert FefoBefore(active[0], active[t]);
    }
    assert active[0] in bs;
    var x :| 0 <= x < |bs| && bs[x] == active[0];
  }

  /** Two batches of the product, one expiring earlier today and one
      expiring later that covers the request on its own, make a table on
      which the stock total covers the request. */
  lemma TwoBatchesCover(a: Batch, c: Batch, productId: string, requested: int, now: int)
    requires a.id != c.id && a.productId == productId && c.productId == productId
    requires a.status.Active? && c.status.Active?
    requires a.expirationDate == StartOfDay(now) < now && c.expirationDate > now
    requires a.currentQuantity > 0 && c.currentQuantity >= requested > 0
    ensures UniqueIds([a, c]) && ExpiringEarlierToday([a, c], productId, now)
    ensures TotalStock([a, c], productId, now) >= requested
  {
    assert Sellable([a, c][0], productId, now);
    assert [a, c] == [a] + [c];
    SumOfConcat([a], [c], (b: Batch) => StockContribution(b, productId, now));
    SumOfSingle(a, (b: Batch) => StockContribution(b, productId, now));
    SumOfSingle(c, (b: Batch) => StockContribution(b, productId, now));
  }

  /** `consumeStockFEFO`: checks the request, the stock total
      (batches not past their expiration instant) and the sellable list
      (batches not past their expiration day), then walks the sellable list
      in one transaction. The walk starts with a batch whose expiration
      instant has passed whenever one of the product expires earlier today,
      and the whole call then fails however much the total covers. */
  method ConsumeStockFefo(st: Store, productId: string, requested: int, now: int) returns (o: Outcome<ConsumeResult>)
    ensures requested <= 0 ==> o == Outcome(st, Err(ConsumeQuantityMessage))
    ensures requested > 0 && TotalStock(st.batches, productId, now) < requested ==>
      o == Outcome(st, Err(ConsumeInsufficientMessage(productId, TotalStock(st.batches, productId, now), requested)))
    ensures o.result.Err? ==> o.store == st
    ensures o.result.Ok? ==> ConsumeReportSound(o.result.value, requested, now)
    ensures UniqueIds(st.batches) && ExpiringEarlierToday(st.batches, productId, now) ==> o.result.Err?
  {
    if requested <= 0 {
      return Outcome(st, Err(ConsumeQuantityMessage));
    }
    var total := TotalStock(st.batches, productId, now);
    if total < requested {
      return Outcome(st, Err(ConsumeInsufficientMessage(productId, total, requested)));
    }
    var active := FindActiveByProductId(st.batches, productId, now);
    if |active| == 0 {
      return Outcome(st, Err(NoActiveBatchesMessage(productId)));
    }
    if UniqueIds(st.batches) && ExpiringEarlierToday(st.batches, productId, now) {
      ExpiringEarlierTodayHeadsList(st.batches, productId, now);
      var x :| 0 <= x < |st.batches| && st.batches[x] == active[0];
      FoundAt(st.batches, x);
    }
    var walked := ConsumeFrom(st, active, requested, now);
    o := Reported(walked, requested);
  }

  function NotPastExpiry(now: int): Batch -> bool
  {
    (b: Batch) => b.expirationDate >= now
  }

  /** `consumeStockFEFO` corrected: the walk skips the listed batches whose
      expiration instant has passed, the same batches the stock total leaves
      out. On a store that keeps the invariant it then succeeds exactly when
      the request is positive and covered by the stock total, consumes all
      of it, and keeps the invariant. */
  method ConsumeStockFefoFixed(st: Store, productId: string, requested: int, now: int) returns (o: Outcome<ConsumeResult>)
    ensures requested <= 0 ==> o == Outcome(st, Err(ConsumeQuantityMessage))
    ensures requested > 0 && TotalStock(st.batches, productId, now) < requested ==>
      o == Outcome(st, Err(ConsumeInsufficientMessage(productId, TotalStock(st.batches, productId, now), requested)))
    ensures o.result.Err? ==> o.store == st
    ensures o.result.Ok? ==> ConsumeReportSound(o.result.value, requested, now)
    ensures StockInvariant(st) ==>
      (o.result.Ok? <==> requested > 0 && TotalStock(st.batches, productId, now) >= requested)
      && (o.result.Ok? ==> o.result.value.success && o.result.value.consumedQuantity == requested)
      && StockInvariant(o.store)
  {
    if requested <= 0 {
      return Outcome(st, Err(ConsumeQuantityMessage));
    }
    var total := TotalStock(st.batches, productId, now);
    if total < requested {
      return Outcome(st, Err(ConsumeInsufficientMessage(productId, total, requested)));
    }
    var active := FindActiveByProductId(st.batches, productId, now);
    if StockInvariant(st) {
      TotalStockWithinSellable(st.batches, productId, now);
    }
    if |active| == 0 {
      return Outcome(st, Err(NoActiveBatchesMessage(productId)));
    }
    var list := Filter(active, NotPastExpiry(now));
    if StockInvariant(st) {
      UnexpiredHoldTotal(st.batches, productId, now);
      UnexpiredDrawable(st.batches, productId, now);
    }
    var walked := ConsumeFrom(st, list, requested, now);
    o := Reported(walked, requested);
  }

  /** Swapping a row for one with the same id keeps the ids unique. */
  lemma SameIdKeepsUniqueIds(bs: seq<Batch>, i: nat, x: Batch)
    requires UniqueIds(bs) && i < |bs| && x.id == bs[i].id
    ensures UniqueIds(bs[i := x])
  {
    assert forall j :: 0 <= j < |bs| ==> bs[i := x][j].id == bs[j].id;
  }

  /** The batches a walk can draw on: stored, ACTIVE, not past their
      expiration instant, with no negative quantity, each listed once. */
  predicate Drawable(bs: seq<Batch>, list: seq<Batch>, now: int)
  {
    UniqueIds(bs) && UniqueIds(list)
    && forall k :: 0 <= k < |list| ==>
         list[k] in bs && list[k].status.Active? && list[k].expirationDate >= now && list[k].currentQuantity >= 0
  }

  /** Drawing from the first listed batch leaves the rest drawable. */
  lemma DrawStep(st: Store, list: seq<Batch>, remaining: int, now: int)
    requires Drawable(st.batches, list, now) && |list| > 0
    requires MinInt(list[0].currentQuantity, remaining) > 0
    ensures var o := Draw(st, list[0], remaining, now);
      o.result.Ok? && Drawable(o.store.batches, list[1..], now)
  {
    var b := list[0];
    assert b in st.batches;
    var i :| 0 <= i < |st.batches| && st.batches[i] == b;
    var x := DrawGranted(st, i, b, remaining, now);
    SameIdKeepsUniqueIds(st.batches, i, x);
    OthersStay(st.batches, i, x, list);
    DrawableTail(st.batches[i := x], list, now);
  }

  /** The listed batches after the first, all still stored, are drawable. */
  lemma DrawableTail(bs: seq<Batch>, list: seq<Batch>, now: int)
    requires UniqueIds(bs) && UniqueIds(list) && |list| > 0
    requires forall k :: 1 <= k < |list| ==> list[k] in bs
    requires forall k :: 0 <= k < |list| ==>
      list[k].status.Active? && list[k].expirationDate >= now && list[k].currentQuantity >= 0
    ensures Drawable(bs, list[1..], now)
  {
    var rest := list[1..];
    assert forall k :: 0 <= k < |rest| ==> rest[k] == list[k + 1];
  }

  /** A SALE of at most its stock on a stored ACTIVE batch not past its
      expiration instant goes through and rewrites only its row. */
  lemma DrawGranted(st: Store, i: nat, b: Batch, remaining: int, now: int) returns (x: Batch)
    requires UniqueIds(st.batches) && i < |st.batches| && st.batches[i] == b
    requires b.status.Active? && b.expirationDate >= now
    requires MinInt(b.currentQuantity, remaining) > 0
    ensures var o := Draw(st, b, remaining, now);
      o.result.Ok? && o.result.value == x && x.id == b.id
      && o.store.batches == st.batches[i := x]
  {
    FoundAt(st.batches, i);
    x := Draw(st, b, remaining, now).result.value;
  }

  /** The listed batches after the first stay stored when the first one's
      row is rewritten under the same id. */
  lemma OthersStay(bs: seq<Batch>, i: nat, x: Batch, list: seq<Batch>)
    requires i < |bs| && |list| > 0 && list[0] == bs[i] && x.id == bs[i].id
    requires UniqueIds(list) && forall k :: 0 <= k < |list| ==> list[k] in bs
    ensures forall k :: 1 <= k < |list| ==> list[k] in bs[i := x]
  {
    forall k | 1 <= k < |list|
      ensures list[k] in bs[i := x]
    {
      var y :| 0 <= y < |bs| && bs[y] == list[k];
      assert list[k].id != list[0].id;
      assert bs[i := x][y] == list[k];
    }
  }

  /** The sellable batches not past their expiration instant hold exactly
      the stock total. */
  lemma UnexpiredHoldTotal(bs: seq<Batch>, productId: string, now: int)
    requires NonNegativeStock(bs)
    ensures SumOf(Filter(FindActiveByProductId(bs, productId, now), NotPastExpiry(now)), Quantity) == TotalStock(bs, productId, now)
  {
    var active := FindActiveByProductId(bs, productId, now);
    SumOfFilter(active, NotPastExpiry(now), Quantity, UnexpiredQuantity(now));
    SumOfPermutation(active, Filter(bs, (b: Batch) => Sellable(b, productId, now)), UnexpiredQuantity(now));
    SellableUnexpiredTotal(bs, productId, now);
  }

  /** What a batch holds while its expiration instant has not passed. */
  function UnexpiredQuantity(now: int): Batch -> int
  {
    (b: Batch) => if b.expirationDate >= now then b.currentQuantity else 0
  }

  function SellableUnexpired(productId: string, now: int): Batch -> int
  {
    (b: Batch) => if Sellable(b, productId, now) then UnexpiredQuantity(now)(b) else 0
  }

  /** Over the sellable rows, what is not past its expiration instant adds
      up to the stock total. */
  lemma SellableUnexpiredTotal(bs: seq<Batch>, productId: string, now: int)
    requires NonNegativeStock(bs)
    ensures SumOf(Filter(bs, (b: Batch) => Sellable(b, productId, now)), UnexpiredQuantity(now)) == TotalStock(bs, productId, now)
  {
    SumOfFilter(bs, (b: Batch) => Sellable(b, productId, now), UnexpiredQuantity(now), SellableUnexpired(productId, now));
    SumOfPairwise(bs, bs, SellableUnexpired(productId, now), (b: Batch) => StockContribution(b, productId, now));
  }

  /** The walk's list in the corrected consumption is drawable. */
  lemma UnexpiredDrawable(bs: seq<Batch>, productId: string, now: int)
    requires UniqueIds(bs)
    ensures Drawable(bs, Filter(FindActiveByProductId(bs, productId, now), NotPastExpiry(now)), now)
  {
    var active := FindActiveByProductId(bs, productId, now);
    var list := Filter(active, NotPastExpiry(now));
    FindActiveUniqueIds(bs, productId, now);
    FilterKeepsUniqueIds(active, NotPastExpiry(now));
    forall k | 0 <= k < |list|
      ensures list[k] in bs && list[k].status.Active? && list[k].expirationDate >= now && list[k].currentQuantity >= 0
    {
      assert list[k] in list;
      assert list[k] in active && NotPastExpiry(now)(list[k]);
      assert Sellable(list[k], productId, now);
    }
  }

  // ---------------------------------------------------------------------------
  // registerExpiredRemoval
  // ---------------------------------------------------------------------------

  const ZeroQuantityMessage: string := "Batch already has zero quantity"

  /** `registerExpiredRemoval`: refuses a missing batch and one without
      stock; otherwise an EXPIRED_REMOVAL movement of its whole stock
      through `applyMovement`. */
  function RegisterExpiredRemoval(st: Store, batchId: string, now: int): (o: Outcome<Batch>)
    ensures FindById(st.batches, batchId).None? ==> o == Outcome(st, Err(NotFoundMessage(batchId)))
    ensures (FindById(st.batches, batchId).Some?
             && st.batches[FindById(st.batches, batchId).value].currentQuantity <= 0) ==>
      o == Outcome(st, Err(ZeroQuantityMessage))
    ensures o.result.Err? ==> o.store == st
  {
    match FindById(st.batches, batchId)
    case None => Outcome(st, Err(NotFoundMessage(batchId)))
    case Some(i) =>
      var q := st.batches[i].currentQuantity;
      if q <= 0 then Outcome(st, Err(ZeroQuantityMessage))
      else ApplyMovement(st, batchId, MovementType.ExpiredRemoval, -q, now)
  }

  /** The removal succeeds exactly for a found ACTIVE batch with stock whose
      expiration instant has not passed, and then leaves it at 0 with one
      EXPIRED_REMOVAL movement of minus its old stock. */
  lemma RegisterExpiredRemovalEmpties(st: Store, batchId: string, now: int)
    ensures var o := RegisterExpiredRemoval(st, batchId, now);
      (o.result.Ok? <==>
         FindById(st.batches, batchId).Some?
         && var b := st.batches[FindById(st.batches, batchId).value];
         b.currentQuantity > 0 && b.status.Active? && b.expirationDate >= now)
      && (o.result.Ok? ==>
            var i := FindById(st.batches, batchId).value;
            o.result.value.currentQuantity == 0
            && o.store.batches == st.batches[i := o.result.value]
            && o.store.movements == st.movements + [Movement(batchId, MovementType.ExpiredRemoval, -st.batches[i].currentQuantity, now)])
  {
    if FindById(st.batches, batchId).Some? {
      var b := st.batches[FindById(st.batches, batchId).value];
      if b.currentQuantity > 0 && b.status.Active? && b.expirationDate >= now {
        RemovalApplies(st, batchId, now, FindById(st.batches, batchId).value, b.currentQuantity);
        ApplyDrains(st, batchId, MovementType.ExpiredRemoval, now);
      }
    }
  }

  /** On a found batch with stock, the removal is the movement of its
      whole stock. */
  lemma RemovalApplies(st: Store, batchId: string, now: int, i: nat, q: int)
    requires FindById(st.batches, batchId) == Some(i) && q == st.batches[i].currentQuantity && q > 0
    ensures RegisterExpiredRemoval(st, batchId, now) == ApplyMovement(st, batchId, MovementType.ExpiredRemoval, -q, now)
  {
  }

  lemma RegisterExpiredRemovalKeepsInvariant(st: Store, batchId: string, now: int)
    requires StockInvariant(st)
    ensures StockInvariant(RegisterExpiredRemoval(st, batchId, now).store)
  {
    var o := RegisterExpiredRemoval(st, batchId, now);
    if o.result.Err? {
      assert o.store == st;
    } else {
      var q := st.batches[FindById(st.batches, batchId).value].currentQuantity;
      assert o == ApplyMovement(st, batchId, MovementType.ExpiredRemoval, -q, now);
      ApplyMovementKeepsInvariant(st, batchId, MovementType.ExpiredRemoval, -q, now);
    }
  }

  // ---------------------------------------------------------------------------
  // Movement summaries
  // ---------------------------------------------------------------------------

  const AllKinds: seq<MovementType> :=
    [MovementType.Restock, MovementType.Sale, MovementType.Adjustment, MovementType.ManualOut, MovementType.ExpiredRemoval]

  /** The movements of one type and their deltas. */
  datatype TypeTotal = TypeTotal(kind: MovementType, count: int, total: int)

  function Tally(kind: MovementType): Movement -> int
  {
    (m: Movement) => if m.kind == kind then 1 else 0
  }

  function DeltaOfKind(kind: MovementType): Movement -> int
  {
    (m: Movement) => if m.kind == kind then m.delta else 0
  }

  function GroupOf(ms: seq<Movement>, kind: MovementType): TypeTotal
  {
    TypeTotal(kind, SumOf(ms, Tally(kind)), SumOf(ms, DeltaOfKind(kind)))
  }

  /** The groups of the listed types that occur among the movements, in the
      order of the list. */
  function GroupsOf(ms: seq<Movement>, kinds: seq<MovementType>): (r: seq<TypeTotal>)
    ensures forall j :: 0 <= j < |r| ==> r[j] == GroupOf(ms, r[j].kind) && r[j].kind in kinds && r[j].count > 0
  {
    if |kinds| == 0 then []
    else
      var g := GroupOf(ms, kinds[0]);
      (if g.count > 0 then [g] else []) + GroupsOf(ms, kinds[1..])
  }

  /** `GROUP BY movement.type` with SUM(delta) and COUNT(id), and the
      per-type record the history builds: one group per type that occurs. */
  function GroupByType(ms: seq<Movement>): (r: seq<TypeTotal>)
  {
    GroupsOf(ms, AllKinds)
  }

  function CountOf(g: TypeTotal): int { g.count }
  function TotalOf(g: TypeTotal): int { g.total }

  function KindIn(kinds: seq<MovementType>): Movement -> bool
  {
    (m: Movement) => m.kind in kinds
  }

  function TallyIn(kinds: seq<MovementType>): Movement -> int
  {
    (m: Movement) => if m.kind in kinds then 1 else 0
  }

  function DeltaIn(kinds: seq<MovementType>): Movement -> int
  {
    (m: Movement) => if m.kind in kinds then m.delta else 0
  }

  predicate DistinctKinds(kinds: seq<MovementType>)
  {
    forall i, j :: 0 <= i < j < |kinds| ==> kinds[i] != kinds[j]
  }

  /** A type that occurs nowhere counts nothing and moves nothing. */
  lemma AbsentKind(ms: seq<Movement>, kind: MovementType)
    requires SumOf(ms, Tally(kind)) <= 0
    ensures SumOf(ms, Tally(kind)) == 0 && SumOf(ms, DeltaOfKind(kind)) == 0
  {
    var f := Tally(kind);
    SumOfNonNegative(ms, f);
    forall i | 0 <= i < |ms|
      ensures ms[i].kind != kind
    {
      if ms[i].kind == kind {
        SumOfAtLeastOne(ms, f, i);
      }
    }
    SumOfZero(ms, DeltaOfKind(kind));
  }

  /** With no negative tallies, one tally of 1 makes the sum at least 1. */
  lemma SumOfAtLeastOne(ms: seq<Movement>, f: Movement -> int, i: nat)
    requires i < |ms| && f(ms[i]) == 1
    requires forall j :: 0 <= j < |ms| ==> f(ms[j]) >= 0
    ensures SumOf(ms, f) >= 1
  {
    var front, back := ms[..i + 1], ms[i + 1..];
    SumOfSplit(ms, i + 1, f);
    assert front[..i] == ms[..i] && front[i] == ms[i];
    assert SumOf(front, f) == SumOf(ms[..i], f) + f(ms[i]);
    SumOfNonNegative(ms[..i], f);
    SumOfNonNegative(back, f);
  }

  /** The groups of distinct types count and total exactly the movements of
      those types. */
  lemma GroupsOfSums(ms: seq<Movement>, kinds: seq<MovementType>)
    requires DistinctKinds(kinds)
    ensures SumOf(GroupsOf(ms, kinds), CountOf) == SumOf(ms, TallyIn(kinds))
    ensures SumOf(GroupsOf(ms, kinds), TotalOf) == SumOf(ms, DeltaIn(kinds))
  {
    GroupsOfCounts(ms, kinds);
    GroupsOfTotals(ms, kinds);
  }

  lemma {:induction false} GroupsOfCounts(ms: seq<Movement>, kinds: seq<MovementType>)
    requires DistinctKinds(kinds)
    ensures SumOf(GroupsOf(ms, kinds), CountOf) == SumOf(ms, TallyIn(kinds))
  {
    if |kinds| == 0 {
      SumOfZero(ms, TallyIn(kinds));
    } else {
      var k := kinds[0];
      var rest := kinds[1..];
      var g := GroupOf(ms, k);
      var head := if g.count > 0 then [g] else [];
      GroupsOfCounts(ms, rest);
      SumOfConcat(head, GroupsOf(ms, rest), CountOf);
      if g.count > 0 {
        SumOfSingle(g, CountOf);
      } else {
        AbsentKind(ms, k);
      }
      assert k !in rest;
      SumOfDifference(ms, TallyIn(kinds), Tally(k), TallyIn(rest));
    }
  }

  lemma {:induction false} GroupsOfTotals(ms: seq<Movement>, kinds: seq<MovementType>)
    requires DistinctKinds(kinds)
    ensures SumOf(GroupsOf(ms, kinds), TotalOf) == SumOf(ms, DeltaIn(kinds))
  {
    if |kinds| == 0 {
      SumOfZero(ms, DeltaIn(kinds));
    } else {
      var k := kinds[0];
      var rest := kinds[1..];
      var g := GroupOf(ms, k);
      var head := if g.count > 0 then [g] else [];
      GroupsOfTotals(ms, rest);
      SumOfConcat(head, GroupsOf(ms, rest), TotalOf);
      if g.count > 0 {
        SumOfSingle(g, TotalOf);
      } else {
        AbsentKind(ms, k);
      }
      assert k !in rest;
      SumOfDifference(ms, DeltaIn(kinds), DeltaOfKind(k), DeltaIn(rest));
    }
  }

  /** Every movement has one of the five types, each counted in exactly
      one group: the counts add up to the number of movements and the
      totals to the sum of their deltas. */
  lemma GroupByTypeSums(ms: seq<Movement>)
    ensures SumOf(GroupByType(ms), CountOf) == |ms|
    ensures SumOf(GroupByType(ms), TotalOf) == SumOf(ms, Delta)
  {
    AllKindsDistinct();
    GroupsOfSums(ms, AllKinds);
    EveryKindListed(ms);
    SumOfOnes(ms);
  }

  /** The five movement types are listed once each. */
  lemma AllKindsDistinct()
    ensures DistinctKinds(AllKinds)
  {
    var k := AllKinds;
    assert k[0].Restock? && k[1].Sale? && k[2].Adjustment? && k[3].ManualOut? && k[4].ExpiredRemoval?;
  }

  lemma EveryKindListed(ms: seq<Movement>)
    ensures SumOf(ms, TallyIn(AllKinds)) == SumOf(ms, One)
    ensures SumOf(ms, DeltaIn(AllKinds)) == SumOf(ms, Delta)
  {
    forall m: Movement
      ensures m.kind in AllKinds
    {
      match m.kind
      case Restock => assert AllKinds[0] == m.kind;
      case Sale => assert AllKinds[1] == m.kind;
      case Adjustment => assert AllKinds[2] == m.kind;
      case ManualOut => assert AllKinds[3] == m.kind;
      case ExpiredRemoval => assert AllKinds[4] == m.kind;
    }
    SumOfDifference(ms, TallyIn(AllKinds), One, Zero);
    SumOfDifference(ms, DeltaIn(AllKinds), Delta, Zero);
    SumOfZero(ms, Zero);
  }

  function Zero(m: Movement): int { 0 }

  function One(m: Movement): int { 1 }
  function Delta(m: Movement): int { m.delta }

  lemma {:induction false} SumOfOnes(ms: seq<Movement>)
    ensures SumOf(ms, One) == |ms|
  {
    if |ms| > 0 {
      SumOfOnes(ms[..|ms| - 1]);
    }
  }

  /** The reporting period: all time when `days` is missing or 0, else the
      last `days` days up to now, both ends included. */
  function PeriodStart(days: Option<int>, now: int): Option<int>
  {
    if days.Some? && days.value != 0 then Some(now - days.value * MinutesPerDay) else None
  }

  predicate InPeriod(m: Movement, start: Option<int>, now: int)
  {
    start.None? || start.value <= m.createdAt <= now
  }

  /** The movement belongs to a stored batch of the product (deleted batches
      included: the join does not look at the status). */
  predicate OfProduct(bs: seq<Batch>, m: Movement, productId: string)
  {
    exists i :: 0 <= i < |bs| && bs[i].id == m.batchId && bs[i].productId == productId
  }

  function ProductSelection(bs: seq<Batch>, productId: string, start: Option<int>, now: int): Movement -> bool
  {
    (m: Movement) => OfProduct(bs, m, productId) && InPeriod(m, start, now)
  }

  datatype MovementTotals = MovementTotals(inflow: int, outflow: int, net: int)

  function InflowOf(g: TypeTotal): int { if g.total > 0 then g.total else 0 }
  function OutflowOf(g: TypeTotal): int { if g.total > 0 then 0 else -g.total }

  datatype ProductSummary = ProductSummary(groups: seq<TypeTotal>, totals: MovementTotals, start: Option<int>, end: int)

  /** `getProductMovementSummary`: the product's movements in the period
      grouped by type; `in` adds the positive group totals, `out` the
      magnitudes of the others, and `net` is their difference. */
  function ProductMovementSummary(st: Store, productId: string, days: Option<int>, now: int): (r: ProductSummary)
    ensures var selected := Filter(st.movements, ProductSelection(st.batches, productId, PeriodStart(days, now), now));
      r.groups == GroupByType(selected)
      && r.totals.inflow >= 0 && r.totals.outflow >= 0
      && r.totals.net == SumOf(selected, Delta)
  {
    var start := PeriodStart(days, now);
    var selected := Filter(st.movements, ProductSelection(st.batches, productId, start, now));
    var groups := GroupByType(selected);
    var inflow := SumOf(groups, InflowOf);
    var outflow := SumOf(groups, OutflowOf);
    SumOfNonNegative(groups, InflowOf);
    SumOfNonNegative(groups, OutflowOf);
    SumOfDifference(groups, InflowOf, OutflowOf, TotalOf);
    GroupByTypeSums(selected);
    ProductSummary(groups, MovementTotals(inflow, outflow, inflow - outflow), start, now)
  }

  /** `ORDER BY createdAt DESC`. */
  function Latest(m: Movement): real
  {
    -(m.createdAt as real)
  }

  function BatchSelection(batchId: string, start: Option<int>, now: int): Movement -> bool
  {
    (m: Movement) => m.batchId == batchId && InPeriod(m, start, now)
  }

  datatype BatchHistory = BatchHistory(movements: seq<Movement>, summary: seq<TypeTotal>)

  /** `getBatchMovementHistory`: the batch's movements in the period, latest
      first, with a count and a delta total per type that occurs. */
  function BatchMovementHistory(st: Store, batchId: string, days: Option<int>, now: int): (r: BatchHistory)
    ensures forall m :: m in r.movements <==> m in st.movements && m.batchId == batchId && InPeriod(m, PeriodStart(days, now), now)
    ensures SortedBy(r.movements, Latest)
    ensures SumOf(r.summary, CountOf) == |r.movements|
    ensures SumOf(r.summary, TotalOf) == SumOf(r.movements, Delta)
    ensures forall j :: 0 <= j < |r.summary| ==> r.summary[j] == GroupOf(r.movements, r.summary[j].kind) && r.summary[j].count > 0
  {
    var selected := Filter(st.movements, BatchSelection(batchId, PeriodStart(days, now), now));
    var movements := SortBy(selected, Latest);
    SortBySorted(selected, Latest);
    SortByMembers(selected, Latest);
    GroupByTypeSums(movements);
    BatchHistory(movements, GroupByType(movements))
  }

  /** Over all time, the per-type totals of a batch's history add up to its
      quantity on a store that keeps the invariant. */
  lemma HistoryMatchesStock(st: Store, batchId: string, now: int)
    requires StockInvariant(st) && FindById(st.batches, batchId).Some?
    ensures SumOf(BatchMovementHistory(st, batchId, None, now).summary, TotalOf)
            == st.batches[FindById(st.batches, batchId).value].currentQuantity
  {
    var sel := BatchSelection(batchId, None, now);
    var selected := Filter(st.movements, sel);
    SumOfPermutation(SortBy(selected, Latest), selected, Delta);
    SumOfFilter(st.movements, sel, Delta, DeltaOn(batchId));
  }

  // ---------------------------------------------------------------------------
  // verifyStockIntegrity
  // ---------------------------------------------------------------------------

  function IntegrityMessage(batchId: string, current: int, theoretical: int): string
  {
    "Stock integrity issue for batch " + batchId + ": Current=" + IntToString(current)
      + ", Theoretical=" + IntToString(theoretical)
  }

  /** `verifyStockIntegrity`: true when the batch's quantity is the sum of
      its movements; a mismatch is an error, never false. */
  function VerifyStockIntegrity(st: Store, batchId: string): (r: Result<bool, string>)
    ensures r.Ok? ==> r.value
    ensures r.Ok? <==> FindById(st.batches, batchId).Some? && Balanced(st.batches[FindById(st.batches, batchId).value], st.movements)
    ensures FindById(st.batches, batchId).None? ==> r == Err(NotFoundMessage(batchId))
  {
    match FindById(st.batches, batchId)
    case None => Err(NotFoundMessage(batchId))
    case Some(i) =>
      var b := st.batches[i];
      var theoretical := MovementTotal(st.movements, batchId);
      if b.currentQuantity == theoretical then Ok(true)
      else Err(IntegrityMessage(batchId, b.currentQuantity, theoretical))
  }

  /** Every stored batch passes the check on a store that keeps the
      invariant. */
  lemma IntegrityHolds(st: Store, batchId: string)
    requires StockInvariant(st) && FindById(st.batches, batchId).Some?
    ensures VerifyStockIntegrity(st, batchId) == Ok(true)
  {
  }
}
