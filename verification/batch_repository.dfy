/** `BatchRepository`: the batch queries (by id, by product, the sellable
    batches in first-expired-first-out order, the batches due to expire or
    expiring soon, the stock total), the reserved-quantity counters other
    services update, and the generation of batch ids `LOTE-YYYYMMDD-NNN`. */
module BatchRepository {
  import opened Common
  import opened Tables
  import opened Sorting
  import opened JsText
  import opened CommerceModel

  /** `findById`: the batch with that id, unless it is DELETED. */
  function FindById(bs: seq<Batch>, id: string): (r: Option<nat>)
    ensures r.Some? ==> r.value < |bs| && bs[r.value].id == id && !bs[r.value].status.Deleted?
    ensures r.Some? ==> forall j :: 0 <= j < r.value ==> bs[j].id != id || bs[j].status.Deleted?
    ensures r.None? <==> forall i :: 0 <= i < |bs| ==> bs[i].id != id || bs[i].status.Deleted?
  {
    FirstWhere(bs, (b: Batch) => b.id == id && !b.status.Deleted?)
  }

  function ExpirationKey(b: Batch): real
  {
    b.expirationDate as real
  }

  /** `findByProductId`: the product's batches except DELETED ones, by
      expiration date. */
  function FindByProductId(bs: seq<Batch>, productId: string): (r: seq<Batch>)
    ensures forall b :: b in r <==> b in bs && b.productId == productId && !b.status.Deleted?
    ensures SortedBy(r, ExpirationKey)
  {
    var selected := Filter(bs, (b: Batch) => b.productId == productId && !b.status.Deleted?);
    SortBySorted(selected, ExpirationKey);
    SortByMembers(selected, ExpirationKey);
    SortBy(selected, ExpirationKey)
  }

  /** `findBatchesByStatus`. */
  function FindByStatus(bs: seq<Batch>, status: BatchStatus): (r: seq<Batch>)
    ensures forall b :: b in r <==> b in bs && b.status == status
    ensures SortedBy(r, ExpirationKey)
  {
    var selected := Filter(bs, (b: Batch) => b.status == status);
    SortBySorted(selected, ExpirationKey);
    SortByMembers(selected, ExpirationKey);
    SortBy(selected, ExpirationKey)
  }

  // ---------------------------------------------------------------------------
  // First expired, first out
  // ---------------------------------------------------------------------------

  /** A batch `findActiveByProductId` returns: ACTIVE, with a non-negative
      quantity and an expiration date not before today. */
  predicate Sellable(b: Batch, productId: string, now: int)
  {
    b.productId == productId && b.status.Active? && b.currentQuantity >= 0
    && b.expirationDate >= StartOfDay(now)
  }

  /** `ORDER BY expirationDate ASC, productionDate ASC`. */
  predicate FefoBefore(a: Batch, b: Batch)
  {
    a.expirationDate < b.expirationDate
    || (a.expirationDate == b.expirationDate && a.productionDate <= b.productionDate)
  }

  /** A strictly increasing map of the integers into the open interval
      (0, 1). */
  function Fraction(p: int): (r: real)
    ensures 0.0 < r < 1.0
  {
    if p >= 0 then 1.0 - 1.0 / (2.0 * (p as real + 1.0)) else 1.0 / (2.0 * (1.0 - p as real))
  }

  /** Of two positive reals, the larger has the smaller reciprocal. */
  lemma ReciprocalAntitone(a: real, b: real)
    requires 0.0 < a <= b
    ensures 1.0 / b <= 1.0 / a
    ensures a < b ==> 1.0 / b < 1.0 / a
  {
    assert 1.0 / b == (1.0 / a) * (a / b);
    assert a / b <= 1.0;
  }

  lemma FractionMonotone(p: int, q: int)
    requires p <= q
    ensures Fraction(p) <= Fraction(q)
    ensures p < q ==> Fraction(p) < Fraction(q)
  {
    if 0 <= p {
      ReciprocalAntitone(2.0 * (p as real + 1.0), 2.0 * (q as real + 1.0));
    } else if q < 0 {
      ReciprocalAntitone(2.0 * (1.0 - q as real), 2.0 * (1.0 - p as real));
    } else {
      ReciprocalAntitone(2.0, 2.0 * (1.0 - p as real));
      ReciprocalAntitone(2.0, 2.0 * (q as real + 1.0));
    }
  }

  /** One real key for the two-column order: the expiration date plus a
      fraction that grows with the production date. */
  function FefoKey(b: Batch): real
  {
    b.expirationDate as real + Fraction(b.productionDate)
  }

  lemma FefoKeyOrder(a: Batch, b: Batch)
    ensures FefoKey(a) <= FefoKey(b) <==> FefoBefore(a, b)
  {
    if a.productionDate <= b.productionDate {
      FractionMonotone(a.productionDate, b.productionDate);
    } else {
      FractionMonotone(b.productionDate, a.productionDate);
    }
  }

  /** `findActiveByProductId`: the sellable batches of the product, first
      expiring first, then first produced first; batches equal on both keep
      table order. */
  function FindActiveByProductId(bs: seq<Batch>, productId: string, now: int): (r: seq<Batch>)
    ensures forall b :: b in r <==> b in bs && Sellable(b, productId, now)
    ensures multiset(r) == multiset(Filter(bs, (b: Batch) => Sellable(b, productId, now)))
    ensures forall i, j :: 0 <= i < j < |r| ==> FefoBefore(r[i], r[j])
  {
    var selected := Filter(bs, (b: Batch) => Sellable(b, productId, now));
    SortBySorted(selected, FefoKey);
    SortByMembers(selected, FefoKey);
    FefoSorted(SortBy(selected, FefoKey));
    SortBy(selected, FefoKey)
  }

  /** Ordered by the key is ordered by the two columns. */
  lemma FefoSorted(r: seq<Batch>)
    requires SortedBy(r, FefoKey)
    ensures forall i, j :: 0 <= i < j < |r| ==> FefoBefore(r[i], r[j])
  {
    forall i, j | 0 <= i < j < |r| ensures FefoBefore(r[i], r[j]) {
      FefoKeyOrder(r[i], r[j]);
    }
  }

  /** `findActiveByProductIdandKioskId` (not part of this model's sources;
      taken by its name): the sellable batches of the product when the
      product belongs to the kiosk, none otherwise. */
  function FindActiveForKiosk(ps: seq<Product>, bs: seq<Batch>, productId: string, kioskUserId: int, now: int): (r: seq<Batch>)
    ensures (exists i :: 0 <= i < |ps| && ps[i].id == productId && ps[i].kioskUserId == kioskUserId) ==> r == FindActiveByProductId(bs, productId, now)
    ensures (forall i :: 0 <= i < |ps| ==> ps[i].id != productId || ps[i].kioskUserId != kioskUserId) ==> r == []
  {
    if exists i :: 0 <= i < |ps| && ps[i].id == productId && ps[i].kioskUserId == kioskUserId
    then FindActiveByProductId(bs, productId, now)
    else []
  }

  /** Batch ids are primary keys: no two rows of a table (or of a list
      fetched from it) share one. */
  predicate UniqueIds(bs: seq<Batch>)
  {
    forall i, j :: 0 <= i < j < |bs| ==> bs[i].id != bs[j].id
  }

  lemma {:induction false} FilterKeepsUniqueIds(bs: seq<Batch>, p: Batch -> bool)
    requires UniqueIds(bs)
    ensures UniqueIds(Filter(bs, p))
  {
    if |bs| > 0 {
      var n := |bs| - 1;
      FilterKeepsUniqueIds(bs[..n], p);
      var f := Filter(bs[..n], p);
      forall i | 0 <= i < |f|
        ensures f[i].id != bs[n].id
      {
        assert f[i] in bs[..n];
      }
    }
  }

  /** A table with unique ids holds each row at most once. */
  lemma {:induction false} UniqueIdsMultiplicity(bs: seq<Batch>, x: Batch)
    requires UniqueIds(bs)
    ensures multiset(bs)[x] <= 1
  {
    if |bs| > 0 {
      var n := |bs| - 1;
      assert bs == bs[..n] + [bs[n]];
      UniqueIdsMultiplicity(bs[..n], x);
      if x == bs[n] {
        assert x !in bs[..n];
      }
    }
  }

  /** Reordering a list with unique ids keeps them unique. */
  lemma UniqueIdsPermutation(r: seq<Batch>, s: seq<Batch>)
    requires UniqueIds(s) && multiset(r) == multiset(s)
    ensures UniqueIds(r)
  {
    forall i, j | 0 <= i < j < |r|
      ensures r[i].id != r[j].id
    {
      assert r[i] in multiset(s) && r[j] in multiset(s);
      if r[i] == r[j] {
        assert r == r[..j] + r[j..];
        assert r[i] in r[..j] && r[j] in r[j..];
        assert multiset(r)[r[i]] == multiset(r[..j])[r[i]] + multiset(r[j..])[r[i]];
        UniqueIdsMultiplicity(s, r[i]);
      } else {
        var x :| 0 <= x < |s| && s[x] == r[i];
        var y :| 0 <= y < |s| && s[y] == r[j];
      }
    }
  }

  /** The sellable list of a table with unique ids has unique ids. */
  lemma FindActiveUniqueIds(bs: seq<Batch>, productId: string, now: int)
    requires UniqueIds(bs)
    ensures UniqueIds(FindActiveByProductId(bs, productId, now))
  {
    FilterKeepsUniqueIds(bs, (b: Batch) => Sellable(b, productId, now));
    UniqueIdsPermutation(FindActiveByProductId(bs, productId, now), Filter(bs, (b: Batch) => Sellable(b, productId, now)));
  }

  /** `getTotalStockByProduct`: the quantity of the product's ACTIVE batches
      whose expiration date is not before the current instant (not the start
      of the day), 0 when there are none. */
  function TotalStock(bs: seq<Batch>, productId: string, now: int): int
  {
    SumOf(bs, (b: Batch) => StockContribution(b, productId, now))
  }

  function StockContribution(b: Batch, productId: string, now: int): int
  {
    if b.productId == productId && b.status.Active? && b.expirationDate >= now then b.currentQuantity else 0
  }

  /** No batch holds a negative quantity (every quantity-changing operation
      keeps this). */
  predicate NonNegativeStock(bs: seq<Batch>)
  {
    forall i :: 0 <= i < |bs| ==> bs[i].currentQuantity >= 0
  }

  function Quantity(b: Batch): int
  {
    b.currentQuantity
  }

  /** The stock total counts a subset of the sellable batches, so the
      sellable batches hold at least the total; a batch expiring today counts
      as sellable but not as stock once the day has begun. */
  lemma TotalStockWithinSellable(bs: seq<Batch>, productId: string, now: int)
    requires NonNegativeStock(bs)
    ensures TotalStock(bs, productId, now) <= SumOf(FindActiveByProductId(bs, productId, now), Quantity)
    ensures TotalStock(bs, productId, now) >= 0
  {
    var sellable := (b: Batch) => Sellable(b, productId, now);
    var g := (b: Batch) => if Sellable(b, productId, now) then b.currentQuantity else 0;
    var c := (b: Batch) => StockContribution(b, productId, now);
    var r := FindActiveByProductId(bs, productId, now);
    SumOfFilter(bs, sellable, Quantity, g);
    SumOfPermutation(r, Filter(bs, sellable), Quantity);
    forall i | 0 <= i < |bs|
      ensures 0 <= c(bs[i]) <= g(bs[i])
    {
      ContributionWithinSellable(bs[i], productId, now);
    }
    SumOfMonotone(bs, c, g);
    SumOfNonNegative(bs, c);
  }

  /** A batch with non-negative stock adds to the stock total no more than
      it holds as a sellable batch. */
  lemma ContributionWithinSellable(b: Batch, productId: string, now: int)
    requires b.currentQuantity >= 0
    ensures 0 <= StockContribution(b, productId, now)
    ensures StockContribution(b, productId, now) <= if Sellable(b, productId, now) then b.currentQuantity else 0
  {
  }

  /** `getBatchesNeedingExpiration`: ACTIVE batches with a non-negative
      quantity whose expiration date is before today. */
  function NeedingExpiration(bs: seq<Batch>, now: int): (r: seq<Batch>)
    ensures forall b :: b in r <==> b in bs && b.status.Active? && b.currentQuantity >= 0 && b.expirationDate < StartOfDay(now)
  {
    Filter(bs, (b: Batch) => b.status.Active? && b.currentQuantity >= 0 && b.expirationDate < StartOfDay(now))
  }

  /** `getBatchesExpiringSoon` (three days by default): ACTIVE batches with a
      non-negative quantity expiring between today and `days` days later,
      both ends included, by expiration date. */
  function ExpiringSoon(bs: seq<Batch>, now: int, days: int): (r: seq<Batch>)
    ensures forall b :: b in r <==> (b in bs && b.status.Active? && b.currentQuantity >= 0
      && StartOfDay(now) <= b.expirationDate <= StartOfDay(now) + days * MinutesPerDay)
    ensures SortedBy(r, ExpirationKey)
  {
    var today := StartOfDay(now);
    var selected := Filter(bs, (b: Batch) => b.status.Active? && b.currentQuantity >= 0 && today <= b.expirationDate <= today + days * MinutesPerDay);
    SortBySorted(selected, ExpirationKey);
    SortByMembers(selected, ExpirationKey);
    SortBy(selected, ExpirationKey)
  }

  const DefaultExpiringDays: int := 3

  /** An ACTIVE batch with stock is either due to expire or sellable, never
      both; an expiring-soon batch of the product is sellable. */
  lemma ExpirationPartition(bs: seq<Batch>, productId: string, now: int, days: int)
    ensures forall b :: b in bs && b.productId == productId && b.status.Active? && b.currentQuantity >= 0 ==>
      (b in NeedingExpiration(bs, now) <==> b !in FindActiveByProductId(bs, productId, now))
    ensures forall b :: b in ExpiringSoon(bs, now, days) && b.productId == productId ==> b in FindActiveByProductId(bs, productId, now)
  {
  }

  // ---------------------------------------------------------------------------
  // Reserved-quantity counters (not part of this model's sources; taken by
  // their names and the observable quantities after an order is rejected or
  // paid)
  // ---------------------------------------------------------------------------

  /** Adds `dCurrent` to the quantity and `dReserved` to the reserved
      quantity of the batch with that id. */
  function AdjustCounters(bs: seq<Batch>, id: string, dCurrent: int, dReserved: int): (r: seq<Batch>)
    ensures |r| == |bs|
    ensures forall i :: 0 <= i < |bs| && bs[i].id != id ==> r[i] == bs[i]
    ensures forall i :: 0 <= i < |bs| && bs[i].id == id ==>
      r[i] == bs[i].(currentQuantity := bs[i].currentQuantity + dCurrent, reservedQuantity := bs[i].reservedQuantity + dReserved)
  {
    if |bs| == 0 then []
    else
      var n := |bs| - 1;
      var b := bs[n];
      AdjustCounters(bs[..n], id, dCurrent, dReserved)
        + [if b.id == id then b.(currentQuantity := b.currentQuantity + dCurrent, reservedQuantity := b.reservedQuantity + dReserved) else b]
  }

  /** `incrementReservedQuantity`. */
  function IncrementReserved(bs: seq<Batch>, id: string, quantity: int): seq<Batch>
  {
    AdjustCounters(bs, id, 0, quantity)
  }

  /** `decrementReservedQuantity`. */
  function DecrementReserved(bs: seq<Batch>, id: string, quantity: int): seq<Batch>
  {
    AdjustCounters(bs, id, 0, -quantity)
  }

  /** `consumeReservedQuantity`: the quantity leaves both the stock and the
      reserved quantity. */
  function ConsumeReserved(bs: seq<Batch>, id: string, quantity: int): seq<Batch>
  {
    AdjustCounters(bs, id, -quantity, -quantity)
  }

  // ---------------------------------------------------------------------------
  // Batch ids
  // ---------------------------------------------------------------------------

  /** The prefix of the ids of one production day. */
  function DayPrefix(stamp: string): string
  {
    "LOTE-" + stamp + "-"
  }

  /** `id LIKE 'LOTE-<stamp>-%'` (the stamp holds no wildcard). */
  predicate OfDay(id: string, stamp: string)
  {
    StartsWith(id, DayPrefix(stamp))
  }

  /** The ids of one production day, in table order. */
  function DayIds(ids: seq<string>, stamp: string): (r: seq<string>)
    ensures forall id :: id in r <==> id in ids && OfDay(id, stamp)
  {
    Filter(ids, (id: string) => OfDay(id, stamp))
  }

  /** `parseInt(id.split('-')[2], 10)`; a missing third piece reads as
      `NaN`. */
  function SequenceOf(id: string): Option<int>
  {
    var pieces := SplitOn(id, '-');
    if |pieces| < 3 then None else ParseInt(pieces[2])
  }

  /** `String(sequence).padStart(3, '0')`, `NaN` included. */
  function SequenceText(sequence: Option<int>): string
  {
    match sequence
    case None => "NaN"
    case Some(n) => PadStart(IntToString(n), 3)
  }

  /** The order of the id column, taken as code-point order. */
  predicate StrBelow(a: string, b: string)
  {
    if |a| == 0 then |b| > 0
    else |b| > 0 && (a[0] < b[0] || (a[0] == b[0] && StrBelow(a[1..], b[1..])))
  }

  lemma {:induction false} StrBelowTotal(a: string, b: string)
    ensures a == b || StrBelow(a, b) || StrBelow(b, a)
  {
    if |a| > 0 && |b| > 0 && a[0] == b[0] {
      StrBelowTotal(a[1..], b[1..]);
      if a[1..] == b[1..] {
        assert a == [a[0]] + a[1..] && b == [b[0]] + b[1..];
      }
    }
  }

  lemma {:induction false} StrBelowIrreflexive(a: string)
    ensures !StrBelow(a, a)
  {
    if |a| > 0 {
      StrBelowIrreflexive(a[1..]);
    }
  }

  lemma {:induction false} StrBelowTransitive(a: string, b: string, c: string)
    requires StrBelow(a, b) && StrBelow(b, c)
    ensures StrBelow(a, c)
  {
    if |a| > 0 && a[0] == b[0] && b[0] == c[0] {
      StrBelowTransitive(a[1..], b[1..], c[1..]);
    }
  }

  /** `ORDER BY id DESC` and the first row: the greatest id. */
  function Greatest(ids: seq<string>): (r: string)
    requires |ids| > 0
    ensures r in ids
    ensures forall i :: 0 <= i < |ids| ==> !StrBelow(r, ids[i])
  {
    var n := |ids| - 1;
    if n == 0 then
      StrBelowIrreflexive(ids[0]);
      ids[0]
    else
      var m := Greatest(ids[..n]);
      var r := if StrBelow(m, ids[n]) then ids[n] else m;
      assert forall i :: 0 <= i < n ==> ids[..n][i] == ids[i];
      forall i | 0 <= i < |ids| ensures !StrBelow(r, ids[i]) {
        if StrBelow(m, ids[n]) {
          if i < n {
            if StrBelow(ids[n], ids[i]) {
              StrBelowTransitive(m, ids[n], ids[i]);
            }
          } else {
            StrBelowIrreflexive(ids[n]);
          }
        }
      }
      r
  }

  function Ids(bs: seq<Batch>): (r: seq<string>)
    ensures |r| == |bs| && forall i :: 0 <= i < |bs| ==> r[i] == bs[i].id
  {
    if |bs| == 0 then [] else Ids(bs[..|bs| - 1]) + [bs[|bs| - 1].id]
  }

  /** `create`: the repository's `save`, which looks the primary key up
      first; a row with that id is overwritten in place, otherwise the row
      is appended. */
  function SaveBatch(bs: seq<Batch>, b: Batch): (r: seq<Batch>)
    ensures b.id !in Ids(bs) ==> r == bs + [b]
    ensures b.id in Ids(bs) ==> exists i :: 0 <= i < |bs| && bs[i].id == b.id && r == bs[i := b]
  {
    match FirstWhere(bs, (x: Batch) => x.id == b.id)
    case None => bs + [b]
    case Some(i) => bs[i := b]
  }

  /** `getNextBatchId`: the sequence after the one in the greatest id of
      the day in string order, 1 for the first batch of a day. */
  function NextBatchId(ids: seq<string>, stamp: string): (r: string)
    ensures StartsWith(r, DayPrefix(stamp))
  {
    var day := DayIds(ids, stamp);
    var sequence :=
      if |day| == 0 then Some(1)
      else match SequenceOf(Greatest(day))
        case None => None
        case Some(k) => Some(k + 1);
    DayPrefix(stamp) + SequenceText(sequence)
  }

  /** The largest sequence number among the ids, 0 when none reads as a
      number. */
  function MaxSequence(ids: seq<string>): (m: nat)
    ensures forall i :: 0 <= i < |ids| && SequenceOf(ids[i]).Some? ==> SequenceOf(ids[i]).value <= m
  {
    if |ids| == 0 then 0
    else
      var n := |ids| - 1;
      var m := MaxSequence(ids[..n]);
      assert forall i :: 0 <= i < n ==> ids[..n][i] == ids[i];
      match SequenceOf(ids[n])
      case Some(k) => if k > m then k else m
      case None => m
  }

  /** `getNextBatchId` corrected to the numerically greatest sequence of
      the day: one past it, 1 for the first batch of a day. */
  function NextBatchIdFixed(ids: seq<string>, stamp: string): (r: string)
    ensures StartsWith(r, DayPrefix(stamp))
  {
    var day := DayIds(ids, stamp);
    DayPrefix(stamp) + SequenceText(Some(MaxSequence(day) + 1))
  }

  /** The pieces of a day's id. */
  lemma DayIdPieces(stamp: string, rest: string)
    requires '-' !in stamp && '-' !in rest
    ensures SplitOn(DayPrefix(stamp) + rest, '-') == ["LOTE", stamp, rest]
  {
    assert DayPrefix(stamp) + rest == "LOTE" + ['-'] + (stamp + ['-'] + rest);
    SplitOnFirst("LOTE", '-', stamp + ['-'] + rest);
    SplitOnFirst(stamp, '-', rest);
    SplitOnNone(rest, '-');
  }

  /** The corrected id is new: no existing id, of that day or another,
      equals it. */
  lemma NextBatchIdFixedFresh(ids: seq<string>, stamp: string)
    requires '-' !in stamp
    ensures NextBatchIdFixed(ids, stamp) !in ids
  {
    var k: nat := MaxSequence(DayIds(ids, stamp)) + 1;
    GeneratedFresh(ids, stamp, k);
  }

  /** The id generated one past the day's greatest sequence is new. */
  lemma GeneratedFresh(ids: seq<string>, stamp: string, k: nat)
    requires '-' !in stamp && k == MaxSequence(DayIds(ids, stamp)) + 1
    ensures DayPrefix(stamp) + SequenceText(Some(k)) !in ids
  {
    SequenceReadsBack(stamp, k);
    AboveDayIsFresh(ids, stamp, DayPrefix(stamp) + SequenceText(Some(k)));
  }

  /** An id of the day whose sequence is past the day's greatest is not in
      the table at all. */
  lemma AboveDayIsFresh(ids: seq<string>, stamp: string, r: string)
    requires OfDay(r, stamp) && SequenceOf(r) == Some(MaxSequence(DayIds(ids, stamp)) + 1)
    ensures r !in ids
  {
    AboveMaxSequence(DayIds(ids, stamp), r);
  }

  /** An id whose sequence exceeds every sequence of a list is not in it. */
  lemma AboveMaxSequence(ids: seq<string>, r: string)
    requires SequenceOf(r) == Some(MaxSequence(ids) + 1)
    ensures r !in ids
  {
    forall i | 0 <= i < |ids| ensures ids[i] != r {
      if SequenceOf(ids[i]).Some? {
      }
    }
  }

  /** A generated id starts with its day's prefix and its sequence reads
      back. */
  lemma SequenceReadsBack(stamp: string, k: nat)
    requires '-' !in stamp
    ensures OfDay(DayPrefix(stamp) + SequenceText(Some(k)), stamp)
    ensures SequenceOf(DayPrefix(stamp) + SequenceText(Some(k))) == Some(k)
  {
    var text := PadStart(NatToString(k), 3);
    assert SequenceText(Some(k)) == text;
    PaddedNumberRoundTrip(k, 3);
    AllDigitsNoDash(text);
    DayIdPieces(stamp, text);
  }

  /** The id the greatest-string rule produces is not always new: with
      sequences 999 and 1000 on one day, "999" sorts last and the next id
      repeats "1000". */
  lemma NextBatchIdRepeats(ids: seq<string>, stamp: string)
    requires stamp == "20240620"
    requires ids == [DayPrefix(stamp) + "999", DayPrefix(stamp) + "1000"]
    ensures NextBatchId(ids, stamp) == ids[1]
    ensures NextBatchId(ids, stamp) in ids
  {
    var a, b := ids[0], ids[1];
    RepeatsDay(a, b, stamp);
    RepeatsGreatest(a, b, stamp);
    RepeatsSequence(a, stamp);
    NextFromGreatest(ids, stamp, 999);
    RepeatsText();
  }

  /** The id follows the sequence of the greatest id of the day. */
  lemma NextFromGreatest(ids: seq<string>, stamp: string, k: int)
    requires |DayIds(ids, stamp)| > 0 && SequenceOf(Greatest(DayIds(ids, stamp))) == Some(k)
    ensures NextBatchId(ids, stamp) == DayPrefix(stamp) + SequenceText(Some(k + 1))
  {
  }

  lemma RepeatsDay(a: string, b: string, stamp: string)
    requires stamp == "20240620" && a == DayPrefix(stamp) + "999" && b == DayPrefix(stamp) + "1000"
    ensures DayIds([a, b], stamp) == [a, b]
  {
    assert OfDay(a, stamp) && OfDay(b, stamp);
    assert [a, b][..1] == [a];
  }

  lemma RepeatsGreatest(a: string, b: string, stamp: string)
    requires stamp == "20240620" && a == DayPrefix(stamp) + "999" && b == DayPrefix(stamp) + "1000"
    ensures Greatest([a, b]) == a
  {
    assert StrBelow(b, a) by {
      StrBelowSharedPrefix(DayPrefix(stamp), "1000", "999");
    }
    StrBelowAsymmetric(b, a);
    assert [a, b][..1] == [a];
  }

  lemma RepeatsSequence(a: string, stamp: string)
    requires stamp == "20240620" && a == DayPrefix(stamp) + "999"
    ensures SequenceOf(a) == Some(999)
  {
    DigitsValueThree();
    DayIdPieces(stamp, "999");
  }

  lemma RepeatsText()
    ensures SequenceText(Some(1000)) == "1000"
  {
    assert NatToString(1) == "1";
    assert NatToString(10) == "10";
    assert NatToString(100) == "100";
    assert NatToString(1000) == "1000";
  }

  lemma DigitsValueThree()
    ensures ParseInt("999") == Some(999)
  {
    assert NatToString(999) == "999";
    DigitsValueOfNat(999);
    ParseIntDigits("999");
  }

  lemma {:induction false} StrBelowSharedPrefix(p: string, a: string, b: string)
    requires StrBelow(a, b)
    ensures StrBelow(p + a, p + b)
  {
    if |p| > 0 {
      assert (p + a)[1..] == p[1..] + a && (p + b)[1..] == p[1..] + b;
      StrBelowSharedPrefix(p[1..], a, b);
    } else {
      assert p + a == a && p + b == b;
    }
  }

  lemma StrBelowAsymmetric(a: string, b: string)
    requires StrBelow(a, b)
    ensures !StrBelow(b, a)
  {
    if StrBelow(b, a) {
      StrBelowTransitive(a, b, a);
      StrBelowIrreflexive(a);
    }
  }
}
