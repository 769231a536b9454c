/** Market caps derived from exchanges (src/ledger/derived/marketcap.js). */
module Marketcap {
  import opened Wrappers
  import opened Collections
  import opened Points
  import opened TokenMetrics

  /** The first stored market cap at or above `s`. */
  function FirstFrom(rows: Series<int>, s: int): (first: Option<int>)
    ensures first.Some? ==> first.value in rows && first.value >= s && NoRowIn(rows, s - 1, first.value - 1)
    ensures first.None? ==> forall q :: q >= s ==> q !in rows
  {
    var above := set q | q in rows && q >= s;
    assert forall q :: q in rows && q >= s ==> q in above;
    if above == {} then None else Some(Least(above))
  }

  /** The last ledger the backfill may write: the one before the first stored market cap. */
  function LastBackfilled(marketcap: Series<int>, s: int): Option<int> {
    var first := FirstFrom(marketcap, s);
    if first.Some? then Some(first.value - 1) else None
  }

  function SupplyInRange(supply: Series<int>, marketcap: Series<int>, s: int): Series<int> {
    InRange(supply, s, LastBackfilled(marketcap, s))
  }

  /** The points of the backfill: supply times price at every supply row of the range, ascending. */
  function BackfillPoints(series: Series<int>, price: int, mul: (int, int) -> int): (points: seq<Point>)
    ensures |points| == |AscendingKeys(series.Keys)|
    ensures forall i :: 0 <= i < |points| ==>
              var q := AscendingKeys(series.Keys)[i]; q in series && points[i] == Point(q, Some(mul(series[q], price)))
  {
    var keys := AscendingKeys(series.Keys);
    assert forall i :: 0 <= i < |keys| ==> keys[i] in keys;
    seq(|keys|, i requires 0 <= i < |keys| => Point(keys[i], Some(mul(series[keys[i]], price))))
  }

  function MarketcapAfterExchange(
    supply: Series<int>, marketcap: Series<int>, s: int, backwards: bool,
    price: int, mul: (int, int) -> int): Series<int>
  {
    if backwards then FastPass(marketcap, BackfillPoints(SupplyInRange(supply, marketcap, s), price, mul))
    else AfterMetric(marketcap, s, match ReadPoint(supply, s) case Some(v) => mul(v, price) case None => 0)
  }

  /** What aligning an exchange to XRP gives: its base token with the price, or a failure. */
  datatype Alignment<K> = Aligned(base: K, price: int) | Failed

  /** `updateMarketcapFromExchange` at ledger `s`; the tokens of `skip` are left to the supply pass. */
  method UpdateMarketcapFromExchange<K(==, !new)>(
    supply: PointTable<K, int>, marketcap: PointTable<K, int>, exchange: Alignment<K>, skip: set<K>,
    s: int, backwards: bool, mul: (int, int) -> int)
    requires supply != marketcap && marketcap.blank == 0
    modifies marketcap`rows
    ensures exchange.Failed? || exchange.base in skip ==> marketcap.rows == old(marketcap.rows)
    ensures exchange.Aligned? && exchange.base !in skip ==>
      marketcap.SeriesOf(exchange.base)
      == MarketcapAfterExchange(
           supply.SeriesOf(exchange.base), old(marketcap.SeriesOf(exchange.base)), s, backwards, exchange.price, mul)
    ensures forall k :: (exchange.Aligned? && k == exchange.base) || marketcap.SeriesOf(k) == old(marketcap.SeriesOf(k))
  {
    hide FastPass, AfterWrite, BackfillPoints, LatestAt;
    if exchange.Failed? || exchange.base in skip {
      return;
    }
    var Aligned(base, price) := exchange;
    if backwards {
      var firstMarketcap := FirstFrom(marketcap.SeriesOf(base), s);
      var sequenceEnd := if firstMarketcap.Some? then Some(firstMarketcap.value - 1) else None;
      var series := InRange(supply.SeriesOf(base), s, sequenceEnd);
      WriteMetricSeriesBackward(marketcap, base, BackfillPoints(series, price, mul));
    } else {
      var current := ReadPoint(supply.SeriesOf(base), s);
      var value := if current.Some? then mul(current.value, price) else 0;
      marketcap.WritePoint(base, s, if value != 0 then Some(value) else None);
    }
  }

  /** The backfill meets the bulk writer's precondition, so it writes point by point. */
  lemma BackfillMeetsPrecondition(
    supply: Series<int>, marketcap: Series<int>, s: nat, price: int, mul: (int, int) -> int)
    ensures var points := BackfillPoints(SupplyInRange(supply, marketcap, s), price, mul);
            Ascending(points) && NoStrayRows(marketcap, points)
    ensures MarketcapAfterExchange(supply, marketcap, s, true, price, mul)
         == AfterWrites(marketcap, BackfillPoints(SupplyInRange(supply, marketcap, s), price, mul))
  {
    var points := BackfillPoints(SupplyInRange(supply, marketcap, s), price, mul);
    if points != [] {
      var first, last := points[0].sequence, points[|points| - 1].sequence;
      assert forall q :: first <= q <= last ==> q !in marketcap;
    }
    assert Ascending(points) && NoStrayRows(marketcap, points);
    FastPassIsWritePoint(marketcap, points);
  }

  /** Outside the backfilled supply rows nothing is written; inside, nothing was stored. */
  lemma BackfillTouchesSupplyRows(
    supply: Series<int>, marketcap: Series<int>, s: nat, price: int, mul: (int, int) -> int, q: int)
    ensures var after := MarketcapAfterExchange(supply, marketcap, s, true, price, mul);
            q !in SupplyInRange(supply, marketcap, s) ==>
              (q in after <==> q in marketcap) && (q in marketcap ==> after[q] == marketcap[q])
    ensures q in SupplyInRange(supply, marketcap, s) ==> q !in marketcap
  {
    var points := BackfillPoints(SupplyInRange(supply, marketcap, s), price, mul);
    BackfillMeetsPrecondition(supply, marketcap, s, price, mul);
    if q !in SupplyInRange(supply, marketcap, s) {
      WritesTouchPointsOnly(marketcap, points, |points|, q);
    }
  }

  /** One backfilled exchange leaves every stored market cap where it is. */
  lemma BackfillKeepsStoredRows(supply: Series<int>, marketcap: Series<int>, s: nat, price: int, mul: (int, int) -> int)
    ensures var after := MarketcapAfterExchange(supply, marketcap, s, true, price, mul);
            forall q :: q in marketcap ==> q in after && after[q] == marketcap[q]
  {
    var after := MarketcapAfterExchange(supply, marketcap, s, true, price, mul);
    forall q | q in marketcap ensures q in after && after[q] == marketcap[q] {
      BackfillTouchesSupplyRows(supply, marketcap, s, price, mul, q);
    }
  }

  /** The supply row at `q` is one of the points, and its product reads back. */
  lemma BackfilledRowReadsProduct(
    supply: Series<int>, marketcap: Series<int>, s: nat, price: int, mul: (int, int) -> int, q: int)
    requires q in SupplyInRange(supply, marketcap, s)
    ensures ReadPoint(MarketcapAfterExchange(supply, marketcap, s, true, price, mul), q) == Some(mul(supply[q], price))
  {
    var series := SupplyInRange(supply, marketcap, s);
    var points := BackfillPoints(series, price, mul);
    BackfillMeetsPrecondition(supply, marketcap, s, price, mul);
    var i :| 0 <= i < |AscendingKeys(series.Keys)| && AscendingKeys(series.Keys)[i] == q;
    SeriesReadsBack(marketcap, points, |points|, i);
  }

  /**
   From the first supply row of the range up to the ledger before the first stored market cap, every
   ledger reads its own supply times the price, not only the ledgers where supply changed.
   */
  lemma BackfillReadsSupplyTimesPrice(
    supply: Series<int>, marketcap: Series<int>, s: nat, price: int, mul: (int, int) -> int, t: int)
    requires var last := LastBackfilled(marketcap, s); last.Some? ==> t <= last.value
    requires LatestAt(supply, t).Some? && s <= LatestAt(supply, t).value
    ensures ReadPoint(MarketcapAfterExchange(supply, marketcap, s, true, price, mul), t)
         == Some(mul(ReadOrZero(supply, t), price))
  {
    var after := MarketcapAfterExchange(supply, marketcap, s, true, price, mul);
    var at := LatestAt(supply, t).value;
    BackfilledRowReadsProduct(supply, marketcap, s, price, mul, at);
    forall q | at < q <= t ensures q !in after {
      BackfillTouchesSupplyRows(supply, marketcap, s, price, mul, q);
    }
    ReadAcrossGap(after, at, t);
  }

  /**
   A ledger with no supply row between the exchange and itself reads as before, even where an older row
   gives it a supply.
   */
  lemma BackfillNeedsSupplyRow(
    supply: Series<int>, marketcap: Series<int>, s: nat, price: int, mul: (int, int) -> int, t: int)
    requires forall q :: s <= q <= t ==> q !in supply
    ensures ReadPoint(MarketcapAfterExchange(supply, marketcap, s, true, price, mul), t) == ReadPoint(marketcap, t)
  {
    var after := MarketcapAfterExchange(supply, marketcap, s, true, price, mul);
    forall q | 0 <= q <= t ensures (q in after <==> q in marketcap) && (q in marketcap ==> after[q] == marketcap[q]) {
      BackfillTouchesSupplyRows(supply, marketcap, s, price, mul, q);
    }
    ReadDependsOnPast(marketcap, after, t);
  }

  /** Ledgers below the exchange and ledgers from the first stored market cap on read as before. */
  lemma BackfillReadsOutsideUnchanged(
    supply: Series<int>, marketcap: Series<int>, s: nat, price: int, mul: (int, int) -> int, t: int)
    requires var last := LastBackfilled(marketcap, s); t < s || (last.Some? && last.value < t)
    ensures ReadPoint(MarketcapAfterExchange(supply, marketcap, s, true, price, mul), t) == ReadPoint(marketcap, t)
  {
    var after := MarketcapAfterExchange(supply, marketcap, s, true, price, mul);
    forall q | q !in SupplyInRange(supply, marketcap, s)
      ensures (q in after <==> q in marketcap) && (q in marketcap ==> after[q] == marketcap[q])
    {
      BackfillTouchesSupplyRows(supply, marketcap, s, price, mul, q);
    }
    if t < s {
      ReadDependsOnPast(marketcap, after, t);
    } else {
      var r := LatestAt(marketcap, t);
      assert r.Some? && r.value > LastBackfilled(marketcap, s).value;
      LatestIs(after, r.value, t);
    }
  }

  /** The market cap at ledger `s`: the supply read there times the price, zero where none is. */
  function ProductAt(supply: Series<int>, s: int, price: int, mul: (int, int) -> int): int {
    match ReadPoint(supply, s)
    case Some(v) => mul(v, price)
    case None => 0
  }

  /**
   An exchange going forward: from its ledger up to the next stored market cap, every ledger reads the
   supply at that ledger times the price. The exception is a zero over a market cap of the same ledger,
   which brings back the one before. All other ledgers read as before.
   */
  lemma ForwardReads(
    supply: Series<int>, marketcap: Series<int>, s: nat, price: int, mul: (int, int) -> int, t: int)
    ensures ReadOrZero(MarketcapAfterExchange(supply, marketcap, s, false, price, mul), t)
         == if t < s || !NoRowIn(marketcap, s, t) then ReadOrZero(marketcap, t)
            else if ProductAt(supply, s, price, mul) == 0 && s in marketcap then ReadOrZero(marketcap, s as int - 1)
            else ProductAt(supply, s, price, mul)
  {
    hide AfterWrite, LatestAt;
    var v := ProductAt(supply, s, price, mul);
    if v != 0 {
      WriteValueReads(marketcap, s, v, 0, t);
    } else {
      WriteNullReads(marketcap, s, 0, t);
    }
  }
}
