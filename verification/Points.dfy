/**
 Time-indexed points (src/db/helpers/common.js): a sparse series of values keyed by ledger
 sequence, where the value at a ledger is the one stored at the latest row at or below it.

 A table is a map from a selector (the columns that identify a series) to the rows of that
 series. The unique index (selector, ledgerSequence) makes those rows a map.
 */
module Points {
  import opened Wrappers
  import opened Collections

  type Series<D> = map<int, D>

  /** The ledger sequence of the row `readPoint` finds at `s`: the highest one not above `s`. */
  function LatestAt<D>(rows: Series<D>, s: int): (r: Option<int>)
    ensures r.Some? ==> r.value in rows && 0 <= r.value <= s && forall q :: r.value < q <= s ==> q !in rows
    ensures r.None? ==> forall q :: 0 <= q <= s ==> q !in rows
    decreases s + 1
  {
    if s < 0 then None
    else if s in rows then Some(s)
    else LatestAt(rows, s - 1)
  }

  function ReadPoint<D>(rows: Series<D>, s: int): Option<D> {
    match LatestAt(rows, s)
    case Some(q) => Some(rows[q])
    case None => None
  }

  /** A metric without a row reads as zero (`metrics.supply || 0`). */
  function ReadOrZero(rows: Series<int>, s: int): int {
    ReadPoint(rows, s).GetOr(0)
  }

  ghost predicate NoRowIn<D>(rows: Series<D>, above: int, upTo: int) {
    forall q :: above < q <= upTo ==> q !in rows
  }

  /**
   The non-expirable `writePoint`: `data` is None for the source's null, `blank` is what the
   schema fills in for a row written without a value.
   */
  function AfterWrite<D(==)>(rows: Series<D>, s: int, data: Option<D>, blank: D): Series<D> {
    match (LatestAt(rows, s), data)
    case (Some(q), Some(d)) => if rows[q] == d then rows else rows[s := d]
    case (Some(q), None) => if q == s then Without(rows, s) else rows[s := blank]
    case (None, Some(d)) => rows[s := d]
    case (None, None) => rows
  }

  /** Any row with nothing between it and `s` is the one found at `s`. */
  lemma LatestIs<D>(rows: Series<D>, q: nat, s: int)
    requires q in rows && 0 <= q <= s && NoRowIn(rows, q, s)
    ensures LatestAt(rows, s) == Some(q)
  {
    var r := LatestAt(rows, s);
    assert r.Some? && r.value <= q;
  }

  /** Two series that agree on the rows up to `s` read the same there. */
  lemma ReadDependsOnPast<D>(a: Series<D>, b: Series<D>, s: int)
    requires forall q :: 0 <= q <= s ==> (q in a <==> q in b) && (q in a ==> a[q] == b[q])
    ensures LatestAt(a, s) == LatestAt(b, s) && ReadPoint(a, s) == ReadPoint(b, s)
  {
    var r := LatestAt(a, s);
    if r.Some? {
      LatestIs(b, r.value, s);
    }
  }

  /** With no row in between, a later read finds what an earlier one found. */
  lemma ReadAcrossGap<D>(rows: Series<D>, s: int, t: int)
    requires -1 <= s <= t && NoRowIn(rows, s, t)
    ensures LatestAt(rows, t) == LatestAt(rows, s) && ReadPoint(rows, t) == ReadPoint(rows, s)
  {
    var r := LatestAt(rows, s);
    if r.Some? {
      LatestIs(rows, r.value, t);
    }
  }

  /** Only the row at the written sequence can appear, change or go. */
  lemma WriteTouchesOneRow<D>(rows: Series<D>, s: int, data: Option<D>, blank: D, q: int)
    requires q != s
    ensures var after := AfterWrite(rows, s, data, blank);
            (q in after <==> q in rows) && (q in rows ==> after[q] == rows[q])
  {
  }

  /** The series stays sparse: writing the value that reads there already changes nothing, any other makes a row. */
  lemma WriteOnlyChanges<D>(rows: Series<D>, s: nat, d: D, blank: D)
    ensures ReadPoint(rows, s) == Some(d) ==> AfterWrite(rows, s, Some(d), blank) == rows
    ensures ReadPoint(rows, s) != Some(d) ==> AfterWrite(rows, s, Some(d), blank) == rows[s := d]
    ensures AfterWrite(rows, s, None, blank)
         == if s in rows then Without(rows, s) else if ReadPoint(rows, s).Some? then rows[s := blank] else rows
  {
    if s in rows {
      LatestIs(rows, s, s);
    }
  }

  /** Past the next stored row, a write at `s` is not seen. */
  lemma WriteHiddenByLaterRow<D>(rows: Series<D>, s: nat, data: Option<D>, blank: D, t: int)
    requires !(s <= t && NoRowIn(rows, s, t))
    ensures ReadPoint(AfterWrite(rows, s, data, blank), t) == ReadPoint(rows, t)
  {
    var after := AfterWrite(rows, s, data, blank);
    if t < s {
      ReadDependsOnPast(rows, after, t);
    } else {
      var r := LatestAt(rows, t);
      LatestIs(after, r.value, t);
    }
  }

  /** Writing a value makes it the value from `s` up to the next stored row, and nowhere else. */
  lemma WriteValueReads<D>(rows: Series<D>, s: nat, d: D, blank: D, t: int)
    ensures ReadPoint(AfterWrite(rows, s, Some(d), blank), t)
         == if s <= t && NoRowIn(rows, s, t) then Some(d) else ReadPoint(rows, t)
  {
    var after := AfterWrite(rows, s, Some(d), blank);
    if s <= t && NoRowIn(rows, s, t) {
      assert NoRowIn(after, s, t);
      ReadAcrossGap(after, s, t);
    } else {
      WriteHiddenByLaterRow(rows, s, Some(d), blank, t);
    }
  }

  /** Null over a row of the same ledger deletes it: the value falls back to the row before. */
  lemma DeleteFallsBack<D>(rows: Series<D>, s: nat, blank: D)
    requires s in rows
    ensures ReadPoint(AfterWrite(rows, s, None, blank), s) == ReadPoint(rows, s as int - 1)
  {
    var after := AfterWrite(rows, s, None, blank);
    assert after == Without(rows, s);
    ReadAcrossGap(after, s as int - 1, s);
    ReadDependsOnPast(rows, after, s as int - 1);
  }

  /**
   Writing null: a row at exactly `s` is deleted, so the value falls back to the row before it;
   otherwise a blank row ends an existing series, and an empty past stays empty.
   */
  lemma WriteNullReads<D>(rows: Series<D>, s: nat, blank: D, t: int)
    ensures ReadPoint(AfterWrite(rows, s, None, blank), t)
         == if !(s <= t && NoRowIn(rows, s, t)) then ReadPoint(rows, t)
            else if s in rows then ReadPoint(rows, s as int - 1)
            else if LatestAt(rows, s).Some? then Some(blank)
            else None
  {
    var after := AfterWrite(rows, s, None, blank);
    if !(s <= t && NoRowIn(rows, s, t)) {
      WriteHiddenByLaterRow(rows, s, None, blank, t);
    } else {
      assert NoRowIn(after, s, t);
      ReadAcrossGap(after, s, t);
      if s in rows {
        DeleteFallsBack(rows, s, blank);
      }
    }
  }

  /** A table of point series, updated in place by `writePoint`. */
  class PointTable<K(==, !new), D(==)> {
    var rows: map<K, Series<D>>
    const blank: D

    constructor (blank: D)
      ensures rows == map[] && this.blank == blank
    {
      rows := map[];
      this.blank := blank;
    }

    function SeriesOf(selector: K): Series<D>
      reads this
    {
      if selector in rows then rows[selector] else map[]
    }

    /** An update or a delete of a row that is gone does nothing. */
    method UpdateOne(selector: K, s: int, data: D)
      modifies this`rows
      ensures SeriesOf(selector) == (var was := old(SeriesOf(selector)); if s in was then was[s := data] else was)
      ensures forall k :: k != selector ==> SeriesOf(k) == old(SeriesOf(k))
    {
      if s in SeriesOf(selector) {
        rows := rows[selector := SeriesOf(selector)[s := data]];
      }
    }

    /** The database's insert is an upsert on the unique index. */
    method CreateOne(selector: K, s: int, data: Option<D>)
      modifies this`rows
      ensures SeriesOf(selector) == old(SeriesOf(selector))[s := data.GetOr(blank)]
      ensures forall k :: k != selector ==> SeriesOf(k) == old(SeriesOf(k))
    {
      rows := rows[selector := SeriesOf(selector)[s := data.GetOr(blank)]];
    }

    method DeleteOne(selector: K, s: int)
      modifies this`rows
      ensures SeriesOf(selector) == Without(old(SeriesOf(selector)), s)
      ensures forall k :: k != selector ==> SeriesOf(k) == old(SeriesOf(k))
    {
      rows := rows[selector := Without(SeriesOf(selector), s)];
    }

    /** `writePoint` with the source's branches, ending in the series the specification names. */
    method WritePoint(selector: K, s: int, data: Option<D>)
      modifies this`rows
      ensures SeriesOf(selector) == AfterWrite(old(SeriesOf(selector)), s, data, blank)
      ensures forall k :: k != selector ==> SeriesOf(k) == old(SeriesOf(k))
    {
      var point := LatestAt(SeriesOf(selector), s);
      if point.Some? {
        var replace := point.value == s;
        if data.Some? {
          if SeriesOf(selector)[point.value] == data.value {
            return;
          }
          if replace {
            UpdateOne(selector, s, data.value);
            return;
          }
        } else if replace {
          DeleteOne(selector, s);
          return;
        }
      }
      if data.None? && point.None? {
        return;
      }
      CreateOne(selector, s, data);
    }
  }
}
