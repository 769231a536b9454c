/**
 Metric series of a token (src/db/helpers/tokenmetrics.js): one point at a time, and the one-pass
 fast form that backfills a whole series.
 */
module TokenMetrics {
  import opened Wrappers
  import opened Collections
  import opened Points

  /** A point to write, at a ledger sequence; None stands for the source's null, a zero. */
  datatype Point = Point(sequence: int, value: Option<int>)

  predicate Ascending(points: seq<Point>) {
    (forall i :: 0 <= i < |points| ==> 0 <= points[i].sequence)
    && (forall i, j :: 0 <= i < j < |points| ==> points[i].sequence < points[j].sequence)
  }

  /** One of the first `n` points is at `q`. */
  ghost predicate HasPointAt(points: seq<Point>, n: int, q: int) {
    exists i :: 0 <= i < n <= |points| && points[i].sequence == q
  }

  /** The documented precondition: inside the range, rows exist only at the points' sequences. */
  ghost predicate NoStrayRows(rows: Series<int>, points: seq<Point>) {
    |points| > 0 ==>
      forall q :: q in rows && points[0].sequence <= q <= points[|points| - 1].sequence ==>
        HasPointAt(points, |points|, q)
  }

  /** The reference form after its first `n` points: `writePoint` once per point, in order. */
  function AfterFirst(rows: Series<int>, points: seq<Point>, n: nat): Series<int>
    requires n <= |points|
  {
    if n == 0 then rows
    else AfterWrite(AfterFirst(rows, points, n - 1), points[n - 1].sequence, points[n - 1].value, 0)
  }

  function AfterWrites(rows: Series<int>, points: seq<Point>): Series<int> {
    AfterFirst(rows, points, |points|)
  }

  /** `readTokenMetricSeries`, as the rows it selects. */
  function InRange(rows: Series<int>, lo: int, hi: Option<int>): Series<int> {
    map q | q in rows && lo <= q && (hi.Some? ==> q <= hi.value) :: rows[q]
  }

  datatype Pass = Pass(rows: Series<int>, prev: Option<int>)

  /** One round of the fast loop; `existing` is the snapshot taken before it. */
  function FastStep(existing: Series<int>, pass: Pass, p: Point): Pass {
    var s := p.sequence;
    match p.value
    case Some(v) =>
      var pointValue := if s in existing then Some(existing[s]) else pass.prev;
      var write := pointValue != p.value && (s in existing ==> s in pass.rows);
      Pass(if write then pass.rows[s := v] else pass.rows, p.value)
    case None =>
      if s in existing then Pass(Without(pass.rows, s), pass.prev)
      else if pass.prev.Some? then Pass(pass.rows[s := 0], Some(0))
      else pass
  }

  function FastLoop(existing: Series<int>, start: Pass, points: seq<Point>, n: nat): Pass
    requires n <= |points|
  {
    if n == 0 then start
    else FastStep(existing, FastLoop(existing, start, points, n - 1), points[n - 1])
  }

  /** The rows of the range, read once before the loop. */
  function Existing(rows: Series<int>, points: seq<Point>): Series<int>
    requires points != []
  {
    InRange(rows, points[0].sequence, Some(points[|points| - 1].sequence))
  }

  /** The loop starts from the value anchored just below the range. */
  function Start(rows: Series<int>, points: seq<Point>): Pass
    requires points != []
  {
    Pass(rows, ReadPoint(rows, points[0].sequence - 1))
  }

  function FastPass(rows: Series<int>, points: seq<Point>): Series<int> {
    if points == [] then rows
    else FastLoop(Existing(rows, points), Start(rows, points), points, |points|).rows
  }

  /** `writeMetricSeriesBackward`: one range read, one anchor read, then one write at most per point. */
  method WriteMetricSeriesBackward<K(==, !new)>(table: PointTable<K, int>, token: K, points: seq<Point>)
    requires table.blank == 0
    modifies table`rows
    ensures table.SeriesOf(token) == FastPass(old(table.SeriesOf(token)), points)
    ensures forall k :: k != token ==> table.SeriesOf(k) == old(table.SeriesOf(k))
  {
    if |points| == 0 {
      return;
    }
    ghost var start := Start(table.SeriesOf(token), points);
    var sequenceStart := points[0].sequence;
    var sequenceEnd := points[|points| - 1].sequence;
    var existing := InRange(table.SeriesOf(token), sequenceStart, Some(sequenceEnd));
    var prev := ReadPoint(table.SeriesOf(token), sequenceStart - 1);
    for i := 0 to |points|
      invariant Pass(table.SeriesOf(token), prev) == FastLoop(existing, start, points, i)
      invariant forall k :: k != token ==> table.SeriesOf(k) == old(table.SeriesOf(k))
    {
      var p := points[i];
      var s := p.sequence;
      if p.value.Some? {
        var pointValue := if s in existing then Some(existing[s]) else prev;
        if pointValue != p.value {
          if s in existing {
            table.UpdateOne(token, s, p.value.value);
          } else {
            table.CreateOne(token, s, p.value);
          }
        }
        prev := p.value;
      } else if s in existing {
        table.DeleteOne(token, s);
      } else if prev.Some? {
        table.CreateOne(token, s, None);
        prev := Some(0);
      }
    }
  }

  /** Rows at other sequences are left as they were. */
  lemma {:induction false} WritesTouchPointsOnly(rows: Series<int>, points: seq<Point>, n: nat, q: int)
    requires n <= |points| && !HasPointAt(points, n, q)
    ensures q in AfterFirst(rows, points, n) <==> q in rows
    ensures q in rows ==> AfterFirst(rows, points, n)[q] == rows[q]
  {
    if n > 0 {
      assert points[n - 1].sequence != q;
      WritesTouchPointsOnly(rows, points, n - 1, q);
      WriteTouchesOneRow(AfterFirst(rows, points, n - 1), points[n - 1].sequence, points[n - 1].value, 0, q);
    }
  }

  /** One round of the fast loop is one `writePoint`, as long as it remembers the value below. */
  lemma FastStepIsWritePoint(existing: Series<int>, table: Series<int>, p: Point)
    requires 0 <= p.sequence && (p.sequence in existing <==> p.sequence in table)
    requires p.sequence in table ==> existing[p.sequence] == table[p.sequence]
    ensures FastStep(existing, Pass(table, ReadPoint(table, p.sequence - 1)), p)
         == Pass(
              AfterWrite(table, p.sequence, p.value, 0),
              ReadPoint(AfterWrite(table, p.sequence, p.value, 0), p.sequence))
  {
    var s := p.sequence;
    if s !in table {
      ReadAcrossGap(table, s - 1, s);
    }
    match p.value
    case Some(v) => WriteValueReads(table, s, v, 0, s);
    case None => WriteNullReads(table, s, 0, s);
  }

  /** Between two points of the series there is no row. */
  lemma NoRowBetweenPoints(rows: Series<int>, points: seq<Point>, n: nat)
    requires Ascending(points) && NoStrayRows(rows, points) && 0 < n < |points|
    ensures NoRowIn(AfterFirst(rows, points, n), points[n - 1].sequence, points[n].sequence - 1)
  {
    forall q | points[n - 1].sequence < q < points[n].sequence ensures q !in AfterFirst(rows, points, n) {
      assert !HasPointAt(points, |points|, q);
      WritesTouchPointsOnly(rows, points, n, q);
    }
  }

  /** The snapshot taken before the loop still tells what is stored at the next point. */
  lemma SnapshotHolds(rows: Series<int>, points: seq<Point>, n: nat)
    requires Ascending(points) && n < |points|
    ensures var s, table, existing := points[n].sequence, AfterFirst(rows, points, n), Existing(rows, points);
            (s in existing <==> s in table) && (s in table ==> existing[s] == table[s])
  {
    WritesTouchPointsOnly(rows, points, n, points[n].sequence);
  }

  /** What the fast loop carries: the reference table so far, and the value it reads last. */
  lemma {:induction false} FastLoopCarries(rows: Series<int>, points: seq<Point>, n: nat)
    requires Ascending(points) && NoStrayRows(rows, points) && 0 < n <= |points|
    ensures FastLoop(Existing(rows, points), Start(rows, points), points, n)
         == Pass(AfterFirst(rows, points, n), ReadPoint(AfterFirst(rows, points, n), points[n - 1].sequence))
  {
    var table := AfterFirst(rows, points, n - 1);
    if n > 1 {
      FastLoopCarries(rows, points, n - 1);
      NoRowBetweenPoints(rows, points, n - 1);
      ReadAcrossGap(table, points[n - 2].sequence, points[n - 1].sequence - 1);
    }
    SnapshotHolds(rows, points, n - 1);
    FastStepIsWritePoint(Existing(rows, points), table, points[n - 1]);
  }

  /** The fast pass leaves exactly the table that writing point by point leaves. */
  lemma FastPassIsWritePoint(rows: Series<int>, points: seq<Point>)
    requires Ascending(points) && NoStrayRows(rows, points)
    ensures FastPass(rows, points) == AfterWrites(rows, points)
  {
    if points != [] {
      FastLoopCarries(rows, points, |points|);
    }
  }

  // ---- With stray rows ----

  /** What the row at a point becomes, given what is stored there and the value below. */
  function RowAfter(p: Point, stored: Option<int>, below: Option<int>): Option<int> {
    match p.value
    case Some(v) => if stored.None? && below == p.value then None else p.value
    case None => if stored.None? && below.Some? then Some(0) else None
  }

  function Stored(rows: Series<int>, q: int): Option<int> {
    if q in rows then Some(rows[q]) else None
  }

  /** The value from a point on: its own, or its zero's, which deletes its row or ends the value below. */
  function ValueFrom(p: Point, stored: Option<int>, below: Option<int>): Option<int> {
    if p.value.Some? then p.value else if stored.None? && below.Some? then Some(0) else below
  }

  /** What the fast loop remembers as it comes to point `i`, told from the rows before the pass. */
  function Remembered(rows: Series<int>, points: seq<Point>, i: int): Option<int>
    requires 0 <= i < |points|
    decreases i
  {
    if i == 0 then ReadPoint(rows, points[0].sequence - 1)
    else ValueFrom(points[i - 1], Stored(rows, points[i - 1].sequence), Remembered(rows, points, i - 1))
  }

  /** What `writePoint` finds below point `i`, told from the rows before: a stray row in between comes first. */
  function Below(rows: Series<int>, points: seq<Point>, i: int): Option<int>
    requires 0 <= i < |points|
    decreases i
  {
    if i == 0 then ReadPoint(rows, points[0].sequence - 1)
    else
      var stray := LatestAt(rows, points[i].sequence - 1);
      if stray.Some? && stray.value > points[i - 1].sequence then Some(rows[stray.value])
      else ValueFrom(points[i - 1], Stored(rows, points[i - 1].sequence), Below(rows, points, i - 1))
  }

  /** Whether a point without a row gets one: a value that differs from the one below, a zero with a past. */
  predicate NeedsRow(p: Point, below: Option<int>) {
    if p.value.Some? then below != p.value else below.Some?
  }

  lemma RowAfterIff(p: Point, stored: Option<int>, below: Option<int>, below': Option<int>)
    ensures RowAfter(p, stored, below) == RowAfter(p, stored, below')
       <==> stored.Some? || (NeedsRow(p, below) <==> NeedsRow(p, below'))
  {
  }

  /** A write gives the row `RowAfter`, and from there on the value `ValueFrom`. */
  lemma WriteGives(table: Series<int>, p: Point)
    requires 0 <= p.sequence
    ensures var s, stored, below := p.sequence, Stored(table, p.sequence), ReadPoint(table, p.sequence - 1);
            Stored(AfterWrite(table, s, p.value, 0), s) == RowAfter(p, stored, below)
            && ReadPoint(AfterWrite(table, s, p.value, 0), s) == ValueFrom(p, stored, below)
  {
    var s := p.sequence;
    if s !in table {
      ReadAcrossGap(table, s - 1, s);
    }
    match p.value
    case Some(v) => WriteValueReads(table, s, v, 0, s);
    case None => WriteNullReads(table, s, 0, s);
  }

  /** Later writes leave a point's row alone. */
  lemma {:induction false} RowKept(rows: Series<int>, points: seq<Point>, i: int, n: nat)
    requires Ascending(points) && 0 <= i < n <= |points|
    ensures Stored(AfterFirst(rows, points, n), points[i].sequence)
         == Stored(AfterFirst(rows, points, i + 1), points[i].sequence)
  {
    if i + 1 < n {
      RowKept(rows, points, i, n - 1);
      var p := points[n - 1];
      WriteTouchesOneRow(AfterFirst(rows, points, n - 1), p.sequence, p.value, 0, points[i].sequence);
    }
  }

  lemma {:induction false} SlowFindsBelow(rows: Series<int>, points: seq<Point>, i: int)
    requires Ascending(points) && 0 <= i < |points|
    ensures ReadPoint(AfterFirst(rows, points, i), points[i].sequence - 1) == Below(rows, points, i)
    ensures Stored(AfterFirst(rows, points, i), points[i].sequence) == Stored(rows, points[i].sequence)
  {
    hide ReadPoint, ValueFrom, AfterWrite;
    WritesTouchPointsOnly(rows, points, i, points[i].sequence);
    if i > 0 {
      SlowFindsBelow(rows, points, i - 1);
      WriteGives(AfterFirst(rows, points, i - 1), points[i - 1]);
      BetweenPoints(rows, points, i);
    }
  }

  /** Just below point `i`: the latest stray row since the point before, or else that point's value. */
  lemma BetweenPoints(rows: Series<int>, points: seq<Point>, i: int)
    requires Ascending(points) && 0 < i < |points|
    ensures var table, q, top := AfterFirst(rows, points, i), points[i - 1].sequence, points[i].sequence - 1;
            var stray := LatestAt(rows, top);
            ReadPoint(table, top)
              == (if stray.Some? && stray.value > q then Some(rows[stray.value]) else ReadPoint(table, q))
  {
    var table, q, top := AfterFirst(rows, points, i), points[i - 1].sequence, points[i].sequence - 1;
    forall r | q < r <= top ensures (r in table <==> r in rows) && (r in rows ==> table[r] == rows[r]) {
      WritesTouchPointsOnly(rows, points, i, r);
    }
    SameAbove(table, rows, q, top);
  }

  lemma SameAbove(table: Series<int>, rows: Series<int>, q: int, top: int)
    requires 0 <= q <= top
    requires forall r :: q < r <= top ==> (r in table <==> r in rows) && (r in rows ==> table[r] == rows[r])
    ensures var stray := LatestAt(rows, top);
            ReadPoint(table, top)
              == (if stray.Some? && stray.value > q then Some(rows[stray.value]) else ReadPoint(table, q))
  {
    var stray := LatestAt(rows, top);
    if stray.Some? && stray.value > q {
      LatestIs(table, stray.value, top);
    } else {
      ReadAcrossGap(table, q, top);
    }
  }

  /** The reference form's row at a point. */
  lemma SlowRow(rows: Series<int>, points: seq<Point>, i: int)
    requires Ascending(points) && 0 <= i < |points|
    ensures Stored(AfterWrites(rows, points), points[i].sequence)
         == RowAfter(points[i], Stored(rows, points[i].sequence), Below(rows, points, i))
  {
    hide ReadPoint, RowAfter, ValueFrom, AfterWrite;
    SlowFindsBelow(rows, points, i);
    WriteGives(AfterFirst(rows, points, i), points[i]);
    RowKept(rows, points, i, |points|);
  }

  /** What the fast loop carries from point to point, whatever rows there are. */
  lemma {:induction false} FastRemembers(rows: Series<int>, points: seq<Point>, n: nat)
    requires Ascending(points) && n < |points|
    ensures FastLoop(Existing(rows, points), Start(rows, points), points, n).prev == Remembered(rows, points, n)
  {
    hide ReadPoint;
    if n > 0 {
      FastRemembers(rows, points, n - 1);
      assert points[n - 1].sequence in Existing(rows, points) <==> points[n - 1].sequence in rows;
    }
  }

  lemma {:induction false} FastTouchesPointsOnly(rows: Series<int>, points: seq<Point>, n: nat, q: int)
    requires points != [] && n <= |points| && !HasPointAt(points, n, q)
    ensures Stored(FastLoop(Existing(rows, points), Start(rows, points), points, n).rows, q) == Stored(rows, q)
  {
    hide ReadPoint, Existing;
    if n > 0 {
      assert points[n - 1].sequence != q;
      assert !HasPointAt(points, n - 1, q);
      FastTouchesPointsOnly(rows, points, n - 1, q);
    }
  }

  lemma FastStepRow(existing: Series<int>, pass: Pass, p: Point)
    requires p.sequence in existing <==> p.sequence in pass.rows
    requires p.sequence in existing ==> existing[p.sequence] == pass.rows[p.sequence]
    ensures Stored(FastStep(existing, pass, p).rows, p.sequence)
         == RowAfter(p, Stored(pass.rows, p.sequence), pass.prev)
  {
  }

  /** The row the fast loop leaves at a point. */
  lemma {:induction false} FastRow(rows: Series<int>, points: seq<Point>, n: nat, i: int)
    requires Ascending(points) && 0 <= i < n <= |points|
    ensures Stored(FastLoop(Existing(rows, points), Start(rows, points), points, n).rows, points[i].sequence)
         == RowAfter(points[i], Stored(rows, points[i].sequence), Remembered(rows, points, i))
  {
    hide ReadPoint, RowAfter, FastStep, Start;
    var existing, q := Existing(rows, points), points[i].sequence;
    var pass := FastLoop(existing, Start(rows, points), points, n - 1);
    if i == n - 1 {
      assert !HasPointAt(points, i, q);
      FastTouchesPointsOnly(rows, points, i, q);
      FastRemembers(rows, points, i);
      assert Stored(pass.rows, q) == Stored(rows, q);
      FastStepRow(existing, pass, points[i]);
    } else {
      FastRow(rows, points, n - 1, i);
      FastStepKeeps(existing, pass, points[n - 1], q);
    }
  }

  lemma FastStepKeeps(existing: Series<int>, pass: Pass, p: Point, q: int)
    requires p.sequence != q
    ensures Stored(FastStep(existing, pass, p).rows, q) == Stored(pass.rows, q)
  {
  }

  /** Where the loop and the reference form see the same need. */
  predicate SameNeed(rows: Series<int>, points: seq<Point>, i: int)
    requires 0 <= i < |points|
  {
    points[i].sequence in rows
    || (NeedsRow(points[i], Remembered(rows, points, i)) <==> NeedsRow(points[i], Below(rows, points, i)))
  }

  lemma SameRowIff(rows: Series<int>, points: seq<Point>, i: int)
    requires Ascending(points) && 0 <= i < |points|
    ensures Stored(FastPass(rows, points), points[i].sequence) == Stored(AfterWrites(rows, points), points[i].sequence)
       <==> SameNeed(rows, points, i)
  {
    hide RowAfter, NeedsRow, AfterWrites, ReadPoint;
    SlowRow(rows, points, i);
    FastRow(rows, points, |points|, i);
    RowAfterIff(points[i], Stored(rows, points[i].sequence), Remembered(rows, points, i), Below(rows, points, i));
  }

  lemma SameElsewhere(rows: Series<int>, points: seq<Point>, q: int)
    requires Ascending(points) && points != [] && !HasPointAt(points, |points|, q)
    ensures Stored(FastPass(rows, points), q) == Stored(AfterWrites(rows, points), q)
  {
    FastTouchesPointsOnly(rows, points, |points|, q);
    WritesTouchPointsOnly(rows, points, |points|, q);
  }

  lemma SameTables(a: Series<int>, b: Series<int>)
    requires forall q :: Stored(a, q) == Stored(b, q)
    ensures a == b
  {
    forall q ensures (q in a <==> q in b) && (q in a ==> a[q] == b[q]) {
      assert Stored(a, q) == Stored(b, q);
    }
  }

  /**
   When the fast pass is right, whatever rows are stored: at every point without a row, the remembered
   value and the value actually below must agree on whether the point needs one.
   */
  lemma FastPassIsWritePointIff(rows: Series<int>, points: seq<Point>)
    requires Ascending(points)
    ensures FastPass(rows, points) == AfterWrites(rows, points)
       <==> forall i :: 0 <= i < |points| ==> SameNeed(rows, points, i)
  {
    hide FastPass, AfterWrites, SameNeed, Stored;
    if points == [] {
      NoPointsNoChange(rows);
    } else {
      forall i | 0 <= i < |points|
        ensures Stored(FastPass(rows, points), points[i].sequence)
             == Stored(AfterWrites(rows, points), points[i].sequence)
           <==> SameNeed(rows, points, i)
      {
        SameRowIff(rows, points, i);
      }
      if forall i :: 0 <= i < |points| ==> SameNeed(rows, points, i) {
        forall q ensures Stored(FastPass(rows, points), q) == Stored(AfterWrites(rows, points), q) {
          if !HasPointAt(points, |points|, q) { SameElsewhere(rows, points, q); }
        }
        SameTables(FastPass(rows, points), AfterWrites(rows, points));
      }
    }
  }

  lemma NoPointsNoChange(rows: Series<int>)
    ensures FastPass(rows, []) == AfterWrites(rows, []) == rows
  {
  }

  ghost predicate AllValues(points: seq<Point>) {
    forall i :: 0 <= i < |points| ==> points[i].value.Some?
  }

  /**
   For a series without nulls: every point has a row, or no stray row since the point before, or repeats
   that point's value exactly if it repeats the stray row's.
   */
  lemma FastPassOfValuesIff(rows: Series<int>, points: seq<Point>)
    requires Ascending(points) && AllValues(points)
    ensures FastPass(rows, points) == AfterWrites(rows, points)
       <==> forall i :: 0 < i < |points| ==>
              points[i].sequence in rows
              || NoRowIn(rows, points[i - 1].sequence, points[i].sequence)
              || (points[i - 1].value == points[i].value <==> ReadPoint(rows, points[i].sequence) == points[i].value)
  {
    hide FastPass, AfterWrites;
    FastPassIsWritePointIff(rows, points);
    forall i | 0 <= i < |points|
      ensures SameNeed(rows, points, i)
         <==> i == 0 || points[i].sequence in rows
              || NoRowIn(rows, points[i - 1].sequence, points[i].sequence)
              || (points[i - 1].value == points[i].value <==> ReadPoint(rows, points[i].sequence) == points[i].value)
    {
      if i > 0 { ValuesSameNeed(rows, points, i); }
    }
  }

  lemma ValuesSameNeed(rows: Series<int>, points: seq<Point>, i: int)
    requires Ascending(points) && AllValues(points) && 0 < i < |points|
    ensures SameNeed(rows, points, i)
       <==> points[i].sequence in rows
            || NoRowIn(rows, points[i - 1].sequence, points[i].sequence)
            || (points[i - 1].value == points[i].value <==> ReadPoint(rows, points[i].sequence) == points[i].value)
  {
    var q, s := points[i - 1].sequence, points[i].sequence;
    assert Remembered(rows, points, i) == points[i - 1].value;
    if s !in rows {
      ReadAcrossGap(rows, s - 1, s);
    }
  }

  /** Two points of one value with another value's row between them: the second point is not written. */
  lemma StrayRowBreaksFastPass()
    ensures var rows: Series<int> := map[5 := 7];
            var points := [Point(1, Some(10)), Point(9, Some(10))];
            Ascending(points) && !NoStrayRows(rows, points) && FastPass(rows, points) != AfterWrites(rows, points)
  {
    var rows: Series<int> := map[5 := 7];
    var points := [Point(1, Some(10)), Point(9, Some(10))];
    assert !HasPointAt(points, 2, 5);
    LatestIs(rows, 5, 9);
    FastPassOfValuesIff(rows, points);
  }

  /** Every value of the series reads back at its own sequence. */
  lemma {:induction false} SeriesReadsBack(rows: Series<int>, points: seq<Point>, n: nat, i: nat)
    requires Ascending(points) && i < n <= |points| && points[i].value.Some?
    ensures ReadPoint(AfterFirst(rows, points, n), points[i].sequence) == points[i].value
  {
    var table, p := AfterFirst(rows, points, n - 1), points[n - 1];
    if i < n - 1 {
      SeriesReadsBack(rows, points, n - 1, i);
      WriteHiddenByLaterRow(table, p.sequence, p.value, 0, points[i].sequence);
    } else {
      WriteValueReads(table, p.sequence, p.value.value, 0, p.sequence);
    }
  }

  /** Writing the point again would change nothing: its value is there, or its zero has no past to end. */
  ghost predicate Settled(rows: Series<int>, p: Point) {
    if p.value.Some? then ReadPoint(rows, p.sequence) == p.value else LatestAt(rows, p.sequence).None?
  }

  lemma SettledIffUnchanged(rows: Series<int>, p: Point)
    requires 0 <= p.sequence
    ensures Settled(rows, p) ==> AfterWrite(rows, p.sequence, p.value, 0) == rows
    ensures !Settled(rows, p) && p.value.None? ==>
              (p.sequence in AfterWrite(rows, p.sequence, p.value, 0) <==> p.sequence !in rows)
  {
    if p.sequence in rows {
      LatestIs(rows, p.sequence, p.sequence);
    }
  }

  lemma {:induction false} SettledPointsChangeNothing(rows: Series<int>, points: seq<Point>, n: nat)
    requires n <= |points| && forall i :: 0 <= i < n ==> 0 <= points[i].sequence && Settled(rows, points[i])
    ensures AfterFirst(rows, points, n) == rows
  {
    if n > 0 {
      SettledPointsChangeNothing(rows, points, n - 1);
      SettledIffUnchanged(rows, points[n - 1]);
    }
  }

  /** A zero that is not settled loses its row or gains one, and no later point restores it. */
  lemma {:induction false} UnsettledPointChanges(once: Series<int>, points: seq<Point>, n: nat, i: nat)
    requires Ascending(points) && i < n <= |points|
    requires forall j :: 0 <= j < i ==> Settled(once, points[j])
    requires !Settled(once, points[i]) && points[i].value.None?
    ensures points[i].sequence in AfterFirst(once, points, n) <==> points[i].sequence !in once
  {
    var p := points[n - 1];
    if i == n - 1 {
      SettledPointsChangeNothing(once, points, i);
      SettledIffUnchanged(once, p);
    } else {
      UnsettledPointChanges(once, points, n - 1, i);
      WriteTouchesOneRow(AfterFirst(once, points, n - 1), p.sequence, p.value, 0, points[i].sequence);
    }
  }

  lemma FirstUnsettled(rows: Series<int>, points: seq<Point>, k: nat) returns (i: nat)
    requires k < |points| && !Settled(rows, points[k])
    ensures i < |points| && !Settled(rows, points[i]) && forall j :: 0 <= j < i ==> Settled(rows, points[j])
  {
    i := 0;
    while Settled(rows, points[i])
      invariant i <= k && forall j :: 0 <= j < i ==> Settled(rows, points[j])
      decreases k - i
    {
      i := i + 1;
    }
  }

  /**
   A second pass over the same series changes nothing exactly when no zero point has a row at or
   below it. In particular it is harmless for a series without zeros, and it undoes the marker of
   every zero that followed a value.
   */
  lemma SecondPassIdempotentIff(rows: Series<int>, points: seq<Point>)
    requires Ascending(points)
    ensures AfterWrites(AfterWrites(rows, points), points) == AfterWrites(rows, points)
       <==> forall i :: 0 <= i < |points| && points[i].value.None? ==>
         LatestAt(AfterWrites(rows, points), points[i].sequence).None?
  {
    var once := AfterWrites(rows, points);
    forall i | 0 <= i < |points| && points[i].value.Some? ensures Settled(once, points[i]) {
      SeriesReadsBack(rows, points, |points|, i);
    }
    if forall i :: 0 <= i < |points| ==> Settled(once, points[i]) {
      SettledPointsChangeNothing(once, points, |points|);
    } else {
      var k :| 0 <= k < |points| && !Settled(once, points[k]);
      var i := FirstUnsettled(once, points, k);
      UnsettledPointChanges(once, points, |points|, i);
    }
  }

  /** Told from the rows before: only zeros come before a zero, and every row up to it is at one of them. */
  ghost predicate OnlyZerosUpTo(rows: Series<int>, points: seq<Point>, i: int)
    requires 0 <= i < |points|
  {
    (forall j :: 0 <= j <= i ==> points[j].value.None?)
    && forall q :: q in rows && 0 <= q <= points[i].sequence ==> HasPointAt(points, i + 1, q)
  }

  /** With nothing but zeros up to point `i`, every row up to it goes and none is added. */
  lemma {:induction false} ZerosLeaveNothing(rows: Series<int>, points: seq<Point>, i: int)
    requires Ascending(points) && 0 <= i < |points| && OnlyZerosUpTo(rows, points, i)
    ensures NoRowIn(AfterFirst(rows, points, i + 1), -1, points[i].sequence)
  {
    hide AfterWrite;
    var before, s := AfterFirst(rows, points, i), points[i].sequence;
    if i > 0 {
      forall q | q in rows && 0 <= q <= points[i - 1].sequence ensures HasPointAt(points, i, q) {
        assert HasPointAt(points, i + 1, q);
      }
      ZerosLeaveNothing(rows, points, i - 1);
    }
    forall q | 0 <= q < s ensures q !in before {
      if i == 0 || q > points[i - 1].sequence {
        assert !HasPointAt(points, i + 1, q) && !HasPointAt(points, i, q);
        WritesTouchPointsOnly(rows, points, i, q);
      }
    }
    ZeroOverNothing(before, s);
  }

  lemma ZeroOverNothing(table: Series<int>, s: int)
    requires 0 <= s && NoRowIn(table, -1, s - 1)
    ensures NoRowIn(AfterWrite(table, s, None, 0), -1, s)
  {
    if s in table {
      LatestIs(table, s, s);
    }
  }

  /** After a pass there is no row at or below a zero exactly if there were only zeros up to it. */
  lemma NothingUpToZeroIff(rows: Series<int>, points: seq<Point>, i: int)
    requires Ascending(points) && 0 <= i < |points| && points[i].value.None?
    ensures LatestAt(AfterWrites(rows, points), points[i].sequence).None? <==> OnlyZerosUpTo(rows, points, i)
  {
    hide AfterWrite, ReadPoint;
    var n, s, once := |points|, points[i].sequence, AfterWrites(rows, points);
    if OnlyZerosUpTo(rows, points, i) {
      ZerosLeaveNothing(rows, points, i);
      forall q | 0 <= q <= s ensures q !in once {
        RowsUpToKept(rows, points, i, n, q);
      }
    } else if j :| 0 <= j <= i && points[j].value.Some? {
      SeriesReadsBack(rows, points, n, j);
      assert ReadPoint(once, points[j].sequence).Some?;
      SomeRowUpTo(once, points[j].sequence, s);
    } else {
      var q :| q in rows && 0 <= q <= s && !HasPointAt(points, i + 1, q);
      assert !HasPointAt(points, n, q);
      WritesTouchPointsOnly(rows, points, n, q);
    }
  }

  lemma SomeRowUpTo(rows: Series<int>, q: int, s: int)
    requires q <= s && ReadPoint(rows, q).Some?
    ensures LatestAt(rows, s).Some?
  {
    var r := LatestAt(rows, q);
    assert r.Some?;
  }

  lemma {:induction false} RowsUpToKept(rows: Series<int>, points: seq<Point>, i: int, n: nat, q: int)
    requires Ascending(points) && 0 <= i < n <= |points| && q <= points[i].sequence
    ensures q in AfterFirst(rows, points, n) <==> q in AfterFirst(rows, points, i + 1)
  {
    if i + 1 < n {
      RowsUpToKept(rows, points, i, n - 1, q);
      WriteTouchesOneRow(AfterFirst(rows, points, n - 1), points[n - 1].sequence, points[n - 1].value, 0, q);
    }
  }

  /** A pass keeps the precondition. */
  lemma PassKeepsNoStrayRows(rows: Series<int>, points: seq<Point>)
    requires NoStrayRows(rows, points)
    ensures NoStrayRows(AfterWrites(rows, points), points)
  {
    if points != [] {
      var once, first, last := AfterWrites(rows, points), points[0].sequence, points[|points| - 1].sequence;
      forall q | q in once && first <= q <= last ensures HasPointAt(points, |points|, q) {
        if !HasPointAt(points, |points|, q) { WritesTouchPointsOnly(rows, points, |points|, q); }
      }
    }
  }

  /**
   The bulk pass twice: the second changes nothing exactly if, before the first, nothing but zeros was
   stored or declared up to each zero of the series. A series without zeros can always be passed again.
   */
  lemma SecondFastPassIdempotentIff(rows: Series<int>, points: seq<Point>)
    requires Ascending(points) && NoStrayRows(rows, points)
    ensures FastPass(FastPass(rows, points), points) == FastPass(rows, points)
       <==> forall i :: 0 <= i < |points| && points[i].value.None? ==> OnlyZerosUpTo(rows, points, i)
  {
    hide FastPass, AfterWrites, OnlyZerosUpTo, NoStrayRows;
    FastPassIsWritePoint(rows, points);
    PassKeepsNoStrayRows(rows, points);
    FastPassIsWritePoint(AfterWrites(rows, points), points);
    SecondPassIdempotentIff(rows, points);
    forall i | 0 <= i < |points| && points[i].value.None?
      ensures LatestAt(AfterWrites(rows, points), points[i].sequence).None? <==> OnlyZerosUpTo(rows, points, i)
    {
      NothingUpToZeroIff(rows, points, i);
    }
  }

  /** `writeTokenMetrics` for one metric: a value that prints as '0' is written as null. */
  function AfterMetric(rows: Series<int>, s: int, value: int): Series<int> {
    AfterWrite(rows, s, if value != 0 then Some(value) else None, 0)
  }

  /**
   A metric reads back what was written except in one case: writing zero over a row of the same
   ledger deletes that row, so the read falls back to the ledger before.
   */
  lemma MetricReadsBackIff(rows: Series<int>, s: nat, value: int)
    ensures ReadOrZero(AfterMetric(rows, s, value), s) == value
       <==> value != 0 || s !in rows || ReadOrZero(rows, s as int - 1) == 0
  {
    if value != 0 {
      WriteValueReads(rows, s, value, 0, s);
    } else {
      WriteNullReads(rows, s, 0, s);
    }
  }

  /**
   A zero passed as a value and a zero passed as null leave the same table only when they end a
   nonzero value of an earlier ledger.
   */
  lemma ZeroValueIsNullIff(rows: Series<int>, s: nat)
    ensures AfterWrite(rows, s, Some(0), 0) == AfterWrite(rows, s, None, 0)
       <==> s !in rows && ReadPoint(rows, s).Some? && ReadPoint(rows, s) != Some(0)
  {
    var a, b := AfterWrite(rows, s, Some(0), 0), AfterWrite(rows, s, None, 0);
    if s in rows {
      LatestIs(rows, s, s);
      assert s in a && s !in b;
    } else if !(ReadPoint(rows, s).Some? && ReadPoint(rows, s) != Some(0)) {
      assert s in a <==> s !in b;
    }
  }
}
