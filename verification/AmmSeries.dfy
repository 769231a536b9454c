/** Sampling an AMM pool's balances over a ledger range (src/db/helpers/amm.js). */
module AmmSeries {
  import opened Wrappers
  import opened Points

  datatype Sample = Sample(ledgerSequence: int, asset1Balance: int, asset2Balance: int)

  const MAX_POINTS := 1000

  /** JavaScript's `n | 0` of an integer. */
  function ToInt32(n: int): (r: int)
    ensures -0x8000_0000 <= r < 0x8000_0000
  {
    (n + 0x8000_0000) % 0x1_0000_0000 - 0x8000_0000
  }

  function Clamp(points: int): (p: int)
    ensures 1 <= p <= MAX_POINTS
  {
    var n := ToInt32(points);
    if n < 1 then 1 else if n > MAX_POINTS then MAX_POINTS else n
  }

  /** The parts a range is cut into. */
  function Parts(points: int): (parts: int)
    ensures parts >= 1
  {
    if points - 1 > 1 then points - 1 else 1
  }

  /** The distance of the samples. */
  function StepOf(span: int, points: int): (step: int)
    requires span >= 0 && points >= 1
    ensures step >= 1
  {
    if span / Parts(points) > 1 then span / Parts(points) else 1
  }

  /** The sequences visited from `first` on. */
  function Visited(first: int, end: int, step: int): seq<int>
    requires step >= 1
    decreases end - first + 1
  {
    if first > end then [] else [first] + Visited(first + step, end, step)
  }

  lemma {:induction false} VisitedCount(first: int, end: int, step: int)
    requires step >= 1 && first <= end
    ensures |Visited(first, end, step)| == (end - first) / step + 1
    decreases end - first
  {
    if first + step <= end {
      VisitedCount(first + step, end, step);
      OneStepLess(end - first, step);
    } else {
      NoStep(end - first, step);
    }
  }

  lemma Times(a: int, b: int, d: int)
    requires a <= b && d >= 1
    ensures a * d <= b * d
  {
  }

  /** A quotient is at least `q` exactly from `q` divisors on. */
  lemma QuotientIff(n: int, d: int, q: int)
    requires d >= 1
    ensures n / d >= q <==> n >= q * d
  {
    var r := n / d;
    assert n == r * d + n % d;
    if r >= q {
      Times(q, r, d);
    } else {
      Times(r + 1, q, d);
      assert (r + 1) * d == r * d + d;
    }
  }

  lemma OneStepLess(span: int, step: int)
    requires 1 <= step <= span
    ensures (span - step) / step == span / step - 1
  {
    var q := span / step;
    QuotientIff(span, step, q);
    QuotientIff(span, step, q + 1);
    QuotientIff(span - step, step, q - 1);
    QuotientIff(span - step, step, q);
    assert (q - 1) * step == q * step - step && (q + 1) * step == q * step + step;
  }

  lemma NoStep(span: int, step: int)
    requires 0 <= span < step
    ensures span / step == 0
  {
  }

  lemma {:induction false} VisitedAt(first: int, end: int, step: int, k: int)
    requires step >= 1 && 0 <= k < |Visited(first, end, step)|
    ensures Visited(first, end, step)[k] == first + k * step && first <= Visited(first, end, step)[k] <= end
    decreases k
  {
    if k > 0 {
      VisitedAt(first + step, end, step, k - 1);
      assert (k - 1) * step == k * step - step;
    }
  }

  /** A range gives at least one sample and at most twice the parts asked for. */
  lemma CountBounded(start: int, end: int, points: int)
    requires start <= end && points >= 1
    ensures 1 <= |Visited(start, end, StepOf(end - start, points))| <= 2 * Parts(points)
  {
    hide Visited;
    var span, parts := end - start, Parts(points);
    VisitedCount(start, end, StepOf(span, points));
    BelowTwice(span, parts);
  }

  lemma BelowTwice(span: int, parts: int)
    requires parts >= 1 && span >= 0
    ensures var step := if span / parts > 1 then span / parts else 1; 0 <= span / step <= 2 * parts - 1
  {
    var q := span / parts;
    var step := if q > 1 then q else 1;
    QuotientIff(span, parts, q + 1);
    QuotientIff(span, step, 2 * parts);
    QuotientIff(span, step, 0);
    assert (q + 1) * parts == q * parts + parts;
    Times(1, step, parts);
    assert q * parts <= step * parts by { Times(q, step, parts); }
    assert 2 * parts * step == step * parts + step * parts;
  }

  /** What a request for any number of points is taken as: itself within bounds, else the nearer bound, modulo 2^32. */
  lemma ClampIs(points: int)
    ensures 1 <= points <= MAX_POINTS ==> Clamp(points) == points
    ensures MAX_POINTS < points < 0x8000_0000 ==> Clamp(points) == MAX_POINTS
    ensures -0x8000_0000 <= points < 1 ==> Clamp(points) == 1
    ensures Clamp(points + 0x1_0000_0000) == Clamp(points)
  {
  }

  /**
   The step is the longest with which the parts still fit into the range; ranges too short are read
   ledger by ledger.
   */
  lemma StepIs(span: int, points: int)
    requires span >= 0 && points >= 1
    ensures var step, parts := StepOf(span, points), if points >= 2 then points - 1 else 1;
            if span >= parts then parts * step <= span < parts * (step + 1) else step == 1
  {
    var parts := Parts(points);
    var q := span / parts;
    QuotientIff(span, parts, 1);
    QuotientIff(span, parts, q);
    QuotientIff(span, parts, q + 1);
    assert parts * q == q * parts && parts * (q + 1) == (q + 1) * parts;
  }

  /** There are at least as many samples as points asked for, or every ledger of the range is one. */
  lemma CountAtLeast(start: int, end: int, points: int)
    requires start <= end && points >= 1
    ensures var n := |Visited(start, end, StepOf(end - start, points))|;
            n >= points || (n == end - start + 1 && StepOf(end - start, points) == 1)
  {
    hide Visited, StepOf;
    var span, step := end - start, StepOf(end - start, points);
    VisitedCount(start, end, step);
    StepIs(span, points);
    QuotientIff(span, step, points - 1);
    if points == 1 { QuotientIff(span, step, 0); }
    if step == 1 { QuotientIff(span, 1, span); QuotientIff(span, 1, span + 1); }
  }

  /** The samples number at most `points` exactly when the range is shorter than `points` steps. */
  lemma CappedIff(start: int, end: int, points: int)
    requires start <= end && points >= 1
    ensures |Visited(start, end, StepOf(end - start, points))| <= points
       <==> end - start < points * StepOf(end - start, points)
  {
    hide StepOf, Visited;
    VisitedCount(start, end, StepOf(end - start, points));
    QuotientIff(end - start, StepOf(end - start, points), points);
  }

  /** For every number of points from two on, some range gives the full `2 * (points - 1)` samples. */
  lemma BoundReached(start: int, points: int)
    requires points >= 2
    ensures var end := start + 2 * points - 3; |Visited(start, end, StepOf(end - start, points))| == 2 * (points - 1)
  {
    hide Visited;
    var parts := points - 1;
    QuotientIff(2 * parts - 1, parts, 1);
    QuotientIff(2 * parts - 1, parts, 2);
    VisitedCount(start, start + 2 * parts - 1, 1);
  }

  /** Where the ledger sequences of the range are unknown or out of order there are no samples. */
  method ReadAmmPoolSeries(asset1: Series<int>, asset2: Series<int>, start: Option<int>, end: Option<int>, points: int)
    returns (series: seq<Sample>)
    ensures start.None? || end.None? || end.value < start.value ==> series == []
    ensures start.Some? && end.Some? && start.value <= end.value ==>
      var step := StepOf(end.value - start.value, Clamp(points));
      1 <= |series| <= 2 * Parts(Clamp(points))
      && (|series| >= Clamp(points) || step == 1)
      && start.value + |series| * step > end.value
      && forall k :: 0 <= k < |series| ==>
           start.value + k * step <= end.value
           && series[k].ledgerSequence == start.value + k * step
           && series[k].asset1Balance == ReadOrZero(asset1, start.value + k * step)
           && series[k].asset2Balance == ReadOrZero(asset2, start.value + k * step)
  {
    hide ReadOrZero, StepOf, Clamp, Parts;
    series := [];
    if start.None? || end.None? || end.value < start.value {
      return;
    }
    var first, last := start.value, end.value;
    var step := StepOf(last - first, Clamp(points));
    var q := first;
    CountBounded(first, last, Clamp(points));
    CountAtLeast(first, last, Clamp(points));
    while q <= last
      invariant |Visited(first, last, step)| == |series| + |Visited(q, last, step)|
      invariant q == first + |series| * step
      invariant forall k :: 0 <= k < |series| ==>
        first + k * step <= last
        && series[k]
           == Sample(first + k * step, ReadOrZero(asset1, first + k * step), ReadOrZero(asset2, first + k * step))
      decreases last - q
    {
      assert (|series| + 1) * step == |series| * step + step;
      series := series + [Sample(q, ReadOrZero(asset1, q), ReadOrZero(asset2, q))];
      q := q + step;
    }
  }
}
