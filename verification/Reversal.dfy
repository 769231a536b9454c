/**
 The backward pass (src/ledger/state/index.js): a ledger's deltas in reverse order with previous and
 final swapped. Folded after the forward list they return every metric to where it started, exactly
 when no modified line gains or loses a side.
 */
module Reversal {
  import opened TrustLines
  import opened Holdings
  import opened TrustLineChanges

  function Swapped(d: Delta): Delta {
    Delta(d.id, d.final, d.previous)
  }

  /** The delta list `applyLedgerStateFromTransactions` applies when running backwards. */
  function Reversed(deltas: seq<Delta>): (back: seq<Delta>)
    ensures |back| == |deltas|
    ensures forall i :: 0 <= i < |deltas| ==> back[i] == Swapped(deltas[|deltas| - 1 - i])
  {
    seq(|deltas|, i requires 0 <= i < |deltas| => Swapped(deltas[|deltas| - 1 - i]))
  }

  /** All that the first `n` changes bring in, and all that they replace. */
  function Finals(metric: Metric, cs: seq<Change>, pseudo: set<Address>, n: nat): int
    requires n <= |cs|
  {
    if n == 0 then 0
    else Finals(metric, cs, pseudo, n - 1) + WeightOf(metric, cs[n - 1].final, cs[n - 1].account !in pseudo)
  }

  function Previouses(metric: Metric, cs: seq<Change>, pseudo: set<Address>, n: nat): int
    requires n <= |cs|
  {
    if n == 0 then 0
    else Previouses(metric, cs, pseudo, n - 1) + WeightOf(metric, cs[n - 1].previous, cs[n - 1].account !in pseudo)
  }

  lemma {:induction false} RecordedSums(metric: Metric, m: int, cs: seq<Change>, pseudo: set<Address>, n: nat)
    requires n <= |cs|
    ensures Recorded(metric, m, cs, pseudo, n)
         == m + Finals(metric, cs, pseudo, n) - Previouses(metric, cs, pseudo, n) + Unreported(metric, cs, pseudo, n)
  {
    hide WeightOf;
    if n > 0 {
      RecordedSums(metric, m, cs, pseudo, n - 1);
    }
  }

  /** `back` runs through `cs` from the end, each change the other way round. */
  ghost predicate Mirrors(back: seq<Change>, cs: seq<Change>) {
    |back| == |cs|
    && forall i :: 0 <= i < |cs| ==>
         var c := cs[|cs| - 1 - i];
         back[i].account == c.account && back[i].previous == c.final && back[i].final == c.previous
  }

  lemma ReversedMirrors(deltas: seq<Delta>, k: Token)
    ensures Mirrors(Views(Reversed(deltas), k), Views(deltas, k))
  {
    var cs, back := Views(deltas, k), Views(Reversed(deltas), k);
    forall i | 0 <= i < |cs|
      ensures var c := cs[|cs| - 1 - i];
              back[i].account == c.account && back[i].previous == c.final && back[i].final == c.previous
    {
      SwappedView(deltas[|cs| - 1 - i], k);
    }
  }

  lemma SwappedView(d: Delta, k: Token)
    ensures View(Swapped(d), k).account == View(d, k).account
    ensures View(Swapped(d), k).previous == View(d, k).final && View(Swapped(d), k).final == View(d, k).previous
  {
  }

  lemma {:induction false} MirroredSums(
    metric: Metric, back: seq<Change>, cs: seq<Change>, pseudo: set<Address>, n: nat)
    requires Mirrors(back, cs) && n <= |cs|
    ensures Finals(metric, back, pseudo, n) + Previouses(metric, cs, pseudo, |cs| - n)
         == Previouses(metric, cs, pseudo, |cs|)
    ensures Previouses(metric, back, pseudo, n) + Finals(metric, cs, pseudo, |cs| - n)
         == Finals(metric, cs, pseudo, |cs|)
  {
    hide WeightOf;
    if n > 0 {
      MirroredSums(metric, back, cs, pseudo, n - 1);
    }
  }

  /** The fold of a ledger and then of its reversal. */
  function ThereAndBack(m: Metrics, deltas: seq<Delta>, k: Token, pseudo: set<Address>): Metrics {
    FoldedAll(FoldedAll(m, GroupOf(deltas, k, |deltas|), pseudo), GroupOf(Reversed(deltas), k, |deltas|), pseudo)
  }

  lemma ReversedWellFormed(deltas: seq<Delta>)
    requires AllWellFormed(deltas)
    ensures AllWellFormed(Reversed(deltas))
  {
    hide Belongs;
  }

  /** What remains of each metric is what either direction failed to report. */
  lemma ThereAndBackLeaves(metric: Metric, m: Metrics, deltas: seq<Delta>, k: Token, pseudo: set<Address>)
    requires AllWellFormed(deltas)
    ensures Of(ThereAndBack(m, deltas, k, pseudo), metric)
         == Of(m, metric) + Unreported(metric, Views(deltas, k), pseudo, |deltas|)
              + Unreported(metric, Views(Reversed(deltas), k), pseudo, |deltas|)
  {
    hide FoldedAll, GroupOf, Views, Reversed, Unreported, Recorded, Of, AllWellFormed, Mirrors;
    var n, cs, back := |deltas|, Views(deltas, k), Views(Reversed(deltas), k);
    var there := FoldedAll(m, GroupOf(deltas, k, n), pseudo);
    ReversedWellFormed(deltas);
    FoldedIsRecorded(metric, m, deltas, k, pseudo, n);
    FoldedIsRecorded(metric, there, Reversed(deltas), k, pseudo, n);
    RecordedSums(metric, Of(m, metric), cs, pseudo, n);
    RecordedSums(metric, Of(there, metric), back, pseudo, n);
    ReversedMirrors(deltas, k);
    MirroredSums(metric, back, cs, pseudo, n);
  }

  /** A modified line that gains or loses the side issuing `k`. */
  predicate ChangesSides(d: Delta, k: Token) {
    !View(d, k).reported || !View(Swapped(d), k).reported
  }

  lemma SidesKeptIff(deltas: seq<Delta>, k: Token)
    ensures AllReported(Views(deltas, k), |deltas|) && AllReported(Views(Reversed(deltas), k), |deltas|)
       <==> forall i :: 0 <= i < |deltas| ==> !ChangesSides(deltas[i], k)
  {
    hide View;
    var n, cs, back := |deltas|, Views(deltas, k), Views(Reversed(deltas), k);
    forall i | 0 <= i < n ensures cs[i] == View(deltas[i], k) && back[n - 1 - i] == View(Swapped(deltas[i]), k) {
    }
  }

  /** Reversal cancels: supply, holders and trust lines all return, exactly when no side changes. */
  lemma ReversalCancelsIff(m: Metrics, deltas: seq<Delta>, k: Token, pseudo: set<Address>)
    requires AllWellFormed(deltas)
    ensures ThereAndBack(m, deltas, k, pseudo) == m <==> forall i :: 0 <= i < |deltas| ==> !ChangesSides(deltas[i], k)
  {
    hide ThereAndBack, AllWellFormed, Views, Reversed, Unreported, ChangesSides, AllReported, ValidChanges;
    var n, cs, back := |deltas|, Views(deltas, k), Views(Reversed(deltas), k);
    forall metric: Metric
      ensures Of(ThereAndBack(m, deltas, k, pseudo), metric)
           == Of(m, metric) + Unreported(metric, cs, pseudo, n) + Unreported(metric, back, pseudo, n)
    {
      ThereAndBackLeaves(metric, m, deltas, k, pseudo);
    }
    ViewsValid(deltas, k);
    ViewsValid(Reversed(deltas), k);
    UnreportedIff(cs, pseudo, n);
    UnreportedIff(back, pseudo, n);
    SidesKeptIff(deltas, k);
    forall metric: Metric ensures AllReported(cs, n) && AllReported(back, n) ==>
                                    Unreported(metric, cs, pseudo, n) == 0 == Unreported(metric, back, pseudo, n) {
      if AllReported(cs, n) && AllReported(back, n) {
        ReportedIsZero(metric, cs, pseudo, n);
        ReportedIsZero(metric, back, pseudo, n);
      }
    }
    SameMetrics(ThereAndBack(m, deltas, k, pseudo), m);
  }

  lemma ViewsValid(deltas: seq<Delta>, k: Token)
    ensures ValidChanges(Views(deltas, k))
  {
    hide View;
  }

  lemma SameMetrics(a: Metrics, b: Metrics)
    ensures a == b <==> forall metric :: Of(a, metric) == Of(b, metric)
  {
    if forall metric :: Of(a, metric) == Of(b, metric) {
      assert Of(a, Supply) == Of(b, Supply) && Of(a, Holders) == Of(b, Holders)
        && Of(a, Trustlines) == Of(b, Trustlines);
    }
  }
}
