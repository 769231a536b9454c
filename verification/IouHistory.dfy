/**
 Forward runs from an empty database. At every ledger the metrics and balances of a token read what
 the ledger's trust lines were then, as long as modified lines lose no issued side; when they do, the
 recorded metrics are off by exactly the sides lost, and the balances by exactly those not reported since.
 */
module IouHistory {
  import opened Wrappers
  import opened Points
  import opened TokenMetrics
  import opened Sums
  import opened TrustLines
  import opened Holdings
  import opened TrustLineChanges

  /** The trust line deltas of one ledger. */
  datatype Block = Block(sequence: int, deltas: seq<Delta>)

  /** The ledger's lines after the first `n` blocks. */
  function LinesAt(blocks: seq<Block>, n: nat): Lines
    requires n <= |blocks|
  {
    if n == 0 then map[]
    else LinesAfter(LinesAt(blocks, n - 1), blocks[n - 1].deltas, |blocks[n - 1].deltas|)
  }

  /** Token `k`'s tables after the first `n` blocks. */
  function TablesAt(blocks: seq<Block>, k: Token, pseudo: set<Address>, n: nat): Tables
    requires n <= |blocks|
  {
    if n == 0 then EMPTY
    else AfterLedger(TablesAt(blocks, k, pseudo, n - 1), blocks[n - 1].sequence, blocks[n - 1].deltas, k, pseudo)
  }

  /** A forward run: ascending ledgers whose deltas start from the ledger's own lines. */
  ghost predicate ForwardRun(blocks: seq<Block>) {
    (forall i :: 0 <= i < |blocks| ==> 0 <= blocks[i].sequence && Coherent(LinesAt(blocks, i), blocks[i].deltas))
    && (forall i, j :: 0 <= i < j < |blocks| ==> blocks[i].sequence < blocks[j].sequence)
  }

  /** How many of the first `n` blocks are at or before ledger `t`. */
  function BlocksUpTo(blocks: seq<Block>, t: int, n: nat): (c: nat)
    requires n <= |blocks|
    ensures c <= n
  {
    if n == 0 then 0 else if blocks[n - 1].sequence <= t then n else BlocksUpTo(blocks, t, n - 1)
  }

  /** The sides of `k` lost in the first `n` blocks, weighed for a metric. */
  function LostIn(metric: Metric, blocks: seq<Block>, k: Token, pseudo: set<Address>, n: nat): int
    requires n <= |blocks|
  {
    if n == 0 then 0
    else LostIn(metric, blocks, k, pseudo, n - 1)
         + Unreported(metric, Views(blocks[n - 1].deltas, k), pseudo, |blocks[n - 1].deltas|)
  }

  /** The metric counted over the sides of `k` the ledger's lines issue after `n` blocks. */
  ghost function TrueMetric(metric: Metric, blocks: seq<Block>, k: Token, pseudo: set<Address>, n: nat): int
    requires n <= |blocks|
  {
    TotalOf(metric, HoldingsOf(LinesAt(blocks, n), k), pseudo)
  }

  function MetricRows(tables: Tables, metric: Metric): Series<int> {
    match metric
    case Supply => tables.supply
    case Holders => tables.holders
    case Trustlines => tables.trustlines
  }

  function ReadMetric(tables: Tables, metric: Metric, t: int): int {
    ReadOrZero(MetricRows(tables, metric), t)
  }

  // ---- One block ----

  /** A metric written above every row reads as before below `s` and as written from `s` on. */
  lemma MetricWritten(rows: Series<int>, s: nat, v: int, t: int)
    requires Bounded(rows, s as int - 1)
    ensures Bounded(AfterMetric(rows, s, v), s)
    ensures ReadOrZero(AfterMetric(rows, s, v), t) == if t < s then ReadOrZero(rows, t) else v
  {
    if v != 0 {
      WriteValueReads(rows, s, v, 0, t);
    } else {
      WriteNullReads(rows, s, 0, t);
    }
  }

  /** A block adds to each metric what its changes record, and touches no earlier reading. */
  lemma BlockMetric(metric: Metric, tables: Tables, s: nat, deltas: seq<Delta>, k: Token, pseudo: set<Address>, t: int)
    requires AllWellFormed(deltas) && Bounded(MetricRows(tables, metric), s as int - 1)
    ensures Bounded(MetricRows(AfterLedger(tables, s, deltas, k, pseudo), metric), s)
    ensures ReadMetric(AfterLedger(tables, s, deltas, k, pseudo), metric, t)
         == if t < s then ReadMetric(tables, metric, t)
            else Recorded(metric, ReadMetric(tables, metric, t), Views(deltas, k), pseudo, |deltas|)
  {
    hide Recorded, Views, AfterMetric, LatestAt, Folded, GroupOf;
    var g, m := GroupOf(deltas, k, |deltas|), tables.MetricsAt(s);
    ReadAcrossGapOrZero(MetricRows(tables, metric), s, t);
    FoldedIsRecorded(metric, m, deltas, k, pseudo, |deltas|);
    FoldedNone(m, pseudo);
    MetricWritten(MetricRows(tables, metric), s, Of(FoldedAll(m, g, pseudo), metric), t);
  }

  lemma ReadAcrossGapOrZero(rows: Series<int>, s: nat, t: int)
    requires Bounded(rows, s as int - 1)
    ensures s <= t ==> ReadOrZero(rows, t) == ReadOrZero(rows, s)
  {
    if s <= t {
      ReadAcrossGap(rows, s, t);
    }
  }

  /** What a run says about its block `n - 1`. */
  lemma RunFacts(blocks: seq<Block>, n: nat)
    requires ForwardRun(blocks) && 0 < n <= |blocks|
    ensures 0 <= blocks[n - 1].sequence
    ensures Coherent(LinesAt(blocks, n - 1), blocks[n - 1].deltas) && AllWellFormed(blocks[n - 1].deltas)
    ensures Before(blocks, n - 1, blocks[n - 1].sequence - 1)
  {
    hide LinesAt, LinesAfter;
  }

  ghost predicate Before(blocks: seq<Block>, n: int, s: int) {
    forall i :: 0 <= i < n <= |blocks| ==> blocks[i].sequence <= s
  }

  lemma {:induction false} RowsBounded(
    metric: Metric, blocks: seq<Block>, k: Token, pseudo: set<Address>, n: nat, s: int)
    requires ForwardRun(blocks) && n <= |blocks| && Before(blocks, n, s)
    ensures Bounded(MetricRows(TablesAt(blocks, k, pseudo, n), metric), s)
  {
    hide AfterLedger, ForwardRun, Coherent, AllWellFormed, LinesAt;
    if n > 0 {
      var b := blocks[n - 1];
      RunFacts(blocks, n);
      RowsBounded(metric, blocks, k, pseudo, n - 1, b.sequence - 1);
      BlockMetric(metric, TablesAt(blocks, k, pseudo, n - 1), b.sequence, b.deltas, k, pseudo, 0);
    } else {
      assert EMPTY.supply == map[] && EMPTY.holders == map[] && EMPTY.trustlines == map[];
    }
  }

  /** What a coherent block records is the true metric after it, plus the drift before it and the sides it loses. */
  lemma BlockRecords(metric: Metric, lines: Lines, deltas: seq<Delta>, k: Token, pseudo: set<Address>, drift: int)
    requires Coherent(lines, deltas)
    ensures Recorded(metric, TotalOf(metric, HoldingsOf(lines, k), pseudo) + drift, Views(deltas, k), pseudo, |deltas|)
         == TotalOf(metric, HoldingsOf(LinesAfter(lines, deltas, |deltas|), k), pseudo)
              + drift + Unreported(metric, Views(deltas, k), pseudo, |deltas|)
  {
    hide TotalOf, HoldingsOf, Recorded, Unreported, Consistent, Coherent, LinesAfter, Held;
    ViewsConsistent(lines, deltas, k);
    HoldingsAfter(lines, deltas, k, |deltas|);
    RecordedIsTotal(metric, HoldingsOf(lines, k), drift, Views(deltas, k), pseudo);
  }

  /** What the recorded metric reads at `t` after `n` blocks, and what it is made of. */
  ghost predicate DriftsAt(metric: Metric, blocks: seq<Block>, k: Token, pseudo: set<Address>, n: nat, t: int)
    requires n <= |blocks|
  {
    var c := BlocksUpTo(blocks, t, n);
    ReadMetric(TablesAt(blocks, k, pseudo, n), metric, t)
      == TrueMetric(metric, blocks, k, pseudo, c) + LostIn(metric, blocks, k, pseudo, c)
  }

  lemma DriftStep(metric: Metric, blocks: seq<Block>, k: Token, pseudo: set<Address>, n: nat, t: int)
    requires ForwardRun(blocks) && 0 < n <= |blocks| && DriftsAt(metric, blocks, k, pseudo, n - 1, t)
    requires blocks[n - 1].sequence <= t
    ensures DriftsAt(metric, blocks, k, pseudo, n, t)
  {
    hide ForwardRun, AfterLedger, Coherent, AllWellFormed, TotalOf, HoldingsOf, Recorded;
    hide Unreported, ReadMetric, MetricRows, Bounded, Views, LinesAfter;
    var b := blocks[n - 1];
    RunFacts(blocks, n);
    RowsBounded(metric, blocks, k, pseudo, n - 1, b.sequence - 1);
    BlockMetric(metric, TablesAt(blocks, k, pseudo, n - 1), b.sequence, b.deltas, k, pseudo, t);
    AllUpTo(blocks, t, n - 1);
    BlockRecords(metric, LinesAt(blocks, n - 1), b.deltas, k, pseudo, LostIn(metric, blocks, k, pseudo, n - 1));
  }

  lemma DriftKept(metric: Metric, blocks: seq<Block>, k: Token, pseudo: set<Address>, n: nat, t: int)
    requires ForwardRun(blocks) && 0 < n <= |blocks| && DriftsAt(metric, blocks, k, pseudo, n - 1, t)
    requires t < blocks[n - 1].sequence
    ensures DriftsAt(metric, blocks, k, pseudo, n, t)
  {
    hide ForwardRun, AfterLedger, Coherent, AllWellFormed, TrueMetric, ReadMetric, MetricRows, Bounded, LinesAt, LostIn;
    var b := blocks[n - 1];
    RunFacts(blocks, n);
    RowsBounded(metric, blocks, k, pseudo, n - 1, b.sequence - 1);
    BlockMetric(metric, TablesAt(blocks, k, pseudo, n - 1), b.sequence, b.deltas, k, pseudo, t);
  }

  lemma DriftNone(metric: Metric, blocks: seq<Block>, k: Token, pseudo: set<Address>, t: int)
    ensures DriftsAt(metric, blocks, k, pseudo, 0, t)
  {
    EmptyReads(metric, k, pseudo, t);
  }

  /**
   Without any hypothesis on the lines: at every ledger, each recorded metric is the metric of the
   ledger's own lines plus the sides lost up to then.
   */
  lemma {:induction false} MetricDrift(
    metric: Metric, blocks: seq<Block>, k: Token, pseudo: set<Address>, n: nat, t: int)
    requires ForwardRun(blocks) && n <= |blocks|
    ensures DriftsAt(metric, blocks, k, pseudo, n, t)
  {
    hide *;
    if n == 0 {
      DriftNone(metric, blocks, k, pseudo, t);
    } else {
      MetricDrift(metric, blocks, k, pseudo, n - 1, t);
      if blocks[n - 1].sequence <= t {
        DriftStep(metric, blocks, k, pseudo, n, t);
      } else {
        DriftKept(metric, blocks, k, pseudo, n, t);
      }
    }
  }

  lemma EmptyReads(metric: Metric, k: Token, pseudo: set<Address>, t: int)
    ensures ReadMetric(EMPTY, metric, t) == 0 == TotalOf(metric, HoldingsOf(map[], k), pseudo)
  {
    assert HoldingsOf(map[], k) == map[];
  }

  lemma AllUpTo(blocks: seq<Block>, t: int, n: nat)
    requires n <= |blocks| && Before(blocks, n, t)
    ensures BlocksUpTo(blocks, t, n) == n
  {
  }

  // ---- When nothing is lost ----

  /** No delta of the first `n` blocks loses a side of `k`. */
  ghost predicate NothingLost(blocks: seq<Block>, k: Token, n: int) {
    forall i :: 0 <= i < n <= |blocks| ==> AllReported(Views(blocks[i].deltas, k), |blocks[i].deltas|)
  }

  lemma {:induction false} LostIff(blocks: seq<Block>, k: Token, pseudo: set<Address>, n: nat)
    requires n <= |blocks|
    ensures LostIn(Trustlines, blocks, k, pseudo, n) >= 0
    ensures LostIn(Trustlines, blocks, k, pseudo, n) == 0 <==> NothingLost(blocks, k, n)
  {
    hide Views, Unreported, AllReported;
    if n > 0 {
      LostIff(blocks, k, pseudo, n - 1);
      UnreportedIff(Views(blocks[n - 1].deltas, k), pseudo, |blocks[n - 1].deltas|);
    }
  }

  lemma {:induction false} NothingLostIsZero(metric: Metric, blocks: seq<Block>, k: Token, pseudo: set<Address>, n: nat)
    requires n <= |blocks| && NothingLost(blocks, k, n)
    ensures LostIn(metric, blocks, k, pseudo, n) == 0
  {
    hide Views, Unreported, AllReported;
    if n > 0 {
      NothingLostIsZero(metric, blocks, k, pseudo, n - 1);
      ReportedIsZero(metric, Views(blocks[n - 1].deltas, k), pseudo, |blocks[n - 1].deltas|);
    }
  }

  /** The trust line count read at `t` is right exactly when no side of the token was lost up to `t`. */
  lemma TrustlinesRightIff(blocks: seq<Block>, k: Token, pseudo: set<Address>, t: int)
    requires ForwardRun(blocks)
    ensures ReadMetric(TablesAt(blocks, k, pseudo, |blocks|), Trustlines, t)
         == |HoldingsOf(LinesAt(blocks, BlocksUpTo(blocks, t, |blocks|)), k)|
       <==> NothingLost(blocks, k, BlocksUpTo(blocks, t, |blocks|))
  {
    hide ReadMetric, TablesAt, LinesAt, LostIn, HoldingsOf, TotalOf, ForwardRun, NothingLost;
    var c := BlocksUpTo(blocks, t, |blocks|);
    MetricDrift(Trustlines, blocks, k, pseudo, |blocks|, t);
    LostIff(blocks, k, pseudo, c);
    TotalsAreCounts(HoldingsOf(LinesAt(blocks, c), k), pseudo);
  }

  // ---- Balances ----

  /** The lost balances of `k` that no later change of their account has replaced, after `n` blocks. */
  function HangingAt(blocks: seq<Block>, k: Token, n: nat): map<Address, int>
    requires n <= |blocks|
  {
    if n == 0 then map[]
    else Hung(HangingAt(blocks, k, n - 1), Views(blocks[n - 1].deltas, k), |blocks[n - 1].deltas|)
  }

  /** The lost sides of `k` reported again in the first `n` blocks, weighed for a metric. */
  function ReissuedIn(metric: Metric, blocks: seq<Block>, k: Token, pseudo: set<Address>, n: nat): int
    requires n <= |blocks|
  {
    if n == 0 then 0
    else
      var b := blocks[n - 1];
      ReissuedIn(metric, blocks, k, pseudo, n - 1)
      + Reissued(metric, HangingAt(blocks, k, n - 1), Views(b.deltas, k), pseudo, |b.deltas|)
  }

  /** The balances standing in the tables after `n` blocks: the true holdings and the hanging ones. */
  function Standing(blocks: seq<Block>, k: Token, n: nat): map<Address, int>
    requires n <= |blocks|
  {
    HoldingsOf(LinesAt(blocks, n), k) + HangingAt(blocks, k, n)
  }

  /** A hanging balance's account holds nothing. */
  lemma {:induction false} RunStaysApart(blocks: seq<Block>, k: Token, n: nat)
    requires ForwardRun(blocks) && n <= |blocks|
    ensures Apart(HoldingsOf(LinesAt(blocks, n), k), HangingAt(blocks, k, n))
  {
    hide ForwardRun, Coherent, AllWellFormed, HoldingsOf, Views, LinesAfter, Consistent;
    if n > 0 {
      var deltas := blocks[n - 1].deltas;
      var lines := LinesAt(blocks, n - 1);
      RunFacts(blocks, n);
      RunStaysApart(blocks, k, n - 1);
      ViewsConsistent(lines, deltas, k);
      HoldingsAfter(lines, deltas, k, |deltas|);
      StaysApart(HoldingsOf(lines, k), HangingAt(blocks, k, n - 1), Views(deltas, k), |deltas|);
    }
  }

  /** Every lost side hangs, or was reported again. */
  lemma {:induction false} LostHangs(metric: Metric, blocks: seq<Block>, k: Token, pseudo: set<Address>, n: nat)
    requires ForwardRun(blocks) && n <= |blocks|
    ensures TotalOf(metric, HangingAt(blocks, k, n), pseudo) + ReissuedIn(metric, blocks, k, pseudo, n)
         == LostIn(metric, blocks, k, pseudo, n)
  {
    hide ForwardRun, Coherent, AllWellFormed, HoldingsOf, Views, LinesAfter, LinesAt, Apart, Consistent, TotalOf;
    if n > 0 {
      var deltas := blocks[n - 1].deltas;
      var lines := LinesAt(blocks, n - 1);
      RunFacts(blocks, n);
      LostHangs(metric, blocks, k, pseudo, n - 1);
      RunStaysApart(blocks, k, n - 1);
      ViewsConsistent(lines, deltas, k);
      UnreportedHangs(
        metric, HoldingsOf(lines, k), HangingAt(blocks, k, n - 1), Views(deltas, k), pseudo, |deltas|);
    } else {
      TotalOfNone(metric, pseudo);
    }
  }

  lemma TotalOfNone(metric: Metric, pseudo: set<Address>)
    ensures TotalOf(metric, map[], pseudo) == 0
  {
    assert Weights(metric, map[], pseudo) == map[];
  }

  lemma BlockBalances(
    tables: Tables, h: map<Address, int>, m: map<Address, int>,
    s: nat, deltas: seq<Delta>, k: Token, pseudo: set<Address>, t: int)
    requires AllWellFormed(deltas) && Consistent(h, Views(deltas, k)) && Apart(h, m)
    requires (forall a :: Bounded(RowsOf(tables.balances, a), s)) && Reads(tables.balances, h + m, t)
    ensures var after, n := AfterLedger(tables, s, deltas, k, pseudo).balances, |deltas|;
            (forall a :: Bounded(RowsOf(after, a), s))
            && Reads(after, if t < s then h + m else Held(h, Views(deltas, k), n) + Hung(m, Views(deltas, k), n), t)
  {
    hide Bounded, RowsOf, Reads, Views, WriteBalances, GroupOf, Held, Hung, Written, WriteMetrics, Folded;
    hide Consistent, Apart, AllWellFormed;
    WritesAreWritten(tables.balances, s, deltas, k, |deltas|);
    WrittenNone(tables.balances, s);
    WrittenReads(tables.balances, h, m, s, Views(deltas, k), |deltas|, t);
  }

  lemma WrittenNone(rows: BalanceRows, s: int)
    ensures WriteBalances(rows, s, [], 0) == rows
  {
  }

  /**
   With no hypothesis on the lines, every account's balance read at `t` is what its line held then, or else
   the balance it lost unreported since the last change reported of it.
   */
  lemma {:induction false} BalancesRead(
    blocks: seq<Block>, k: Token, pseudo: set<Address>, n: nat, s: int, t: int)
    requires ForwardRun(blocks) && n <= |blocks| && Before(blocks, n, s)
    ensures forall a :: Bounded(RowsOf(TablesAt(blocks, k, pseudo, n).balances, a), s)
    ensures Reads(TablesAt(blocks, k, pseudo, n).balances, Standing(blocks, k, BlocksUpTo(blocks, t, n)), t)
  {
    hide ForwardRun, AfterLedger, Coherent, AllWellFormed, HoldingsOf, Views, LinesAfter, Reads, Consistent, Apart;
    if n > 0 {
      var b := blocks[n - 1];
      RunFacts(blocks, n);
      BalancesRead(blocks, k, pseudo, n - 1, b.sequence, t);
      if b.sequence <= t {
        var lines := LinesAt(blocks, n - 1);
        AllUpTo(blocks, t, n - 1);
        RunStaysApart(blocks, k, n - 1);
        ViewsConsistent(lines, b.deltas, k);
        HoldingsAfter(lines, b.deltas, k, |b.deltas|);
        BlockBalances(
          TablesAt(blocks, k, pseudo, n - 1), HoldingsOf(lines, k), HangingAt(blocks, k, n - 1),
          b.sequence, b.deltas, k, pseudo, t);
      } else {
        BlockKeepsPast(
          TablesAt(blocks, k, pseudo, n - 1), Standing(blocks, k, BlocksUpTo(blocks, t, n - 1)),
          b.sequence, b.deltas, k, pseudo, t);
      }
    } else {
      EmptyBalances(k, t);
    }
  }

  lemma BlockKeepsPast(
    tables: Tables, h: map<Address, int>, s: nat, deltas: seq<Delta>, k: Token, pseudo: set<Address>, t: int)
    requires t < s && AllWellFormed(deltas)
    requires (forall a :: Bounded(RowsOf(tables.balances, a), s)) && Reads(tables.balances, h, t)
    ensures var after := AfterLedger(tables, s, deltas, k, pseudo).balances;
            (forall a :: Bounded(RowsOf(after, a), s)) && Reads(after, h, t)
  {
    hide Bounded, RowsOf, Reads, Views, WriteBalances, GroupOf, Written, WriteMetrics, Folded, AllWellFormed;
    WritesAreWritten(tables.balances, s, deltas, k, |deltas|);
    WrittenNone(tables.balances, s);
    WrittenKeepsPast(tables.balances, h, s, Views(deltas, k), |deltas|, t);
  }

  lemma EmptyBalances(k: Token, t: int)
    ensures Reads(EMPTY.balances, HoldingsOf(map[], k) + map[], t)
  {
    assert HoldingsOf(map[], k) == map[];
  }

  /** The balances read at `t` in a whole run. */
  lemma RunBalances(blocks: seq<Block>, k: Token, pseudo: set<Address>, t: int)
    requires ForwardRun(blocks)
    ensures var tables := TablesAt(blocks, k, pseudo, |blocks|);
            Reads(tables.balances, Standing(blocks, k, BlocksUpTo(blocks, t, |blocks|)), t)
  {
    hide ForwardRun, Reads, Standing, TablesAt;
    var last := LastSequence(blocks);
    BalancesRead(blocks, k, pseudo, |blocks|, last, t);
  }

  /** An account's balance read at `t` is right exactly when nothing of it hangs then. */
  lemma BalanceRightIff(blocks: seq<Block>, k: Token, pseudo: set<Address>, t: int, a: Address)
    requires ForwardRun(blocks)
    ensures ReadOrZero(RowsOf(TablesAt(blocks, k, pseudo, |blocks|).balances, a), t)
         == At(HoldingsOf(LinesAt(blocks, BlocksUpTo(blocks, t, |blocks|)), k), a)
       <==> At(HangingAt(blocks, k, BlocksUpTo(blocks, t, |blocks|)), a) == 0
  {
    hide ForwardRun, HoldingsOf, LinesAt, HangingAt, TablesAt;
    RunBalances(blocks, k, pseudo, t);
    RunStaysApart(blocks, k, BlocksUpTo(blocks, t, |blocks|));
  }

  /**
   What is recorded against what is read: at every ledger of every forward run, supply exceeds the sum of
   the balances read, and holders the accounts outside the pseudo set with a positive one, by exactly the
   lost sides that were reported again.
   */
  lemma MetricsAboveBalances(blocks: seq<Block>, k: Token, pseudo: set<Address>, t: int)
    requires ForwardRun(blocks)
    ensures var tables, c := TablesAt(blocks, k, pseudo, |blocks|), BlocksUpTo(blocks, t, |blocks|);
            (ReadMetric(tables, Supply, t)
               == Sum(BalancesAt(tables.balances, t)) + ReissuedIn(Supply, blocks, k, pseudo, c))
            && (ReadMetric(tables, Holders, t)
                  == |CountedHolders(BalancesAt(tables.balances, t), pseudo)|
                     + ReissuedIn(Holders, blocks, k, pseudo, c))
  {
    hide ForwardRun, HoldingsOf, LinesAt, HangingAt, TablesAt, ReadMetric, LostIn, ReissuedIn, TotalOf, Sum;
    hide BalancesAt, CountedHolders, Reads, Apart;
    var c := BlocksUpTo(blocks, t, |blocks|);
    RunBalances(blocks, k, pseudo, t);
    RunStaysApart(blocks, k, c);
    TotalsAreCounts(Standing(blocks, k, c), pseudo);
    BalancesAtTotals(TablesAt(blocks, k, pseudo, |blocks|).balances, Standing(blocks, k, c), t, pseudo);
    forall metric: Metric
      ensures ReadMetric(TablesAt(blocks, k, pseudo, |blocks|), metric, t)
           == TotalOf(metric, Standing(blocks, k, c), pseudo) + ReissuedIn(metric, blocks, k, pseudo, c)
    {
      MetricDrift(metric, blocks, k, pseudo, |blocks|, t);
      LostHangs(metric, blocks, k, pseudo, c);
      TotalApart(metric, HoldingsOf(LinesAt(blocks, c), k), HangingAt(blocks, k, c), pseudo);
    }
  }

  /** No change of the first `n` blocks reports a side whose lost balance is positive and still hangs. */
  ghost predicate NoneReissued(blocks: seq<Block>, k: Token, n: int) {
    forall i :: 0 <= i < n <= |blocks| ==>
      NoneAgain(HangingAt(blocks, k, i), Views(blocks[i].deltas, k), |blocks[i].deltas|)
  }

  lemma {:induction false} ReissuedIff(blocks: seq<Block>, k: Token, pseudo: set<Address>, n: nat)
    requires n <= |blocks|
    ensures NonNegative(HangingAt(blocks, k, n)) && ReissuedIn(Supply, blocks, k, pseudo, n) >= 0
    ensures ReissuedIn(Supply, blocks, k, pseudo, n) == 0 <==> NoneReissued(blocks, k, n)
  {
    hide Views, Reissued, NoneAgain, NonNegative;
    if n > 0 {
      ReissuedIff(blocks, k, pseudo, n - 1);
      NoneAgainIff(HangingAt(blocks, k, n - 1), Views(blocks[n - 1].deltas, k), pseudo, |blocks[n - 1].deltas|);
      assert NoneReissued(blocks, k, n)
        <==> NoneReissued(blocks, k, n - 1)
             && NoneAgain(HangingAt(blocks, k, n - 1), Views(blocks[n - 1].deltas, k), |blocks[n - 1].deltas|);
    } else {
      NoneNegative();
    }
  }

  lemma NoneNegative()
    ensures NonNegative(map[])
  {
  }

  /** Supply is the sum of the balances at `t` exactly when no side lost with a balance was reported again up to `t`. */
  lemma SupplyIsSumIff(blocks: seq<Block>, k: Token, pseudo: set<Address>, t: int)
    requires ForwardRun(blocks)
    ensures ReadMetric(TablesAt(blocks, k, pseudo, |blocks|), Supply, t)
         == Sum(BalancesAt(TablesAt(blocks, k, pseudo, |blocks|).balances, t))
       <==> NoneReissued(blocks, k, BlocksUpTo(blocks, t, |blocks|))
  {
    hide ForwardRun, TablesAt, ReadMetric, ReissuedIn, NoneReissued, BalancesAt, Sum;
    MetricsAboveBalances(blocks, k, pseudo, t);
    ReissuedIff(blocks, k, pseudo, BlocksUpTo(blocks, t, |blocks|));
  }

  lemma {:induction false} NothingLostNothingHangs(blocks: seq<Block>, k: Token, n: nat)
    requires n <= |blocks| && NothingLost(blocks, k, n)
    ensures HangingAt(blocks, k, n) == map[]
  {
    hide Views;
    if n > 0 {
      assert NothingLost(blocks, k, n - 1);
      NothingLostNothingHangs(blocks, k, n - 1);
      ReportedHangsNothing(Views(blocks[n - 1].deltas, k), |blocks[n - 1].deltas|);
    }
  }

  /**
   IOU history. In a forward run that up to ledger `t` loses no side of the token: the supply read at `t` is
   the sum over accounts of the balances read, the holders read are the accounts outside the pseudo set
   whose balance reads positive, the trust lines read are the issued line sides, and each account's
   balance reads what its line held.
   */
  lemma IouHistory(blocks: seq<Block>, k: Token, pseudo: set<Address>, t: int)
    requires ForwardRun(blocks) && NothingLost(blocks, k, BlocksUpTo(blocks, t, |blocks|))
    ensures var tables, c := TablesAt(blocks, k, pseudo, |blocks|), BlocksUpTo(blocks, t, |blocks|);
            ReadMetric(tables, Supply, t) == Sum(BalancesAt(tables.balances, t))
            && ReadMetric(tables, Holders, t) == |CountedHolders(BalancesAt(tables.balances, t), pseudo)|
            && ReadMetric(tables, Trustlines, t) == |HoldingsOf(LinesAt(blocks, c), k)|
            && Reads(tables.balances, HoldingsOf(LinesAt(blocks, c), k), t)
  {
    hide ReadMetric, TablesAt, LinesAt, LostIn, HoldingsOf, TotalOf, ForwardRun, NothingLost, HangingAt, ReissuedIn;
    hide BalancesAt, CountedHolders, Sum, Reads;
    var c := BlocksUpTo(blocks, t, |blocks|);
    RunBalances(blocks, k, pseudo, t);
    NothingLostNothingHangs(blocks, k, c);
    assert Standing(blocks, k, c) == HoldingsOf(LinesAt(blocks, c), k);
    MetricsAboveBalances(blocks, k, pseudo, t);
    TrustlinesRightIff(blocks, k, pseudo, t);
    forall metric: Metric ensures ReissuedIn(metric, blocks, k, pseudo, c) == 0 {
      LostHangs(metric, blocks, k, pseudo, c);
      NothingLostIsZero(metric, blocks, k, pseudo, c);
      TotalOfNone(metric, pseudo);
    }
  }

  // ---- A run that loses a side ----

  /** USD between accounts 1 and 2, without limits: a line's ledger entry with its balance. */
  function Usd(balance: int): Option<Entry> {
    Some(Entry(Some(Amount(balance, "USD")), Some(Limit(0, 1)), Some(Limit(0, 2))))
  }

  const LINE := LineId(1, 2, "USD")

  /** Account 2 holds 5 of account 1's USD; then account 1 holds 3 of account 2's; then account 2 holds 4 again. */
  const BACK_AND_FORTH := [
    Block(1, [Delta(LINE, None, Usd(-5))]),
    Block(2, [Delta(LINE, Usd(-5), Usd(3))]),
    Block(3, [Delta(LINE, Usd(3), Usd(-4))])]

  lemma BackAndForthLines()
    ensures LinesAt(BACK_AND_FORTH, 0) == map[] && LinesAt(BACK_AND_FORTH, 1) == map[LINE := Usd(-5).value]
    ensures LinesAt(BACK_AND_FORTH, 2) == map[LINE := Usd(3).value]
  {
    forall i | 0 <= i < 2
      ensures LinesAt(BACK_AND_FORTH, i + 1) == AfterDelta(LinesAt(BACK_AND_FORTH, i), BACK_AND_FORTH[i].deltas[0]) {
      var lines, deltas := LinesAt(BACK_AND_FORTH, i), BACK_AND_FORTH[i].deltas;
      assert LinesAfter(lines, deltas, 0) == lines;
    }
  }

  lemma BackAndForthRuns()
    ensures ForwardRun(BACK_AND_FORTH)
  {
    hide LinesAt;
    BackAndForthLines();
    forall i | 0 <= i < 3 ensures Coherent(LinesAt(BACK_AND_FORTH, i), BACK_AND_FORTH[i].deltas) {
      var lines, deltas := LinesAt(BACK_AND_FORTH, i), BACK_AND_FORTH[i].deltas;
      assert |deltas| == 1 && LinesAfter(lines, deltas, 0) == lines;
    }
  }

  lemma BackAndForthViews()
    ensures Views(BACK_AND_FORTH[0].deltas, Token("USD", 1)) == [Change(2, None, Some(5), true)]
    ensures Views(BACK_AND_FORTH[1].deltas, Token("USD", 1)) == [Change(2, Some(5), None, false)]
    ensures Views(BACK_AND_FORTH[2].deltas, Token("USD", 1)) == [Change(2, None, Some(4), true)]
  {
  }

  lemma BackAndForthHangs()
    ensures HangingAt(BACK_AND_FORTH, Token("USD", 1), 1) == map[]
    ensures HangingAt(BACK_AND_FORTH, Token("USD", 1), 2) == map[2 := 5]
  {
    hide Views;
    BackAndForthViews();
    var k := Token("USD", 1);
    forall i | 0 <= i < 2
      ensures HangingAt(BACK_AND_FORTH, k, i + 1)
           == Hang(HangingAt(BACK_AND_FORTH, k, i), Views(BACK_AND_FORTH[i].deltas, k)[0])
    {
      assert Hung(HangingAt(BACK_AND_FORTH, k, i), Views(BACK_AND_FORTH[i].deltas, k), 0)
        == HangingAt(BACK_AND_FORTH, k, i);
    }
  }

  /**
   Sides are lost in forward runs: after ledger 2 account 2 still reads 5, which it no longer holds, the
   trust line still counts, and from ledger 3 on the supply is more than the sum of the balances.
   */
  lemma LostSideShows(pseudo: set<Address>)
    ensures ForwardRun(BACK_AND_FORTH) && !NothingLost(BACK_AND_FORTH, Token("USD", 1), 2)
    ensures var tables := TablesAt(BACK_AND_FORTH, Token("USD", 1), pseudo, 3);
            ReadOrZero(RowsOf(tables.balances, 2), 2) == 5
            && 2 !in HoldingsOf(LinesAt(BACK_AND_FORTH, 2), Token("USD", 1))
            && ReadMetric(tables, Trustlines, 2) != |HoldingsOf(LinesAt(BACK_AND_FORTH, 2), Token("USD", 1))|
            && ReadMetric(tables, Supply, 3) != Sum(BalancesAt(tables.balances, 3))
  {
    hide ForwardRun, HoldingsOf, LinesAt, HangingAt, TablesAt, ReadMetric, BalancesAt, Sum, Views, RowsOf;
    var k := Token("USD", 1);
    BackAndForthRuns();
    BackAndForthViews();
    BackAndForthHangs();
    assert BlocksUpTo(BACK_AND_FORTH, 2, 3) == 2 && BlocksUpTo(BACK_AND_FORTH, 3, 3) == 3;
    assert !NothingLost(BACK_AND_FORTH, k, 2) by {
      assert !Views(BACK_AND_FORTH[1].deltas, k)[0].reported;
    }
    RunBalances(BACK_AND_FORTH, k, pseudo, 2);
    RunStaysApart(BACK_AND_FORTH, k, 2);
    TrustlinesRightIff(BACK_AND_FORTH, k, pseudo, 2);
    assert !NoneReissued(BACK_AND_FORTH, k, 3) by {
      assert Hung(HangingAt(BACK_AND_FORTH, k, 2), Views(BACK_AND_FORTH[2].deltas, k), 0) == map[2 := 5];
      assert !NoneAgain(HangingAt(BACK_AND_FORTH, k, 2), Views(BACK_AND_FORTH[2].deltas, k), 1);
    }
    SupplyIsSumIff(BACK_AND_FORTH, k, pseudo, 3);
  }

  lemma LastSequence(blocks: seq<Block>) returns (s: int)
    requires ForwardRun(blocks)
    ensures Before(blocks, |blocks|, s)
  {
    hide Coherent, LinesAt;
    s := if blocks == [] then 0 else blocks[|blocks| - 1].sequence;
  }
}
