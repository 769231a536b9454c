/**
 The holdings of one token: who holds how much, how they change, and what the recorded metrics and
 balances make of those changes. Everything about trust line entries is left to TrustLineChanges.
 */
module Holdings {
  import opened Wrappers
  import opened Collections
  import opened Points
  import opened Sums
  import opened TrustLines

  /**
   A change of one holder's issued side. `reported` is false when a modified line lost the side, which
   `group` does not pass on; no side on either end is no change at all.
   */
  datatype Change = Change(account: Address, previous: Option<int>, final: Option<int>, reported: bool)

  predicate ValidChange(c: Change) {
    (c.previous.Some? ==> c.previous.value >= 0) && (c.final.Some? ==> c.final.value >= 0)
    && (c.reported || (c.previous.Some? && c.final.None?))
  }

  ghost predicate ValidChanges(cs: seq<Change>) {
    forall i :: 0 <= i < |cs| ==> ValidChange(cs[i])
  }

  /** The three metrics, so that each statement is made once for all of them. */
  datatype Metric = Supply | Holders | Trustlines

  function Of(m: Metrics, metric: Metric): int {
    match metric
    case Supply => m.supply
    case Holders => m.holders
    case Trustlines => m.trustlines
  }

  /** What one issued side contributes to a metric. */
  function Weight(metric: Metric, balance: int, counted: bool): int {
    match metric
    case Supply => balance
    case Holders => if balance > 0 && counted then 1 else 0
    case Trustlines => 1
  }

  function WeightOf(metric: Metric, balance: Option<int>, counted: bool): int {
    if balance.Some? then Weight(metric, balance.value, counted) else 0
  }

  // ---- The metrics `diff` records ----

  /** One step of the fold: the final side comes in, the previous one goes out if it is reported. */
  function Record(metric: Metric, m: int, c: Change, pseudo: set<Address>): int {
    var counted := c.account !in pseudo;
    m - (if c.reported then WeightOf(metric, c.previous, counted) else 0) + WeightOf(metric, c.final, counted)
  }

  function Recorded(metric: Metric, m: int, cs: seq<Change>, pseudo: set<Address>, n: nat): int
    requires n <= |cs|
  {
    if n == 0 then m else Record(metric, Recorded(metric, m, cs, pseudo, n - 1), cs[n - 1], pseudo)
  }

  /** What the first `n` changes leave in the metric without a side behind it. */
  function Unreported(metric: Metric, cs: seq<Change>, pseudo: set<Address>, n: nat): int
    requires n <= |cs|
  {
    if n == 0 then 0
    else
      var c := cs[n - 1];
      Unreported(metric, cs, pseudo, n - 1)
      + if c.reported then 0 else WeightOf(metric, c.previous, c.account !in pseudo)
  }

  ghost predicate AllReported(cs: seq<Change>, n: int) {
    forall i :: 0 <= i < n <= |cs| ==> cs[i].reported
  }

  /** Every unreported side stays counted as one trust line. */
  lemma {:induction false} UnreportedIff(cs: seq<Change>, pseudo: set<Address>, n: nat)
    requires ValidChanges(cs) && n <= |cs|
    ensures Unreported(Trustlines, cs, pseudo, n) >= 0
    ensures Unreported(Trustlines, cs, pseudo, n) == 0 <==> AllReported(cs, n)
  {
    if n > 0 {
      UnreportedIff(cs, pseudo, n - 1);
    }
  }

  lemma {:induction false} ReportedIsZero(metric: Metric, cs: seq<Change>, pseudo: set<Address>, n: nat)
    requires AllReported(cs, n) && n <= |cs|
    ensures Unreported(metric, cs, pseudo, n) == 0
  {
    if n > 0 {
      ReportedIsZero(metric, cs, pseudo, n - 1);
    }
  }

  // ---- The holdings themselves ----

  /** The holdings after a change. */
  function Hold(h: map<Address, int>, c: Change): map<Address, int> {
    if c.final.Some? then h[c.account := c.final.value]
    else if c.previous.Some? then Without(h, c.account)
    else h
  }

  function Held(h: map<Address, int>, cs: seq<Change>, n: nat): map<Address, int>
    requires n <= |cs|
  {
    if n == 0 then h else Hold(Held(h, cs, n - 1), cs[n - 1])
  }

  predicate Starts(h: map<Address, int>, c: Change) {
    c.previous.Some? || c.final.Some? ==>
      c.previous == if c.account in h then Some(h[c.account]) else None
  }

  /** Every change starts from the holding that is there. */
  ghost predicate Consistent(h: map<Address, int>, cs: seq<Change>) {
    ValidChanges(cs) && forall i :: 0 <= i < |cs| ==> Starts(Held(h, cs, i), cs[i])
  }

  function Weights(metric: Metric, h: map<Address, int>, pseudo: set<Address>): map<Address, int> {
    map a | a in h :: Weight(metric, h[a], a !in pseudo)
  }

  /** A metric counted over the issued sides themselves. */
  ghost function TotalOf(metric: Metric, h: map<Address, int>, pseudo: set<Address>): int {
    Sum(Weights(metric, h, pseudo))
  }

  /** What leaves and what comes in balance out. */
  lemma TotalHold(metric: Metric, h: map<Address, int>, c: Change, pseudo: set<Address>)
    requires Starts(h, c)
    ensures TotalOf(metric, Hold(h, c), pseudo)
         == TotalOf(metric, h, pseudo) - WeightOf(metric, c.previous, c.account !in pseudo)
           + WeightOf(metric, c.final, c.account !in pseudo)
  {
    var a, w := c.account, Weights(metric, h, pseudo);
    if c.final.Some? {
      SumUpdate(w, a, Weight(metric, c.final.value, a !in pseudo));
      assert Weights(metric, Hold(h, c), pseudo) == w[a := Weight(metric, c.final.value, a !in pseudo)];
    } else if c.previous.Some? {
      SumRemove(w, a);
      assert Weights(metric, Hold(h, c), pseudo) == Without(w, a);
    }
  }

  /** The totals after 0, 1, ... changes. */
  ghost function Totals(metric: Metric, h: map<Address, int>, cs: seq<Change>, pseudo: set<Address>): seq<int> {
    seq(|cs| + 1, i requires 0 <= i <= |cs| => TotalOf(metric, Held(h, cs, i), pseudo))
  }

  ghost predicate Chained(metric: Metric, totals: seq<int>, cs: seq<Change>, pseudo: set<Address>) {
    |totals| == |cs| + 1
    && forall i :: 0 <= i < |cs| ==>
         totals[i + 1] == totals[i] - WeightOf(metric, cs[i].previous, cs[i].account !in pseudo)
                                    + WeightOf(metric, cs[i].final, cs[i].account !in pseudo)
  }

  lemma TotalsChained(metric: Metric, h: map<Address, int>, cs: seq<Change>, pseudo: set<Address>)
    requires Consistent(h, cs)
    ensures Chained(metric, Totals(metric, h, cs, pseudo), cs, pseudo)
  {
    forall i | 0 <= i < |cs|
      ensures TotalOf(metric, Held(h, cs, i + 1), pseudo)
           == TotalOf(metric, Held(h, cs, i), pseudo) - WeightOf(metric, cs[i].previous, cs[i].account !in pseudo)
                + WeightOf(metric, cs[i].final, cs[i].account !in pseudo)
    {
      TotalHold(metric, Held(h, cs, i), cs[i], pseudo);
    }
  }

  /** A fold that starts `drift` above the true total ends `drift` and the unreported sides above it. */
  lemma {:induction false} RecordedAbove(
    metric: Metric, totals: seq<int>, drift: int, cs: seq<Change>, pseudo: set<Address>, n: nat)
    requires Chained(metric, totals, cs, pseudo) && n <= |cs|
    ensures Recorded(metric, totals[0] + drift, cs, pseudo, n) == totals[n] + drift + Unreported(metric, cs, pseudo, n)
  {
    if n > 0 {
      RecordedAbove(metric, totals, drift, cs, pseudo, n - 1);
    }
  }

  lemma RecordedIsTotal(metric: Metric, h: map<Address, int>, drift: int, cs: seq<Change>, pseudo: set<Address>)
    requires Consistent(h, cs)
    ensures Recorded(metric, TotalOf(metric, h, pseudo) + drift, cs, pseudo, |cs|)
         == TotalOf(metric, Held(h, cs, |cs|), pseudo) + drift + Unreported(metric, cs, pseudo, |cs|)
  {
    hide TotalOf, Hold;
    TotalsChained(metric, h, cs, pseudo);
    RecordedAbove(metric, Totals(metric, h, cs, pseudo), drift, cs, pseudo, |cs|);
  }

  function CountedHolders(h: map<Address, int>, pseudo: set<Address>): set<Address> {
    set a | a in h && h[a] > 0 && a !in pseudo
  }

  /** The totals in plain terms: the sum of the balances, the counted holders, the number of sides. */
  lemma TotalsAreCounts(h: map<Address, int>, pseudo: set<Address>)
    ensures TotalOf(Supply, h, pseudo) == Sum(h)
    ensures TotalOf(Holders, h, pseudo) == |CountedHolders(h, pseudo)|
    ensures TotalOf(Trustlines, h, pseudo) == |h|
  {
    assert Weights(Supply, h, pseudo) == h by {
      assert forall a :: a in h ==> Weights(Supply, h, pseudo)[a] == h[a];
    }
    HoldersAreCounted(h, pseudo);
    TrustlinesAreCounted(h, pseudo);
  }

  lemma {:induction false} HoldersAreCounted(h: map<Address, int>, pseudo: set<Address>)
    ensures TotalOf(Holders, h, pseudo) == |CountedHolders(h, pseudo)|
    decreases h.Keys
  {
    if h == map[] {
      assert CountedHolders(h, pseudo) == {};
    } else {
      var a := SomeKey(h);
      var rest := Without(h, a);
      assert rest.Keys == h.Keys - {a};
      HoldersAreCounted(rest, pseudo);
      SumRemove(Weights(Holders, h, pseudo), a);
      assert Weights(Holders, rest, pseudo) == Without(Weights(Holders, h, pseudo), a);
      assert CountedHolders(rest, pseudo) == CountedHolders(h, pseudo) - {a};
    }
  }

  lemma {:induction false} TrustlinesAreCounted(h: map<Address, int>, pseudo: set<Address>)
    ensures TotalOf(Trustlines, h, pseudo) == |h|
    decreases h.Keys
  {
    if h != map[] {
      var a := SomeKey(h);
      var rest := Without(h, a);
      assert rest.Keys == h.Keys - {a};
      TrustlinesAreCounted(rest, pseudo);
      SumRemove(Weights(Trustlines, h, pseudo), a);
      assert Weights(Trustlines, rest, pseudo) == Without(Weights(Trustlines, h, pseudo), a);
    }
  }

  // ---- Balances left hanging by unreported changes ----

  predicate Moves(c: Change) { c.previous.Some? || c.final.Some? }

  /** The balance of a side lost unreported hangs on until the account's side is reported again. */
  function Hang(m: map<Address, int>, c: Change): map<Address, int> {
    if !Moves(c) then m
    else if c.reported then Without(m, c.account)
    else m[c.account := c.previous.GetOr(0)]
  }

  function Hung(m: map<Address, int>, cs: seq<Change>, n: nat): map<Address, int>
    requires n <= |cs|
  {
    if n == 0 then m else Hang(Hung(m, cs, n - 1), cs[n - 1])
  }

  /** What a change brings back to an account whose lost side was still counted. */
  function Again(metric: Metric, m: map<Address, int>, c: Change, pseudo: set<Address>): int {
    if Moves(c) && c.reported && c.account in m then Weight(metric, m[c.account], c.account !in pseudo) else 0
  }

  /** The lost sides among the first `n` changes that were reported again, and so are counted twice. */
  function Reissued(metric: Metric, m: map<Address, int>, cs: seq<Change>, pseudo: set<Address>, n: nat): int
    requires n <= |cs|
  {
    if n == 0 then 0
    else Reissued(metric, m, cs, pseudo, n - 1) + Again(metric, Hung(m, cs, n - 1), cs[n - 1], pseudo)
  }

  /** A lost side is not held. */
  ghost predicate Apart(h: map<Address, int>, m: map<Address, int>) {
    forall a :: a in m ==> a !in h
  }

  lemma HangKeepsApart(h: map<Address, int>, m: map<Address, int>, c: Change)
    requires Apart(h, m) && Starts(h, c) && ValidChange(c)
    ensures Apart(Hold(h, c), Hang(m, c))
  {
  }

  lemma {:induction false} StaysApart(h: map<Address, int>, m: map<Address, int>, cs: seq<Change>, n: nat)
    requires n <= |cs| && Consistent(h, cs) && Apart(h, m)
    ensures Apart(Held(h, cs, n), Hung(m, cs, n))
  {
    hide Apart, Starts, Hold, Hang, ValidChange;
    if n > 0 {
      StaysApart(h, m, cs, n - 1);
      HangKeepsApart(Held(h, cs, n - 1), Hung(m, cs, n - 1), cs[n - 1]);
    }
  }

  lemma HangTotal(metric: Metric, h: map<Address, int>, m: map<Address, int>, c: Change, pseudo: set<Address>)
    requires Apart(h, m) && Starts(h, c) && ValidChange(c)
    ensures TotalOf(metric, Hang(m, c), pseudo) + Again(metric, m, c, pseudo)
         == TotalOf(metric, m, pseudo) + if c.reported then 0 else WeightOf(metric, c.previous, c.account !in pseudo)
  {
    var a, w := c.account, Weights(metric, m, pseudo);
    if !c.reported {
      SumUpdate(w, a, Weight(metric, c.previous.value, a !in pseudo));
      assert Weights(metric, Hang(m, c), pseudo) == w[a := Weight(metric, c.previous.value, a !in pseudo)];
    } else if Moves(c) {
      SumDrop(w, a);
      assert Weights(metric, Hang(m, c), pseudo) == Without(w, a);
    }
  }

  /** Every unreported side is still hanging or was reported again. */
  lemma {:induction false} UnreportedHangs(
    metric: Metric, h: map<Address, int>, m: map<Address, int>, cs: seq<Change>, pseudo: set<Address>, n: nat)
    requires n <= |cs| && Consistent(h, cs) && Apart(h, m)
    ensures TotalOf(metric, Hung(m, cs, n), pseudo) + Reissued(metric, m, cs, pseudo, n)
         == TotalOf(metric, m, pseudo) + Unreported(metric, cs, pseudo, n)
  {
    hide Apart, Starts, Hold, Hang, ValidChange, TotalOf, Again, WeightOf;
    if n > 0 {
      UnreportedHangs(metric, h, m, cs, pseudo, n - 1);
      StaysApart(h, m, cs, n - 1);
      HangTotal(metric, Held(h, cs, n - 1), Hung(m, cs, n - 1), cs[n - 1], pseudo);
    }
  }

  lemma {:induction false} ReportedHangsNothing(cs: seq<Change>, n: nat)
    requires n <= |cs| && AllReported(cs, n)
    ensures Hung(map[], cs, n) == map[]
  {
    if n > 0 {
      ReportedHangsNothing(cs, n - 1);
    }
  }

  ghost predicate NonNegative(m: map<Address, int>) {
    forall a :: a in m ==> m[a] >= 0
  }

  /** None of the first `n` changes reports a side of which a positive balance hangs. */
  ghost predicate NoneAgain(m: map<Address, int>, cs: seq<Change>, n: int) {
    forall i :: 0 <= i < n <= |cs| && Moves(cs[i]) && cs[i].reported ==> At(Hung(m, cs, i), cs[i].account) == 0
  }

  lemma {:induction false} NoneAgainIff(m: map<Address, int>, cs: seq<Change>, pseudo: set<Address>, n: nat)
    requires n <= |cs| && ValidChanges(cs) && NonNegative(m)
    ensures NonNegative(Hung(m, cs, n)) && Reissued(Supply, m, cs, pseudo, n) >= 0
    ensures Reissued(Supply, m, cs, pseudo, n) == 0 <==> NoneAgain(m, cs, n)
  {
    if n > 0 {
      NoneAgainIff(m, cs, pseudo, n - 1);
    }
  }

  /** Totals over accounts that do not overlap add up. */
  lemma TotalApart(metric: Metric, h: map<Address, int>, m: map<Address, int>, pseudo: set<Address>)
    requires Apart(h, m)
    ensures TotalOf(metric, h + m, pseudo) == TotalOf(metric, h, pseudo) + TotalOf(metric, m, pseudo)
  {
    hide Weight;
    var v, w := Weights(metric, h, pseudo), Weights(metric, m, pseudo);
    assert Weights(metric, h + m, pseudo) == v + w;
    forall a | a in w ensures a !in v {
      assert a in m;
    }
    SumMerged(v, w);
  }

  // ---- The balance rows written alongside ----

  type BalanceRows = map<Address, Series<int>>

  function RowsOf(rows: BalanceRows, a: Address): Series<int> {
    if a in rows then rows[a] else map[]
  }

  /** A reported change with a side writes the final balance, or zero when the side is gone. */
  function Write(rows: BalanceRows, s: int, c: Change): BalanceRows {
    if !c.reported || (c.previous.None? && c.final.None?) then rows
    else rows[c.account := AfterWrite(RowsOf(rows, c.account), s, Some(c.final.GetOr(0)), 0)]
  }

  function Written(rows: BalanceRows, s: int, cs: seq<Change>, n: nat): BalanceRows
    requires n <= |cs|
  {
    if n == 0 then rows else Write(Written(rows, s, cs, n - 1), s, cs[n - 1])
  }

  /** No row above ledger `now`. */
  ghost predicate Bounded<D>(rows: Series<D>, now: int) {
    forall q :: q in rows ==> q <= now
  }

  /** The rows read the holdings `h` at ledger `t`. */
  ghost predicate Reads(rows: BalanceRows, h: map<Address, int>, t: int) {
    forall a :: ReadOrZero(RowsOf(rows, a), t) == At(h, a)
  }

  lemma WriteBalanceReads(rows: Series<int>, s: nat, v: int, t: int)
    requires Bounded(rows, s)
    ensures Bounded(AfterWrite(rows, s, Some(v), 0), s)
    ensures ReadOrZero(AfterWrite(rows, s, Some(v), 0), t) == if t < s then ReadOrZero(rows, t) else v
  {
    WriteValueReads(rows, s, v, 0, t);
  }

  /**
   A ledger's change seen by the balance rows: the holdings `h` and the balances left hanging `m` add up
   to what is read, before and after.
   */
  lemma WriteReads(rows: BalanceRows, h: map<Address, int>, m: map<Address, int>, s: nat, c: Change, t: int)
    requires ValidChange(c) && Starts(h, c) && Apart(h, m) && (forall a :: Bounded(RowsOf(rows, a), s))
    requires Reads(rows, h + m, t)
    ensures forall a :: Bounded(RowsOf(Write(rows, s, c), a), s)
    ensures Reads(Write(rows, s, c), if t < s then h + m else Hold(h, c) + Hang(m, c), t)
  {
    hide Bounded, Starts, Apart;
    var after, held := Write(rows, s, c), if t < s then h + m else Hold(h, c) + Hang(m, c);
    WriteBalanceReads(RowsOf(rows, c.account), s, c.final.GetOr(0), t);
    forall a ensures Bounded(RowsOf(after, a), s) && ReadOrZero(RowsOf(after, a), t) == At(held, a) {
      assert ReadOrZero(RowsOf(rows, a), t) == At(h + m, a);
      StandingAfter(h, m, c, a);
      if a != c.account { assert RowsOf(after, a) == RowsOf(rows, a); }
    }
  }

  /** What stands for an account: the final balance once reported, else what stood before. */
  lemma StandingAfter(h: map<Address, int>, m: map<Address, int>, c: Change, a: Address)
    requires ValidChange(c) && Starts(h, c) && Apart(h, m)
    ensures At(Hold(h, c) + Hang(m, c), a)
         == if a == c.account && c.reported && Moves(c) then c.final.GetOr(0) else At(h + m, a)
  {
  }

  /** Writing a ledger's changes leaves the past readings alone; from `s` on, holdings and hanging balances are read. */
  lemma {:induction false} WrittenReads(
    rows: BalanceRows, h: map<Address, int>, m: map<Address, int>, s: nat, cs: seq<Change>, n: nat, t: int)
    requires n <= |cs| && Consistent(h, cs) && Apart(h, m) && (forall a :: Bounded(RowsOf(rows, a), s))
    requires Reads(rows, h + m, t)
    ensures forall a :: Bounded(RowsOf(Written(rows, s, cs, n), a), s)
    ensures Reads(Written(rows, s, cs, n), if t < s then h + m else Held(h, cs, n) + Hung(m, cs, n), t)
  {
    hide Apart, Starts, Bounded, Reads, Hold, Hang, Write, RowsOf, ValidChange;
    if n > 0 {
      WrittenReads(rows, h, m, s, cs, n - 1, t);
      StaysApart(h, m, cs, n - 1);
      if t < s {
        WriteKeepsPast(Written(rows, s, cs, n - 1), h + m, s, cs[n - 1], t);
      } else {
        WriteReads(Written(rows, s, cs, n - 1), Held(h, cs, n - 1), Hung(m, cs, n - 1), s, cs[n - 1], t);
      }
    }
  }

  lemma {:induction false} WrittenKeepsPast(
    rows: BalanceRows, h: map<Address, int>, s: nat, cs: seq<Change>, n: nat, t: int)
    requires t < s && n <= |cs| && (forall a :: Bounded(RowsOf(rows, a), s)) && Reads(rows, h, t)
    ensures (forall a :: Bounded(RowsOf(Written(rows, s, cs, n), a), s)) && Reads(Written(rows, s, cs, n), h, t)
  {
    hide Bounded, Reads, Write, RowsOf;
    if n > 0 {
      WrittenKeepsPast(rows, h, s, cs, n - 1, t);
      WriteKeepsPast(Written(rows, s, cs, n - 1), h, s, cs[n - 1], t);
    }
  }

  lemma WriteKeepsPast(rows: BalanceRows, h: map<Address, int>, s: nat, c: Change, t: int)
    requires t < s && (forall a :: Bounded(RowsOf(rows, a), s)) && Reads(rows, h, t)
    ensures (forall a :: Bounded(RowsOf(Write(rows, s, c), a), s)) && Reads(Write(rows, s, c), h, t)
  {
    hide Bounded;
    WriteBalanceReads(RowsOf(rows, c.account), s, c.final.GetOr(0), t);
    forall a ensures Bounded(RowsOf(Write(rows, s, c), a), s)
      && ReadOrZero(RowsOf(Write(rows, s, c), a), t) == At(h, a) {
      assert ReadOrZero(RowsOf(rows, a), t) == At(h, a);
      if a != c.account { assert RowsOf(Write(rows, s, c), a) == RowsOf(rows, a); }
    }
  }

  /** The balances read at ledger `t`, over every account that ever had a row. */
  function BalancesAt(rows: BalanceRows, t: int): map<Address, int> {
    map a | a in rows :: ReadOrZero(rows[a], t)
  }

  /** Rows that read the holdings have their sum and their positive accounts. */
  lemma BalancesAtTotals(rows: BalanceRows, h: map<Address, int>, t: int, pseudo: set<Address>)
    requires Reads(rows, h, t)
    ensures Sum(BalancesAt(rows, t)) == Sum(h)
    ensures CountedHolders(BalancesAt(rows, t), pseudo) == CountedHolders(h, pseudo)
  {
    var b := BalancesAt(rows, t);
    forall a ensures At(b, a) == At(h, a) {
      assert ReadOrZero(RowsOf(rows, a), t) == At(h, a);
    }
    SumExtensional(b, h);
    forall a ensures a in CountedHolders(b, pseudo) <==> a in CountedHolders(h, pseudo) {
      assert At(b, a) == At(h, a);
    }
  }
}
