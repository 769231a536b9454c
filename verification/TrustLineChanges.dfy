/**
 From ledger deltas to holdings: what `parse`, `group` and the fold make of a delta list is, for each
 token, a list of changes to the sides issued by the ledger's own trust lines.
 */
module TrustLineChanges {
  import opened Wrappers
  import opened Collections
  import opened TrustLines
  import opened Holdings

  // ---- Deltas as changes ----

  predicate Belongs(e: Option<Entry>, id: LineId) {
    e.Some? ==>
      (e.value.lowLimit.Some? ==> e.value.lowLimit.value.issuer == id.low)
      && (e.value.highLimit.Some? ==> e.value.highLimit.value.issuer == id.high)
      && (e.value.balance.Some? ==> e.value.balance.value.currency == id.currency)
  }

  predicate WellFormed(d: Delta) {
    d.id.low < d.id.high && Belongs(d.previous, d.id) && Belongs(d.final, d.id)
  }

  predicate AllWellFormed(deltas: seq<Delta>) {
    forall i :: 0 <= i < |deltas| ==> WellFormed(deltas[i])
  }

  /** The side of a line that issues token `k`, if any. */
  function SideIssuing(id: LineId, k: Token): Option<bool> {
    if id.currency != k.currency then None
    else if id.low == k.issuer then Some(true)
    else if id.high == k.issuer then Some(false)
    else None
  }

  function BalanceOf(side: Option<Side>): Option<int> {
    if side.Some? then Some(side.value.balance) else None
  }

  /** A modified line that had the side and no longer has it: `group` passes nothing on. */
  predicate LosesSide(d: Delta, low: bool) {
    Parses(d.final) && SideOf(d.final, low).None? && SideOf(d.previous, low).Some?
  }

  /** What a delta does to the holders of `k`. */
  function View(d: Delta, k: Token): (c: Change)
    ensures ValidChange(c)
  {
    match SideIssuing(d.id, k)
    case Some(low) =>
      Change(d.id.Holder(low), BalanceOf(SideOf(d.previous, low)), BalanceOf(SideOf(d.final, low)), !LosesSide(d, low))
    case None => Change(k.issuer, None, None, true)
  }

  function Views(deltas: seq<Delta>, k: Token): (cs: seq<Change>)
    ensures |cs| == |deltas| && forall i :: 0 <= i < |deltas| ==> cs[i] == View(deltas[i], k)
  {
    seq(|deltas|, i requires 0 <= i < |deltas| => View(deltas[i], k))
  }

  // ---- `group` and the fold ----

  lemma SideBelongs(e: Option<Entry>, id: LineId, low: bool)
    requires Belongs(e, id) && SideOf(e, low).Some?
    ensures SideOf(e, low).value.account == id.Holder(low)
    ensures SideOf(e, low).value.token == Token(id.currency, id.Issuer(low))
  {
  }

  /** The side change of a delta that belongs to the group of `k`. */
  function GroupFor(d: Delta, k: Token): Option<SideDelta> {
    match SideIssuing(d.id, k)
    case Some(low) => GroupSide(d, low)
    case None => None
  }

  lemma GroupSideToken(d: Delta, low: bool)
    requires WellFormed(d) && GroupSide(d, low).Some?
    ensures GroupSide(d, low).value.Token() == Token(d.id.currency, d.id.Issuer(low))
    ensures GroupSide(d, low).value.Account() == d.id.Holder(low)
  {
    if SideOf(d.previous, low).Some? { SideBelongs(d.previous, d.id, low); }
    if SideOf(d.final, low).Some? { SideBelongs(d.final, d.id, low); }
  }

  lemma OfTokenPair(low: Option<SideDelta>, high: Option<SideDelta>, k: Token)
    ensures OfToken(Listed(low) + Listed(high), k, |Listed(low) + Listed(high)|)
         == (if low.Some? && low.value.Token() == k then Listed(low) else [])
          + (if high.Some? && high.value.Token() == k then Listed(high) else [])
  {
    var sides := Listed(low) + Listed(high);
    assert OfToken(sides, k, 0) == [];
    if |sides| > 0 {
      assert OfToken(sides, k, 1) == if sides[0].Token() == k then [sides[0]] else [];
    }
  }

  /** Of a line's two sides only the one issuing `k` is in the group of `k`. */
  lemma GroupOfDelta(d: Delta, k: Token)
    requires WellFormed(d)
    ensures OfToken(Group(d), k, |Group(d)|) == Listed(GroupFor(d, k))
  {
    if GroupSide(d, true).Some? { GroupSideToken(d, true); }
    if GroupSide(d, false).Some? { GroupSideToken(d, false); }
    OfTokenPair(GroupSide(d, true), GroupSide(d, false), k);
  }

  /** What a side change records, seen as a change. */
  predicate SameChange(side: Option<SideDelta>, c: Change) {
    match side
    case None => !c.reported || (c.previous.None? && c.final.None?)
    case Some(d) =>
      c.reported && d.Account() == c.account
      && c.previous == (if d.Created? then None else Some(d.previous.balance))
      && c.final == (if d.Removed? then None else Some(d.final.balance))
  }

  lemma GroupForIsView(d: Delta, k: Token)
    requires WellFormed(d)
    ensures SameChange(GroupFor(d, k), View(d, k))
  {
    if SideIssuing(d.id, k).Some? {
      var low := SideIssuing(d.id, k).value;
      if GroupSide(d, low).Some? { GroupSideToken(d, low); }
    }
  }

  lemma {:induction false} FoldedPrefix(m: Metrics, a: seq<SideDelta>, b: seq<SideDelta>, pseudo: set<Address>, n: nat)
    requires n <= |a|
    ensures Folded(m, a + b, pseudo, n) == Folded(m, a, pseudo, n)
  {
    if n > 0 {
      FoldedPrefix(m, a, b, pseudo, n - 1);
      assert (a + b)[n - 1] == a[n - 1];
    }
  }

  /** Folding one more side change is one step of the record, for each metric. */
  lemma FoldedListed(
    metric: Metric, m: Metrics, g: seq<SideDelta>, side: Option<SideDelta>, c: Change, pseudo: set<Address>)
    requires SameChange(side, c) && ValidChange(c)
    ensures Of(FoldedAll(m, g + Listed(side), pseudo), metric)
         == Record(metric, Of(FoldedAll(m, g, pseudo), metric), c, pseudo)
  {
    FoldedPrefix(m, g, Listed(side), pseudo, |g|);
    if side.Some? {
      assert (g + Listed(side))[|g|] == side.value;
    } else {
      assert g + Listed(side) == g;
    }
  }

  /** The fold of a group records the changes of its token. */
  lemma {:induction false} FoldedIsRecorded(
    metric: Metric, m: Metrics, deltas: seq<Delta>, k: Token, pseudo: set<Address>, n: nat)
    requires AllWellFormed(deltas) && n <= |deltas|
    ensures Of(FoldedAll(m, GroupOf(deltas, k, n), pseudo), metric)
         == Recorded(metric, Of(m, metric), Views(deltas, k), pseudo, n)
  {
    hide Record, Of, View, Group, SameChange, FoldedAll;
    if n > 0 {
      FoldedIsRecorded(metric, m, deltas, k, pseudo, n - 1);
      FoldedDelta(metric, m, GroupOf(deltas, k, n - 1), deltas[n - 1], k, pseudo);
    } else {
      FoldedNone(m, pseudo);
    }
  }

  lemma FoldedNone(m: Metrics, pseudo: set<Address>)
    ensures FoldedAll(m, [], pseudo) == m
  {
  }

  lemma FoldedDelta(metric: Metric, m: Metrics, g: seq<SideDelta>, d: Delta, k: Token, pseudo: set<Address>)
    requires WellFormed(d)
    ensures Of(FoldedAll(m, g + OfToken(Group(d), k, |Group(d)|), pseudo), metric)
         == Record(metric, Of(FoldedAll(m, g, pseudo), metric), View(d, k), pseudo)
  {
    hide Record, Of, View, FoldedAll, SameChange, GroupFor;
    GroupOfDelta(d, k);
    GroupForIsView(d, k);
    FoldedListed(metric, m, g, GroupFor(d, k), View(d, k), pseudo);
  }

  // ---- The balance rows ----

  lemma {:induction false} WrittenPrefix(rows: BalanceRows, s: int, a: seq<SideDelta>, b: seq<SideDelta>, n: nat)
    requires n <= |a|
    ensures WriteBalances(rows, s, a + b, n) == WriteBalances(rows, s, a, n)
  {
    if n > 0 {
      WrittenPrefix(rows, s, a, b, n - 1);
      assert (a + b)[n - 1] == a[n - 1];
    }
  }

  function AllWritten(rows: BalanceRows, s: int, sides: seq<SideDelta>): BalanceRows {
    WriteBalances(rows, s, sides, |sides|)
  }

  lemma WrittenListed(rows: BalanceRows, s: int, g: seq<SideDelta>, side: Option<SideDelta>, c: Change)
    requires SameChange(side, c)
    ensures AllWritten(rows, s, g + Listed(side)) == Write(AllWritten(rows, s, g), s, c)
  {
    WrittenPrefix(rows, s, g, Listed(side), |g|);
    if side.Some? {
      assert (g + Listed(side))[|g|] == side.value;
    } else {
      assert g + Listed(side) == g;
    }
  }

  lemma WrittenDelta(rows: BalanceRows, s: int, g: seq<SideDelta>, d: Delta, k: Token)
    requires WellFormed(d)
    ensures AllWritten(rows, s, g + OfToken(Group(d), k, |Group(d)|)) == Write(AllWritten(rows, s, g), s, View(d, k))
  {
    hide Write, View, AllWritten, SameChange, GroupFor;
    GroupOfDelta(d, k);
    GroupForIsView(d, k);
    WrittenListed(rows, s, g, GroupFor(d, k), View(d, k));
  }

  /** The balance writes of a group are the writes of its token's changes. */
  lemma {:induction false} WritesAreWritten(rows: BalanceRows, s: int, deltas: seq<Delta>, k: Token, n: nat)
    requires AllWellFormed(deltas) && n <= |deltas|
    ensures AllWritten(rows, s, GroupOf(deltas, k, n)) == Written(rows, s, Views(deltas, k), n)
  {
    hide Write, View, Group;
    if n > 0 {
      WritesAreWritten(rows, s, deltas, k, n - 1);
      WrittenDelta(rows, s, GroupOf(deltas, k, n - 1), deltas[n - 1], k);
    }
  }

  // ---- The ledger's own lines ----

  type Lines = map<LineId, Entry>

  function EntryAt(lines: Lines, id: LineId): Option<Entry> {
    if id in lines then Some(lines[id]) else None
  }

  function AfterDelta(lines: Lines, d: Delta): Lines {
    if d.final.Some? then lines[d.id := d.final.value] else Without(lines, d.id)
  }

  function LinesAfter(lines: Lines, deltas: seq<Delta>, n: nat): Lines
    requires n <= |deltas|
  {
    if n == 0 then lines else AfterDelta(LinesAfter(lines, deltas, n - 1), deltas[n - 1])
  }

  /** Every delta starts from the entry the ledger has, and stays with its line. */
  ghost predicate Coherent(lines: Lines, deltas: seq<Delta>) {
    AllWellFormed(deltas)
    && forall i :: 0 <= i < |deltas| ==> deltas[i].previous == EntryAt(LinesAfter(lines, deltas, i), deltas[i].id)
  }

  /** The only line on which `a` can hold token `k`. */
  function LineOf(a: Address, k: Token): LineId {
    if k.issuer < a then LineId(k.issuer, a, k.currency) else LineId(a, k.issuer, k.currency)
  }

  /** The side of token `k` issued to account `a`: its balance. */
  function IssuedTo(lines: Lines, a: Address, k: Token): Option<int> {
    if a == k.issuer then None else BalanceOf(SideOf(EntryAt(lines, LineOf(a, k)), k.issuer < a))
  }

  function HolderSet(lines: Lines, k: Token): set<Address> {
    (set id | id in lines && id.low == k.issuer && IssuedTo(lines, id.high, k).Some? :: id.high)
    + (set id | id in lines && id.high == k.issuer && IssuedTo(lines, id.low, k).Some? :: id.low)
  }

  /** Every issued side of `k`: its holder with the balance. */
  function HoldingsOf(lines: Lines, k: Token): map<Address, int> {
    map a | a in HolderSet(lines, k) :: IssuedTo(lines, a, k).GetOr(0)
  }

  lemma HoldingAt(lines: Lines, a: Address, k: Token)
    ensures a in HoldingsOf(lines, k) <==> IssuedTo(lines, a, k).Some?
    ensures a in HoldingsOf(lines, k) ==> Some(HoldingsOf(lines, k)[a]) == IssuedTo(lines, a, k)
  {
    if IssuedTo(lines, a, k).Some? {
      var id := LineOf(a, k);
      assert id in lines;
      assert a == if k.issuer < a then id.high else id.low;
    }
  }

  /** A delta moves the side it views and no other. */
  lemma IssuedToAfter(lines: Lines, d: Delta, a: Address, k: Token)
    requires WellFormed(d) && d.previous == EntryAt(lines, d.id)
    ensures var c := View(d, k);
            if SideIssuing(d.id, k).Some? && a == c.account
            then IssuedTo(lines, a, k) == c.previous && IssuedTo(AfterDelta(lines, d), a, k) == c.final
            else IssuedTo(AfterDelta(lines, d), a, k) == IssuedTo(lines, a, k)
  {
    if SideIssuing(d.id, k).Some? && a == View(d, k).account {
      assert LineOf(a, k) == d.id && a != k.issuer;
    }
  }

  /** What `m` holds for `a`. */
  function HeldBy(m: map<Address, int>, a: Address): Option<int> {
    if a in m then Some(m[a]) else None
  }

  lemma SameHoldings(m: map<Address, int>, n: map<Address, int>)
    requires forall a :: HeldBy(m, a) == HeldBy(n, a)
    ensures m == n
  {
    forall a ensures (a in m <==> a in n) && (a in m ==> m[a] == n[a]) {
      assert HeldBy(m, a) == HeldBy(n, a);
    }
  }

  lemma HeldAfter(h: map<Address, int>, c: Change, a: Address)
    requires Starts(h, c)
    ensures HeldBy(Hold(h, c), a)
         == if a == c.account && (c.previous.Some? || c.final.Some?) then c.final else HeldBy(h, a)
  {
  }

  /** The holdings move by the view of the delta. */
  lemma HoldingsStep(lines: Lines, d: Delta, k: Token)
    requires WellFormed(d) && d.previous == EntryAt(lines, d.id)
    ensures Starts(HoldingsOf(lines, k), View(d, k))
    ensures HoldingsOf(AfterDelta(lines, d), k) == Hold(HoldingsOf(lines, k), View(d, k))
  {
    hide HoldingsOf, View, Hold, IssuedTo, AfterDelta, WellFormed;
    var before, c := HoldingsOf(lines, k), View(d, k);
    assert Starts(before, c) by {
      StartsThere(lines, d, k);
    }
    forall a ensures HeldBy(HoldingsOf(AfterDelta(lines, d), k), a) == HeldBy(Hold(before, c), a) {
      HoldingAt(lines, a, k);
      HoldingAt(AfterDelta(lines, d), a, k);
      IssuedToAfter(lines, d, a, k);
      HeldAfter(before, c, a);
      NoViewNoChange(d, k);
    }
    SameHoldings(HoldingsOf(AfterDelta(lines, d), k), Hold(before, c));
  }

  lemma NoViewNoChange(d: Delta, k: Token)
    ensures SideIssuing(d.id, k).None? ==> View(d, k).previous.None? && View(d, k).final.None?
  {
  }

  lemma StartsThere(lines: Lines, d: Delta, k: Token)
    requires WellFormed(d) && d.previous == EntryAt(lines, d.id)
    ensures Starts(HoldingsOf(lines, k), View(d, k))
  {
    hide HoldingsOf, View, IssuedTo, AfterDelta, WellFormed;
    NoViewNoChange(d, k);
    IssuedToAfter(lines, d, View(d, k).account, k);
    HoldingAt(lines, View(d, k).account, k);
  }

  /** A coherent delta list views as a consistent list of changes, and leaves the holdings it leads to. */
  lemma {:induction false} HoldingsAfter(lines: Lines, deltas: seq<Delta>, k: Token, n: nat)
    requires Coherent(lines, deltas) && n <= |deltas|
    ensures HoldingsOf(LinesAfter(lines, deltas, n), k) == Held(HoldingsOf(lines, k), Views(deltas, k), n)
  {
    hide HoldingsOf, View, Hold, AfterDelta, WellFormed;
    if n > 0 {
      HoldingsAfter(lines, deltas, k, n - 1);
      HoldingsStep(LinesAfter(lines, deltas, n - 1), deltas[n - 1], k);
    }
  }

  lemma ViewsConsistent(lines: Lines, deltas: seq<Delta>, k: Token)
    requires Coherent(lines, deltas)
    ensures Consistent(HoldingsOf(lines, k), Views(deltas, k))
  {
    hide HoldingsOf, View, Hold, AfterDelta, WellFormed, Starts;
    var cs := Views(deltas, k);
    forall i | 0 <= i < |cs| ensures ValidChange(cs[i]) && Starts(Held(HoldingsOf(lines, k), cs, i), cs[i]) {
      HoldingsAfter(lines, deltas, k, i);
      HoldingsStep(LinesAfter(lines, deltas, i), deltas[i], k);
    }
  }
}
