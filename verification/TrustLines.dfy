/**
 IOU trust lines (src/ledger/state/tokens.js) and the delta pipeline that feeds them
 (src/ledger/state/index.js): ledger deltas are parsed, grouped per token, and folded into supply,
 holders and trust line counts, with every holder's balance written alongside.
 */
module TrustLines {
  import opened Wrappers
  import opened Points
  import opened TokenMetrics

  /** Account ids are the numbers behind the addresses; the lower one is the low side of a line. */
  type Address = int

  datatype Token = Token(currency: string, issuer: Address)

  datatype Amount = Amount(value: int, currency: string)

  datatype Limit = Limit(value: int, issuer: Address)

  /** A RippleState entry; created entries may leave fields out. */
  datatype Entry = Entry(balance: Option<Amount>, lowLimit: Option<Limit>, highLimit: Option<Limit>)

  /** One direction of a line: tokens of `token.issuer` held by `account`. */
  datatype Side = Side(account: Address, token: Token, balance: int)

  datatype Parsed = Parsed(low: Option<Side>, high: Option<Side>)

  /** `parse`: a side is issued when its holder set a limit or holds a balance. */
  function Parse(e: Entry): (p: Option<Parsed>)
    ensures p.Some? && p.value.low.Some? ==> p.value.low.value.balance >= 0
    ensures p.Some? && p.value.high.Some? ==> p.value.high.value.balance >= 0
  {
    if e.highLimit.None? || e.lowLimit.None? || e.balance.None? then None
    else
      var Limit(highValue, high) := e.highLimit.value;
      var Limit(lowValue, low) := e.lowLimit.value;
      var Amount(value, currency) := e.balance.value;
      var lowIssuer := highValue != 0 || value < 0;
      var highIssuer := lowValue != 0 || value > 0;
      Some(Parsed(
        if lowIssuer then Some(Side(high, Token(currency, low), if value < 0 then -value else 0)) else None,
        if highIssuer then Some(Side(low, Token(currency, high), if value > 0 then value else 0)) else None))
  }

  function BalanceOn(side: Option<Side>): int {
    if side.Some? then side.value.balance else 0
  }

  /**
   Nothing of a line's balance is lost in parsing: the side that holds it is issued even without a
   limit, and the two sides' balances give the signed balance back.
   */
  lemma ParseSplitsBalance(e: Entry)
    requires Parse(e).Some?
    ensures e.balance.Some? && BalanceOn(Parse(e).value.high) - BalanceOn(Parse(e).value.low) == e.balance.value.value
    ensures BalanceOn(Parse(e).value.high) == 0 || BalanceOn(Parse(e).value.low) == 0
  {
  }

  /**
   The issued sides: each exactly when its holder set a limit or holds a balance, of a token of the other
   account.
   */
  lemma ParseIssuedIff(e: Entry)
    ensures Parse(e).Some? <==> e.highLimit.Some? && e.lowLimit.Some? && e.balance.Some?
    ensures Parse(e).Some? ==>
      var p, v := Parse(e).value, e.balance.value.value;
      (p.low.Some? <==> e.highLimit.value.value != 0 || v < 0)
      && (p.high.Some? <==> e.lowLimit.value.value != 0 || v > 0)
      && (p.low.Some? ==> p.low.value.account == e.highLimit.value.issuer
                          && p.low.value.token == Token(e.balance.value.currency, e.lowLimit.value.issuer))
      && (p.high.Some? ==> p.high.value.account == e.lowLimit.value.issuer
                           && p.high.value.token == Token(e.balance.value.currency, e.highLimit.value.issuer))
  {
  }

  /** The line seen from the other end. */
  function Mirror(e: Entry): Entry {
    Entry(
      if e.balance.Some? then Some(e.balance.value.(value := -e.balance.value.value)) else None,
      e.highLimit, e.lowLimit)
  }

  /** Neither end is favoured: seen from the other end, a line has the same sides, low for high. */
  lemma ParseMirrors(e: Entry)
    ensures Parse(Mirror(e)).Some? <==> Parse(e).Some?
    ensures Parse(e).Some? ==> Parse(Mirror(e)).value == Parsed(Parse(e).value.high, Parse(e).value.low)
  {
  }

  /** The two accounts and the currency that a line's ledger index is derived from. */
  datatype LineId = LineId(low: Address, high: Address, currency: string) {
    function Issuer(lowSide: bool): Address { if lowSide then low else high }
    function Holder(lowSide: bool): Address { if lowSide then high else low }
  }

  /** A ledger entry change; `previous` and `final` are missing on creation and deletion. */
  datatype Delta = Delta(id: LineId, previous: Option<Entry>, final: Option<Entry>)

  /** A change of one side, as `group` passes it to `diff`. */
  datatype SideDelta = Created(final: Side) | Modified(previous: Side, final: Side) | Removed(previous: Side) {
    function Token(): Token { if Removed? then previous.token else final.token }
    function Account(): Address { if Removed? then previous.account else final.account }
    predicate Valid() {
      (Created? || previous.balance >= 0) && (Removed? || final.balance >= 0)
    }
  }

  function SideOf(e: Option<Entry>, lowSide: bool): (side: Option<Side>)
    ensures side.Some? ==> side.value.balance >= 0 && Parses(e)
  {
    if e.None? then None
    else match Parse(e.value)
      case None => None
      case Some(p) => if lowSide then p.low else p.high
  }

  predicate Parses(e: Option<Entry>) {
    e.Some? && Parse(e.value).Some?
  }

  /** `group` for one side: when a final entry is there, only its sides count. */
  function PairSides(previous: Option<Side>, final: Option<Side>, finalParsed: bool): Option<SideDelta> {
    if finalParsed then
      if final.None? then None
      else if previous.None? then Some(Created(final.value))
      else Some(Modified(previous.value, final.value))
    else if previous.Some? then Some(Removed(previous.value))
    else None
  }

  function GroupSide(d: Delta, lowSide: bool): (side: Option<SideDelta>)
    ensures side.Some? ==> side.value.Valid()
  {
    PairSides(SideOf(d.previous, lowSide), SideOf(d.final, lowSide), Parses(d.final))
  }

  function Listed(side: Option<SideDelta>): seq<SideDelta> {
    if side.Some? then [side.value] else []
  }

  /** `group`: the low side first. */
  function Group(d: Delta): (sides: seq<SideDelta>)
    ensures forall i :: 0 <= i < |sides| ==> sides[i].Valid()
  {
    Listed(GroupSide(d, true)) + Listed(GroupSide(d, false))
  }

  /** Those of the first `n` side changes that are of token `k`. */
  function OfToken(sides: seq<SideDelta>, k: Token, n: nat): seq<SideDelta>
    requires n <= |sides|
  {
    if n == 0 then []
    else OfToken(sides, k, n - 1) + if sides[n - 1].Token() == k then [sides[n - 1]] else []
  }

  /** The group of token `k` after the first `n` deltas of a ledger. */
  function GroupOf(deltas: seq<Delta>, k: Token, n: nat): seq<SideDelta>
    requires n <= |deltas|
  {
    if n == 0 then []
    else GroupOf(deltas, k, n - 1) + OfToken(Group(deltas[n - 1]), k, |Group(deltas[n - 1])|)
  }

  datatype Metrics = Metrics(supply: int, holders: int, trustlines: int) {
    function Plus(m: Metrics): Metrics {
      Metrics(supply + m.supply, holders + m.holders, trustlines + m.trustlines)
    }
    function Minus(m: Metrics): Metrics {
      Metrics(supply - m.supply, holders - m.holders, trustlines - m.trustlines)
    }
  }

  const ZERO := Metrics(0, 0, 0)

  /** What one issued side contributes to its token's metrics. */
  function Share(balance: int, counted: bool): Metrics {
    Metrics(balance, if balance > 0 && counted then 1 else 0, 1)
  }

  /** What a side change adds: the share of the final side. */
  function Added(d: SideDelta, pseudo: set<Address>): Metrics {
    if d.Removed? then ZERO else Share(d.final.balance, d.Account() !in pseudo)
  }

  /** What a side change takes away: the share of the previous side. */
  function Taken(d: SideDelta, pseudo: set<Address>): Metrics {
    if d.Created? then ZERO else Share(d.previous.balance, d.Account() !in pseudo)
  }

  /** The metrics after the first `n` side changes of a ledger. */
  function Folded(start: Metrics, sides: seq<SideDelta>, pseudo: set<Address>, n: nat): Metrics
    requires n <= |sides|
  {
    if n == 0 then start
    else Folded(start, sides, pseudo, n - 1).Plus(Added(sides[n - 1], pseudo)).Minus(Taken(sides[n - 1], pseudo))
  }

  function FoldedAll(start: Metrics, sides: seq<SideDelta>, pseudo: set<Address>): Metrics {
    Folded(start, sides, pseudo, |sides|)
  }

  /** The rows of one token in the four tables. */
  datatype Tables = Tables(
    supply: Series<int>, holders: Series<int>, trustlines: Series<int>, balances: map<Address, Series<int>>) {
    function MetricsAt(t: int): Metrics {
      Metrics(ReadOrZero(supply, t), ReadOrZero(holders, t), ReadOrZero(trustlines, t))
    }
  }

  const EMPTY := Tables(map[], map[], map[], map[])

  /** The balance a side change leaves: the final one, or zero when the side is gone. */
  function FinalBalance(d: SideDelta): int {
    if d.Removed? then 0 else d.final.balance
  }

  function WriteBalance(balances: map<Address, Series<int>>, s: int, d: SideDelta): map<Address, Series<int>> {
    var rows := if d.Account() in balances then balances[d.Account()] else map[];
    balances[d.Account() := AfterWrite(rows, s, Some(FinalBalance(d)), 0)]
  }

  function WriteBalances(
    balances: map<Address, Series<int>>, s: int, sides: seq<SideDelta>, n: nat): map<Address, Series<int>>
    requires n <= |sides|
  {
    if n == 0 then balances else WriteBalance(WriteBalances(balances, s, sides, n - 1), s, sides[n - 1])
  }

  /** `writeTokenMetrics` for the three metrics. */
  function WriteMetrics(tables: Tables, s: int, m: Metrics): Tables {
    tables.(
      supply := AfterMetric(tables.supply, s, m.supply),
      holders := AfterMetric(tables.holders, s, m.holders),
      trustlines := AfterMetric(tables.trustlines, s, m.trustlines))
  }

  /** What a ledger leaves in a token's tables, given the side changes of that token. */
  function AfterDiff(tables: Tables, s: int, sides: seq<SideDelta>, pseudo: set<Address>): Tables {
    WriteMetrics(tables, s, FoldedAll(tables.MetricsAt(s), sides, pseudo)).(
      balances := WriteBalances(tables.balances, s, sides, |sides|))
  }

  function AfterLedger(tables: Tables, s: int, deltas: seq<Delta>, k: Token, pseudo: set<Address>): Tables {
    var sides := GroupOf(deltas, k, |deltas|);
    if sides == [] then tables else AfterDiff(tables, s, sides, pseudo)
  }

  function Collected(groups: map<Token, seq<SideDelta>>, k: Token): seq<SideDelta> {
    if k in groups then groups[k] else []
  }

  ghost predicate AllValid(sides: seq<SideDelta>) {
    forall i :: 0 <= i < |sides| ==> sides[i].Valid()
  }

  lemma {:induction false} GroupsAreValid(deltas: seq<Delta>, k: Token, n: nat)
    requires n <= |deltas|
    ensures AllValid(GroupOf(deltas, k, n))
  {
    hide Group, AllValid;
    if n == 0 {
      NoneIsValid();
    } else {
      GroupsAreValid(deltas, k, n - 1);
      GroupIsValid(deltas[n - 1]);
      OfTokenIsValid(Group(deltas[n - 1]), k, |Group(deltas[n - 1])|);
      AppendIsValid(GroupOf(deltas, k, n - 1), OfToken(Group(deltas[n - 1]), k, |Group(deltas[n - 1])|));
    }
  }

  lemma NoneIsValid()
    ensures AllValid([])
  {
  }

  lemma GroupIsValid(d: Delta)
    ensures AllValid(Group(d))
  {
    hide GroupSide, Parse;
  }

  lemma AppendIsValid(a: seq<SideDelta>, b: seq<SideDelta>)
    requires AllValid(a) && AllValid(b)
    ensures AllValid(a + b)
  {
  }

  lemma {:induction false} OfTokenIsValid(sides: seq<SideDelta>, k: Token, n: nat)
    requires n <= |sides| && AllValid(sides)
    ensures AllValid(OfToken(sides, k, n))
  {
    if n > 0 {
      OfTokenIsValid(sides, k, n - 1);
    }
  }

  function TablesIn(tokens: map<Token, Tables>, k: Token): Tables {
    if k in tokens then tokens[k] else EMPTY
  }

  /** The database's token tables, changed in place while a ledger is applied. */
  class Database {
    var tokens: map<Token, Tables>
    /** The accounts of protocol features, never counted as holders. */
    const pseudo: set<Address>

    constructor (pseudo: set<Address>)
      ensures tokens == map[] && this.pseudo == pseudo
    {
      tokens := map[];
      this.pseudo := pseudo;
    }

    function TablesOf(k: Token): Tables
      reads this
    {
      TablesIn(tokens, k)
    }

    /** The metric half of the loop body of `diff`. */
    method Count(metrics: Metrics, d: SideDelta) returns (m: Metrics)
      requires d.Valid()
      ensures m == metrics.Plus(Added(d, pseudo)).Minus(Taken(d, pseudo))
    {
      var supply, holders, trustlines := metrics.supply, metrics.holders, metrics.trustlines;
      var counted := d.Account() !in pseudo;
      match d {
        case Modified(previous, final) =>
          supply := supply + (final.balance - previous.balance);
          if counted {
            if previous.balance == 0 && final.balance > 0 {
              holders := holders + 1;
            } else if final.balance == 0 && previous.balance > 0 {
              holders := holders - 1;
            }
          }
        case Created(final) =>
          trustlines := trustlines + 1;
          if final.balance > 0 {
            supply := supply + final.balance;
            if counted {
              holders := holders + 1;
            }
          }
        case Removed(previous) =>
          trustlines := trustlines - 1;
          if previous.balance > 0 {
            supply := supply - previous.balance;
            if counted {
              holders := holders - 1;
            }
          }
      }
      m := Metrics(supply, holders, trustlines);
    }

    /** `diff`: fold the side changes into the metrics and write balances on the way. */
    method Diff(token: Token, deltas: seq<SideDelta>, s: int)
      requires AllValid(deltas)
      modifies this`tokens
      ensures tokens == old(tokens)[token := AfterDiff(old(TablesOf(token)), s, deltas, pseudo)]
    {
      var tables := TablesOf(token);
      var metrics := tables.MetricsAt(s);
      ghost var start := metrics;
      var balances := tables.balances;
      for i := 0 to |deltas|
        invariant metrics == Folded(start, deltas, pseudo, i)
        invariant balances == WriteBalances(tables.balances, s, deltas, i)
        invariant tokens == old(tokens)
      {
        metrics := Count(metrics, deltas[i]);
        balances := WriteBalance(balances, s, deltas[i]);
      }
      tokens := tokens[token := WriteMetrics(tables, s, metrics).(balances := balances)];
    }

    /** `applyDeltas`: collect every token's side changes in order, then apply each group once. */
    method ApplyDeltas(deltas: seq<Delta>, s: int)
      modifies this`tokens
      ensures forall k :: TablesOf(k) == AfterLedger(old(TablesOf(k)), s, deltas, k, pseudo)
    {
      ghost var before := tokens;
      var groups, order, place := GroupDeltas(deltas);
      ghost var targets := map k | k in groups :: AfterDiff(TablesIn(before, k), s, groups[k], pseudo);
      for n := 0 to |order|
        invariant Applied(before, tokens, targets, place, n)
      {
        ghost var now := tokens;
        var token := order[n];
        GroupsAreValid(deltas, token, |deltas|);
        Diff(token, groups[token], s);
        AppliedStep(before, now, targets, order, place, n);
      }
      forall k ensures TablesOf(k) == AfterLedger(TablesIn(before, k), s, deltas, k, pseudo) {
        assert Collected(groups, k) == GroupOf(deltas, k, |deltas|);
      }
    }

    /** The first `n` groups have reached their target, everything else is as before. */
    static ghost predicate Applied(
      before: map<Token, Tables>, now: map<Token, Tables>, targets: map<Token, Tables>, place: map<Token, int>, n: int)
    {
      (forall k :: k in targets ==> k in place)
      && (forall k :: k in targets && place[k] < n ==> TablesIn(now, k) == targets[k])
      && (forall k :: k !in targets || place[k] >= n ==> TablesIn(now, k) == TablesIn(before, k))
    }

    static lemma AppliedStep(before: map<Token, Tables>, now: map<Token, Tables>, targets: map<Token, Tables>,
      order: seq<Token>, place: map<Token, int>, n: int)
      requires Ordered(targets, order, place) && 0 <= n < |order| && Applied(before, now, targets, place, n)
      ensures TablesIn(now, order[n]) == TablesIn(before, order[n])
      ensures Applied(before, now[order[n] := targets[order[n]]], targets, place, n + 1)
    {
    }

    /** The groups with their order of first appearance; `place` is the position in that order. */
    method GroupDeltas(deltas: seq<Delta>)
      returns (groups: map<Token, seq<SideDelta>>, order: seq<Token>, ghost place: map<Token, int>)
      ensures Ordered(groups, order, place)
      ensures forall k :: Collected(groups, k) == GroupOf(deltas, k, |deltas|)
      ensures forall k :: k in groups ==> groups[k] != []
    {
      groups, order, place := map[], [], map[];
      for i := 0 to |deltas|
        invariant Ordered(groups, order, place) && Grouped(groups, deltas, i, [], 0)
      {
        GroupedNone(groups, deltas, i, Group(deltas[i]));
        groups, order, place := CollectSides(groups, order, place, deltas, i, Group(deltas[i]));
        GroupedDelta(groups, deltas, i);
      }
      forall k ensures Collected(groups, k) == GroupOf(deltas, k, |deltas|) {
        assert Collected(groups, k) == GroupOf(deltas, k, |deltas|) + OfToken([], k, 0);
      }
    }

    /** The inner loop of the grouping: one delta's sides. */
    method CollectSides(
      groups0: map<Token, seq<SideDelta>>, order0: seq<Token>, ghost place0: map<Token, int>,
      ghost deltas: seq<Delta>, ghost i: int, sides: seq<SideDelta>)
      returns (groups: map<Token, seq<SideDelta>>, order: seq<Token>, ghost place: map<Token, int>)
      requires 0 <= i <= |deltas| && Ordered(groups0, order0, place0) && Grouped(groups0, deltas, i, sides, 0)
      ensures Ordered(groups, order, place) && Grouped(groups, deltas, i, sides, |sides|)
    {
      groups, order, place := groups0, order0, place0;
      for j := 0 to |sides|
        invariant Ordered(groups, order, place) && Grouped(groups, deltas, i, sides, j)
      {
        var k := sides[j].Token();
        GroupedStep(groups, deltas, i, sides, j);
        OrderedStep(groups, order, place, k, Collected(groups, k) + [sides[j]]);
        if k !in groups {
          place, order := place[k := |order|], order + [k];
        }
        groups := groups[k := Collected(groups, k) + [sides[j]]];
      }
    }

    static ghost predicate Ordered<T>(groups: map<Token, T>, order: seq<Token>, place: map<Token, int>) {
      (forall i :: 0 <= i < |order| ==> order[i] in groups && order[i] in place && place[order[i]] == i)
      && (forall k :: k in groups ==> k in place && 0 <= place[k] < |order| && order[place[k]] == k)
    }

    static lemma OrderedStep(
      groups: map<Token, seq<SideDelta>>, order: seq<Token>, place: map<Token, int>, k: Token,
      sides: seq<SideDelta>)
      requires Ordered(groups, order, place)
      ensures Ordered(
                groups[k := sides],
                if k in groups then order else order + [k],
                if k in groups then place else place[k := |order|])
    {
    }

    /** The groups after `n` whole deltas and the first `j` sides of the next one. */
    static ghost predicate Grouped(
      groups: map<Token, seq<SideDelta>>, deltas: seq<Delta>, n: nat, sides: seq<SideDelta>, j: nat)
      requires n <= |deltas| && j <= |sides|
    {
      (forall k :: k in groups ==> groups[k] != [])
      && (forall k :: Collected(groups, k) == GroupOf(deltas, k, n) + OfToken(sides, k, j))
    }

    static lemma GroupedNone(groups: map<Token, seq<SideDelta>>, deltas: seq<Delta>, n: nat, sides: seq<SideDelta>)
      requires n <= |deltas| && Grouped(groups, deltas, n, [], 0)
      ensures Grouped(groups, deltas, n, sides, 0)
    {
      forall k ensures GroupOf(deltas, k, n) + OfToken(sides, k, 0) == GroupOf(deltas, k, n) + OfToken([], k, 0) {
      }
    }

    static lemma GroupedStep(
      groups: map<Token, seq<SideDelta>>, deltas: seq<Delta>, n: nat, sides: seq<SideDelta>, j: nat)
      requires n <= |deltas| && j < |sides| && Grouped(groups, deltas, n, sides, j)
      ensures var k := sides[j].Token();
              Grouped(groups[k := Collected(groups, k) + [sides[j]]], deltas, n, sides, j + 1)
    {
      var k := sides[j].Token();
      var after := groups[k := Collected(groups, k) + [sides[j]]];
      forall q ensures Collected(after, q) == GroupOf(deltas, q, n) + OfToken(sides, q, j + 1) {
        CollectedStep(groups, deltas, n, sides, j, q);
      }
    }

    static lemma CollectedStep(
      groups: map<Token, seq<SideDelta>>, deltas: seq<Delta>, n: nat, sides: seq<SideDelta>, j: nat, q: Token)
      requires n <= |deltas| && j < |sides|
      requires Collected(groups, q) == GroupOf(deltas, q, n) + OfToken(sides, q, j)
      ensures var k := sides[j].Token();
              Collected(groups[k := Collected(groups, k) + [sides[j]]], q)
                == GroupOf(deltas, q, n) + OfToken(sides, q, j + 1)
    {
    }

    static lemma GroupedDelta(groups: map<Token, seq<SideDelta>>, deltas: seq<Delta>, i: nat)
      requires i < |deltas| && Grouped(groups, deltas, i, Group(deltas[i]), |Group(deltas[i])|)
      ensures Grouped(groups, deltas, i + 1, [], 0)
    {
      forall k ensures GroupOf(deltas, k, i + 1) + OfToken([], k, 0)
                    == GroupOf(deltas, k, i) + OfToken(Group(deltas[i]), k, |Group(deltas[i])|) {
      }
    }
  }
}
