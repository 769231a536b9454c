/**
 Offer history (src/ledger/state/tokenoffers.js over the expirable half of
 src/db/helpers/common.js). The rows of one offer, identified by account and account sequence, are
 validity intervals keyed by their first ledger.
 */
module TokenOffers {
  import opened Wrappers
  import opened Collections

  const MAX_LEDGER_SEQUENCE: int := 1_000_000_000_000

  /** What an offer states: its price and the amount left. */
  datatype Terms = Terms(quality: int, size: int)

  datatype Row<!Book> = Row(book: Book, terms: Terms, last: int)

  type Rows<!Book> = map<int, Row<Book>>

  /** The selector names the book when writing and leaves it out when expiring. */
  predicate Selects<Book(==)>(row: Row<Book>, book: Option<Book>, s: int) {
    s <= row.last && (book.Some? ==> row.book == book.value)
  }

  /** The expirable `readPoint`: the latest selected row whose interval covers `s`. */
  function CoveringAt<Book(==)>(rows: Rows<Book>, from: int, s: int, book: Option<Book>): (r: Option<int>)
    ensures r.Some? ==> r.value in rows && 0 <= r.value <= from && Selects(rows[r.value], book, s)
    ensures r.Some? ==> forall q :: r.value < q <= from && q in rows ==> !Selects(rows[q], book, s)
    ensures r.None? ==> forall q :: 0 <= q <= from && q in rows ==> !Selects(rows[q], book, s)
    decreases from + 1
  {
    if from < 0 then None
    else if from in rows && Selects(rows[from], book, s) then Some(from)
    else CoveringAt(rows, from - 1, s, book)
  }

  /** `writePoint` with null data: a row of the same ledger goes, an older one ends the ledger before. */
  function AfterExpire<Book(==)>(rows: Rows<Book>, s: int): Rows<Book> {
    match CoveringAt(rows, s, s, None)
    case Some(q) => if q == s then Without(rows, s) else rows[q := rows[q].(last := s - 1)]
    case None => rows
  }

  /** `writePoint` with data: rewrite a row of the same ledger, else close the older row and open one. */
  function AfterWrite<Book(==)>(rows: Rows<Book>, s: int, book: Book, terms: Terms): Rows<Book> {
    match CoveringAt(rows, s, s, Some(book))
    case Some(q) =>
      if rows[q].terms == terms then rows
      else if q == s then rows[s := rows[s].(terms := terms)]
      else rows[q := rows[q].(last := s - 1)][s := Row(book, terms, MAX_LEDGER_SEQUENCE)]
    case None => rows[s := Row(book, terms, MAX_LEDGER_SEQUENCE)]
  }

  /** A delta of one offer; a missing side is None. The final side carries its new book and terms. */
  datatype Event<!Book> = Event(sequence: int, previous: bool, final: Option<(Book, Terms)>)

  function AfterEvent<Book(==)>(rows: Rows<Book>, e: Event<Book>): Rows<Book> {
    var expired := if e.previous then AfterExpire(rows, e.sequence) else rows;
    if e.final.Some? then AfterWrite(expired, e.sequence, e.final.value.0, e.final.value.1) else expired
  }

  function AfterRun<Book(==)>(events: seq<Event<Book>>): Rows<Book> {
    if events == [] then map[]
    else AfterEvent(AfterRun(events[..|events| - 1]), events[|events| - 1])
  }

  /** The ledger's own view: what the offer is after all events up to ledger `t`. */
  function StateAt<Book>(events: seq<Event<Book>>, t: int): Option<(Book, Terms)> {
    if events == [] then None
    else
      var e, before := events[|events| - 1], StateAt(events[..|events| - 1], t);
      if t < e.sequence then before
      else if e.final.Some? || e.previous then e.final
      else before
  }

  /**
   A forward run: ledgers never go back, and an event that carries no previous side while the offer
   is live stays in the offer's book.
   */
  predicate Forward<Book(==)>(events: seq<Event<Book>>) {
    events != [] ==>
      var e, init := events[|events| - 1], events[..|events| - 1];
      Forward(init) && 0 <= e.sequence <= MAX_LEDGER_SEQUENCE
      && (init != [] ==> init[|init| - 1].sequence <= e.sequence)
      && (e.final.Some? && !e.previous ==>
            var live := StateAt(init, e.sequence); live.None? || live.value.0 == e.final.value.0)
  }

  /** The rows are non-empty intervals, one after the other, and only the last may be open. */
  ghost predicate DisjointIntervals<Book>(rows: Rows<Book>) {
    (forall q :: q in rows ==> 0 <= q <= rows[q].last <= MAX_LEDGER_SEQUENCE)
    && (forall p, q :: p in rows && q in rows && p < q ==> rows[p].last < q)
  }

  /** At most one row covers a ledger, so the read needs no tie-break. */
  lemma CoveringIs<Book>(rows: Rows<Book>, q: int, s: int, book: Option<Book>)
    requires DisjointIntervals(rows) && q in rows && q <= s && Selects(rows[q], book, s)
    ensures CoveringAt(rows, s, s, book) == Some(q)
  {
    var r := CoveringAt(rows, s, s, book);
    assert r.Some? && !(r.value < q);
  }

  function Covered<Book(==)>(rows: Rows<Book>, t: int): Option<(Book, Terms)> {
    match CoveringAt(rows, t, t, None)
    case Some(q) => Some((rows[q].book, rows[q].terms))
    case None => None
  }

  /** The rows after a run that reached ledger `now`: every row but an open one ended before. */
  ghost predicate UpTo<Book>(rows: Rows<Book>, now: int) {
    DisjointIntervals(rows)
    && forall q :: q in rows ==> q <= now && (rows[q].last < now || rows[q].last == MAX_LEDGER_SEQUENCE)
  }

  /** Changing only the row at `s` and ends that stay at or above `s - 1` leaves the past as it was. */
  lemma PastKept<Book>(rows: Rows<Book>, after: Rows<Book>, s: int, t: int)
    requires DisjointIntervals(rows) && DisjointIntervals(after) && t < s
    requires forall q :: q < s ==> (q in rows <==> q in after)
    requires forall q :: q < s && q in rows ==>
               rows[q].book == after[q].book && rows[q].terms == after[q].terms
               && (rows[q].last == after[q].last || (rows[q].last >= s && after[q].last == s - 1))
    ensures Covered(after, t) == Covered(rows, t)
  {
    var r, r' := CoveringAt(rows, t, t, None), CoveringAt(after, t, t, None);
    if r.Some? {
      CoveringIs(after, r.value, t, None);
    } else if r'.Some? {
      CoveringIs(rows, r'.value, t, None);
    }
  }

  /** A row that reaches ledger `s` is open, covers `s`, and is the only one to do so. */
  lemma OnlyOpenRow<Book>(rows: Rows<Book>, now: int, s: int, q: int)
    requires UpTo(rows, now) && 0 <= now <= s && q in rows && s <= rows[q].last
    ensures rows[q].last == MAX_LEDGER_SEQUENCE && q <= now && CoveringAt(rows, s, s, None) == Some(q)
    ensures forall p :: p in rows && p != q ==> p < q && rows[p].last < q
  {
    CoveringIs(rows, q, s, None);
  }

  lemma ExpireShape<Book>(rows: Rows<Book>, now: int, s: int)
    requires UpTo(rows, now) && 0 <= now <= s
    ensures UpTo(AfterExpire(rows, s), s)
    ensures forall q :: q in AfterExpire(rows, s) ==> AfterExpire(rows, s)[q].last < s
  {
    var r := CoveringAt(rows, s, s, None);
    if r.Some? {
      OnlyOpenRow(rows, now, s, r.value);
    } else {
      forall q | q in rows ensures rows[q].last < s {
        if rows[q].last >= s { OnlyOpenRow(rows, now, s, q); }
      }
    }
  }

  lemma ExpireEnds<Book>(rows: Rows<Book>, now: int, s: int, t: int)
    requires UpTo(rows, now) && 0 <= now <= s
    ensures Covered(AfterExpire(rows, s), t) == if t < s then Covered(rows, t) else None
  {
    ExpireShape(rows, now, s);
    if t < s {
      PastKept(rows, AfterExpire(rows, s), s, t);
    }
  }

  ghost predicate OpenAt<Book>(rows: Rows<Book>, now: int, open: int, book: Book, terms: Terms) {
    UpTo(rows, now) && open in rows && rows[open] == Row(book, terms, MAX_LEDGER_SEQUENCE)
  }

  /** With no live offer the write opens a row. */
  lemma WriteOpens<Book>(rows: Rows<Book>, now: int, s: int, book: Book, terms: Terms)
    requires UpTo(rows, now) && 0 <= now <= s <= MAX_LEDGER_SEQUENCE && Covered(rows, s).None?
    ensures OpenAt(AfterWrite(rows, s, book, terms), s, s, book, terms)
  {
    forall q | q in rows ensures rows[q].last < s {
      if rows[q].last >= s { OnlyOpenRow(rows, now, s, q); }
    }
  }

  /** A live offer in the book is kept, rewritten, or closed for a new row. */
  lemma WriteContinues<Book>(rows: Rows<Book>, now: int, s: int, book: Book, terms: Terms, q: int)
    requires UpTo(rows, now) && 0 <= now <= s <= MAX_LEDGER_SEQUENCE
    requires CoveringAt(rows, s, s, None) == Some(q) && rows[q].book == book
    ensures OpenAt(AfterWrite(rows, s, book, terms), s, if rows[q].terms == terms then q else s, book, terms)
  {
    OnlyOpenRow(rows, now, s, q);
    CoveringIs(rows, q, s, Some(book));
  }

  lemma WriteShape<Book>(rows: Rows<Book>, now: int, s: int, book: Book, terms: Terms) returns (open: int)
    requires UpTo(rows, now) && 0 <= now <= s <= MAX_LEDGER_SEQUENCE
    requires Covered(rows, s).Some? ==> Covered(rows, s).value.0 == book
    ensures OpenAt(AfterWrite(rows, s, book, terms), s, open, book, terms)
  {
    var r := CoveringAt(rows, s, s, None);
    if r.Some? {
      WriteContinues(rows, now, s, book, terms, r.value);
      open := if rows[r.value].terms == terms then r.value else s;
    } else {
      WriteOpens(rows, now, s, book, terms);
      open := s;
    }
  }

  /**
   Why a silent change of book is excluded: a write keeps the intervals disjoint exactly when no
   offer of another book is live since an earlier ledger. Otherwise the old row stays open too.
   */
  lemma WriteKeepsIntervalsIff<Book>(rows: Rows<Book>, now: int, s: int, book: Book, terms: Terms)
    requires UpTo(rows, now) && 0 <= now <= s <= MAX_LEDGER_SEQUENCE
    ensures DisjointIntervals(AfterWrite(rows, s, book, terms))
       <==> var live := CoveringAt(rows, s, s, None); live.Some? ==> rows[live.value].book == book || live.value == s
  {
    var live := CoveringAt(rows, s, s, None);
    if live.None? || rows[live.value].book == book {
      var open := WriteShape(rows, now, s, book, terms);
    } else {
      OnlyOpenRow(rows, now, s, live.value);
      OtherBookOpens(rows, now, s, book, terms, live.value);
    }
  }

  /** A live offer of another book is not found by the write, which opens a row beside it, or over it. */
  lemma OtherBookOpens<Book>(rows: Rows<Book>, now: int, s: int, book: Book, terms: Terms, live: int)
    requires UpTo(rows, now) && 0 <= now <= s <= MAX_LEDGER_SEQUENCE
    requires CoveringAt(rows, s, s, None) == Some(live) && rows[live].book != book
    requires forall q :: q in rows && q != live ==> rows[q].last < s
    ensures DisjointIntervals(AfterWrite(rows, s, book, terms)) <==> live == s
  {
    var after := AfterWrite(rows, s, book, terms);
    assert CoveringAt(rows, s, s, Some(book)).None?;
    assert after == rows[s := Row(book, terms, MAX_LEDGER_SEQUENCE)];
    if live == s {
      forall p, q | p in after && q in after && p < q ensures after[p].last < q {
        assert p in rows;
      }
    } else {
      assert live in after && s in after && live < s <= after[live].last;
    }
  }

  lemma WriteStates<Book>(rows: Rows<Book>, now: int, s: int, book: Book, terms: Terms, t: int)
    requires UpTo(rows, now) && 0 <= now <= s <= MAX_LEDGER_SEQUENCE && t <= MAX_LEDGER_SEQUENCE
    requires Covered(rows, s).Some? ==> Covered(rows, s).value.0 == book
    ensures Covered(AfterWrite(rows, s, book, terms), t) == if t < s then Covered(rows, t) else Some((book, terms))
  {
    var after := AfterWrite(rows, s, book, terms);
    var open := WriteShape(rows, now, s, book, terms);
    if t < s {
      PastKept(rows, after, s, t);
    } else {
      CoveringIs(after, open, t, None);
    }
  }

  /** Stating what an offer states already changes nothing, however often. */
  lemma WriteOnlyChanges<Book>(rows: Rows<Book>, s: int, book: Book, terms: Terms)
    requires DisjointIntervals(rows) && 0 <= s
    ensures Covered(rows, s) == Some((book, terms)) ==> AfterWrite(rows, s, book, terms) == rows
    ensures Covered(rows, s) == None ==> AfterExpire(rows, s) == rows
  {
    var r := CoveringAt(rows, s, s, None);
    if r.Some? && rows[r.value].book == book {
      CoveringIs(rows, r.value, s, Some(book));
    }
  }

  ghost function Now<Book>(events: seq<Event<Book>>): int {
    if events == [] then 0 else events[|events| - 1].sequence
  }

  /**
   Offer history. After any forward run, several events per ledger allowed, the rows of an offer are
   disjoint non-empty intervals of which only the latest may be open, and the expirable read at any
   ledger returns the book and terms the offer had at the end of that ledger.
   */
  lemma {:induction false} OfferHistory<Book>(events: seq<Event<Book>>)
    requires Forward(events)
    ensures UpTo(AfterRun(events), Now(events))
    ensures forall t :: t <= MAX_LEDGER_SEQUENCE ==> Covered(AfterRun(events), t) == StateAt(events, t)
  {
    if events != [] {
      var e, init := events[|events| - 1], events[..|events| - 1];
      var rows, s := AfterRun(init), e.sequence;
      OfferHistory(init);
      var expired := if e.previous then AfterExpire(rows, s) else rows;
      var now := if e.previous then s else Now(init);
      if e.previous {
        ExpireShape(rows, Now(init), s);
        ExpireEnds(rows, Now(init), s, s);
      }
      if e.final.Some? {
        var open := WriteShape(expired, now, s, e.final.value.0, e.final.value.1);
      }
      forall t | t <= MAX_LEDGER_SEQUENCE ensures Covered(AfterRun(events), t) == StateAt(events, t) {
        if e.previous {
          ExpireEnds(rows, Now(init), s, t);
        }
        if e.final.Some? {
          WriteStates(expired, now, s, e.final.value.0, e.final.value.1, t);
        }
      }
    }
  }

  /** All offers, each under its account and account sequence, changed in place. */
  class OfferTable<Key(==, !new), Book(==, !new)> {
    var offers: map<Key, Rows<Book>>

    constructor ()
      ensures offers == map[]
    {
      offers := map[];
    }

    function RowsOf(key: Key): Rows<Book>
      reads this
    {
      if key in offers then offers[key] else map[]
    }

    /** `writePoint` with `expirable` set, branch by branch. */
    method WritePoint(key: Key, s: int, book: Option<Book>, terms: Option<Terms>)
      requires terms.Some? ==> book.Some?
      requires terms.None? ==> book.None?
      modifies this
      ensures RowsOf(key) == if terms.Some? then AfterWrite(old(RowsOf(key)), s, book.value, terms.value)
                             else AfterExpire(old(RowsOf(key)), s)
      ensures forall k :: k != key ==> RowsOf(k) == old(RowsOf(k))
    {
      var rows := RowsOf(key);
      var point := CoveringAt(rows, s, s, book);
      if point.Some? {
        var replace := point.value == s;
        if terms.Some? {
          if rows[point.value].terms == terms.value {
            return;
          }
          if replace {
            offers := offers[key := rows[s := rows[s].(terms := terms.value)]];
            return;
          }
        } else if replace {
          offers := offers[key := Without(rows, s)];
          return;
        }
        rows := rows[point.value := rows[point.value].(last := s - 1)];
        offers := offers[key := rows];
      }
      if terms.None? {
        return;
      }
      offers := offers[key := rows[s := Row(book.value, terms.value, MAX_LEDGER_SEQUENCE)]];
    }

    /** `diff`: expire the previous offer, then write the final one. */
    method Diff(key: Key, e: Event<Book>)
      modifies this
      ensures RowsOf(key) == AfterEvent(old(RowsOf(key)), e)
      ensures forall k :: k != key ==> RowsOf(k) == old(RowsOf(k))
    {
      if e.previous {
        WritePoint(key, e.sequence, None, None);
      }
      if e.final.Some? {
        WritePoint(key, e.sequence, Some(e.final.value.0), Some(e.final.value.1));
      }
    }
  }
}
