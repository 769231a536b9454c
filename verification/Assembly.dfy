/**
 Ledger assembly in the node pool (src/xrpl/nodepool.js): headers and transactions arrive in any order
 and more than once, are deduplicated by hash, collected per ledger, and emitted when complete.
 */
module Assembly {
  import opened Wrappers
  import opened Collections

  const MAX_PENDING_LEDGERS := 20

  const MAX_SEEN_HASHES := 10000

  datatype Tx = Tx(hash: string, ledgerIndex: Option<int>)

  datatype Header = Header(hash: string, ledgerIndex: int, txnCount: int)

  /** An event of a node: a closed ledger's header, or one of its transactions. */
  datatype Event = Closed(header: Header) | Transaction(tx: Tx) {
    function Hash(): string { if Closed? then header.hash else tx.hash }
  }

  /** A ledger being assembled. */
  datatype Pending = Pending(header: Option<Header>, transactions: seq<Tx>)

  datatype Emitted = Emitted(header: Header, transactions: seq<Tx>)

  datatype State = State(seen: set<string>, order: seq<string>, pending: map<int, Pending>, emitted: seq<Emitted>)

  const INIT := State({}, [], map[], [])

  const EMPTY := Pending(None, [])

  /** `sawHash` for a new hash: remember it, and forget the oldest beyond the window. */
  function Remember(s: State, hash: string): State {
    var order := s.order + [hash];
    if |order| > MAX_SEEN_HASHES then s.(seen := s.seen + {hash} - {order[0]}, order := order[1..])
    else s.(seen := s.seen + {hash}, order := order)
  }

  /** Drop the lowest sequences until the bound holds. */
  function Evict(pending: map<int, Pending>): map<int, Pending>
    decreases pending.Keys
  {
    if |pending| <= MAX_PENDING_LEDGERS then pending
    else
      var oldest := Least(pending.Keys);
      assert oldest in pending.Keys && Without(pending, oldest).Keys == pending.Keys - {oldest};
      Evict(Without(pending, oldest))
  }

  /** `bufferFor`: the pending ledger at `q`, made on demand; making it may evict others, or itself. */
  function Buffered(pending: map<int, Pending>, q: int): map<int, Pending> {
    if q in pending then pending else Evict(pending[q := EMPTY])
  }

  /** The ledger an event goes to: an untagged transaction falls back to the newest pending ledger. */
  function Target(s: State, e: Event): Option<int> {
    match e
    case Closed(h) => Some(h.ledgerIndex)
    case Transaction(tx) =>
      if tx.ledgerIndex.Some? then tx.ledgerIndex
      else if s.pending == map[] then None
      else Some(Greatest(s.pending.Keys))
  }

  /** The event merged into a pending ledger. */
  function Merged(p: Pending, e: Event): Pending {
    match e
    case Closed(h) => p.(header := Some(h))
    case Transaction(tx) => p.(transactions := p.transactions + [tx])
  }

  predicate Complete(p: Pending) {
    p.header.Some? && |p.transactions| == p.header.value.txnCount
  }

  /** `tryEmitLedger`. */
  function Emit(s: State, q: int): State {
    if q in s.pending && Complete(s.pending[q])
    then s.(
      pending := Without(s.pending, q),
      emitted := s.emitted + [Emitted(s.pending[q].header.value, s.pending[q].transactions)])
    else s
  }

  /** The merge happens in the map unless the buffer was evicted as it was made. */
  function Deliver(s: State, q: int, e: Event): State {
    var pending := Buffered(s.pending, q);
    Emit(s.(pending := if q in pending then pending[q := Merged(pending[q], e)] else pending), q)
  }

  /** The event handler. */
  function Step(s: State, e: Event): State {
    if e.Hash() in s.seen then s
    else
      var remembered := Remember(s, e.Hash());
      match Target(s, e)
      case Some(q) => Deliver(remembered, q, e)
      case None => remembered
  }

  function After(events: seq<Event>, n: nat): State
    requires n <= |events|
  {
    if n == 0 then INIT else Step(After(events, n - 1), events[n - 1])
  }

  // ---- What holds in every state ----

  /** At most 20 pending ledgers, none of them complete. */
  ghost predicate Bounded(s: State) {
    |s.pending| <= MAX_PENDING_LEDGERS && forall q :: q in s.pending ==> !Complete(s.pending[q])
  }

  /** The window is the set of the hashes in order, without repeats, at most 10000. */
  ghost predicate Window(s: State) {
    |s.order| <= MAX_SEEN_HASHES
    && (forall i :: 0 <= i < |s.order| ==> s.order[i] in s.seen)
    && (forall h :: h in s.seen ==> exists i :: 0 <= i < |s.order| && s.order[i] == h)
    && (forall i, j :: 0 <= i < j < |s.order| ==> s.order[i] != s.order[j])
  }

  lemma {:induction false} EvictBounds(pending: map<int, Pending>)
    ensures |Evict(pending)| <= MAX_PENDING_LEDGERS
    ensures forall q :: q in Evict(pending) ==> q in pending && Evict(pending)[q] == pending[q]
    decreases pending.Keys
  {
    if |pending| > MAX_PENDING_LEDGERS {
      var oldest := Least(pending.Keys);
      assert oldest in pending.Keys && Without(pending, oldest).Keys == pending.Keys - {oldest};
      EvictBounds(Without(pending, oldest));
    }
  }

  lemma BufferedBounds(pending: map<int, Pending>, q: int)
    requires |pending| <= MAX_PENDING_LEDGERS
    ensures |Buffered(pending, q)| <= MAX_PENDING_LEDGERS
    ensures forall p :: p in Buffered(pending, q) && p != q ==> p in pending && Buffered(pending, q)[p] == pending[p]
  {
    EvictBounds(pending[q := EMPTY]);
  }

  lemma WithoutSmaller<V>(m: map<int, V>, q: int)
    ensures |Without(m, q)| <= |m|
  {
    assert Without(m, q).Keys == m.Keys - {q};
  }

  lemma UpdateSameSize<V>(m: map<int, V>, q: int, v: V)
    requires q in m
    ensures |m[q := v]| == |m|
  {
    assert m[q := v].Keys == m.Keys;
  }

  lemma DeliverBounded(s: State, q: int, e: Event)
    requires Bounded(s)
    ensures Bounded(Deliver(s, q, e))
  {
    hide Buffered, Merged, Complete;
    var pending := Buffered(s.pending, q);
    BufferedBounds(s.pending, q);
    if q in pending {
      var filled := pending[q := Merged(pending[q], e)];
      UpdateSameSize(pending, q, Merged(pending[q], e));
      WithoutSmaller(filled, q);
    }
  }

  lemma StepBounded(s: State, e: Event)
    requires Bounded(s)
    ensures Bounded(Step(s, e))
  {
    hide Deliver, Complete, Target;
    if e.Hash() !in s.seen && Target(s, e).Some? {
      DeliverBounded(Remember(s, e.Hash()), Target(s, e).value, e);
    }
  }

  lemma RememberKeeps(s: State, hash: string, h: string)
    requires Window(s) && hash !in s.seen && h in Remember(s, hash).seen
    ensures exists i :: 0 <= i < |Remember(s, hash).order| && Remember(s, hash).order[i] == h
  {
    var order, s' := s.order + [hash], Remember(s, hash);
    if h == hash {
      assert s'.order[|s'.order| - 1] == h;
    } else {
      var i :| 0 <= i < |s.order| && s.order[i] == h;
      assert order[i] == h;
      if |order| > MAX_SEEN_HASHES {
        assert i > 0 && s'.order[i - 1] == h;
      }
    }
  }

  lemma RememberWindow(s: State, hash: string)
    requires Window(s) && hash !in s.seen
    ensures Window(Remember(s, hash))
  {
    var s' := Remember(s, hash);
    forall h | h in s'.seen ensures exists i :: 0 <= i < |s'.order| && s'.order[i] == h {
      RememberKeeps(s, hash, h);
    }
  }

  lemma DeliverKeepsWindow(s: State, q: int, e: Event)
    ensures Deliver(s, q, e).seen == s.seen && Deliver(s, q, e).order == s.order
  {
  }

  lemma StepWindow(s: State, e: Event)
    requires Window(s)
    ensures Window(Step(s, e))
  {
    hide Deliver, Remember, Target;
    if e.Hash() !in s.seen {
      RememberWindow(s, e.Hash());
      if Target(s, e).Some? {
        DeliverKeepsWindow(Remember(s, e.Hash()), Target(s, e).value, e);
      }
    }
  }

  /**
   Whatever arrives: at most 20 ledgers are pending, none of them complete, and at most 10000 hashes
   are remembered, each once.
   */
  lemma {:induction false} AlwaysBounded(events: seq<Event>, n: nat)
    requires n <= |events|
    ensures Bounded(After(events, n)) && Window(After(events, n))
  {
    if n > 0 {
      AlwaysBounded(events, n - 1);
      StepBounded(After(events, n - 1), events[n - 1]);
      StepWindow(After(events, n - 1), events[n - 1]);
    }
  }

  /** Eviction takes the oldest: what stays is newer than what goes. */
  lemma {:induction false} EvictionKeepsNewest(pending: map<int, Pending>, gone: int, kept: int)
    requires gone in pending && gone !in Evict(pending) && kept in Evict(pending)
    ensures gone < kept
    decreases pending.Keys
  {
    if |pending| > MAX_PENDING_LEDGERS {
      var oldest := Least(pending.Keys);
      assert oldest in pending.Keys && Without(pending, oldest).Keys == pending.Keys - {oldest};
      EvictBounds(Without(pending, oldest));
      if gone != oldest {
        EvictionKeepsNewest(Without(pending, oldest), gone, kept);
      }
    }
  }

  /** How many pending ledgers are newer than `q`. */
  function NewerThan(pending: map<int, Pending>, q: int): int {
    |set k | k in pending && k > q|
  }

  lemma NewerBound(pending: map<int, Pending>, q: int)
    requires q in pending
    ensures NewerThan(pending, q) < |pending|
  {
    var newer := set k | k in pending && k > q;
    CardinalityGrows(newer + {q}, pending.Keys);
  }

  lemma OldestHasAllNewer(pending: map<int, Pending>, q: int)
    requires IsLeast(pending.Keys, q)
    ensures NewerThan(pending, q) == |pending| - 1
  {
    assert (set k | k in pending && k > q) == pending.Keys - {q};
  }

  lemma NewerWithoutOldest(pending: map<int, Pending>, oldest: int, q: int)
    requires IsLeast(pending.Keys, oldest) && q in pending && q != oldest
    ensures NewerThan(Without(pending, oldest), q) == NewerThan(pending, q)
  {
    assert (set k | k in Without(pending, oldest) && k > q) == (set k | k in pending && k > q);
  }

  /** Eviction keeps exactly the 20 newest, as they are. */
  lemma {:induction false} EvictKeepsNewestIff(pending: map<int, Pending>, q: int)
    ensures q in Evict(pending) <==> q in pending && NewerThan(pending, q) < MAX_PENDING_LEDGERS
    decreases pending.Keys
  {
    hide NewerThan;
    if |pending| <= MAX_PENDING_LEDGERS {
      if q in pending { NewerBound(pending, q); }
    } else {
      var oldest := Least(pending.Keys);
      assert oldest in pending.Keys && Without(pending, oldest).Keys == pending.Keys - {oldest};
      EvictKeepsNewestIff(Without(pending, oldest), q);
      if q == oldest {
        OldestHasAllNewer(pending, q);
      } else if q in pending {
        NewerWithoutOldest(pending, oldest, q);
      }
    }
  }

  /**
   Where events go: headers and tagged transactions by their own sequence, others to the newest pending
   ledger if any.
   */
  lemma TargetIs(s: State, e: Event, q: int)
    ensures Target(s, e) == Some(q) <==>
      (e.Closed? && q == e.header.ledgerIndex)
      || (e.Transaction? && e.tx.ledgerIndex == Some(q))
      || (e.Transaction? && e.tx.ledgerIndex.None? && q in s.pending && forall k :: k in s.pending ==> k <= q)
    ensures Target(s, e).None? <==> e.Transaction? && e.tx.ledgerIndex.None? && s.pending == map[]
  {
    if e.Transaction? && e.tx.ledgerIndex.None? {
      assert s.pending == map[] <==> s.pending.Keys == {};
    }
  }

  // ---- The window of hashes ----

  /** The hashes new on arrival among the first `n` events. */
  function NewHashes(events: seq<Event>, n: nat): seq<string>
    requires n <= |events|
  {
    if n == 0 then []
    else
      var before := NewHashes(events, n - 1);
      if Fresh(After(events, n - 1), events[n - 1]) then before + [events[n - 1].Hash()] else before
  }

  function LastOf<T>(items: seq<T>, k: nat): seq<T> {
    if |items| <= k then items else items[|items| - k..]
  }

  lemma RememberOrder(s: State, news: seq<string>, hash: string)
    requires s.order == LastOf(news, MAX_SEEN_HASHES)
    ensures Remember(s, hash).order == LastOf(news + [hash], MAX_SEEN_HASHES)
  {
  }

  /** After any events the window is the last 10000 of the new hashes, in order of arrival. */
  lemma {:induction false} WindowIsLastNew(events: seq<Event>, n: nat)
    requires n <= |events|
    ensures After(events, n).order == LastOf(NewHashes(events, n), MAX_SEEN_HASHES)
  {
    hide Deliver, Target, Remember, LastOf;
    if n == 0 {
      NoneLast();
    } else {
      var s, e := After(events, n - 1), events[n - 1];
      WindowIsLastNew(events, n - 1);
      if Fresh(s, e) {
        RememberOrder(s, NewHashes(events, n - 1), e.Hash());
        if Target(s, e).Some? {
          DeliverKeepsWindow(Remember(s, e.Hash()), Target(s, e).value, e);
        }
      }
    }
  }

  lemma NoneLast()
    ensures LastOf<string>([], MAX_SEEN_HASHES) == []
  {
  }

  /** Event `i` was new and brought this hash. */
  ghost predicate Brought(events: seq<Event>, i: int, hash: string)
    requires 0 <= i < |events|
  {
    Fresh(After(events, i), events[i]) && events[i].Hash() == hash
  }

  lemma {:induction false} NewGrows(events: seq<Event>, i: nat, n: nat)
    requires i <= n <= |events|
    ensures |NewHashes(events, i)| <= |NewHashes(events, n)|
    decreases n
  {
    hide Fresh;
    if i < n { NewGrows(events, i, n - 1); }
  }

  /** A new hash takes the next place among the new ones. */
  lemma {:induction false} PlaceOf(events: seq<Event>, i: nat, n: nat)
    requires i < n <= |events| && Fresh(After(events, i), events[i])
    ensures |NewHashes(events, i)| < |NewHashes(events, n)|
    ensures NewHashes(events, n)[|NewHashes(events, i)|] == events[i].Hash()
  {
    hide Fresh, Step;
    if i < n - 1 { PlaceOf(events, i, n - 1); }
  }

  lemma {:induction false} BringerOf(events: seq<Event>, n: nat, p: nat) returns (i: nat)
    requires n <= |events| && p < |NewHashes(events, n)|
    ensures i < n && |NewHashes(events, i)| == p && Brought(events, i, NewHashes(events, n)[p])
  {
    hide Step;
    if p < |NewHashes(events, n - 1)| {
      i := BringerOf(events, n - 1, p);
    } else {
      i := n - 1;
    }
  }

  lemma LastOfHas<T>(items: seq<T>, k: nat, item: T)
    ensures (exists j :: 0 <= j < |LastOf(items, k)| && LastOf(items, k)[j] == item)
       <==> exists p :: 0 <= p < |items| && |items| - k <= p && items[p] == item
  {
    var last := LastOf(items, k);
    var skip := |items| - |last|;
    if j :| 0 <= j < |last| && last[j] == item {
      assert items[j + skip] == item;
    }
    if p :| 0 <= p < |items| && |items| - k <= p && items[p] == item {
      assert last[p - skip] == item;
    }
  }

  /** A hash is remembered exactly if it came new and at most 10000 new hashes, itself included, came since. */
  lemma RememberedIff(events: seq<Event>, n: nat, hash: string)
    requires n <= |events|
    ensures hash in After(events, n).seen
       <==> exists i :: 0 <= i < n && Brought(events, i, hash)
                        && |NewHashes(events, n)| - |NewHashes(events, i)| <= MAX_SEEN_HASHES
  {
    hide After, Brought, LastOf, Bounded;
    var s, news := After(events, n), NewHashes(events, n);
    WindowIsLastNew(events, n);
    AlwaysBounded(events, n);
    LastOfHas(news, MAX_SEEN_HASHES, hash);
    if hash in s.seen {
      var p :| 0 <= p < |news| && |news| - MAX_SEEN_HASHES <= p && news[p] == hash;
      var i := BringerOf(events, n, p);
      assert Brought(events, i, hash);
    }
    if i :| 0 <= i < n && Brought(events, i, hash) && |news| - |NewHashes(events, i)| <= MAX_SEEN_HASHES {
      BroughtPlace(events, i, n, hash);
      var p := |NewHashes(events, i)|;
      assert news[p] == hash;
      assert exists j :: 0 <= j < |s.order| && s.order[j] == hash;
    }
  }

  lemma BroughtPlace(events: seq<Event>, i: nat, n: nat, hash: string)
    requires i < n <= |events| && Brought(events, i, hash)
    ensures |NewHashes(events, i)| < |NewHashes(events, n)| && NewHashes(events, n)[|NewHashes(events, i)|] == hash
  {
    PlaceOf(events, i, n);
  }

  // ---- One ledger over a whole run ----

  /** A ledger's own pieces: its header and the transactions it counts. */
  datatype Closing = Closing(header: Header, txs: set<Tx>)

  predicate Piece(l: Closing, e: Event) {
    match e
    case Closed(h) => h == l.header
    case Transaction(tx) => tx in l.txs
  }

  predicate Fresh(s: State, e: Event) {
    e.Hash() !in s.seen
  }

  /** A hash names one event. */
  ghost predicate HashesUnique(events: seq<Event>) {
    forall i, j :: 0 <= i < |events| && 0 <= j < |events| && events[i].Hash() == events[j].Hash() ==>
      events[i] == events[j]
  }

  /** New events go to the ledger exactly when they are its pieces. */
  ghost predicate PiecesTargeted(l: Closing, events: seq<Event>) {
    forall n :: 0 <= n < |events| && Fresh(After(events, n), events[n]) ==>
      (Target(After(events, n), events[n]) == Some(l.header.ledgerIndex) <==> Piece(l, events[n]))
  }

  /** A piece that comes again finds its hash still in the window. */
  ghost predicate RepeatsRemembered(l: Closing, events: seq<Event>) {
    forall i, n :: 0 <= i < n < |events| && events[i] == events[n] && Piece(l, events[n]) ==>
      !Fresh(After(events, n), events[n])
  }

  /** The ledger's buffer is never evicted. */
  ghost predicate NeverEvicted(l: Closing, events: seq<Event>) {
    forall n :: 0 <= n < |events| && Fresh(After(events, n), events[n]) ==> Spared(l, After(events, n), events[n])
  }

  predicate Spared(l: Closing, s: State, e: Event) {
    var q, target := l.header.ledgerIndex, Target(s, e);
    target.Some? && (q in s.pending || target.value == q) ==> q in Buffered(s.pending, target.value)
  }

  ghost predicate Undisturbed(l: Closing, events: seq<Event>) {
    |l.txs| == l.header.txnCount && HashesUnique(events)
    && PiecesTargeted(l, events) && RepeatsRemembered(l, events) && NeverEvicted(l, events)
  }

  ghost predicate Came(events: seq<Event>, e: Event, n: int) {
    exists i :: 0 <= i < n <= |events| && events[i] == e
  }

  /** The ledger's transactions among the first `n` events, in order of first arrival. */
  function Arrived(l: Closing, events: seq<Event>, n: nat): seq<Tx>
    requires n <= |events|
  {
    if n == 0 then []
    else
      var before := Arrived(l, events, n - 1);
      var e := events[n - 1];
      if e.Transaction? && e.tx in l.txs && e.tx !in before then before + [e.tx] else before
  }

  ghost predicate AllCame(l: Closing, events: seq<Event>, n: nat)
    requires n <= |events|
  {
    Came(events, Closed(l.header), n) && |Arrived(l, events, n)| == |l.txs|
  }

  /** The emissions for ledger `q`. */
  function EmittedFor(emitted: seq<Emitted>, q: int): seq<Emitted> {
    if emitted == [] then []
    else
      var last := emitted[|emitted| - 1];
      EmittedFor(emitted[..|emitted| - 1], q) + if last.header.ledgerIndex == q then [last] else []
  }

  /** The ledger's place in a state, given what of it has come. */
  predicate Assembles(s: State, l: Closing, header: bool, txs: seq<Tx>) {
    var q := l.header.ledgerIndex;
    if header && |txs| == |l.txs| then q !in s.pending && EmittedFor(s.emitted, q) == [Emitted(l.header, txs)]
    else
      EmittedFor(s.emitted, q) == []
      && if !header && txs == [] then q !in s.pending
         else q in s.pending && s.pending[q] == Pending(if header then Some(l.header) else None, txs)
  }

  ghost predicate HeadersFiled(s: State) {
    forall q :: q in s.pending && s.pending[q].header.Some? ==> s.pending[q].header.value.ledgerIndex == q
  }

  lemma EmittedForAppend(emitted: seq<Emitted>, e: Emitted, q: int)
    ensures EmittedFor(emitted + [e], q) == EmittedFor(emitted, q) + if e.header.ledgerIndex == q then [e] else []
  {
    assert (emitted + [e])[..|emitted|] == emitted;
  }

  lemma DeliverFiled(s: State, q: int, e: Event)
    requires HeadersFiled(s) && (e.Closed? ==> e.header.ledgerIndex == q)
    ensures HeadersFiled(Deliver(s, q, e))
  {
    hide Evict, Complete;
    EvictBounds(s.pending[q := EMPTY]);
  }

  lemma {:induction false} AlwaysFiled(events: seq<Event>, n: nat)
    requires n <= |events|
    ensures HeadersFiled(After(events, n))
  {
    hide Deliver;
    if n > 0 {
      var s, e := After(events, n - 1), events[n - 1];
      AlwaysFiled(events, n - 1);
      if Fresh(s, e) && Target(s, e).Some? {
        DeliverFiled(Remember(s, e.Hash()), Target(s, e).value, e);
      }
    }
  }

  /** The buffer a piece finds: its own from before, or an empty one. */
  lemma BufferFound(pending: map<int, Pending>, q: int)
    requires q in Buffered(pending, q)
    ensures Buffered(pending, q)[q] == if q in pending then pending[q] else EMPTY
  {
    EvictBounds(pending[q := EMPTY]);
  }

  function With(header: bool, e: Event): bool { header || e.Closed? }

  function Plus(txs: seq<Tx>, e: Event): seq<Tx> { if e.Transaction? then txs + [e.tx] else txs }

  /** A new piece joins its buffer, and the last one emits the ledger. */
  lemma PieceStep(s: State, l: Closing, header: bool, txs: seq<Tx>, e: Event)
    requires Assembles(s, l, header, txs) && Fresh(s, e) && Piece(l, e) && Spared(l, s, e)
    requires Target(s, e) == Some(l.header.ledgerIndex) && |l.txs| == l.header.txnCount
    requires !(header && |txs| == |l.txs|) && (e.Closed? ==> !header)
    ensures Assembles(Step(s, e), l, With(header, e), Plus(txs, e))
  {
    hide Buffered, Remember, Target;
    var q := l.header.ledgerIndex;
    var s1 := Remember(s, e.Hash());
    assert s1.pending == s.pending && s1.emitted == s.emitted by { RememberOnlyHashes(s, e.Hash()); }
    var buffered := Buffered(s1.pending, q);
    BufferFound(s1.pending, q);
    var filled := Merged(buffered[q], e);
    assert filled == Pending(if With(header, e) then Some(l.header) else None, Plus(txs, e));
    var s2 := s1.(pending := buffered[q := filled]);
    assert Step(s, e) == Emit(s2, q);
    if Complete(filled) {
      EmittedForAppend(s.emitted, Emitted(l.header, Plus(txs, e)), q);
    }
  }

  lemma RememberOnlyHashes(s: State, hash: string)
    ensures Remember(s, hash).pending == s.pending && Remember(s, hash).emitted == s.emitted
  {
  }

  /** Any other event leaves the ledger's buffer and its emissions alone. */
  lemma OtherStep(s: State, l: Closing, header: bool, txs: seq<Tx>, e: Event)
    requires Assembles(s, l, header, txs) && HeadersFiled(s) && Fresh(s, e) && Spared(l, s, e)
    requires Target(s, e) != Some(l.header.ledgerIndex)
    ensures Assembles(Step(s, e), l, header, txs)
  {
    hide Remember, Target, Complete, Merged, Evict, EmittedFor;
    var q := l.header.ledgerIndex;
    RememberOnlyHashes(s, e.Hash());
    if Target(s, e).Some? {
      var p := Target(s, e).value;
      assert e.Closed? ==> e.header.ledgerIndex == p by { TargetOfHeader(s, e); }
      DeliverFiled(Remember(s, e.Hash()), p, e);
      OtherDeliver(Remember(s, e.Hash()), p, e, q);
    }
  }

  lemma TargetOfHeader(s: State, e: Event)
    ensures e.Closed? ==> Target(s, e) == Some(e.header.ledgerIndex)
  {
  }

  lemma OtherDeliver(s: State, p: int, e: Event, q: int)
    requires p != q && HeadersFiled(s) && (e.Closed? ==> e.header.ledgerIndex == p)
    requires q in s.pending ==> q in Buffered(s.pending, p)
    ensures var s' := Deliver(s, p, e);
            (q in s'.pending <==> q in s.pending) && (q in s.pending ==> s'.pending[q] == s.pending[q])
            && EmittedFor(s'.emitted, q) == EmittedFor(s.emitted, q)
  {
    hide Evict, Complete, EmittedFor;
    EvictBounds(s.pending[p := EMPTY]);
    var pending := Buffered(s.pending, p);
    if p in pending {
      var filled := Merged(pending[p], e);
      if Complete(filled) {
        assert filled.header.Some? && filled.header.value.ledgerIndex == p by { CompleteHasHeader(filled); }
        EmittedForAppend(s.emitted, Emitted(filled.header.value, filled.transactions), q);
      }
    }
  }

  lemma CompleteHasHeader(p: Pending)
    requires Complete(p)
    ensures p.header.Some?
  {
  }

  /** Every remembered hash belongs to an event that came. */
  lemma {:induction false} SeenCame(events: seq<Event>, n: nat, hash: string)
    requires n <= |events| && hash in After(events, n).seen
    ensures exists i :: 0 <= i < n && events[i].Hash() == hash
  {
    hide Deliver, Target;
    if n > 0 {
      var s, e := After(events, n - 1), events[n - 1];
      if hash in s.seen {
        SeenCame(events, n - 1, hash);
      } else {
        if Fresh(s, e) && Target(s, e).Some? {
          DeliverKeepsWindow(Remember(s, e.Hash()), Target(s, e).value, e);
        }
        assert events[n - 1].Hash() == hash;
      }
    }
  }

  ghost predicate Distinct(txs: seq<Tx>) {
    forall i, j :: 0 <= i < j < |txs| ==> txs[i] != txs[j]
  }

  lemma {:induction false} ArrivedFacts(l: Closing, events: seq<Event>, n: nat)
    requires n <= |events|
    ensures Distinct(Arrived(l, events, n))
    ensures forall i :: 0 <= i < |Arrived(l, events, n)| ==> Arrived(l, events, n)[i] in l.txs
  {
    if n > 0 {
      ArrivedFacts(l, events, n - 1);
    }
  }

  lemma {:induction false} ArrivedCame(l: Closing, events: seq<Event>, n: nat, tx: Tx)
    requires n <= |events| && tx in l.txs
    ensures tx in Arrived(l, events, n) <==> Came(events, Transaction(tx), n)
  {
    if n > 0 {
      ArrivedCame(l, events, n - 1, tx);
      CameStep(events, Transaction(tx), n);
    }
  }

  lemma CameStep(events: seq<Event>, e: Event, n: nat)
    requires 0 < n <= |events|
    ensures Came(events, e, n) <==> Came(events, e, n - 1) || events[n - 1] == e
  {
    if Came(events, e, n) {
      var i :| 0 <= i < n && events[i] == e;
      if i < n - 1 { assert Came(events, e, n - 1); }
    }
  }

  /** As many distinct members as the set has are all of them. */
  lemma {:induction false} AllMembers(txs: seq<Tx>, all: set<Tx>)
    requires Distinct(txs) && forall i :: 0 <= i < |txs| ==> txs[i] in all
    ensures |txs| <= |all|
    ensures |txs| == |all| ==> forall tx :: tx in all ==> tx in txs
  {
    if txs != [] {
      var n, last := |txs| - 1, txs[|txs| - 1];
      var init, rest := txs[..n], all - {last};
      forall i | 0 <= i < n ensures init[i] in rest {
        assert txs[i] != txs[n];
      }
      AllMembers(init, rest);
      assert txs == init + [last];
    }
  }

  lemma {:induction false} AllMembersMultiset(txs: seq<Tx>, all: set<Tx>)
    requires Distinct(txs) && (forall i :: 0 <= i < |txs| ==> txs[i] in all) && |txs| == |all|
    ensures multiset(txs) == multiset(all)
  {
    if txs == [] {
      assert all == {};
    } else {
      var n, last := |txs| - 1, txs[|txs| - 1];
      var init, rest := txs[..n], all - {last};
      forall i | 0 <= i < n ensures init[i] in rest {
        assert txs[i] != txs[n];
      }
      AllMembersMultiset(init, rest);
      assert txs == init + [last];
      assert all == rest + {last};
    }
  }

  /** A hash seen before belongs to the same piece, which came before. */
  lemma StaleCame(l: Closing, events: seq<Event>, n: nat)
    requires n < |events| && HashesUnique(events) && !Fresh(After(events, n), events[n])
    ensures Came(events, events[n], n)
  {
    hide Step;
    SeenCame(events, n, events[n].Hash());
  }

  lemma FreshIsNew(l: Closing, events: seq<Event>, n: nat)
    requires n < |events| && RepeatsRemembered(l, events) && Piece(l, events[n]) && Fresh(After(events, n), events[n])
    ensures !Came(events, events[n], n)
  {
    hide Step, Fresh;
  }

  /** As long as a piece is missing, not all have come. */
  lemma NotYetAll(l: Closing, events: seq<Event>, n: nat, e: Event)
    requires n <= |events| && Piece(l, e) && !Came(events, e, n)
    ensures !AllCame(l, events, n)
  {
    hide Came;
    if e.Transaction? {
      ArrivedFacts(l, events, n);
      AllMembers(Arrived(l, events, n), l.txs);
      ArrivedCame(l, events, n, e.tx);
    }
  }

  ghost predicate AssemblesAt(l: Closing, events: seq<Event>, n: nat)
    requires n <= |events|
  {
    Assembles(After(events, n), l, Came(events, Closed(l.header), n), Arrived(l, events, n))
  }

  lemma StaleStep(l: Closing, events: seq<Event>, n: nat)
    requires n < |events| && HashesUnique(events) && AssemblesAt(l, events, n) && !Fresh(After(events, n), events[n])
    ensures AssemblesAt(l, events, n + 1)
  {
    hide Assembles, Came, HashesUnique;
    var e := events[n];
    StaleCame(l, events, n);
    CameStep(events, Closed(l.header), n + 1);
    if e.Transaction? && e.tx in l.txs {
      ArrivedCame(l, events, n, e.tx);
    }
  }

  lemma PieceCameStep(l: Closing, events: seq<Event>, n: nat)
    requires n < |events| && Undisturbed(l, events) && AssemblesAt(l, events, n)
    requires Fresh(After(events, n), events[n]) && Piece(l, events[n])
    ensures AssemblesAt(l, events, n + 1)
  {
    hide Assembles, Came, HashesUnique, Spared, Step, Target;
    var e := events[n];
    FreshIsNew(l, events, n);
    NotYetAll(l, events, n, e);
    CameStep(events, Closed(l.header), n + 1);
    if e.Transaction? {
      ArrivedCame(l, events, n, e.tx);
    }
    PieceStep(After(events, n), l, Came(events, Closed(l.header), n), Arrived(l, events, n), e);
  }

  lemma UndisturbedAt(l: Closing, events: seq<Event>, n: nat)
    requires n < |events| && Undisturbed(l, events) && Fresh(After(events, n), events[n])
    ensures Target(After(events, n), events[n]) == Some(l.header.ledgerIndex) <==> Piece(l, events[n])
    ensures Spared(l, After(events, n), events[n])
  {
    hide Step, Target, Spared, HashesUnique, RepeatsRemembered;
  }

  lemma OtherCameStep(l: Closing, events: seq<Event>, n: nat)
    requires n < |events| && Undisturbed(l, events) && AssemblesAt(l, events, n)
    requires Fresh(After(events, n), events[n]) && !Piece(l, events[n])
    ensures AssemblesAt(l, events, n + 1)
  {
    hide Assembles, Came, Undisturbed, Fresh, Spared, Step, Target, HeadersFiled;
    CameStep(events, Closed(l.header), n + 1);
    AlwaysFiled(events, n);
    UndisturbedAt(l, events, n);
    OtherStep(After(events, n), l, Came(events, Closed(l.header), n), Arrived(l, events, n), events[n]);
  }

  lemma AssemblesNone(l: Closing, events: seq<Event>)
    requires Undisturbed(l, events)
    ensures AssemblesAt(l, events, 0)
  {
    hide HashesUnique, PiecesTargeted, RepeatsRemembered, NeverEvicted;
    NothingCame(events, Closed(l.header));
  }

  lemma NothingCame(events: seq<Event>, e: Event)
    ensures !Came(events, e, 0)
  {
  }

  lemma {:induction false} AlwaysAssembles(l: Closing, events: seq<Event>, n: nat)
    requires n <= |events| && Undisturbed(l, events)
    ensures AssemblesAt(l, events, n)
  {
    hide *;
    if n == 0 {
      AssemblesNone(l, events);
    } else {
      AlwaysAssembles(l, events, n - 1);
      if !Fresh(After(events, n - 1), events[n - 1]) {
        UndisturbedUnique(l, events);
        StaleStep(l, events, n - 1);
      } else if Piece(l, events[n - 1]) {
        PieceCameStep(l, events, n - 1);
      } else {
        OtherCameStep(l, events, n - 1);
      }
    }
  }

  lemma UndisturbedUnique(l: Closing, events: seq<Event>)
    requires Undisturbed(l, events)
    ensures HashesUnique(events)
  {
  }

  /**
   Exactly once, in any order: after every prefix of an undisturbed run the ledger has been emitted
   once if its header and all its transactions have come, and not at all before; what is emitted is
   its header with exactly its own transactions.
   */
  lemma EmittedExactlyOnce(l: Closing, events: seq<Event>, n: nat)
    requires n <= |events| && Undisturbed(l, events)
    ensures EmittedFor(After(events, n).emitted, l.header.ledgerIndex)
         == if AllCame(l, events, n) then [Emitted(l.header, Arrived(l, events, n))] else []
    ensures AllCame(l, events, n) ==> multiset(Arrived(l, events, n)) == multiset(l.txs)
    ensures AllCame(l, events, n)
       <==> Came(events, Closed(l.header), n) && forall tx :: tx in l.txs ==> Came(events, Transaction(tx), n)
  {
    hide Came, Undisturbed, After;
    AlwaysAssembles(l, events, n);
    ArrivedFacts(l, events, n);
    var txs := Arrived(l, events, n);
    AllMembers(txs, l.txs);
    if |txs| == |l.txs| {
      AllMembersMultiset(txs, l.txs);
    }
    forall tx | tx in l.txs ensures tx in txs <==> Came(events, Transaction(tx), n) {
      ArrivedCame(l, events, n, tx);
    }
    if forall tx :: tx in l.txs ==> tx in txs {
      AllThere(txs, l.txs);
    }
  }

  lemma {:induction false} AllThere(txs: seq<Tx>, all: set<Tx>)
    requires forall tx :: tx in all ==> tx in txs
    ensures |txs| >= |all|
  {
    if txs == [] {
      assert all == {};
    } else {
      var n, last := |txs| - 1, txs[|txs| - 1];
      var init, rest := txs[..n], all - {last};
      forall tx | tx in rest ensures tx in init {
        assert txs == init + [last];
      }
      AllThere(init, rest);
    }
  }

  // ---- Runs small enough to be undisturbed ----

  function HashesOf(events: seq<Event>, n: nat): set<string>
    requires n <= |events|
  {
    if n == 0 then {} else HashesOf(events, n - 1) + {events[n - 1].Hash()}
  }

  /** The ledgers the first `n` events name. */
  function SequencesOf(events: seq<Event>, n: nat): set<int>
    requires n <= |events|
  {
    if n == 0 then {}
    else match events[n - 1]
      case Closed(h) => SequencesOf(events, n - 1) + {h.ledgerIndex}
      case Transaction(tx) => SequencesOf(events, n - 1) + if tx.ledgerIndex.Some? then {tx.ledgerIndex.value} else {}
  }

  lemma {:induction false} HashesGrow(events: seq<Event>, m: nat, n: nat)
    requires m <= n <= |events|
    ensures HashesOf(events, m) <= HashesOf(events, n) && |HashesOf(events, m)| <= |HashesOf(events, n)|
  {
    if m < n {
      HashesGrow(events, m, n - 1);
      CardinalityGrows(HashesOf(events, n - 1), HashesOf(events, n));
    }
  }

  lemma CardinalityGrows<T>(a: set<T>, b: set<T>)
    requires a <= b
    ensures |a| <= |b|
  {
    assert b == a + (b - a);
  }

  /** While fewer hashes came than the window holds, none is forgotten. */
  lemma {:induction false} NoneForgotten(events: seq<Event>, n: nat)
    requires n <= |events| && |HashesOf(events, n)| <= MAX_SEEN_HASHES
    ensures After(events, n).seen == HashesOf(events, n) && |After(events, n).order| == |HashesOf(events, n)|
  {
    hide Deliver, Target;
    if n > 0 {
      var s, e := After(events, n - 1), events[n - 1];
      HashesGrow(events, n - 1, n);
      NoneForgotten(events, n - 1);
      if Fresh(s, e) {
        assert |HashesOf(events, n)| == |HashesOf(events, n - 1)| + 1;
        if Target(s, e).Some? {
          DeliverKeepsWindow(Remember(s, e.Hash()), Target(s, e).value, e);
        }
      } else {
        assert HashesOf(events, n) == HashesOf(events, n - 1);
      }
    }
  }

  lemma DeliverKeys(s: State, q: int, e: Event)
    ensures Deliver(s, q, e).pending.Keys <= s.pending.Keys + {q}
  {
    hide Evict, Complete, Merged;
    EvictBounds(s.pending[q := EMPTY]);
    var pending := Buffered(s.pending, q);
    forall k | k in pending ensures k in s.pending || k == q {
    }
    var filled := if q in pending then pending[q := Merged(pending[q], e)] else pending;
    assert filled.Keys <= pending.Keys;
    assert Deliver(s, q, e).pending.Keys <= filled.Keys;
  }

  /** An event goes to the ledger it names, or to one already pending. */
  lemma TargetNamed(events: seq<Event>, n: nat, s: State)
    requires n < |events| && s.pending.Keys <= SequencesOf(events, n) && Target(s, events[n]).Some?
    ensures Target(s, events[n]).value in SequencesOf(events, n + 1)
    ensures SequencesOf(events, n) <= SequencesOf(events, n + 1)
  {
    var e := events[n];
    if e.Transaction? && e.tx.ledgerIndex.None? {
      assert Target(s, e).value in s.pending.Keys;
    }
  }

  lemma {:induction false} PendingNamed(events: seq<Event>, n: nat)
    requires n <= |events|
    ensures After(events, n).pending.Keys <= SequencesOf(events, n)
  {
    hide Deliver, Target, Remember;
    if n > 0 {
      var s, e := After(events, n - 1), events[n - 1];
      PendingNamed(events, n - 1);
      SequencesGrow(events, n - 1, n);
      RememberOnlyHashes(s, e.Hash());
      if Fresh(s, e) && Target(s, e).Some? {
        TargetNamed(events, n - 1, s);
        DeliverKeys(Remember(s, e.Hash()), Target(s, e).value, e);
      }
    }
  }

  lemma {:induction false} SequencesGrow(events: seq<Event>, m: nat, n: nat)
    requires m <= n <= |events|
    ensures SequencesOf(events, m) <= SequencesOf(events, n)
  {
    if m < n {
      SequencesGrow(events, m, n - 1);
    }
  }

  /** Where all keys are among few ledgers, the buffer made is kept, and so are the others. */
  lemma FewKeptAll(pending: map<int, Pending>, q: int, named: set<int>)
    requires pending.Keys <= named && q in named && |named| <= MAX_PENDING_LEDGERS
    ensures Buffered(pending, q) == if q in pending then pending else pending[q := EMPTY]
  {
    var made := pending[q := EMPTY];
    assert made.Keys <= named;
    CardinalityGrows(made.Keys, named);
    assert |made| == |made.Keys|;
  }

  lemma SparedWhenFew(l: Closing, events: seq<Event>, n: nat)
    requires n < |events| && |SequencesOf(events, |events|)| <= MAX_PENDING_LEDGERS
    ensures Spared(l, After(events, n), events[n])
  {
    hide Buffered, Target, Step;
    var s, e := After(events, n), events[n];
    if Target(s, e).Some? {
      PendingNamed(events, n);
      TargetNamed(events, n, s);
      SequencesGrow(events, n + 1, |events|);
      FewKeptAll(s.pending, Target(s, e).value, SequencesOf(events, |events|));
    }
  }

  /** Every repeat of a piece comes with fewer than 10000 other new hashes since the piece came new. */
  ghost predicate RepeatsSoon(l: Closing, events: seq<Event>) {
    forall i, n :: 0 <= i < n < |events| && events[i] == events[n] && Piece(l, events[n])
                   && Fresh(After(events, i), events[i]) ==>
                     |NewHashes(events, n)| - |NewHashes(events, i)| <= MAX_SEEN_HASHES
  }

  /** Where a hash was already seen, it had come new before. */
  lemma BroughtBefore(events: seq<Event>, n: nat) returns (i: nat)
    requires n < |events| && HashesUnique(events) && !Fresh(After(events, n), events[n])
    ensures i < n && events[i] == events[n] && Fresh(After(events, i), events[i])
  {
    hide After;
    RememberedIff(events, n, events[n].Hash());
    i :| 0 <= i < n && Brought(events, i, events[n].Hash());
  }

  /** Then the window recognises every repeat, however many hashes there are in all. */
  lemma SoonIsRemembered(l: Closing, events: seq<Event>)
    requires HashesUnique(events) && RepeatsSoon(l, events)
    ensures RepeatsRemembered(l, events)
  {
    hide After, Piece, NewHashes;
    forall i, n | 0 <= i < n < |events| && events[i] == events[n] && Piece(l, events[n])
      ensures !Fresh(After(events, n), events[n])
    {
      var k := i;
      if !Fresh(After(events, i), events[i]) {
        k := BroughtBefore(events, i);
      }
      assert events[k] == events[n] && Brought(events, k, events[n].Hash());
      RememberedIff(events, n, events[n].Hash());
    }
  }

  /** While no more ledgers are named than the buffer holds, none is evicted. */
  lemma FewLedgersNeverEvicted(l: Closing, events: seq<Event>)
    requires |SequencesOf(events, |events|)| <= MAX_PENDING_LEDGERS
    ensures NeverEvicted(l, events)
  {
    hide Step, Spared, Fresh;
    forall n | 0 <= n < |events| && Fresh(After(events, n), events[n]) ensures Spared(l, After(events, n), events[n]) {
      SparedWhenFew(l, events, n);
    }
  }

  /** Named hashes, tagged transactions, repeats in time and 20 ledgers are enough for an undisturbed run. */
  lemma SteadyRunUndisturbed(l: Closing, events: seq<Event>)
    requires |l.txs| == l.header.txnCount && HashesUnique(events) && RepeatsSoon(l, events)
    requires forall i :: 0 <= i < |events| && events[i].Transaction? ==> events[i].tx.ledgerIndex.Some?
    requires forall i :: 0 <= i < |events| ==>
               (Piece(l, events[i]) <==> Target(INIT, events[i]) == Some(l.header.ledgerIndex))
    requires |SequencesOf(events, |events|)| <= MAX_PENDING_LEDGERS
    ensures Undisturbed(l, events)
  {
    hide Step, RepeatsRemembered, RepeatsSoon, NeverEvicted, HashesUnique, Piece;
    SoonIsRemembered(l, events);
    FewLedgersNeverEvicted(l, events);
  }

  lemma {:induction false} NewAtMostAll(events: seq<Event>, n: nat)
    requires n <= |events| && |HashesOf(events, n)| <= MAX_SEEN_HASHES
    ensures |NewHashes(events, n)| == |HashesOf(events, n)|
  {
    hide After, LastOf;
    NoneForgotten(events, n);
    WindowIsLastNew(events, n);
    if n > 0 {
      HashesGrow(events, n - 1, n);
      NewAtMostAll(events, n - 1);
      NoneForgotten(events, n - 1);
    }
  }

  /** With at most 10000 hashes in all, every repeat is in time. */
  lemma FewHashesSoon(l: Closing, events: seq<Event>)
    requires |HashesOf(events, |events|)| <= MAX_SEEN_HASHES
    ensures RepeatsSoon(l, events)
  {
    hide After, Piece;
    forall n | 0 <= n <= |events| ensures |NewHashes(events, n)| <= MAX_SEEN_HASHES {
      NewGrows(events, n, |events|);
      NewAtMostAll(events, |events|);
    }
  }

  /** In particular named hashes, tagged transactions, 10000 hashes and 20 ledgers in all. */
  lemma QuietRunUndisturbed(l: Closing, events: seq<Event>)
    requires |l.txs| == l.header.txnCount && HashesUnique(events)
    requires forall i :: 0 <= i < |events| && events[i].Transaction? ==> events[i].tx.ledgerIndex.Some?
    requires forall i :: 0 <= i < |events| ==>
               (Piece(l, events[i]) <==> Target(INIT, events[i]) == Some(l.header.ledgerIndex))
    requires |HashesOf(events, |events|)| <= MAX_SEEN_HASHES && |SequencesOf(events, |events|)| <= MAX_PENDING_LEDGERS
    ensures Undisturbed(l, events)
  {
    hide *;
    FewHashesSoon(l, events);
    SteadyRunUndisturbed(l, events);
  }

  // ---- The pool's own state ----

  class Pool {
    var seenHashes: set<string>
    var seenHashOrder: seq<string>
    var pendingLedgers: map<int, Pending>
    /** The ledgers handed to the listeners, in order. */
    var emitted: seq<Emitted>

    constructor ()
      ensures Snapshot() == INIT
    {
      seenHashes, seenHashOrder, pendingLedgers, emitted := {}, [], map[], [];
    }

    function Snapshot(): State
      reads this
    {
      State(seenHashes, seenHashOrder, pendingLedgers, emitted)
    }

    method SawHash(hash: string) returns (saw: bool)
      requires Window(Snapshot())
      modifies this`seenHashes, this`seenHashOrder
      ensures saw == (hash in old(seenHashes))
      ensures Snapshot() == if saw then old(Snapshot()) else Remember(old(Snapshot()), hash)
    {
      if hash in seenHashes {
        return true;
      }
      seenHashes := seenHashes + {hash};
      seenHashOrder := seenHashOrder + [hash];
      if |seenHashOrder| > MAX_SEEN_HASHES {
        seenHashes := seenHashes - {seenHashOrder[0]};
        seenHashOrder := seenHashOrder[1..];
      }
      return false;
    }

    method BufferFor(sequence: int)
      modifies this`pendingLedgers
      ensures pendingLedgers == Buffered(old(pendingLedgers), sequence)
    {
      if sequence !in pendingLedgers {
        pendingLedgers := pendingLedgers[sequence := EMPTY];
        ghost var made := pendingLedgers;
        while |pendingLedgers| > MAX_PENDING_LEDGERS
          invariant Evict(pendingLedgers) == Evict(made)
          decreases pendingLedgers.Keys
        {
          var oldest := Least(pendingLedgers.Keys);
          assert oldest in pendingLedgers.Keys
            && Without(pendingLedgers, oldest).Keys == pendingLedgers.Keys - {oldest};
          pendingLedgers := Without(pendingLedgers, oldest);
        }
      }
    }

    method TryEmitLedger(sequence: int)
      modifies this`pendingLedgers, this`emitted
      ensures Snapshot() == Emit(old(Snapshot()), sequence)
    {
      if sequence in pendingLedgers {
        var pending := pendingLedgers[sequence];
        if pending.header.Some? && |pending.transactions| == pending.header.value.txnCount {
          pendingLedgers := Without(pendingLedgers, sequence);
          emitted := emitted + [Emitted(pending.header.value, pending.transactions)];
        }
      }
    }

    method OnEvent(e: Event)
      requires Window(Snapshot())
      modifies this
      ensures Snapshot() == Step(old(Snapshot()), e)
    {
      var saw := SawHash(e.Hash());
      if saw {
        return;
      }
      var sequence: int;
      match e {
        case Closed(ledger) =>
          sequence := ledger.ledgerIndex;
        case Transaction(tx) =>
          if tx.ledgerIndex.Some? {
            sequence := tx.ledgerIndex.value;
          } else if pendingLedgers == map[] {
            return;
          } else {
            sequence := Greatest(pendingLedgers.Keys);
          }
      }
      BufferFor(sequence);
      if sequence in pendingLedgers {
        pendingLedgers := pendingLedgers[sequence := Merged(pendingLedgers[sequence], e)];
      }
      TryEmitLedger(sequence);
    }
  }
}
