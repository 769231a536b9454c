/**
 The ledger stream (src/xrpl/stream.js): concurrent fillers, live pushes and one in-order consumer.
 Every stretch of code between two awaits is one atomic step; the steps act on this state.
 */
module Stream {
  datatype Ledger = Ledger(sequence: int, hash: string)

  /** A filler is at the top of its loop, waiting for a fetch, or waiting after a failed one. */
  datatype Phase = Idle | Fetching | BackingOff

  datatype Worker = Worker(sequence: int, phase: Phase)

  datatype Config = Config(start: int, forward: bool, maxSize: int)

  datatype State = State(
    current: int, target: int, ledgers: map<int, Ledger>,
    reservations: set<int>, workers: seq<Worker>, delivered: seq<Ledger>)

  function Init(cfg: Config, target: int, workers: nat): State {
    State(cfg.start, target, map[], {}, seq(workers, i => Worker(cfg.start, Idle)), [])
  }

  /** Steps from one sequence to another in the direction of the stream: `(to - from) * stride`. */
  function Steps(cfg: Config, from: int, to: int): int {
    if cfg.forward then to - from else from - to
  }

  predicate Accepts(cfg: Config, s: State, sequence: int) {
    -cfg.maxSize <= sequence - s.current <= cfg.maxSize
  }

  function Put(s: State, ledger: Ledger): State {
    s.(ledgers := s.ledgers[ledger.sequence := ledger])
  }

  /** A live ledger raises the target and is stored when the window takes it. */
  function Extend(cfg: Config, s: State, ledger: Ledger): State {
    var raised := s.(target := if ledger.sequence > s.target then ledger.sequence else s.target);
    if Accepts(cfg, s, ledger.sequence) then Put(raised, ledger) else raised
  }

  /** The consumer takes the current ledger; the direction is read off the target. */
  function Next(s: State): State
    requires s.current in s.ledgers
  {
    s.(ledgers := map q | q in s.ledgers && q != s.current :: s.ledgers[q],
       current := if s.target >= s.current then s.current + 1 else s.current - 1,
       delivered := s.delivered + [s.ledgers[s.current]])
  }

  function WithWorker(s: State, i: int, w: Worker): State
    requires 0 <= i < |s.workers|
  {
    s.(workers := s.workers[i := w])
  }

  /** The guards of the filler loop in order: beyond the target, outside the window, taken, or free. */
  predicate Waits(cfg: Config, s: State, q: int) {
    Steps(cfg, q, s.target) < 0 || !Accepts(cfg, s, q)
  }

  predicate Skips(cfg: Config, s: State, q: int) {
    Steps(cfg, q, s.current) > 0 || q in s.reservations || q in s.ledgers
  }

  /** One round of an idle filler's loop. */
  function Turn(cfg: Config, s: State, i: int): State
    requires 0 <= i < |s.workers|
  {
    var q := s.workers[i].sequence;
    if Waits(cfg, s, q) then s
    else if Skips(cfg, s, q) then WithWorker(s, i, Worker(if cfg.forward then q + 1 else q - 1, Idle))
    else WithWorker(s.(reservations := s.reservations + {q}), i, Worker(q, Fetching))
  }

  /** The end of a fetch, or of the pause after a failed one: the reservation is given back. */
  function Release(s: State, i: int): State
    requires 0 <= i < |s.workers|
  {
    var q := s.workers[i].sequence;
    WithWorker(s.(reservations := s.reservations - {q}), i, Worker(q, Idle))
  }

  datatype Event =
    | Push(ledger: Ledger)
    | Take
    | Round(worker: int)
    | Fetched(worker: int, ledger: Ledger)
    | Failed(worker: int)
    | Resumed(worker: int)

  /** What can happen: pushes reach the forward stream only, and a node answers with the ledger asked for. */
  predicate Enabled(cfg: Config, s: State, e: Event) {
    match e
    case Push(_) => cfg.forward
    case Take => s.current in s.ledgers
    case Round(i) => 0 <= i < |s.workers| && s.workers[i].phase.Idle?
    case Fetched(i, l) => 0 <= i < |s.workers| && s.workers[i].phase.Fetching? && l.sequence == s.workers[i].sequence
    case Failed(i) => 0 <= i < |s.workers| && s.workers[i].phase.Fetching?
    case Resumed(i) => 0 <= i < |s.workers| && s.workers[i].phase.BackingOff?
  }

  function Apply(cfg: Config, s: State, e: Event): State
    requires Enabled(cfg, s, e)
  {
    match e
    case Push(l) => Extend(cfg, s, l)
    case Take => Next(s)
    case Round(i) => Turn(cfg, s, i)
    case Fetched(i, l) => Release(Put(s, l), i)
    case Failed(i) => WithWorker(s, i, Worker(s.workers[i].sequence, BackingOff))
    case Resumed(i) => Release(s, i)
  }

  /** The states of a run, from the initial one; consecutive states are joined by an enabled event. */
  ghost predicate Run(cfg: Config, states: seq<State>, events: seq<Event>) {
    |states| == |events| + 1
    && forall n :: 0 <= n < |events| ==>
      Enabled(cfg, states[n], events[n]) && states[n + 1] == Apply(cfg, states[n], events[n])
  }

  // ---- What every step keeps ----

  /** Filler `i` is fetching `q`, or pausing after a failed fetch of it. */
  predicate Busy(s: State, i: int, q: int) {
    0 <= i < |s.workers| && !s.workers[i].phase.Idle? && s.workers[i].sequence == q
  }

  /** Reservations are exactly the sequences of the busy fillers, one owner each. */
  ghost predicate Owned(s: State) {
    (forall i, q :: Busy(s, i, q) ==> q in s.reservations)
    && (forall q :: q in s.reservations ==> exists i :: Busy(s, i, q))
    && (forall i, j, q :: Busy(s, i, q) && Busy(s, j, q) ==> i == j)
  }

  /** A ledger is stored under its own sequence. */
  ghost predicate Filed(s: State) {
    forall q :: q in s.ledgers ==> s.ledgers[q].sequence == q
  }

  /** The target of a backward stream has not been delivered yet. */
  predicate Underway(cfg: Config, s: State) {
    cfg.forward || |s.delivered| <= Steps(cfg, cfg.start, s.target)
  }

  /** Nothing stored or fetched lies beyond the target, or further than `maxSize` ahead of the consumer. */
  ghost predicate InWindow(cfg: Config, s: State) {
    (forall q :: q in s.ledgers ==> Steps(cfg, q, s.target) >= 0 && Steps(cfg, s.current, q) <= cfg.maxSize)
    && (forall i :: 0 <= i < |s.workers| && !s.workers[i].phase.Idle? ==>
          Steps(cfg, s.workers[i].sequence, s.target) >= 0
            && Steps(cfg, s.current, s.workers[i].sequence) <= cfg.maxSize)
  }

  /** Some filler has not passed `q`. */
  ghost predicate Awaited(cfg: Config, s: State, q: int) {
    exists i :: 0 <= i < |s.workers| && Steps(cfg, s.workers[i].sequence, q) >= 0
  }

  /** Every sequence still to be delivered is stored, or some filler is at it or before it. */
  ghost predicate Covered(cfg: Config, s: State) {
    forall q :: Steps(cfg, s.current, q) >= 0 ==> q in s.ledgers || Awaited(cfg, s, q)
  }

  /** The consumer has taken `start`, the next, ... in order, and stands at the first one missing. */
  ghost predicate InOrder(cfg: Config, s: State) {
    Steps(cfg, cfg.start, s.current) == |s.delivered|
  }

  /** What has been delivered, up to the target of a backward stream, is the run of sequences from the start. */
  ghost predicate Consecutive(cfg: Config, s: State) {
    forall j :: 0 <= j < |s.delivered| && (cfg.forward || j <= Steps(cfg, cfg.start, s.target)) ==>
      Steps(cfg, cfg.start, s.delivered[j].sequence) == j
  }

  ghost predicate Inv(cfg: Config, s: State) {
    Owned(s) && Filed(s) && Consecutive(cfg, s)
    && (Underway(cfg, s) ==> InWindow(cfg, s) && Covered(cfg, s) && InOrder(cfg, s))
  }

  lemma InitInv(cfg: Config, target: int, workers: nat)
    requires workers > 0
    ensures Inv(cfg, Init(cfg, target, workers))
  {
    var s := Init(cfg, target, workers);
    forall q | Steps(cfg, s.current, q) >= 0 ensures Awaited(cfg, s, q) {
      assert s.workers[0].sequence == cfg.start;
    }
  }

  lemma FiledStep(cfg: Config, s: State, e: Event)
    requires Enabled(cfg, s, e) && Filed(s)
    ensures Filed(Apply(cfg, s, e))
  {
  }

  lemma OwnedStep(cfg: Config, s: State, e: Event)
    requires Enabled(cfg, s, e) && Owned(s)
    ensures Owned(Apply(cfg, s, e))
  {
    match e
    case Push(_) => OwnedSame(s, Apply(cfg, s, e));
    case Take => OwnedSame(s, Apply(cfg, s, e));
    case Round(i) => OwnedTurn(cfg, s, i);
    case Fetched(i, l) =>
      OwnedSame(s, Put(s, l));
      OwnedRelease(Put(s, l), i);
    case Failed(i) => OwnedRetag(s, i, BackingOff);
    case Resumed(i) => OwnedRelease(s, i);
  }

  lemma OwnedSame(s: State, s': State)
    requires Owned(s) && s'.workers == s.workers && s'.reservations == s.reservations
    ensures Owned(s')
  {
    forall i, q ensures Busy(s', i, q) <==> Busy(s, i, q) {
    }
  }

  lemma OwnedTurn(cfg: Config, s: State, i: int)
    requires 0 <= i < |s.workers| && s.workers[i].phase.Idle? && Owned(s)
    ensures Owned(Turn(cfg, s, i))
  {
    var s', q := Turn(cfg, s, i), s.workers[i].sequence;
    forall j, p ensures Busy(s', j, p) <==> Busy(s, j, p) || (s' != s && !Skips(cfg, s, q) && j == i && p == q) {
    }
    forall p | p in s'.reservations ensures exists j :: Busy(s', j, p) {
      if p in s.reservations {
        var j :| Busy(s, j, p);
        assert Busy(s', j, p);
      } else {
        assert Busy(s', i, p);
      }
    }
  }

  lemma OwnedRetag(s: State, i: int, phase: Phase)
    requires 0 <= i < |s.workers| && !s.workers[i].phase.Idle? && !phase.Idle? && Owned(s)
    ensures Owned(WithWorker(s, i, Worker(s.workers[i].sequence, phase)))
  {
    var s' := WithWorker(s, i, Worker(s.workers[i].sequence, phase));
    forall j, p ensures Busy(s', j, p) <==> Busy(s, j, p) {
    }
  }

  lemma OwnedRelease(s: State, i: int)
    requires 0 <= i < |s.workers| && !s.workers[i].phase.Idle? && Owned(s)
    ensures Owned(Release(s, i))
  {
    var s', q := Release(s, i), s.workers[i].sequence;
    assert Busy(s, i, q);
    forall j, p ensures Busy(s', j, p) <==> Busy(s, j, p) && j != i {
    }
    forall p | p in s'.reservations ensures exists j :: Busy(s', j, p) {
      var j :| Busy(s, j, p);
      assert Busy(s', j, p);
    }
  }

  // ---- The window, the order and the coverage ----

  lemma WindowStep(cfg: Config, s: State, e: Event)
    requires Enabled(cfg, s, e) && InWindow(cfg, s)
    requires e.Take? ==> Steps(cfg, s.current, Apply(cfg, s, e).current) == 1
    ensures InWindow(cfg, Apply(cfg, s, e))
  {
    match e
    case Push(l) => WindowExtend(cfg, s, l);
    case Take =>
    case Round(i) => WindowTurn(cfg, s, i);
    case Fetched(i, l) =>
    case Failed(i) =>
    case Resumed(i) =>
  }

  lemma WindowExtend(cfg: Config, s: State, l: Ledger)
    requires cfg.forward && InWindow(cfg, s)
    ensures InWindow(cfg, Extend(cfg, s, l))
  {
  }

  lemma WindowTurn(cfg: Config, s: State, i: int)
    requires 0 <= i < |s.workers| && InWindow(cfg, s)
    ensures InWindow(cfg, Turn(cfg, s, i))
  {
  }

  /** Delivery moves one step on: the target cannot lie behind a stored ledger. */
  lemma TakeMovesOn(cfg: Config, s: State)
    requires Enabled(cfg, s, Take) && InWindow(cfg, s) && InOrder(cfg, s) && Underway(cfg, s) && Underway(cfg, Next(s))
    ensures Steps(cfg, s.current, Next(s).current) == 1
  {
  }

  lemma OrderStep(cfg: Config, s: State, e: Event)
    requires Enabled(cfg, s, e) && InWindow(cfg, s) && InOrder(cfg, s) && Underway(cfg, s)
      && Underway(cfg, Apply(cfg, s, e))
    ensures InOrder(cfg, Apply(cfg, s, e))
  {
  }

  lemma ConsecutiveStep(cfg: Config, s: State, e: Event)
    requires Enabled(cfg, s, e) && Filed(s) && Consecutive(cfg, s) && (Underway(cfg, s) ==> InOrder(cfg, s))
    ensures Consecutive(cfg, Apply(cfg, s, e))
  {
    var s' := Apply(cfg, s, e);
    forall j | 0 <= j < |s'.delivered| && (cfg.forward || j <= Steps(cfg, cfg.start, s'.target))
      ensures Steps(cfg, cfg.start, s'.delivered[j].sequence) == j
    {
      if j < |s.delivered| {
        assert s'.delivered[j] == s.delivered[j];
      } else {
        assert Underway(cfg, s) && s'.delivered[j] == s.ledgers[s.current];
      }
    }
  }

  /** A filler leaves a sequence behind only when it is delivered, stored, or reserved by a filler still at it. */
  lemma CoveredStep(cfg: Config, s: State, e: Event)
    requires Enabled(cfg, s, e) && Owned(s) && Covered(cfg, s)
    requires e.Take? ==> Steps(cfg, s.current, Apply(cfg, s, e).current) == 1
    ensures Covered(cfg, Apply(cfg, s, e))
  {
    var s' := Apply(cfg, s, e);
    forall q | Steps(cfg, s'.current, q) >= 0 && q !in s'.ledgers ensures Awaited(cfg, s', q) {
      assert Steps(cfg, s.current, q) >= 0 && q !in s.ledgers;
      var i :| 0 <= i < |s.workers| && Steps(cfg, s.workers[i].sequence, q) >= 0;
      if Steps(cfg, s'.workers[i].sequence, q) < 0 {
        assert s.workers[i].sequence == q && q in s.reservations;
        var j :| Busy(s, j, q);
        assert s'.workers[j] == s.workers[j];
        assert Steps(cfg, s'.workers[j].sequence, q) >= 0;
      } else {
        assert Steps(cfg, s'.workers[i].sequence, q) >= 0;
      }
    }
  }

  lemma UnderwayBefore(cfg: Config, s: State, e: Event)
    requires Enabled(cfg, s, e) && Underway(cfg, Apply(cfg, s, e))
    ensures Underway(cfg, s)
  {
  }

  lemma InvStep(cfg: Config, s: State, e: Event)
    requires Inv(cfg, s) && Enabled(cfg, s, e)
    ensures Inv(cfg, Apply(cfg, s, e))
  {
    hide Owned, Filed, Consecutive, InWindow, Covered, InOrder, Underway, Apply, Enabled, Next, Steps;
    OwnedStep(cfg, s, e);
    FiledStep(cfg, s, e);
    ConsecutiveStep(cfg, s, e);
    if Underway(cfg, Apply(cfg, s, e)) {
      UnderwayBefore(cfg, s, e);
      if e.Take? {
        TakeStep(cfg, s);
      }
      WindowStep(cfg, s, e);
      OrderStep(cfg, s, e);
      CoveredStep(cfg, s, e);
    }
  }

  lemma TakeStep(cfg: Config, s: State)
    requires Enabled(cfg, s, Take) && InWindow(cfg, s) && InOrder(cfg, s) && Underway(cfg, s)
      && Underway(cfg, Apply(cfg, s, Take))
    ensures Steps(cfg, s.current, Apply(cfg, s, Take).current) == 1
  {
    TakeMovesOn(cfg, s);
  }

  lemma {:induction false} RunInv(cfg: Config, states: seq<State>, events: seq<Event>, n: nat)
    requires Run(cfg, states, events) && Inv(cfg, states[0]) && n < |states|
    ensures Inv(cfg, states[n])
  {
    hide Inv, Apply, Enabled;
    if n > 0 {
      RunInv(cfg, states, events, n - 1);
      InvStep(cfg, states[n - 1], events[n - 1]);
    }
  }

  // ---- Main results over every run ----

  ghost predicate FromStart(cfg: Config, states: seq<State>, events: seq<Event>, target: int, workers: nat) {
    workers > 0 && Run(cfg, states, events) && states[0] == Init(cfg, target, workers)
  }

  /** Forward delivery: over every interleaving the consumer gets start, start + 1, ... each once, no gap. */
  lemma ForwardDelivery(cfg: Config, states: seq<State>, events: seq<Event>, target: int, workers: nat, n: nat)
    requires cfg.forward && FromStart(cfg, states, events, target, workers) && n < |states|
    ensures var s := states[n];
            s.current == cfg.start + |s.delivered|
            && forall j :: 0 <= j < |s.delivered| ==> s.delivered[j].sequence == cfg.start + j
  {
    InitInv(cfg, target, workers);
    RunInv(cfg, states, events, n);
  }

  lemma {:induction false} BackwardTarget(cfg: Config, states: seq<State>, events: seq<Event>, n: nat)
    requires !cfg.forward && Run(cfg, states, events) && n < |states|
    ensures states[n].target == states[0].target
  {
    if n > 0 {
      BackwardTarget(cfg, states, events, n - 1);
    }
  }

  /** Backward delivery: start, start - 1, ... in order until the target is delivered. */
  lemma BackwardDelivery(cfg: Config, states: seq<State>, events: seq<Event>, target: int, workers: nat, n: nat)
    requires !cfg.forward && FromStart(cfg, states, events, target, workers) && n < |states|
    ensures var s := states[n];
            (|s.delivered| <= cfg.start - target ==> s.current == cfg.start - |s.delivered|)
            && forall j :: 0 <= j < |s.delivered| && j <= cfg.start - target ==>
              s.delivered[j].sequence == cfg.start - j
  {
    InitInv(cfg, target, workers);
    RunInv(cfg, states, events, n);
    BackwardTarget(cfg, states, events, n);
  }

  /** Nothing is forgotten: a sequence not yet delivered is stored, or some filler is at it or before it. */
  lemma NothingForgotten(cfg: Config, states: seq<State>, events: seq<Event>, target: int, workers: nat, n: nat, q: int)
    requires FromStart(cfg, states, events, target, workers) && n < |states|
    requires Underway(cfg, states[n]) && Steps(cfg, states[n].current, q) >= 0
    ensures q in states[n].ledgers
            || exists i :: 0 <= i < |states[n].workers| && Steps(cfg, states[n].workers[i].sequence, q) >= 0
  {
    InitInv(cfg, target, workers);
    RunInv(cfg, states, events, n);
    assert Awaited(cfg, states[n], q) || q in states[n].ledgers;
  }

  /** No sequence is fetched by two fillers at once, and a reservation is its owner's position. */
  lemma OneFetchPerSequence(cfg: Config, states: seq<State>, events: seq<Event>, target: int, workers: nat, n: nat)
    requires FromStart(cfg, states, events, target, workers) && n < |states|
    ensures forall i, j, q :: Busy(states[n], i, q) && Busy(states[n], j, q) ==> i == j
    ensures forall q :: q in states[n].reservations <==> exists i :: Busy(states[n], i, q)
  {
    InitInv(cfg, target, workers);
    RunInv(cfg, states, events, n);
  }

  /** The queue never reaches further than `maxSize` ahead of the consumer, nor past the target. */
  lemma QueueInWindow(cfg: Config, states: seq<State>, events: seq<Event>, target: int, workers: nat, n: nat, q: int)
    requires FromStart(cfg, states, events, target, workers) && n < |states| && Underway(cfg, states[n])
    requires q in states[n].ledgers
    ensures Steps(cfg, states[n].current, q) <= cfg.maxSize && Steps(cfg, q, states[n].target) >= 0
  {
    InitInv(cfg, target, workers);
    RunInv(cfg, states, events, n);
  }

  // ---- What each step does, in sequences ----

  /** Only stored ledgers, reservations and fillers may differ. */
  predicate SamePlace(s: State, s': State) {
    s'.current == s.current && s'.target == s.target && s'.delivered == s.delivered
  }

  /**
   A push raises the target to its ledger, in or out of the window, and never lowers it. It stores the
   ledger exactly within `maxSize` of the consumer, and leaves everything else.
   */
  lemma PushEffect(cfg: Config, s: State, l: Ledger)
    ensures var s' := Extend(cfg, s, l);
            s'.target >= s.target && s'.target >= l.sequence && (s'.target == s.target || s'.target == l.sequence)
            && s'.current == s.current && s'.reservations == s.reservations
            && s'.workers == s.workers && s'.delivered == s.delivered
    ensures var s', taken := Extend(cfg, s, l), -cfg.maxSize <= l.sequence - s.current <= cfg.maxSize;
            (forall q :: q in s'.ledgers <==> q in s.ledgers || (taken && q == l.sequence))
            && (forall q :: q in s'.ledgers ==> s'.ledgers[q] == if taken && q == l.sequence then l else s.ledgers[q])
  {
  }

  /** The highest of the initial target and the ledgers pushed by the first `n` events. */
  function HighestPushed(target: int, events: seq<Event>, n: nat): int
    requires n <= |events|
  {
    if n == 0 then target
    else
      var before, e := HighestPushed(target, events, n - 1), events[n - 1];
      if e.Push? && e.ledger.sequence > before then e.ledger.sequence else before
  }

  lemma {:induction false} HighestPushedIs(target: int, events: seq<Event>, n: nat)
    requires n <= |events|
    ensures var h := HighestPushed(target, events, n);
            h >= target && (forall i :: 0 <= i < n && events[i].Push? ==> h >= events[i].ledger.sequence)
            && (h == target || exists i :: 0 <= i < n && events[i].Push? && events[i].ledger.sequence == h)
  {
    if n > 0 {
      HighestPushedIs(target, events, n - 1);
    }
  }

  /** In every run the target is the highest of the initial one and all ledgers pushed so far. */
  lemma {:induction false} TargetIsHighest(cfg: Config, states: seq<State>, events: seq<Event>, n: nat)
    requires Run(cfg, states, events) && n <= |events|
    ensures states[n].target == HighestPushed(states[0].target, events, n)
  {
    if n > 0 {
      TargetIsHighest(cfg, states, events, n - 1);
    }
  }

  /** Delivery hands over the ledger at the consumer's place, drops it, and moves on by one towards the target. */
  lemma TakeEffect(s: State)
    requires s.current in s.ledgers
    ensures var s' := Next(s);
            s'.delivered == s.delivered + [s.ledgers[s.current]] && s'.target == s.target
            && s'.reservations == s.reservations && s'.workers == s.workers
            && (s.target >= s.current ==> s'.current == s.current + 1)
            && (s.target < s.current ==> s'.current == s.current - 1)
            && (forall q :: q in s'.ledgers <==> q in s.ledgers && q != s.current)
            && (forall q :: q in s'.ledgers ==> s'.ledgers[q] == s.ledgers[q])
  {
  }

  /** The filler at `i` becomes `w`, the others stay. */
  predicate Becomes(s: State, s': State, i: int, w: Worker) {
    |s'.workers| == |s.workers|
    && forall j :: 0 <= j < |s.workers| ==> s'.workers[j] == if j == i then w else s.workers[j]
  }

  /**
   A filler's round, forward: it waits beyond the target and outside the window; else it passes what is
   behind the consumer, reserved or stored, and reserves and fetches anything else.
   */
  lemma ForwardRound(cfg: Config, s: State, i: int)
    requires cfg.forward && 0 <= i < |s.workers|
    ensures var s', q := Turn(cfg, s, i), s.workers[i].sequence;
            var inside := q <= s.target && s.current - cfg.maxSize <= q <= s.current + cfg.maxSize;
            var passed := q < s.current || q in s.reservations || q in s.ledgers;
            SamePlace(s, s') && s'.ledgers == s.ledgers
            && (!inside ==> s' == s)
            && (inside && passed ==> s'.reservations == s.reservations && Becomes(s, s', i, Worker(q + 1, Idle)))
            && (inside && !passed ==>
                  s'.reservations == s.reservations + {q} && Becomes(s, s', i, Worker(q, Fetching)))
  {
  }

  /** The same backward, where the target is the lowest sequence. */
  lemma BackwardRound(cfg: Config, s: State, i: int)
    requires !cfg.forward && 0 <= i < |s.workers|
    ensures var s', q := Turn(cfg, s, i), s.workers[i].sequence;
            var inside := s.target <= q && s.current - cfg.maxSize <= q <= s.current + cfg.maxSize;
            var passed := s.current < q || q in s.reservations || q in s.ledgers;
            SamePlace(s, s') && s'.ledgers == s.ledgers
            && (!inside ==> s' == s)
            && (inside && passed ==> s'.reservations == s.reservations && Becomes(s, s', i, Worker(q - 1, Idle)))
            && (inside && !passed ==>
                  s'.reservations == s.reservations + {q} && Becomes(s, s', i, Worker(q, Fetching)))
  {
  }

  /** A fetched ledger is stored whatever the window has become; with it the reservation ends. */
  lemma FetchEffect(cfg: Config, s: State, i: int, l: Ledger)
    requires Enabled(cfg, s, Fetched(i, l))
    ensures var s', q := Apply(cfg, s, Fetched(i, l)), l.sequence;
            SamePlace(s, s') && s'.ledgers == s.ledgers[q := l]
            && s'.reservations == s.reservations - {q} && Becomes(s, s', i, Worker(q, Idle))
  {
  }

  /** A failed fetch stores nothing and keeps its reservation until the filler's pause is over. */
  lemma FailureEffect(cfg: Config, s: State, i: int)
    requires Enabled(cfg, s, Failed(i))
    ensures var paused, q := Apply(cfg, s, Failed(i)), s.workers[i].sequence;
            SamePlace(s, paused) && paused.ledgers == s.ledgers && paused.reservations == s.reservations
            && Becomes(s, paused, i, Worker(q, BackingOff)) && Enabled(cfg, paused, Resumed(i))
            && (var s' := Apply(cfg, paused, Resumed(i));
                SamePlace(s, s') && s'.ledgers == s.ledgers
                && s'.reservations == s.reservations - {q} && Becomes(s, s', i, Worker(q, Idle)))
  {
  }

  // ---- Where the fillers can stall ----

  /** An idle filler that fell more than `maxSize` behind the consumer. */
  predicate Lagging(cfg: Config, s: State, i: int) {
    0 <= i < |s.workers| && s.workers[i].phase.Idle? && s.current - s.workers[i].sequence > cfg.maxSize
  }

  /** A round moves a filler on, or starts its fetch, exactly when it neither passed the target nor left the window. */
  lemma RoundActsIff(cfg: Config, s: State, i: int)
    requires 0 <= i < |s.workers| && s.workers[i].phase.Idle?
    ensures Turn(cfg, s, i) != s <==> !Waits(cfg, s, s.workers[i].sequence)
  {
    var q := s.workers[i].sequence;
    if !Waits(cfg, s, q) {
      assert Turn(cfg, s, i).workers[i] != s.workers[i];
    }
  }

  lemma LaggingStep(cfg: Config, s: State, e: Event, i: int)
    requires cfg.forward && Enabled(cfg, s, e) && Lagging(cfg, s, i) && (e.Take? ==> s.target >= s.current)
    ensures Lagging(cfg, Apply(cfg, s, e), i) && Apply(cfg, s, e).workers[i] == s.workers[i]
  {
  }

  /** In the forward stream a lagging filler never moves again, whatever happens. */
  lemma {:induction false} LaggingIsForever(cfg: Config, states: seq<State>, events: seq<Event>, i: int, n: nat)
    requires cfg.forward && Run(cfg, states, events) && Inv(cfg, states[0]) && Lagging(cfg, states[0], i)
      && n < |states|
    ensures Lagging(cfg, states[n], i) && states[n].workers[i] == states[0].workers[i]
  {
    hide Inv, Apply, Enabled, Lagging;
    if n > 0 {
      LaggingIsForever(cfg, states, events, i, n - 1);
      RunInv(cfg, states, events, n - 1);
      TargetAhead(cfg, states[n - 1], events[n - 1]);
      LaggingStep(cfg, states[n - 1], events[n - 1], i);
    }
  }

  lemma TargetAhead(cfg: Config, s: State, e: Event)
    requires cfg.forward && Inv(cfg, s) && Enabled(cfg, s, e)
    ensures e.Take? ==> s.target >= s.current
  {
    hide Owned, Filed, Consecutive, Covered, InOrder;
  }

  /** A run from `s` that ends with a round of filler `i` in which it moves on or starts a fetch. */
  ghost predicate ActsAfter(cfg: Config, s: State, i: int, states: seq<State>, events: seq<Event>) {
    Run(cfg, states, events) && states[0] == s && events != [] && events[|events| - 1] == Round(i)
    && states[|states| - 1] != states[|states| - 2]
  }

  lemma RunPrepend(cfg: Config, s: State, e: Event, states: seq<State>, events: seq<Event>)
    requires Enabled(cfg, s, e) && Run(cfg, states, events) && states[0] == Apply(cfg, s, e)
    ensures Run(cfg, [s] + states, [e] + events)
  {
    hide Apply, Enabled;
    var longer, steps := [s] + states, [e] + events;
    forall n | 0 <= n < |steps|
      ensures Enabled(cfg, longer[n], steps[n]) && longer[n + 1] == Apply(cfg, longer[n], steps[n]) {
      if n > 0 {
        assert longer[n] == states[n - 1] && steps[n] == events[n - 1];
      }
    }
  }

  lemma PrependActs(cfg: Config, s: State, e: Event, i: int, states: seq<State>, events: seq<Event>)
    requires Enabled(cfg, s, e) && ActsAfter(cfg, Apply(cfg, s, e), i, states, events)
    ensures ActsAfter(cfg, s, i, [s] + states, [e] + events)
  {
    hide Apply, Enabled, Run;
    assert |states| == |events| + 1 by { RunLength(cfg, states, events); }
    RunPrepend(cfg, s, e, states, events);
  }

  lemma RunLength(cfg: Config, states: seq<State>, events: seq<Event>)
    requires Run(cfg, states, events)
    ensures |states| == |events| + 1
  {
  }

  /** A filler that does not lag can be reached: live ledgers move the consumer and the target up to it. */
  lemma {:induction false} ReachesFiller(cfg: Config, s: State, i: int) returns (states: seq<State>, events: seq<Event>)
    requires cfg.forward && cfg.maxSize >= 0 && 0 <= i < |s.workers| && s.workers[i].phase.Idle?
    requires s.current - s.workers[i].sequence <= cfg.maxSize
    ensures ActsAfter(cfg, s, i, states, events)
    decreases s.workers[i].sequence - s.current + cfg.maxSize, s.workers[i].sequence - s.target
  {
    var q := s.workers[i].sequence;
    if q - s.current > cfg.maxSize {
      var push := Push(Ledger(s.current, ""));
      var pushed := Apply(cfg, s, push);
      states, events := ReachesFiller(cfg, Apply(cfg, pushed, Take), i);
      PrependActs(cfg, pushed, Take, i, states, events);
      states, events := [pushed] + states, [Take] + events;
      PrependActs(cfg, s, push, i, states, events);
      states, events := [s] + states, [push] + events;
    } else if q > s.target {
      var push := Push(Ledger(q, ""));
      states, events := ReachesFiller(cfg, Apply(cfg, s, push), i);
      PrependActs(cfg, s, push, i, states, events);
      states, events := [s] + states, [push] + events;
    } else {
      var after := Apply(cfg, s, Round(i));
      RoundActsIff(cfg, s, i);
      states, events := [s, after], [Round(i)];
    }
  }

  ghost predicate CanAct(cfg: Config, s: State, i: int) {
    exists states, events :: ActsAfter(cfg, s, i, states, events)
  }

  /** An idle filler of the forward stream can ever act again exactly if it does not lag. */
  lemma CanActIff(cfg: Config, s: State, i: int)
    requires cfg.forward && cfg.maxSize >= 0 && Inv(cfg, s) && 0 <= i < |s.workers| && s.workers[i].phase.Idle?
    ensures CanAct(cfg, s, i) <==> !Lagging(cfg, s, i)
  {
    hide Inv;
    if Lagging(cfg, s, i) {
      forall states, events ensures !ActsAfter(cfg, s, i, states, events) {
        if ActsAfter(cfg, s, i, states, events) {
          LaggingIsForever(cfg, states, events, i, |events| - 1);
          RoundActsIff(cfg, states[|events| - 1], i);
          assert false;
        }
      }
    } else {
      var states, events := ReachesFiller(cfg, s, i);
      assert ActsAfter(cfg, s, i, states, events);
    }
  }

  /** Every filler lags, and the ledger the consumer waits for is not there. */
  ghost predicate Stalled(cfg: Config, s: State) {
    (forall i :: 0 <= i < |s.workers| ==> Lagging(cfg, s, i)) && s.current !in s.ledgers
  }

  lemma StalledStep(cfg: Config, s: State, e: Event)
    requires cfg.forward && Enabled(cfg, s, e) && Stalled(cfg, s) && !(e.Push? && e.ledger.sequence == s.current)
    ensures var s' := Apply(cfg, s, e); Stalled(cfg, s') && s'.current == s.current && s'.delivered == s.delivered
  {
    var s' := Apply(cfg, s, e);
    forall i | 0 <= i < |s.workers| ensures s.workers[i].phase.Idle? && Lagging(cfg, s', i) {
      assert Lagging(cfg, s, i);
      LaggingStep(cfg, s, e, i);
    }
  }

  /** Once every filler lags, only a live push of the missing ledger itself gets the consumer going again. */
  lemma {:induction false} StalledNeedsPush(cfg: Config, states: seq<State>, events: seq<Event>, n: nat)
    requires cfg.forward && Run(cfg, states, events) && Stalled(cfg, states[0]) && n < |states|
    requires forall m :: 0 <= m < n && events[m].Push? ==> events[m].ledger.sequence != states[0].current
    ensures Stalled(cfg, states[n]) && states[n].current == states[0].current
      && states[n].delivered == states[0].delivered
  {
    hide Apply, Enabled, Stalled;
    if n > 0 {
      StalledNeedsPush(cfg, states, events, n - 1);
      StalledStep(cfg, states[n - 1], events[n - 1]);
    }
  }

  /** That push does get it going: the consumer can take the ledger, and moves on to the next. */
  lemma PushResumes(cfg: Config, s: State, l: Ledger)
    requires cfg.forward && cfg.maxSize >= 0 && l.sequence == s.current
    ensures Enabled(cfg, s, Push(l)) && Enabled(cfg, Apply(cfg, s, Push(l)), Take)
    ensures var s' := Apply(cfg, Apply(cfg, s, Push(l)), Take);
            s'.current == s.current + 1 && s'.delivered == s.delivered + [l]
  {
  }

  /** Live ledgers that overtake a slow first fetch do leave every filler lagging: a window of 1, one filler. */
  lemma FillersCanStall() returns (cfg: Config, states: seq<State>, events: seq<Event>)
    ensures cfg.forward && FromStart(cfg, states, events, 10, 1) && Stalled(cfg, states[|events|])
  {
    cfg := Config(10, true, 1);
    var l10, l11, l12 := Ledger(10, "a"), Ledger(11, "b"), Ledger(12, "c");
    events := [Round(0), Push(l10), Take, Push(l11), Take, Push(l12), Take, Fetched(0, l10)];
    var busy, idle := [Worker(10, Fetching)], [Worker(10, Idle)];
    states := [
      Init(cfg, 10, 1),
      State(10, 10, map[], {10}, busy, []),
      State(10, 10, map[10 := l10], {10}, busy, []),
      State(11, 10, map[], {10}, busy, [l10]),
      State(11, 11, map[11 := l11], {10}, busy, [l10]),
      State(12, 11, map[], {10}, busy, [l10, l11]),
      State(12, 12, map[12 := l12], {10}, busy, [l10, l11]),
      State(13, 12, map[], {10}, busy, [l10, l11, l12]),
      State(13, 12, map[10 := l10], {}, idle, [l10, l11, l12])];
    assert states[0].workers == idle;
    forall n | 0 <= n < 8
      ensures Enabled(cfg, states[n], events[n]) && states[n + 1] == Apply(cfg, states[n], events[n])
    {
    }
  }

  // ---- The objects of the source ----

  /** `createRegistry`: what is stored and where the consumer stands. */
  class Registry {
    const cfg: Config
    var currentSequence: int
    var targetSequence: int
    var ledgers: map<int, Ledger>
    ghost var delivered: seq<Ledger>

    constructor (cfg: Config, targetSequence: int)
      ensures this.cfg == cfg && currentSequence == cfg.start && this.targetSequence == targetSequence
      ensures ledgers == map[] && delivered == []
    {
      this.cfg := cfg;
      currentSequence, this.targetSequence := cfg.start, targetSequence;
      ledgers, delivered := map[], [];
    }

    predicate AcceptsSequence(sequence: int)
      reads this
    {
      (if sequence < currentSequence then currentSequence - sequence else sequence - currentSequence) <= cfg.maxSize
    }

    method PutLedger(ledger: Ledger)
      modifies this`ledgers
      ensures ledgers == old(ledgers)[ledger.sequence := ledger]
    {
      ledgers := ledgers[ledger.sequence := ledger];
    }
  }

  /** `createFiller`: the reservations and the fillers around one registry. */
  class Filler {
    const stream: Registry
    var reservations: set<int>
    var workers: seq<Worker>

    /** The fillers of a new stream all start where its consumer starts. */
    constructor (stream: Registry, connections: nat)
      requires stream.currentSequence == stream.cfg.start && stream.ledgers == map[] && stream.delivered == []
      ensures this.stream == stream && Snapshot() == Init(stream.cfg, stream.targetSequence, connections)
    {
      var sequence := stream.currentSequence;
      this.stream := stream;
      reservations := {};
      workers := seq(connections, i => Worker(sequence, Idle));
    }

    ghost function Snapshot(): State
      reads this, stream
    {
      State(stream.currentSequence, stream.targetSequence, stream.ledgers, reservations, workers, stream.delivered)
    }

    /** A live ledger arrives. */
    method ExtendStream(ledger: Ledger)
      modifies stream
      ensures Snapshot() == Extend(stream.cfg, old(Snapshot()), ledger)
    {
      stream.targetSequence :=
        if ledger.sequence > stream.targetSequence then ledger.sequence else stream.targetSequence;
      if stream.AcceptsSequence(ledger.sequence) {
        stream.PutLedger(ledger);
      }
    }

    /** The part of `next` behind its wait: the current ledger is there and is handed over. */
    method TakeNext() returns (ledger: Ledger, ledgersBehind: int)
      requires stream.currentSequence in stream.ledgers
      modifies stream
      ensures Snapshot() == Next(old(Snapshot()))
      ensures ledger == old(stream.ledgers[stream.currentSequence])
      ensures ledgersBehind == stream.targetSequence - stream.currentSequence
    {
      ledger := stream.ledgers[stream.currentSequence];
      stream.ledgers := map q | q in stream.ledgers && q != stream.currentSequence :: stream.ledgers[q];
      stream.currentSequence :=
        stream.currentSequence + if stream.targetSequence >= stream.currentSequence then 1 else -1;
      stream.delivered := stream.delivered + [ledger];
      ledgersBehind := stream.targetSequence - stream.currentSequence;
    }

    /** An idle filler runs its loop up to the next await: a wait, or a fetch of a free sequence. */
    method RunToAwait(i: int) returns (fetching: bool, ghost rounds: nat)
      requires 0 <= i < |workers| && workers[i].phase.Idle?
      modifies this`reservations, this`workers
      ensures Snapshot() == Rounds(stream.cfg, old(Snapshot()), i, rounds)
      ensures |workers| == old(|workers|)
      ensures if fetching then workers[i].phase.Fetching?
              else workers[i].phase.Idle? && Waits(stream.cfg, Snapshot(), workers[i].sequence)
    {
      rounds := 0;
      ghost var start := Snapshot();
      while true
        invariant |workers| == |start.workers| && workers[i].phase.Idle?
        invariant Snapshot() == Rounds(stream.cfg, start, i, rounds)
        decreases stream.cfg.maxSize + 1 - Steps(stream.cfg, stream.currentSequence, workers[i].sequence)
      {
        var sequence := workers[i].sequence;
        var stride := if stream.cfg.forward then 1 else -1;
        var stepsToTarget := (stream.targetSequence - sequence) * stride;
        var stepsBehindCurrent := (stream.currentSequence - sequence) * stride;
        if stepsToTarget < 0 {
          return false, rounds;
        }
        if !stream.AcceptsSequence(sequence) {
          return false, rounds;
        }
        rounds := rounds + 1;
        if stepsBehindCurrent > 0 || sequence in reservations || sequence in stream.ledgers {
          workers := workers[i := Worker(sequence + stride, Idle)];
        } else {
          reservations := reservations + {sequence};
          workers := workers[i := Worker(sequence, Fetching)];
          return true, rounds;
        }
      }
    }

    /** The fetch came back: store the ledger, give the reservation back, go on. */
    method FetchDone(i: int, ledger: Ledger)
      requires 0 <= i < |workers|
      modifies this`reservations, this`workers, stream`ledgers
      ensures Snapshot() == Release(Put(old(Snapshot()), ledger), i)
    {
      stream.PutLedger(ledger);
      GiveBack(i);
    }

    /** The `finally` block. */
    method GiveBack(i: int)
      requires 0 <= i < |workers|
      modifies this`reservations, this`workers
      ensures Snapshot() == Release(old(Snapshot()), i)
    {
      reservations := reservations - {workers[i].sequence};
      workers := workers[i := Worker(workers[i].sequence, Idle)];
    }
  }

  /** `n` rounds of one filler with nothing in between. */
  function Rounds(cfg: Config, s: State, i: int, n: nat): (s': State)
    requires 0 <= i < |s.workers|
    ensures |s'.workers| == |s.workers|
  {
    if n == 0 then s else Turn(cfg, Rounds(cfg, s, i, n - 1), i)
  }
}
