/**
 The node pool's work queue (src/xrpl/nodepool.js, src/xrpl/node.js): requests wait until a connection
 bids for them, and run on the connection with the highest bid.
 */
module Dispatch {
  /** The ledger a command asks about; Other covers none and anything the bids do not look at. */
  datatype LedgerRef = Index(index: int) | Relative(name: string) | Other

  /** What is asked of the pool; an empty ticket or node name stands for none. */
  datatype Payload = Command(ticket: string, ledger: LedgerRef) | ReserveTicket(node: string, task: string)

  datatype Range = Range(first: int, last: int)

  datatype Task = Task(kind: string, ticket: string, node: string)

  datatype Node = Node(name: string, connected: bool, busy: bool, available: seq<Range>, tasks: seq<Task>)

  datatype Request = Request(id: int, payload: Payload)

  /** A request given to a node, with the nodes as they were when it was. */
  datatype Sent = Sent(request: Request, node: int, seen: seq<Node>)

  /** Stands for Infinity: above every other bid. */
  const UNBEATABLE := 3

  predicate HasTicket(tasks: seq<Task>, ticket: string) {
    exists i :: 0 <= i < |tasks| && tasks[i].ticket == ticket
  }

  predicate HoldsTicket(n: Node, ticket: string) {
    HasTicket(n.tasks, ticket)
  }

  predicate Knows(n: Node, ledger: int) {
    exists i :: 0 <= i < |n.available| && n.available[i].first <= ledger <= n.available[i].last
  }

  function BidOf(n: Node, p: Payload): int {
    if n.busy || !n.connected then 0
    else match p
      case Command(ticket, ledger) =>
        if ticket != "" then if HoldsTicket(n, ticket) then UNBEATABLE else 0
        else if ledger.Index? && n.available != [] then if Knows(n, ledger.index) then 2 else 0
        else if ledger.Relative? && ledger.name in ["validated", "current", "closed"] then 2
        else 1
      case ReserveTicket(node, _) => if node != "" && node != n.name then 0 else 1
  }

  /** Whether a node can serve a request at all, told from its fields. */
  ghost predicate Serves(n: Node, p: Payload) {
    !n.busy && n.connected
    && match p
       case Command(ticket, ledger) =>
         if ticket != "" then exists i :: 0 <= i < |n.tasks| && n.tasks[i].ticket == ticket
         else ledger.Index? && |n.available| > 0 ==>
           exists i :: 0 <= i < |n.available| && n.available[i].first <= ledger.index <= n.available[i].last
       case ReserveTicket(node, _) => node == "" || node == n.name
  }

  /** Whether it is known to be able to: it named its ledgers, or every node has what is asked for. */
  predicate Certain(n: Node, p: Payload) {
    p.Command? && p.ticket == ""
    && ((p.ledger.Index? && |n.available| > 0)
        || p.ledger == Relative("validated") || p.ledger == Relative("current") || p.ledger == Relative("closed"))
  }

  /** When a node bids and how much: a ticket beats everything, a certain bid beats an uncertain one. */
  lemma BidIs(n: Node, p: Payload)
    ensures BidOf(n, p) > 0 <==> Serves(n, p)
    ensures Serves(n, p) ==>
      BidOf(n, p) == if p.Command? && p.ticket != "" then UNBEATABLE else if Certain(n, p) then 2 else 1
    ensures !Serves(n, p) ==> BidOf(n, p) == 0
    ensures UNBEATABLE > 2
  {
  }

  /** The node's fields once `do` reaches its first wait or, for a ticket, its end. */
  function AfterDo(n: Node, p: Payload, ticket: string): Node {
    match p
    case Command(_, _) => n.(busy := true)
    case ReserveTicket(_, task) => n.(busy := false, tasks := n.tasks + [Task(task, ticket, n.name)])
  }

  /** The head of the stable descending sort: the first node with the highest bid. */
  function Best(nodes: seq<Node>, p: Payload, n: int): (best: int)
    requires 0 < n <= |nodes|
    ensures 0 <= best < n
  {
    if n == 1 then 0
    else
      var best := Best(nodes, p, n - 1);
      if BidOf(nodes[n - 1], p) > BidOf(nodes[best], p) then n - 1 else best
  }

  /** No node bids more, and those before it bid less. */
  lemma {:induction false} BestIsFirstHighest(nodes: seq<Node>, p: Payload, n: int, i: int)
    requires 0 <= i < n <= |nodes|
    ensures BidOf(nodes[i], p) <= BidOf(nodes[Best(nodes, p, n)], p)
    ensures i < Best(nodes, p, n) ==> BidOf(nodes[i], p) < BidOf(nodes[Best(nodes, p, n)], p)
  {
    hide BidOf;
    if i < n - 1 {
      BestIsFirstHighest(nodes, p, n - 1, i);
    } else if n > 1 {
      BestIsFirstHighest(nodes, p, n - 1, 0);
    }
  }

  /** The pool, with the history of what was submitted, what was sent where, and what is still running. */
  datatype State = State(
    nodes: seq<Node>,
    queue: seq<Request>,
    submitted: seq<Payload>,
    log: seq<Sent>,
    flights: seq<Sent>)

  /** Request `i` goes to node `b`; `draw` gives the random ticket a reservation draws. */
  function Send(s: State, i: int, b: int, draw: int -> string): State
    requires 0 <= i < |s.queue| && 0 <= b < |s.nodes|
  {
    var r := s.queue[i];
    State(
      s.nodes[b := AfterDo(s.nodes[b], r.payload, draw(r.id))],
      s.queue[..i] + s.queue[i + 1..],
      s.submitted,
      s.log + [Sent(r, b, s.nodes)],
      if r.payload.Command? then s.flights + [Sent(r, b, s.nodes)] else s.flights)
  }

  /** One walk over the queue, from position `i`. */
  function Pass(s: State, i: int, draw: int -> string): State
    requires 0 <= i <= |s.queue| && s.nodes != []
    decreases |s.queue| - i
  {
    if i == |s.queue| then s
    else
      var b := Best(s.nodes, s.queue[i].payload, |s.nodes|);
      if BidOf(s.nodes[b], s.queue[i].payload) <= 0 then Pass(s, i + 1, draw)
      else Pass(Send(s, i, b, draw), i, draw)
  }

  datatype Event =
    | Submit(payload: Payload)
    | WorkQueue
    | Finish(flight: int)
    | Connection(node: int, connected: bool)
    | Ledgers(node: int, available: seq<Range>)

  /** A command settles, whether with a result or an error. */
  function Settle(s: State, k: int): State
    requires 0 <= k < |s.flights| && 0 <= s.flights[k].node < |s.nodes|
  {
    var b := s.flights[k].node;
    s.(nodes := s.nodes[b := s.nodes[b].(busy := false)], flights := s.flights[..k] + s.flights[k + 1..])
  }

  function Step(s: State, e: Event, draw: int -> string): State
    requires s.nodes != []
  {
    match e
    case Submit(p) => s.(queue := s.queue + [Request(|s.submitted|, p)], submitted := s.submitted + [p])
    case WorkQueue => Pass(s, 0, draw)
    case Finish(k) => if 0 <= k < |s.flights| && 0 <= s.flights[k].node < |s.nodes| then Settle(s, k) else s
    case Connection(i, up) => if 0 <= i < |s.nodes| then s.(nodes := s.nodes[i := s.nodes[i].(connected := up)]) else s
    case Ledgers(i, rs) => if 0 <= i < |s.nodes| then s.(nodes := s.nodes[i := s.nodes[i].(available := rs)]) else s
  }

  /** Connections as the pool creates them. */
  predicate Idle(nodes: seq<Node>) {
    nodes != [] && forall i :: 0 <= i < |nodes| ==> !nodes[i].busy && nodes[i].tasks == []
  }

  lemma {:induction false} PassKeepsNodes(s: State, i: int, draw: int -> string)
    requires 0 <= i <= |s.queue| && s.nodes != []
    ensures |Pass(s, i, draw).nodes| == |s.nodes|
    decreases |s.queue| - i
  {
    if i < |s.queue| {
      var b := Best(s.nodes, s.queue[i].payload, |s.nodes|);
      if BidOf(s.nodes[b], s.queue[i].payload) <= 0 { PassKeepsNodes(s, i + 1, draw); }
      else { PassKeepsNodes(Send(s, i, b, draw), i, draw); }
    }
  }

  lemma StepKeepsNodes(s: State, e: Event, draw: int -> string)
    requires s.nodes != []
    ensures |Step(s, e, draw).nodes| == |s.nodes|
  {
    if e.WorkQueue? { PassKeepsNodes(s, 0, draw); }
  }

  function After(nodes: seq<Node>, events: seq<Event>, n: nat, draw: int -> string): (s: State)
    requires n <= |events| && Idle(nodes)
    ensures |s.nodes| == |nodes|
  {
    if n == 0 then State(nodes, [], [], [], [])
    else
      var before := After(nodes, events, n - 1, draw);
      StepKeepsNodes(before, events[n - 1], draw);
      Step(before, events[n - 1], draw)
  }

  // ---- Conservation: queued or sent, each exactly once ----

  function Requests(log: seq<Sent>): seq<Request> {
    seq(|log|, i requires 0 <= i < |log| => log[i].request)
  }

  function Numbered(payloads: seq<Payload>): seq<Request> {
    seq(|payloads|, i requires 0 <= i < |payloads| => Request(i, payloads[i]))
  }

  ghost predicate Conserved(s: State) {
    multiset(s.queue) + multiset(Requests(s.log)) == multiset(Numbered(s.submitted))
  }

  lemma SpliceMultiset<T>(q: seq<T>, i: int)
    requires 0 <= i < |q|
    ensures multiset(q[..i] + q[i + 1..]) + multiset{q[i]} == multiset(q)
  {
    assert q == q[..i] + [q[i]] + q[i + 1..];
  }

  lemma SendConserves(s: State, i: int, b: int, draw: int -> string)
    requires 0 <= i < |s.queue| && 0 <= b < |s.nodes| && Conserved(s)
    ensures Conserved(Send(s, i, b, draw))
  {
    SpliceMultiset(s.queue, i);
    assert Requests(s.log + [Sent(s.queue[i], b, s.nodes)]) == Requests(s.log) + [s.queue[i]];
  }

  // ---- One command at a time ----

  ghost predicate InFlightOn(flights: seq<Sent>, node: int) {
    exists k :: 0 <= k < |flights| && flights[k].node == node
  }

  /** A node is busy exactly while a command runs on it, and runs no two at once. */
  ghost predicate OneAtATime(s: State) {
    (forall k :: 0 <= k < |s.flights| ==> 0 <= s.flights[k].node < |s.nodes|)
    && (forall j, k :: 0 <= j < k < |s.flights| ==> s.flights[j].node != s.flights[k].node)
    && (forall b :: 0 <= b < |s.nodes| ==> (s.nodes[b].busy <==> InFlightOn(s.flights, b)))
  }

  lemma SendOneAtATime(s: State, i: int, b: int, draw: int -> string)
    requires 0 <= i < |s.queue| && 0 <= b < |s.nodes| && OneAtATime(s) && BidOf(s.nodes[b], s.queue[i].payload) > 0
    ensures OneAtATime(Send(s, i, b, draw))
  {
    var s' := Send(s, i, b, draw);
    assert !InFlightOn(s.flights, b);
    if s.queue[i].payload.Command? {
      assert s'.flights[|s.flights|].node == b;
      forall c | 0 <= c < |s.nodes| && c != b ensures InFlightOn(s'.flights, c) <==> InFlightOn(s.flights, c) {
        if InFlightOn(s.flights, c) {
          var k :| 0 <= k < |s.flights| && s.flights[k].node == c;
          assert s'.flights[k].node == c;
        }
      }
    }
  }

  /** Taking out one flight leaves the others. */
  lemma FlightTaken(flights: seq<Sent>, k: int, c: int)
    requires 0 <= k < |flights| && flights[k].node != c
    ensures InFlightOn(flights[..k] + flights[k + 1..], c) <==> InFlightOn(flights, c)
  {
    var rest := flights[..k] + flights[k + 1..];
    assert forall j :: 0 <= j < |rest| ==> rest[j] == flights[if j < k then j else j + 1];
    if InFlightOn(flights, c) {
      var j :| 0 <= j < |flights| && flights[j].node == c;
      assert rest[if j < k then j else j - 1].node == c;
    }
  }

  lemma NoneLeft(flights: seq<Sent>, k: int)
    requires 0 <= k < |flights|
    requires forall i, j :: 0 <= i < j < |flights| ==> flights[i].node != flights[j].node
    ensures !InFlightOn(flights[..k] + flights[k + 1..], flights[k].node)
  {
  }

  lemma SettleOneAtATime(s: State, k: int)
    requires 0 <= k < |s.flights| && OneAtATime(s)
    ensures OneAtATime(Settle(s, k))
  {
    hide InFlightOn;
    NoneLeft(s.flights, k);
    forall c | 0 <= c < |s.nodes| && c != s.flights[k].node
      ensures InFlightOn(Settle(s, k).flights, c) <==> InFlightOn(s.flights, c)
    {
      FlightTaken(s.flights, k, c);
    }
  }

  lemma TouchOneAtATime(s: State, i: int, n: Node)
    requires 0 <= i < |s.nodes| && OneAtATime(s) && n.busy == s.nodes[i].busy
    ensures OneAtATime(s.(nodes := s.nodes[i := n]))
  {
  }

  // ---- Tickets ----

  /** Some reservation sent to `node` before position `k` of the log drew the ticket. */
  ghost predicate Issued(log: seq<Sent>, k: int, node: int, ticket: string, draw: int -> string) {
    exists j :: 0 <= j < k <= |log| && log[j].node == node && log[j].request.payload.ReserveTicket?
                && draw(log[j].request.id) == ticket
  }

  /** The tasks that the reservations among the first `n` log entries leave on a node. */
  function Reserved(log: seq<Sent>, n: int, node: int, name: string, draw: int -> string): seq<Task>
    requires 0 <= n <= |log|
  {
    if n == 0 then []
    else
      var sent := log[n - 1];
      Reserved(log, n - 1, node, name, draw)
      + if sent.node == node && sent.request.payload.ReserveTicket?
        then [Task(sent.request.payload.task, draw(sent.request.id), name)] else []
  }

  /** Every node holds exactly the tasks of the reservations sent to it. */
  ghost predicate TasksIssued(s: State, draw: int -> string) {
    forall b :: 0 <= b < |s.nodes| ==> s.nodes[b].tasks == Reserved(s.log, |s.log|, b, s.nodes[b].name, draw)
  }

  lemma TicketAppended(tasks: seq<Task>, task: Task, ticket: string)
    ensures HasTicket(tasks + [task], ticket) <==> HasTicket(tasks, ticket) || task.ticket == ticket
  {
    var longer := tasks + [task];
    if i :| 0 <= i < |tasks| && tasks[i].ticket == ticket {
      assert longer[i].ticket == ticket;
    }
    assert longer[|tasks|] == task;
  }

  lemma {:induction false} ReservedIff(
    log: seq<Sent>, n: int, node: int, name: string, draw: int -> string, ticket: string)
    requires 0 <= n <= |log|
    ensures HasTicket(Reserved(log, n, node, name, draw), ticket) <==> Issued(log, n, node, ticket, draw)
  {
    hide HasTicket, Issued;
    if n > 0 {
      var sent, before := log[n - 1], Reserved(log, n - 1, node, name, draw);
      ReservedIff(log, n - 1, node, name, draw, ticket);
      IssuedStep(log, n, node, ticket, draw);
      if sent.node == node && sent.request.payload.ReserveTicket? {
        TicketAppended(before, Task(sent.request.payload.task, draw(sent.request.id), name), ticket);
      } else {
        assert Reserved(log, n, node, name, draw) == before;
      }
    } else {
      NoneYet(log, node, ticket, draw);
    }
  }

  lemma NoneYet(log: seq<Sent>, node: int, ticket: string, draw: int -> string)
    ensures !HasTicket([], ticket) && !Issued(log, 0, node, ticket, draw)
  {
  }

  lemma IssuedStep(log: seq<Sent>, n: int, node: int, ticket: string, draw: int -> string)
    requires 0 < n <= |log|
    ensures Issued(log, n, node, ticket, draw)
       <==> Issued(log, n - 1, node, ticket, draw)
            || (log[n - 1].node == node && log[n - 1].request.payload.ReserveTicket?
                && draw(log[n - 1].request.id) == ticket)
  {
  }

  lemma {:induction false} ReservedPrefix(
    log: seq<Sent>, sent: Sent, n: int, node: int, name: string, draw: int -> string)
    requires 0 <= n <= |log|
    ensures Reserved(log + [sent], n, node, name, draw) == Reserved(log, n, node, name, draw)
  {
    if n > 0 {
      ReservedPrefix(log, sent, n - 1, node, name, draw);
      assert (log + [sent])[n - 1] == log[n - 1];
    }
  }

  ghost predicate TicketsHonoured(log: seq<Sent>, draw: int -> string) {
    forall k :: 0 <= k < |log| && log[k].request.payload.Command? && log[k].request.payload.ticket != "" ==>
      Issued(log, k, log[k].node, log[k].request.payload.ticket, draw)
  }

  lemma IssuedStays(log: seq<Sent>, sent: Sent, k: int, node: int, ticket: string, draw: int -> string)
    requires Issued(log, k, node, ticket, draw)
    ensures Issued(log + [sent], k, node, ticket, draw) && Issued(log + [sent], |log| + 1, node, ticket, draw)
  {
    var j :| 0 <= j < k <= |log| && log[j].node == node && log[j].request.payload.ReserveTicket?
             && draw(log[j].request.id) == ticket;
    assert (log + [sent])[j] == log[j];
  }

  lemma SendTasksIssued(s: State, i: int, b: int, draw: int -> string)
    requires 0 <= i < |s.queue| && 0 <= b < |s.nodes| && TasksIssued(s, draw)
    ensures TasksIssued(Send(s, i, b, draw), draw)
  {
    var s' := Send(s, i, b, draw);
    var sent := Sent(s.queue[i], b, s.nodes);
    assert s'.log == s.log + [sent];
    forall c | 0 <= c < |s'.nodes|
      ensures s'.nodes[c].tasks == Reserved(s'.log, |s'.log|, c, s'.nodes[c].name, draw)
    {
      ReservedPrefix(s.log, sent, |s.log|, c, s.nodes[c].name, draw);
    }
  }

  lemma SendHonours(s: State, i: int, b: int, draw: int -> string)
    requires 0 <= i < |s.queue| && 0 <= b < |s.nodes| && TasksIssued(s, draw) && TicketsHonoured(s.log, draw)
    requires BidOf(s.nodes[b], s.queue[i].payload) > 0
    ensures TicketsHonoured(Send(s, i, b, draw).log, draw)
  {
    hide Issued;
    var r := s.queue[i];
    var sent := Sent(r, b, s.nodes);
    var log := s.log + [sent];
    forall k | 0 <= k < |log| && log[k].request.payload.Command? && log[k].request.payload.ticket != ""
      ensures Issued(log, k, log[k].node, log[k].request.payload.ticket, draw)
    {
      if k < |s.log| {
        IssuedStays(s.log, sent, k, log[k].node, log[k].request.payload.ticket, draw);
      } else {
        assert HoldsTicket(s.nodes[b], r.payload.ticket);
        ReservedIff(s.log, |s.log|, b, s.nodes[b].name, draw, r.payload.ticket);
        IssuedStays(s.log, sent, |s.log|, b, r.payload.ticket, draw);
      }
    }
  }

  // ---- Who is chosen ----

  /** The node chosen bid, no other bid more, and none before it as much. */
  ghost predicate WellChosen(sent: Sent) {
    0 <= sent.node < |sent.seen| && BidOf(sent.seen[sent.node], sent.request.payload) > 0
    && (forall i :: 0 <= i < |sent.seen| ==>
          BidOf(sent.seen[i], sent.request.payload) <= BidOf(sent.seen[sent.node], sent.request.payload))
    && (forall i :: 0 <= i < sent.node ==>
          BidOf(sent.seen[i], sent.request.payload) < BidOf(sent.seen[sent.node], sent.request.payload))
  }

  ghost predicate AllWellChosen(log: seq<Sent>) {
    forall k :: 0 <= k < |log| ==> WellChosen(log[k])
  }

  lemma BestIsWellChosen(nodes: seq<Node>, r: Request)
    requires nodes != [] && BidOf(nodes[Best(nodes, r.payload, |nodes|)], r.payload) > 0
    ensures WellChosen(Sent(r, Best(nodes, r.payload, |nodes|), nodes))
  {
    hide BidOf;
    forall i | 0 <= i < |nodes|
      ensures BidOf(nodes[i], r.payload) <= BidOf(nodes[Best(nodes, r.payload, |nodes|)], r.payload)
      ensures i < Best(nodes, r.payload, |nodes|) ==>
        BidOf(nodes[i], r.payload) < BidOf(nodes[Best(nodes, r.payload, |nodes|)], r.payload)
    {
      BestIsFirstHighest(nodes, r.payload, |nodes|, i);
    }
  }

  // ---- Every run ----

  ghost predicate Inv(s: State, draw: int -> string) {
    Conserved(s) && OneAtATime(s) && TasksIssued(s, draw) && TicketsHonoured(s.log, draw) && AllWellChosen(s.log)
  }

  lemma {:induction false} PassInv(s: State, i: int, draw: int -> string)
    requires 0 <= i <= |s.queue| && s.nodes != [] && Inv(s, draw)
    ensures Inv(Pass(s, i, draw), draw)
    decreases |s.queue| - i
  {
    hide Conserved, OneAtATime, TasksIssued, TicketsHonoured, BidOf, WellChosen;
    if i < |s.queue| {
      var b := Best(s.nodes, s.queue[i].payload, |s.nodes|);
      if BidOf(s.nodes[b], s.queue[i].payload) <= 0 {
        PassInv(s, i + 1, draw);
      } else {
        SendConserves(s, i, b, draw);
        SendOneAtATime(s, i, b, draw);
        SendTasksIssued(s, i, b, draw);
        SendHonours(s, i, b, draw);
        BestIsWellChosen(s.nodes, s.queue[i]);
        PassInv(Send(s, i, b, draw), i, draw);
      }
    }
  }

  lemma SubmitConserves(s: State, p: Payload)
    requires Conserved(s)
    ensures multiset(s.queue + [Request(|s.submitted|, p)]) + multiset(Requests(s.log))
         == multiset(Numbered(s.submitted + [p]))
  {
    assert Numbered(s.submitted + [p]) == Numbered(s.submitted) + [Request(|s.submitted|, p)];
  }

  lemma TouchInv(s: State, i: int, n: Node, draw: int -> string)
    requires 0 <= i < |s.nodes| && Inv(s, draw)
    requires n.name == s.nodes[i].name && n.busy == s.nodes[i].busy && n.tasks == s.nodes[i].tasks
    ensures Inv(s.(nodes := s.nodes[i := n]), draw)
  {
    hide Reserved, InFlightOn, TicketsHonoured, WellChosen;
    TouchOneAtATime(s, i, n);
  }

  lemma SettleInv(s: State, k: int, draw: int -> string)
    requires 0 <= k < |s.flights| && Inv(s, draw)
    ensures OneAtATime(s) && Inv(Settle(s, k), draw)
  {
    hide Reserved, InFlightOn, TicketsHonoured, WellChosen;
    SettleOneAtATime(s, k);
  }

  lemma StepInv(s: State, e: Event, draw: int -> string)
    requires s.nodes != [] && Inv(s, draw)
    ensures Inv(Step(s, e, draw), draw)
  {
    hide Conserved, OneAtATime, TasksIssued, TicketsHonoured, Reserved, AllWellChosen;
    match e
    case Submit(p) => SubmitInv(s, p, draw);
    case WorkQueue => PassInv(s, 0, draw);
    case Finish(k) => if 0 <= k < |s.flights| { SettleInv(s, k, draw); }
    case Connection(i, up) => if 0 <= i < |s.nodes| { TouchInv(s, i, s.nodes[i].(connected := up), draw); }
    case Ledgers(i, rs) => if 0 <= i < |s.nodes| { TouchInv(s, i, s.nodes[i].(available := rs), draw); }
  }

  lemma SubmitInv(s: State, p: Payload, draw: int -> string)
    requires s.nodes != [] && Inv(s, draw)
    ensures Inv(Step(s, Submit(p), draw), draw)
  {
    hide Reserved, InFlightOn, TicketsHonoured, WellChosen;
    SubmitConserves(s, p);
  }

  lemma {:induction false} AlwaysInv(nodes: seq<Node>, events: seq<Event>, n: nat, draw: int -> string)
    requires n <= |events| && Idle(nodes)
    ensures Inv(After(nodes, events, n, draw), draw)
  {
    if n > 0 {
      hide Inv, Step;
      AlwaysInv(nodes, events, n - 1, draw);
      StepInv(After(nodes, events, n - 1, draw), events[n - 1], draw);
    }
  }

  /** The number of places a request holds in the queue and in the log of what was sent. */
  ghost function Places(s: State, r: Request): nat {
    multiset(s.queue)[r] + multiset(Requests(s.log))[r]
  }

  lemma {:induction false} NumberedOnce(payloads: seq<Payload>, id: int, p: Payload)
    ensures multiset(Numbered(payloads))[Request(id, p)] == if 0 <= id < |payloads| && payloads[id] == p then 1 else 0
  {
    if payloads == [] {
      assert Numbered(payloads) == [];
    } else {
      var init, last := payloads[..|payloads| - 1], payloads[|payloads| - 1];
      NumberedOnce(init, id, p);
      assert Numbered(payloads) == Numbered(init) + [Request(|init|, last)];
    }
  }

  /** In every run each submitted request is in the queue or was sent, once in all; nothing else is or was. */
  lemma QueuedOrSentOnce(nodes: seq<Node>, events: seq<Event>, n: nat, draw: int -> string, id: int, p: Payload)
    requires n <= |events| && Idle(nodes)
    ensures Places(After(nodes, events, n, draw), Request(id, p))
         == if 0 <= id < |After(nodes, events, n, draw).submitted| && After(nodes, events, n, draw).submitted[id] == p
            then 1 else 0
  {
    hide OneAtATime, TasksIssued, TicketsHonoured, Idle;
    AlwaysInv(nodes, events, n, draw);
    var s := After(nodes, events, n, draw);
    NumberedOnce(s.submitted, id, p);
    assert multiset(Numbered(s.submitted))[Request(id, p)] == Places(s, Request(id, p));
  }

  /** In every run no node has two commands in flight, and a node is busy exactly while it has one. */
  lemma OneCommandPerNode(nodes: seq<Node>, events: seq<Event>, n: nat, draw: int -> string)
    requires n <= |events| && Idle(nodes)
    ensures OneAtATime(After(nodes, events, n, draw))
  {
    hide OneAtATime;
    AlwaysInv(nodes, events, n, draw);
  }

  /** In every run a command with a ticket is sent only to a node an earlier reservation drew it on. */
  lemma TicketRunsOnIssuer(nodes: seq<Node>, events: seq<Event>, n: nat, draw: int -> string, k: int)
    requires n <= |events| && Idle(nodes) && 0 <= k < |After(nodes, events, n, draw).log|
    requires After(nodes, events, n, draw).log[k].request.payload.Command?
    requires After(nodes, events, n, draw).log[k].request.payload.ticket != ""
    ensures var log := After(nodes, events, n, draw).log;
            Issued(log, k, log[k].node, log[k].request.payload.ticket, draw)
  {
    hide Issued, OneAtATime, TasksIssued, Conserved, Idle;
    AlwaysInv(nodes, events, n, draw);
  }

  /** In every run a node holds a ticket exactly if an earlier reservation drew it there. */
  lemma TicketHeldIff(nodes: seq<Node>, events: seq<Event>, n: nat, draw: int -> string, b: int, ticket: string)
    requires n <= |events| && Idle(nodes) && 0 <= b < |nodes|
    ensures var s := After(nodes, events, n, draw);
            HoldsTicket(s.nodes[b], ticket) <==> Issued(s.log, |s.log|, b, ticket, draw)
  {
    hide Issued, OneAtATime, Conserved, Idle, TicketsHonoured, WellChosen;
    AlwaysInv(nodes, events, n, draw);
    var s := After(nodes, events, n, draw);
    ReservedIff(s.log, |s.log|, b, s.nodes[b].name, draw, ticket);
  }

  /**
   In every run each request was sent to a node that could serve it as things stood then: connected, with
   nothing running, and holding the ledger asked for by number unless it had named no ledgers. No other
   node bid more, and none before it as much.
   */
  lemma SentToServingNode(nodes: seq<Node>, events: seq<Event>, n: nat, draw: int -> string, k: int)
    requires n <= |events| && Idle(nodes) && 0 <= k < |After(nodes, events, n, draw).log|
    ensures var sent := After(nodes, events, n, draw).log[k];
            WellChosen(sent) && Serves(sent.seen[sent.node], sent.request.payload)
  {
    hide Issued, OneAtATime, Conserved, Idle, TasksIssued, TicketsHonoured, WellChosen;
    AlwaysInv(nodes, events, n, draw);
    var sent := After(nodes, events, n, draw).log[k];
    ChosenServes(sent);
  }

  lemma ChosenServes(sent: Sent)
    requires WellChosen(sent)
    ensures 0 <= sent.node < |sent.seen| && Serves(sent.seen[sent.node], sent.request.payload)
  {
    BidIs(sent.seen[sent.node], sent.request.payload);
  }

  // ---- What a pass leaves behind ----

  /** A request whose bids no ticket in `drawn` can raise. */
  predicate Steady(p: Payload, drawn: set<string>) {
    p.Command? && p.ticket != "" ==> p.ticket !in drawn
  }

  /** The tickets that waiting reservations may draw. */
  ghost predicate Draws(queue: seq<Request>, drawn: set<string>, draw: int -> string) {
    forall i :: 0 <= i < |queue| && queue[i].payload.ReserveTicket? ==> draw(queue[i].id) in drawn
  }

  /** No node bids. */
  ghost predicate NoBid(nodes: seq<Node>, p: Payload) {
    forall i :: 0 <= i < |nodes| ==> BidOf(nodes[i], p) <= 0
  }

  /** Sending takes bids away, and gives none but to the holders of the ticket it draws. */
  lemma SendLowersBids(s: State, i: int, b: int, draw: int -> string, p: Payload, drawn: set<string>)
    requires 0 <= i < |s.queue| && 0 <= b < |s.nodes| && Steady(p, drawn) && NoBid(s.nodes, p)
    requires Draws(s.queue, drawn, draw)
    requires BidOf(s.nodes[b], s.queue[i].payload) > 0
    ensures NoBid(Send(s, i, b, draw).nodes, p)
  {
    var n, n' := s.nodes[b], Send(s, i, b, draw).nodes[b];
    assert !n.busy;
    if s.queue[i].payload.ReserveTicket? && p.Command? {
      var r := s.queue[i];
      TicketAppended(n.tasks, Task(r.payload.task, draw(r.id), n.name), p.ticket);
    }
    assert BidOf(n', p) <= BidOf(n, p);
  }

  /** The requests before position `i` were passed over for want of a bid. */
  ghost predicate PassedOver(s: State, i: int, drawn: set<string>)
    requires 0 <= i <= |s.queue|
  {
    forall j :: 0 <= j < i && Steady(s.queue[j].payload, drawn) ==> NoBid(s.nodes, s.queue[j].payload)
  }

  /** The sort's first bid is the only one that counts. */
  lemma NoBidIff(nodes: seq<Node>, p: Payload)
    requires nodes != []
    ensures NoBid(nodes, p) <==> BidOf(nodes[Best(nodes, p, |nodes|)], p) <= 0
  {
    hide BidOf;
    forall i | 0 <= i < |nodes| ensures BidOf(nodes[i], p) <= BidOf(nodes[Best(nodes, p, |nodes|)], p) {
      BestIsFirstHighest(nodes, p, |nodes|, i);
    }
  }

  lemma {:induction false} PassStarvesNone(s: State, i: int, draw: int -> string, drawn: set<string>)
    requires 0 <= i <= |s.queue| && s.nodes != [] && PassedOver(s, i, drawn) && Draws(s.queue, drawn, draw)
    ensures PassedOver(Pass(s, i, draw), |Pass(s, i, draw).queue|, drawn)
    decreases |s.queue| - i
  {
    hide BidOf, Steady, NoBid;
    if i < |s.queue| {
      var b := Best(s.nodes, s.queue[i].payload, |s.nodes|);
      if BidOf(s.nodes[b], s.queue[i].payload) <= 0 {
        NoBidIff(s.nodes, s.queue[i].payload);
        PassStarvesNone(s, i + 1, draw, drawn);
      } else {
        SendPassesOver(s, i, b, draw, drawn);
        PassStarvesNone(Send(s, i, b, draw), i, draw, drawn);
      }
    }
  }

  lemma SendPassesOver(s: State, i: int, b: int, draw: int -> string, drawn: set<string>)
    requires 0 <= i < |s.queue| && 0 <= b < |s.nodes| && BidOf(s.nodes[b], s.queue[i].payload) > 0
    requires PassedOver(s, i, drawn) && Draws(s.queue, drawn, draw)
    ensures PassedOver(Send(s, i, b, draw), i, drawn) && Draws(Send(s, i, b, draw).queue, drawn, draw)
  {
    hide BidOf, Steady, NoBid;
    var s' := Send(s, i, b, draw);
    forall j | 0 <= j < i && Steady(s'.queue[j].payload, drawn) ensures NoBid(s'.nodes, s'.queue[j].payload) {
      assert s'.queue[j] == s.queue[j];
      SendLowersBids(s, i, b, draw, s.queue[j].payload, drawn);
    }
    assert forall j :: 0 <= j < |s'.queue| ==> s'.queue[j] == s.queue[if j < i then j else j + 1];
  }

  /**
   After the queue is worked, no waiting request has a node that bids for it, save a command whose ticket
   a reservation waiting in the same queue could draw.
   */
  lemma NoneWaitsInVain(s: State, draw: int -> string, drawn: set<string>, j: int)
    requires s.nodes != [] && Draws(s.queue, drawn, draw) && 0 <= j < |Pass(s, 0, draw).queue|
    requires Steady(Pass(s, 0, draw).queue[j].payload, drawn)
    ensures NoBid(Pass(s, 0, draw).nodes, Pass(s, 0, draw).queue[j].payload)
  {
    hide Steady, NoBid, Draws;
    PassStarvesNone(s, 0, draw, drawn);
  }

  // ---- First come, first served ----

  /** The queue holds requests in the order they were submitted. */
  ghost predicate InOrder(s: State) {
    (forall i, j :: 0 <= i < j < |s.queue| ==> s.queue[i].id < s.queue[j].id)
    && (forall i :: 0 <= i < |s.queue| ==> s.queue[i].id < |s.submitted|)
    && (forall k :: 0 <= k < |s.log| ==> s.log[k].request.id < |s.submitted|)
  }

  predicate Unticketed(p: Payload) {
    p.Command? ==> p.ticket == ""
  }

  /** Of requests that ask the same, those sent came before those that wait. */
  ghost predicate Fair(s: State) {
    forall i, k ::
      0 <= i < |s.queue| && 0 <= k < |s.log|
      && s.queue[i].payload == s.log[k].request.payload && Unticketed(s.queue[i].payload) ==>
        s.log[k].request.id < s.queue[i].id
  }

  lemma SendFair(s: State, i: int, b: int, draw: int -> string, drawn: set<string>)
    requires 0 <= i < |s.queue| && 0 <= b < |s.nodes| && BidOf(s.nodes[b], s.queue[i].payload) > 0
    requires PassedOver(s, i, drawn) && InOrder(s) && Fair(s)
    ensures InOrder(Send(s, i, b, draw)) && Fair(Send(s, i, b, draw))
  {
    hide BidOf;
    var s' := Send(s, i, b, draw);
    assert forall j :: 0 <= j < |s'.queue| ==> s'.queue[j] == s.queue[if j < i then j else j + 1];
    forall j | 0 <= j < i && Unticketed(s.queue[j].payload) ensures BidOf(s.nodes[b], s.queue[j].payload) <= 0 {
      assert Steady(s.queue[j].payload, drawn);
      assert NoBid(s.nodes, s.queue[j].payload);
    }
  }

  lemma {:induction false} PassFair(s: State, i: int, draw: int -> string, drawn: set<string>)
    requires 0 <= i <= |s.queue| && s.nodes != [] && PassedOver(s, i, drawn) && Draws(s.queue, drawn, draw)
    requires InOrder(s) && Fair(s)
    ensures InOrder(Pass(s, i, draw)) && Fair(Pass(s, i, draw))
    decreases |s.queue| - i
  {
    hide BidOf, Steady, NoBid, InOrder, Fair, Draws;
    if i < |s.queue| {
      var b := Best(s.nodes, s.queue[i].payload, |s.nodes|);
      if BidOf(s.nodes[b], s.queue[i].payload) <= 0 {
        NoBidIff(s.nodes, s.queue[i].payload);
        PassFair(s, i + 1, draw, drawn);
      } else {
        SendPassesOver(s, i, b, draw, drawn);
        SendFair(s, i, b, draw, drawn);
        PassFair(Send(s, i, b, draw), i, draw, drawn);
      }
    }
  }

  lemma StepFair(s: State, e: Event, draw: int -> string)
    requires s.nodes != [] && InOrder(s) && Fair(s)
    ensures InOrder(Step(s, e, draw)) && Fair(Step(s, e, draw))
  {
    if e.WorkQueue? {
      hide BidOf, InOrder, Fair;
      var drawn := set i | 0 <= i < |s.queue| :: draw(s.queue[i].id);
      PassFair(s, 0, draw, drawn);
    }
  }

  /**
   In every run, of two requests without a ticket that ask the same, the later is not sent while the
   earlier waits.
   */
  lemma {:induction false} FirstComeFirstServed(nodes: seq<Node>, events: seq<Event>, n: nat, draw: int -> string)
    requires n <= |events| && Idle(nodes)
    ensures InOrder(After(nodes, events, n, draw)) && Fair(After(nodes, events, n, draw))
  {
    hide Step, InOrder, Fair;
    if n > 0 {
      FirstComeFirstServed(nodes, events, n - 1, draw);
      StepFair(After(nodes, events, n - 1, draw), events[n - 1], draw);
    } else {
      FairAtFirst(nodes);
    }
  }

  lemma FairAtFirst(nodes: seq<Node>)
    ensures InOrder(State(nodes, [], [], [], [])) && Fair(State(nodes, [], [], [], []))
  {
  }

  // ---- The objects ----

  /** src/xrpl/node.js */
  class Connection {
    const name: string
    var connected: bool
    var busy: bool
    var availableLedgers: seq<Range>
    var tasks: seq<Task>

    constructor (name: string)
      ensures this.name == name && !busy && !connected && tasks == [] && availableLedgers == []
    {
      this.name, connected, busy, availableLedgers, tasks := name, false, false, [], [];
    }

    function View(): Node
      reads this
    {
      Node(name, connected, busy, availableLedgers, tasks)
    }

    method Bid(payload: Payload) returns (bid: int)
      ensures bid == BidOf(View(), payload)
    {
      if busy || !connected {
        return 0;
      }
      match payload {
        case Command(ticket, ledger) =>
          if ticket != "" {
            return if HoldsTicket(View(), ticket) then UNBEATABLE else 0;
          }
          if ledger.Index? && |availableLedgers| > 0 {
            return if Knows(View(), ledger.index) then 2 else 0;
          }
          if ledger.Relative? && ledger.name in ["validated", "current", "closed"] {
            return 2;
          }
          return 1;
        case ReserveTicket(node, _) =>
          if node != "" && node != name {
            return 0;
          }
          return 1;
      }
    }

    /** Up to the wait for the socket; `ticket` is the random draw. */
    method Do(payload: Payload, ticket: string)
      modifies this`busy, this`tasks
      ensures View() == AfterDo(old(View()), payload, ticket)
    {
      busy := true;
      if payload.ReserveTicket? {
        tasks := tasks + [Task(payload.task, ticket, name)];
        busy := false;
      }
    }
  }

  class Pool {
    const nodes: seq<Connection>
    var queue: seq<Request>
    /** History: what was submitted, what was sent where, and which commands are still running. */
    var submitted: seq<Payload>
    ghost var log: seq<Sent>
    ghost var flights: seq<Sent>

    constructor (nodes: seq<Connection>)
      ensures this.nodes == nodes && queue == [] && submitted == [] && log == [] && flights == []
    {
      this.nodes, queue, submitted, log, flights := nodes, [], [], [], [];
    }

    /** The connections are distinct objects, and there is at least one. */
    ghost predicate Valid()
      reads this
    {
      nodes != [] && forall i, j :: 0 <= i < j < |nodes| ==> nodes[i] != nodes[j]
    }

    ghost function Views(): seq<Node>
      reads this, nodes
    {
      seq(|nodes|, i requires 0 <= i < |nodes| reads this, nodes => nodes[i].View())
    }

    ghost function Snapshot(): State
      reads this, nodes
    {
      State(Views(), queue, submitted, log, flights)
    }

    method Submit(payload: Payload, draw: int -> string)
      requires Valid()
      modifies this
      ensures Snapshot() == Step(old(Snapshot()), Event.Submit(payload), draw)
    {
      assert Views() == old(Views());
      queue := queue + [Request(|submitted|, payload)];
      submitted := submitted + [payload];
      assert Views() == old(Views());
    }

    /** The connection the sort puts first, and its bid. */
    method BestBid(payload: Payload) returns (best: int, bid: int)
      requires Valid()
      ensures best == Best(Views(), payload, |nodes|)
      ensures bid == BidOf(Views()[best], payload)
    {
      hide BidOf;
      ghost var views := Views();
      best := 0;
      bid := nodes[0].Bid(payload);
      for i := 1 to |nodes|
        invariant best == Best(views, payload, i)
        invariant bid == BidOf(views[best], payload)
      {
        var next := nodes[i].Bid(payload);
        if next > bid {
          best, bid := i, next;
        }
      }
    }

    /** Gives request `i` to connection `b` and takes it off the queue. */
    method Give(i: int, b: int, draw: int -> string)
      requires Valid() && 0 <= i < |queue| && 0 <= b < |nodes|
      modifies this, nodes[b]
      ensures Snapshot() == Send(old(Snapshot()), i, b, draw)
    {
      var request := queue[i];
      ghost var sent := Sent(request, b, Views());
      nodes[b].Do(request.payload, draw(request.id));
      log := log + [sent];
      flights := if request.payload.Command? then flights + [sent] else flights;
      queue := queue[..i] + queue[i + 1..];
      assert Views() == old(Views())[b := AfterDo(old(Views())[b], request.payload, draw(request.id))];
    }

    method WorkQueue(draw: int -> string)
      requires Valid()
      modifies this, nodes
      ensures Snapshot() == Step(old(Snapshot()), Event.WorkQueue, draw)
    {
      var i := 0;
      while i < |queue|
        invariant 0 <= i <= |queue|
        invariant Pass(Snapshot(), i, draw) == Pass(old(Snapshot()), 0, draw)
        decreases |queue| - i
      {
        var best, bid := BestBid(queue[i].payload);
        if bid <= 0 {
          i := i + 1;
        } else {
          Give(i, best, draw);
        }
      }
    }
  }
}
