/**
 * The hashing-job service of service.go: every node is a requester and, if its difficulty is set, a worker.
 * Nodes run their handlers atomically; the network may delay, repeat, reorder, drop and forge messages.
 */
module Service {
  import opened Bytes
  import opened Minipow
  import opened Protocol
  import opened Work
  import opened WorkerSide
  import opened RequesterSide
  import Results
  import Submits

  /** `locked`: the service lock was left held. `crashed`: an index panic in a search ended the process. */
  datatype Node = Node(
    maxDifficulty: Uint8,
    workers: map<Peer, Uint8>,
    results: Results.Store,
    book: Book,
    desk: Desk,
    locked: bool,
    crashed: bool)

  datatype Action =
    | Submit(data: Slice, difficulty: Uint8, choice: Peer)
    | SendRequest(i: nat, ok: bool)
    | PutRequest(i: nat)
    | Deliver(p: Packet)
    | JobFound(t: nat, k: nat, expires: int)
    | JobReleases(t: nat)
    | JobGivesUp(t: nat)
    | JobPanics(t: nat, k: nat)
    | SendAnswer(t: nat, ok: bool)
    | Announce(peer: Peer)
    | SetDifficulty(d: Uint8)
    | PruneResults(order: seq<ID>, now: ID -> int)

  predicate Ready(n: Node) {
    Results.Safe(n.results) && Submits.Sound(n.desk.submits)
  }

  predicate IsWorker(n: Node) {
    n.maxDifficulty > 0
  }

  predicate Fits(n: Node, p: Peer, difficulty: Uint8) {
    p in n.workers && n.workers[p] >= difficulty
  }

  predicate SomeWorkerFits(n: Node, difficulty: Uint8) {
    exists p :: p in n.workers && Fits(n, p, difficulty)
  }

  // ----- the handlers -----

  /** With no worker of sufficient difficulty the lock is taken and not released. */
  function SubmitRequest(H: seq<Byte> -> Digest, n: Node, data: Slice, difficulty: Uint8, choice: Peer): Node {
    if SomeWorkerFits(n, difficulty) then n.(desk := SubmitTo(H, n.desk, data, difficulty, choice))
    else n.(locked := true)
  }

  function HandleSkills(n: Node, difficulty: Uint8, peer: Peer): Node {
    n.(workers := n.workers[peer := difficulty])
  }

  function HandleStatus(n: Node, id: ID, code: Code): (m: Node)
    requires Ready(n)
    ensures Ready(m)
  {
    if code == ThanksABunch && IsWorker(n) then
      Results.RemoveSafe(n.results, id, false);
      n.(results := Results.Remove(n.results, id, false))
    else n
  }

  function HandleRequest(n: Node, p: Packet): Node {
    n.(book := Admit(n.book, p, Results.Full(n.results), n.maxDifficulty))
  }

  function HandleResult(H: seq<Byte> -> Digest, n: Node, res: Result, honest: bool): Node {
    n.(desk := Receive(H, n.desk, res, honest))
  }

  function Handle(H: seq<Byte> -> Digest, n: Node, p: Packet): (m: Node)
    requires Ready(n)
    ensures Ready(m)
  {
    match p.msg
    case SkillsMsg(d) => HandleSkills(n, d, p.src)
    case StatusMsg(id, code) => HandleStatus(n, id, code)
    case RequestMsg(_) => HandleRequest(n, p)
    case ResultMsg(res) => HandleResult(H, n, res, p.honest)
  }

  /** What a handler sends at once: the thanks for an accepted result. */
  function Thanks(H: seq<Byte> -> Digest, me: Peer, n: Node, p: Packet): set<Packet> {
    if p.msg.ResultMsg? && Accepts(H, n.desk, p.msg.result) then
      {Packet(me, p.src, StatusMsg(p.msg.result.id, ThanksABunch), p.honest)}
    else {}
  }

  // ----- one node's actions -----

  /** A found result is stored if there is room; the return value of the store is not looked at. */
  function StoreFound(H: seq<Byte> -> Digest, n: Node, t: nat, k: nat, expires: int): (m: Node)
    requires Ready(n) && Hunting(n.book, t)
    ensures Ready(m)
  {
    var res := ResultAfter(H, Asked(n.book, t), k);
    Results.PutSafe(n.results, res.id, Results.Entry(res, res.id, expires));
    n.(results := Results.PutEntry(n.results, res.id, Results.Entry(res, res.id, expires)),
       book := Find(H, n.book, t, k))
  }

  ghost predicate Enabled(H: seq<Byte> -> Digest, me: Peer, n: Node, net: set<Packet>, a: Action) {
    && !n.crashed
    && match a {
         case Submit(_, d, choice) => !n.locked && (SomeWorkerFits(n, d) ==> Fits(n, choice, d))
         case SendRequest(i, _) => i in n.desk.sending
         case PutRequest(i) => i in n.desk.putting
         case Deliver(p) => !n.locked && p in net && p.dst == me
         case JobFound(t, k, _) =>
           Hunting(n.book, t) && Solves(H, Asked(n.book, t).data.Content(), Asked(n.book, t).difficulty, k)
         case JobReleases(t) => !n.locked && Holding(n.book, t)
         case JobGivesUp(t) => Hunting(n.book, t)
         case JobPanics(t, k) =>
           Hunting(n.book, t) && Panics(H, Asked(n.book, t).data.Content(), Asked(n.book, t).difficulty, k)
         case SendAnswer(t, _) => Waiting(n.book, t)
         case Announce(_) => !n.locked
         case SetDifficulty(_) => !n.locked
         case PruneResults(order, _) => Results.Safe(n.results) && Results.SweepOrder(n.results, order)
       }
  }

  /** The node after an enabled action. */
  ghost function Apply(H: seq<Byte> -> Digest, me: Peer, n: Node, net: set<Packet>, a: Action): (m: Node)
    requires Ready(n) && Enabled(H, me, n, net, a)
    ensures Ready(m)
  {
    match a
    case Submit(data, d, choice) => SubmitRequest(H, n, data, d, choice)
    case SendRequest(i, ok) => n.(desk := AfterSend(n.desk, i, ok))
    case PutRequest(i) => n.(desk := AfterPut(n.desk, i))
    case Deliver(p) => Handle(H, n, p)
    case JobFound(t, k, expires) => StoreFound(H, n, t, k, expires)
    case JobReleases(t) => n.(book := Release(n.book, t))
    case JobGivesUp(t) => n.(book := GiveUp(n.book, t))
    case JobPanics(_, _) => n.(crashed := true)
    case SendAnswer(t, _) => n.(book := Reply(n.book, t))
    case Announce(_) => n
    case SetDifficulty(d) => n.(maxDifficulty := d)
    case PruneResults(order, now) => n.(results := Results.Sweep(n.results, order, now, false).0)
  }

  /** The packets an enabled action hands to the network; a failed send is dropped. */
  ghost function Output(H: seq<Byte> -> Digest, me: Peer, n: Node, net: set<Packet>, a: Action): set<Packet>
    requires Enabled(H, me, n, net, a)
  {
    match a
    case SendRequest(i, ok) =>
      if ok then {Packet(me, n.desk.sending[i].1, RequestMsg(n.desk.sending[i].0), true)} else {}
    case Deliver(p) => Thanks(H, me, n, p)
    case SendAnswer(t, ok) =>
      var ticket := n.book.tickets[t];
      if ok then {Packet(me, ticket.p.src, ticket.fate.msg, ticket.p.honest)} else {}
    case Announce(peer) => {Packet(me, peer, SkillsMsg(n.maxDifficulty), true)}
    case _ => {}
  }

  // ----- the system -----

  datatype System = System(nodes: map<Peer, Node>, net: set<Packet>)

  datatype Event = At(me: Peer, a: Action) | Forge(p: Packet)

  ghost predicate AllReady(s: System) {
    forall x :: x in s.nodes ==> Ready(s.nodes[x])
  }

  ghost predicate Happens(H: seq<Byte> -> Digest, s: System, e: Event) {
    e.Forge? || (e.me in s.nodes && Enabled(H, e.me, s.nodes[e.me], s.net, e.a))
  }

  /** An event that is not enabled changes nothing. A forged packet can name any source and carry anything. */
  ghost function NextSystem(H: seq<Byte> -> Digest, s: System, e: Event): (t: System)
    requires AllReady(s)
    ensures AllReady(t) && t.nodes.Keys == s.nodes.Keys && s.net <= t.net
  {
    if !Happens(H, s, e) then s else
      match e
      case Forge(p) => s.(net := s.net + {p.(honest := false)})
      case At(me, a) =>
        System(s.nodes[me := Apply(H, me, s.nodes[me], s.net, a)], s.net + Output(H, me, s.nodes[me], s.net, a))
  }

  lemma NextNode(H: seq<Byte> -> Digest, s: System, e: Event, x: Peer)
    requires AllReady(s) && x in s.nodes
    ensures NextSystem(H, s, e).nodes[x] ==
            if Happens(H, s, e) && e.At? && e.me == x then Apply(H, x, s.nodes[x], s.net, e.a) else s.nodes[x]
  {
  }

  ghost function RunSystem(H: seq<Byte> -> Digest, s: System, events: seq<Event>): (t: System)
    requires AllReady(s)
    ensures AllReady(t) && t.nodes.Keys == s.nodes.Keys && s.net <= t.net
    decreases |events|
  {
    if events == [] then s else RunSystem(H, NextSystem(H, s, events[0]), events[1..])
  }

  function NewNode(maxJobs: int, maxDifficulty: Uint8, submitCapacity: nat, resultCapacity: nat): Node {
    Node(maxDifficulty, map[], Results.Empty(resultCapacity), Book(maxJobs, 0, [], []),
         Desk(Submits.Empty(submitCapacity), 0, 0, map[], map[], {}, []), false, false)
  }

  predicate IsNew(n: Node) {
    && Submits.Sound(n.desk.submits)
    && n == NewNode(n.book.maxJobs, n.maxDifficulty, |n.desk.submits.entries|, |n.results.entries|)
  }

  /** Nothing has happened yet; every node has its own parameters. */
  ghost predicate Init(s: System) {
    s.net == {} && forall x :: x in s.nodes ==> IsNew(s.nodes[x])
  }
}
