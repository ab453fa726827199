/** What every run of the service keeps: job accounting, where saved results come from, and their difficulty. */
module ServiceSafety {
  import opened Arithmetic
  import opened Bytes
  import opened Minipow
  import opened Protocol
  import opened Work
  import opened WorkerSide
  import opened RequesterSide
  import opened Service
  import Results
  import Submits

  ghost predicate NodeInv(H: seq<Byte> -> Digest, n: Node) {
    Ready(n) && BookInv(H, n.book) && DeskInv(H, n.desk) && HonestSaves(H, n.desk)
  }

  /** Any node may follow from any earlier one like this. */
  ghost predicate NodeFollows(n: Node, m: Node) {
    && Follows(n.book, m.book)
    && n.desk.submitted <= m.desk.submitted
    && n.desk.saves <= m.desk.saves
  }

  /** What an honest packet promises about the node that started its chain. */
  ghost predicate Promise(H: seq<Byte> -> Digest, nodes: map<Peer, Node>, p: Packet) {
    p.honest ==>
      && (p.msg.RequestMsg? ==> p.src in nodes && p.msg.request in nodes[p.src].desk.submitted)
      && (p.msg.ResultMsg? && p.dst in nodes ==> SolvesOwn(H, nodes[p.dst].desk.submitted, p.msg.result))
  }

  ghost predicate Delivered(n: Node, net: set<Packet>) {
    forall t :: 0 <= t < |n.book.tickets| ==> n.book.tickets[t].p in net
  }

  ghost predicate Inv(H: seq<Byte> -> Digest, s: System) {
    && (forall x :: x in s.nodes ==> NodeInv(H, s.nodes[x]) && Delivered(s.nodes[x], s.net))
    && (forall p :: p in s.net ==> Promise(H, s.nodes, p))
  }

  // ----- one node, one action -----

  lemma ApplyBook(H: seq<Byte> -> Digest, me: Peer, n: Node, net: set<Packet>, a: Action)
    requires NodeInv(H, n) && Enabled(H, me, n, net, a)
    ensures var m := Apply(H, me, n, net, a); BookInv(H, m.book) && Follows(n.book, m.book)
    ensures !(a.Deliver? && a.p.msg.RequestMsg?) ==>
              |Apply(H, me, n, net, a).book.tickets| == |n.book.tickets|
  {
    BookAfterIs(H, me, n, net, a);
    match a
    case Deliver(p) =>
      if p.msg.RequestMsg? {
        AdmitInv(H, n.book, p, Results.Full(n.results), n.maxDifficulty);
      } else {
        FollowsItself(n.book);
      }
    case JobFound(t, k, expires) => FindInv(H, n.book, t, k);
    case JobReleases(t) => ReleaseInv(H, n.book, t);
    case JobGivesUp(t) => GiveUpInv(H, n.book, t);
    case SendAnswer(t, _) => ReplyInv(H, n.book, t);
    case _ => FollowsItself(n.book);
  }

  lemma FollowsItself(b: Book)
    ensures Follows(b, b)
  {
  }

  /** The worker's part of an action. */
  function BookAfter(H: seq<Byte> -> Digest, n: Node, a: Action): Book {
    match a
    case Deliver(p) =>
      if p.msg.RequestMsg? then Admit(n.book, p, Results.Full(n.results), n.maxDifficulty) else n.book
    case JobFound(t, k, _) => if Hunting(n.book, t) then Find(H, n.book, t, k) else n.book
    case JobReleases(t) => if Holding(n.book, t) then Release(n.book, t) else n.book
    case JobGivesUp(t) => if Hunting(n.book, t) then GiveUp(n.book, t) else n.book
    case SendAnswer(t, _) => if Waiting(n.book, t) then Reply(n.book, t) else n.book
    case _ => n.book
  }

  lemma BookAfterIs(H: seq<Byte> -> Digest, me: Peer, n: Node, net: set<Packet>, a: Action)
    requires Ready(n) && Enabled(H, me, n, net, a)
    ensures Apply(H, me, n, net, a).book == BookAfter(H, n, a)
  {
  }

  lemma ApplyDesk(H: seq<Byte> -> Digest, me: Peer, n: Node, net: set<Packet>, a: Action)
    requires NodeInv(H, n) && Enabled(H, me, n, net, a)
    requires a.Deliver? ==> a.p.honest && a.p.msg.ResultMsg? ==> SolvesOwn(H, n.desk.submitted, a.p.msg.result)
    ensures var m := Apply(H, me, n, net, a);
            && DeskInv(H, m.desk) && HonestSaves(H, m.desk)
            && n.desk.submitted <= m.desk.submitted && n.desk.saves <= m.desk.saves
  {
    var m := Apply(H, me, n, net, a);
    match a
    case Submit(data, d, choice) => SubmitInv(H, n.desk, data, d, choice); HonestSavesGrow(H, n.desk, m.desk);
    case SendRequest(i, ok) => SendInv(H, n.desk, i, ok); HonestSavesGrow(H, n.desk, m.desk);
    case PutRequest(i) => PutInv(H, n.desk, i); HonestSavesGrow(H, n.desk, m.desk);
    case Deliver(p) =>
      if p.msg.ResultMsg? {
        ReceiveInv(H, n.desk, p.msg.result, p.honest);
        ReceiveHonest(H, n.desk, p.msg.result, p.honest);
      }
    case _ =>
  }

  lemma ApplyDelivered(H: seq<Byte> -> Digest, me: Peer, n: Node, net: set<Packet>, a: Action)
    requires NodeInv(H, n) && Delivered(n, net) && Enabled(H, me, n, net, a)
    ensures Delivered(Apply(H, me, n, net, a), net)
  {
    BookAfterIs(H, me, n, net, a);
    var tickets := BookAfter(H, n, a).tickets;
    forall t | 0 <= t < |tickets|
      ensures tickets[t].p in net
    {
      if t < |n.book.tickets| {
        assert tickets[t].p == n.book.tickets[t].p;
      }
    }
  }

  lemma DeliveredGrows(n: Node, net: set<Packet>, more: set<Packet>)
    requires Delivered(n, net) && net <= more
    ensures Delivered(n, more)
  {
  }

  // ----- the whole system -----

  lemma InitInv(H: seq<Byte> -> Digest, s: System)
    requires Init(s)
    ensures Inv(H, s) && AllReady(s)
  {
    forall x | x in s.nodes
      ensures NodeInv(H, s.nodes[x])
    {
      Results.EmptyIsCoherent(|s.nodes[x].results.entries|);
    }
  }

  lemma PromiseGrows(H: seq<Byte> -> Digest, nodes: map<Peer, Node>, me: Peer, m: Node, p: Packet)
    requires me in nodes && nodes[me].desk.submitted <= m.desk.submitted && Promise(H, nodes, p)
    ensures Promise(H, nodes[me := m], p)
  {
    if p.honest && p.msg.ResultMsg? && p.dst == me {
      SolvesOwnGrows(H, nodes[me].desk.submitted, m.desk.submitted, p.msg.result);
    }
  }

  /** The packets of an action keep the promise of their chain. */
  lemma OutputPromise(H: seq<Byte> -> Digest, s: System, me: Peer, a: Action, p: Packet)
    requires Inv(H, s) && me in s.nodes && Enabled(H, me, s.nodes[me], s.net, a)
    requires p in Output(H, me, s.nodes[me], s.net, a)
    ensures Promise(H, s.nodes, p)
  {
    var n := s.nodes[me];
    match a
    case SendRequest(i, ok) =>
    case SendAnswer(t, ok) =>
      var ticket := n.book.tickets[t];
      assert RightTicket(H, ticket) && ticket.p in s.net;
      assert Promise(H, s.nodes, ticket.p);
    case _ =>
  }

  lemma FollowsSelf(n: Node)
    ensures NodeFollows(n, n)
  {
  }

  lemma NodeFollowsTrans(n: Node, m: Node, o: Node)
    requires NodeFollows(n, m) && NodeFollows(m, o)
    ensures NodeFollows(n, o)
  {
    FollowsTrans(n.book, m.book, o.book);
  }

  lemma ForgeInv(H: seq<Byte> -> Digest, s: System, p: Packet)
    requires Inv(H, s) && AllReady(s)
    ensures Inv(H, NextSystem(H, s, Forge(p)))
  {
    var t := NextSystem(H, s, Forge(p));
    assert t.nodes == s.nodes;
    forall x | x in t.nodes
      ensures NodeInv(H, t.nodes[x]) && Delivered(t.nodes[x], t.net)
    {
      DeliveredGrows(s.nodes[x], s.net, t.net);
    }
  }

  lemma NextInv(H: seq<Byte> -> Digest, s: System, e: Event)
    requires Inv(H, s) && AllReady(s)
    ensures Inv(H, NextSystem(H, s, e))
  {
    if Happens(H, s, e) {
      match e
      case Forge(p) => ForgeInv(H, s, p);
      case At(me, a) => ActionInv(H, s, me, a);
    }
  }

  lemma NextFollows(H: seq<Byte> -> Digest, s: System, e: Event, x: Peer)
    requires Inv(H, s) && AllReady(s) && x in s.nodes
    ensures NodeFollows(s.nodes[x], NextSystem(H, s, e).nodes[x])
  {
    NextNode(H, s, e, x);
    if Happens(H, s, e) && e.At? && e.me == x {
      ActionNode(H, s, x, e.a);
    } else {
      FollowsSelf(s.nodes[x]);
    }
  }

  lemma ActionNode(H: seq<Byte> -> Digest, s: System, me: Peer, a: Action)
    requires Inv(H, s) && me in s.nodes && Enabled(H, me, s.nodes[me], s.net, a)
    ensures var m := Apply(H, me, s.nodes[me], s.net, a);
            NodeInv(H, m) && Delivered(m, s.net) && NodeFollows(s.nodes[me], m)
  {
    ApplyBook(H, me, s.nodes[me], s.net, a);
    if a.Deliver? {
      assert Promise(H, s.nodes, a.p);
    }
    ApplyDesk(H, me, s.nodes[me], s.net, a);
    ApplyDelivered(H, me, s.nodes[me], s.net, a);
  }

  lemma ActionPromises(H: seq<Byte> -> Digest, s: System, me: Peer, a: Action, p: Packet)
    requires Inv(H, s) && me in s.nodes && Enabled(H, me, s.nodes[me], s.net, a)
    requires p in s.net + Output(H, me, s.nodes[me], s.net, a)
    ensures Promise(H, s.nodes[me := Apply(H, me, s.nodes[me], s.net, a)], p)
  {
    ActionNode(H, s, me, a);
    if p !in s.net {
      OutputPromise(H, s, me, a, p);
    }
    PromiseGrows(H, s.nodes, me, Apply(H, me, s.nodes[me], s.net, a), p);
  }

  lemma ActionInv(H: seq<Byte> -> Digest, s: System, me: Peer, a: Action)
    requires Inv(H, s) && AllReady(s) && me in s.nodes && Enabled(H, me, s.nodes[me], s.net, a)
    ensures Inv(H, NextSystem(H, s, At(me, a)))
  {
    var t := NextSystem(H, s, At(me, a));
    assert t.net == s.net + Output(H, me, s.nodes[me], s.net, a);
    ActionNode(H, s, me, a);
    forall x | x in t.nodes
      ensures NodeInv(H, t.nodes[x]) && Delivered(t.nodes[x], t.net)
    {
      NextNode(H, s, At(me, a), x);
      DeliveredGrows(t.nodes[x], s.net, t.net);
    }
    forall p | p in t.net
      ensures Promise(H, t.nodes, p)
    {
      ActionPromises(H, s, me, a, p);
    }
  }

  lemma {:induction false} RunInv(H: seq<Byte> -> Digest, s: System, events: seq<Event>)
    requires Inv(H, s) && AllReady(s)
    ensures var t := RunSystem(H, s, events);
            Inv(H, t) && forall x :: x in s.nodes ==> NodeFollows(s.nodes[x], t.nodes[x])
    decreases |events|
  {
    if events != [] {
      NextInv(H, s, events[0]);
      var u := NextSystem(H, s, events[0]);
      RunInv(H, u, events[1..]);
      forall x | x in s.nodes
        ensures NodeFollows(s.nodes[x], RunSystem(H, s, events).nodes[x])
      {
        NextFollows(H, s, events[0], x);
        NodeFollowsTrans(s.nodes[x], u.nodes[x], RunSystem(H, u, events[1..]).nodes[x]);
      }
    }
  }

  // ----- the main results -----

  /** Some run leads here from a system in which nothing had happened. */
  ghost predicate Reachable(H: seq<Byte> -> Digest, t: System) {
    AllReady(t) && exists s, events :: Init(s) && AllReady(s) && t == RunSystem(H, s, events)
  }

  lemma ReachableInv(H: seq<Byte> -> Digest, t: System)
    requires Reachable(H, t)
    ensures Inv(H, t)
  {
    var s, events :| Init(s) && AllReady(s) && t == RunSystem(H, s, events);
    InitInv(H, s);
    RunInv(H, s, events);
  }

  /**
   * In every run, whatever the network forges: each save call carries an id, data and difficulty that this node
   * submitted together, and a hash equal to H(data ++ nonce).
   */
  lemma SavesAreOwnRequests(H: seq<Byte> -> Digest, t: System, x: Peer)
    requires Reachable(H, t) && x in t.nodes
    ensures var k := t.nodes[x].desk; forall i :: 0 <= i < |k.saves| ==> GoodSave(H, k.submitted, k.saves[i])
  {
    ReachableInv(H, t);
  }

  lemma ApplySaves(H: seq<Byte> -> Digest, me: Peer, n: Node, net: set<Packet>, a: Action)
    requires NodeInv(H, n) && Enabled(H, me, n, net, a)
    ensures SavesCached(H, n.desk, Apply(H, me, n, net, a).desk)
  {
    if a.Deliver? && a.p.msg.ResultMsg? {
      ReceiveSaves(H, n.desk, a.p.msg.result, a.p.honest);
    } else {
      assert Apply(H, me, n, net, a).desk.saves == n.desk.saves;
    }
  }

  lemma NextSaves(H: seq<Byte> -> Digest, s: System, e: Event, x: Peer)
    requires Inv(H, s) && AllReady(s) && x in s.nodes
    ensures SavesCached(H, s.nodes[x].desk, NextSystem(H, s, e).nodes[x].desk)
  {
    NextNode(H, s, e, x);
    if Happens(H, s, e) && e.At? && e.me == x {
      ApplySaves(H, x, s.nodes[x], s.net, e.a);
    }
  }

  /**
   * In every run, each event makes a node save at most once, and what is saved are the data and difficulty that are
   * cached under the id at that moment, with a hash that checks against them.
   */
  lemma SavesWhatIsCached(H: seq<Byte> -> Digest, t: System, e: Event, x: Peer)
    requires Reachable(H, t) && x in t.nodes
    ensures SavesCached(H, t.nodes[x].desk, NextSystem(H, t, e).nodes[x].desk)
  {
    ReachableInv(H, t);
    NextSaves(H, t, e, x);
  }

  // ----- the cache of a node is a queue of its own requests -----

  /** The cache stands for the accepted requests of the log, all of them submitted by this node. */
  ghost predicate LoggedBy(k: Desk, log: seq<Request>) {
    Submits.Represents(k.submits, log) && forall r :: r in log ==> r in k.submitted
  }

  ghost predicate QueueKept(n: Node) {
    exists log :: LoggedBy(n.desk, log)
  }

  /** Only a put changes the cache. */
  lemma ApplyCache(H: seq<Byte> -> Digest, me: Peer, n: Node, net: set<Packet>, a: Action)
    requires Ready(n) && Enabled(H, me, n, net, a)
    ensures var m := Apply(H, me, n, net, a);
            && n.desk.submitted <= m.desk.submitted
            && m.desk.submits == if a.PutRequest? then AfterPut(n.desk, a.i).submits else n.desk.submits
  {
  }

  lemma PutLogged(H: seq<Byte> -> Digest, k: Desk, i: nat, log: seq<Request>) returns (more: seq<Request>)
    requires DeskInv(H, k) && LoggedBy(k, log) && i in k.putting
    ensures LoggedBy(AfterPut(k, i), more)
  {
    var req := k.putting[i];
    Submits.OfferIsInsert(k.submits, log, req);
    more := if Submits.Insert(k.submits, req, req.id).1 then log + [req] else log;
  }

  lemma NextQueue(H: seq<Byte> -> Digest, s: System, e: Event, x: Peer)
    requires Inv(H, s) && AllReady(s) && x in s.nodes && QueueKept(s.nodes[x])
    ensures QueueKept(NextSystem(H, s, e).nodes[x])
  {
    NextNode(H, s, e, x);
    if Happens(H, s, e) && e.At? && e.me == x {
      var n := s.nodes[x];
      ApplyQueue(H, x, n, s.net, e.a);
    }
  }

  lemma ApplyQueue(H: seq<Byte> -> Digest, me: Peer, n: Node, net: set<Packet>, a: Action)
    requires NodeInv(H, n) && Enabled(H, me, n, net, a) && QueueKept(n)
    ensures QueueKept(Apply(H, me, n, net, a))
  {
    var log :| LoggedBy(n.desk, log);
    ApplyCache(H, me, n, net, a);
    if a.PutRequest? {
      log := PutLogged(H, n.desk, a.i, log);
    }
    assert LoggedBy(Apply(H, me, n, net, a).desk, log);
  }

  lemma {:induction false} RunQueue(H: seq<Byte> -> Digest, s: System, events: seq<Event>, x: Peer)
    requires Inv(H, s) && AllReady(s) && x in s.nodes && QueueKept(s.nodes[x])
    ensures QueueKept(RunSystem(H, s, events).nodes[x])
    decreases |events|
  {
    if events != [] {
      NextInv(H, s, events[0]);
      NextQueue(H, s, events[0], x);
      RunQueue(H, NextSystem(H, s, events[0]), events[1..], x);
    }
  }

  lemma NewIsQueue(n: Node)
    requires IsNew(n)
    ensures QueueKept(n)
  {
    Submits.EmptyRepresents(|n.desk.submits.entries|);
    assert LoggedBy(n.desk, []);
  }

  /**
   * In every run, a node's cache is the queue of the requests that it has submitted and that were accepted; and every
   * id it knows is that of a queued one.
   */
  lemma CacheIsQueue(H: seq<Byte> -> Digest, t: System, x: Peer) returns (log: seq<Request>)
    requires Reachable(H, t) && x in t.nodes
    ensures LoggedBy(t.nodes[x].desk, log)
    ensures var k := t.nodes[x].desk;
            forall id :: id in k.submits.idx ==>
              exists j: nat :: Submits.IsQueued(k.submits, log, j) && log[j] == k.submits.idx[id] && log[j].id == id
  {
    var s, events :| Init(s) && AllReady(s) && t == RunSystem(H, s, events);
    InitInv(H, s);
    NewIsQueue(s.nodes[x]);
    RunQueue(H, s, events, x);
    log :| LoggedBy(t.nodes[x].desk, log);
    var k := t.nodes[x].desk;
    forall id | id in k.submits.idx
      ensures exists j: nat :: Submits.IsQueued(k.submits, log, j) && log[j] == k.submits.idx[id] && log[j].id == id
    {
      var j := Submits.KnownIsQueued(k.submits, log, id);
    }
  }

  // ----- results that are delivered again, or made up -----

  /** Messages are handled, and `data` is cached under the id. */
  predicate KeepsCached(n: Node, id: ID, data: Slice) {
    !n.locked && !n.crashed && id in n.desk.submits.idx && Submits.DataOf(n.desk.submits, id) == data
  }

  /** A result that checks against the cached data is saved on its delivery, whoever sent it. */
  lemma DeliverySaves(H: seq<Byte> -> Digest, s: System, x: Peer, p: Packet, data: Slice)
    requires AllReady(s) && x in s.nodes && p in s.net && p.dst == x && p.msg.ResultMsg?
    requires KeepsCached(s.nodes[x], p.msg.result.id, data)
    requires CheckJob(H, p.msg.result.hash, data, p.msg.result.nonce)
    ensures var k, res := s.nodes[x].desk, p.msg.result;
            NextSystem(H, s, At(x, Deliver(p))).nodes[x].desk.saves ==
            k.saves + [Save(res.id, Submits.DifficultyOf(k.submits, res.id), data, res.nonce, res.hash, p.honest)]
  {
    NextNode(H, s, At(x, Deliver(p)), x);
  }

  /** A result for a cached id, with any nonce and the digest that goes with it. */
  function MadeUp(H: seq<Byte> -> Digest, x: Peer, src: Peer, id: ID, data: seq<Byte>, nonce: seq<Byte>): Packet {
    Packet(src, x, ResultMsg(Result(id, Slice(nonce), Slice(H(data + nonce)))), false)
  }

  /**
   * Why the guarantee below is about honest results only: in any state, for any id that x has cached and any nonce,
   * a forged result is saved with the cached difficulty, which it meets exactly if its digest happens to.
   */
  lemma ForgedResultIsSaved(H: seq<Byte> -> Digest, s: System, x: Peer, src: Peer, id: ID, data: seq<Byte>,
                            nonce: seq<Byte>)
    requires AllReady(s) && x in s.nodes && KeepsCached(s.nodes[x], id, Slice(data))
    ensures var k, t := s.nodes[x].desk, NextSystem(H, s, Forge(MadeUp(H, x, src, id, data, nonce)));
            var d, digest := Submits.DifficultyOf(k.submits, id), H(data + nonce);
            var v := Save(id, d, Slice(data), Slice(nonce), Slice(digest), false);
            && NextSystem(H, t, At(x, Deliver(MadeUp(H, x, src, id, data, nonce)))).nodes[x].desk.saves == k.saves + [v]
            && (MeetsDemand(v) <==> BigEndian(digest) % Pow2(RequiredBits(d)) == 0)
  {
    var p := MadeUp(H, x, src, id, data, nonce);
    var t := NextSystem(H, s, Forge(p));
    NextNode(H, s, Forge(p), x);
    assert p.(honest := false) == p && p in t.net;
    DeliverySaves(H, t, x, p, Slice(data));
    var d := Submits.DifficultyOf(s.nodes[x].desk.submits, id);
    DemandOf(Save(id, d, Slice(data), Slice(nonce), Slice(H(data + nonce)), false), H(data + nonce));
  }

  lemma DemandOf(v: Save, digest: Digest)
    requires v.hash == Slice(digest)
    ensures MeetsDemand(v) <==> BigEndian(digest) % Pow2(RequiredBits(v.difficulty)) == 0
  {
  }

  /** How many of the saves are of this result. */
  function Copies(saves: seq<Save>, res: Result): nat {
    if saves == [] then 0 else
      var v := saves[|saves| - 1];
      Copies(saves[..|saves| - 1], res) + if v.id == res.id && v.nonce == res.nonce && v.hash == res.hash then 1 else 0
  }

  lemma {:induction false} CopiesGrow(saves: seq<Save>, more: seq<Save>, res: Result)
    requires saves <= more
    ensures Copies(saves, res) <= Copies(more, res)
    decreases |more|
  {
    if |saves| == |more| {
      assert saves == more;
    } else {
      CopiesGrow(saves, more[..|more| - 1], res);
    }
  }

  /** The packet is delivered to x after each of the gaps, in which anything else may happen. */
  ghost function Redeliver(H: seq<Byte> -> Digest, s: System, gaps: seq<seq<Event>>, x: Peer, p: Packet): (t: System)
    requires AllReady(s)
    ensures AllReady(t) && t.nodes.Keys == s.nodes.Keys
    decreases |gaps|
  {
    if gaps == [] then s else
      Redeliver(H, NextSystem(H, RunSystem(H, s, gaps[0]), At(x, Deliver(p))), gaps[1..], x, p)
  }

  /** At each of these deliveries x handles messages and has `data` cached under the id. */
  ghost predicate CachedEachTime(
    H: seq<Byte> -> Digest, s: System, gaps: seq<seq<Event>>, x: Peer, p: Packet, id: ID, data: Slice)
    requires AllReady(s) && x in s.nodes
    decreases |gaps|
  {
    gaps == [] ||
    var u := RunSystem(H, s, gaps[0]);
    && KeepsCached(u.nodes[x], id, data)
    && CachedEachTime(H, NextSystem(H, u, At(x, Deliver(p))), gaps[1..], x, p, id, data)
  }

  /** A result that checks is saved as often as it is delivered, whatever happens in between. */
  lemma SavedAgain(H: seq<Byte> -> Digest, s: System, gaps: seq<seq<Event>>, x: Peer, p: Packet, data: Slice)
    requires Reachable(H, s) && x in s.nodes && p in s.net && p.dst == x && p.msg.ResultMsg?
    requires CheckJob(H, p.msg.result.hash, data, p.msg.result.nonce)
    requires CachedEachTime(H, s, gaps, x, p, p.msg.result.id, data)
    ensures Copies(Redeliver(H, s, gaps, x, p).nodes[x].desk.saves, p.msg.result) >=
            Copies(s.nodes[x].desk.saves, p.msg.result) + |gaps|
  {
    ReachableInv(H, s);
    SavedEachTime(H, s, gaps, x, p, data);
  }

  lemma {:induction false} SavedEachTime(
    H: seq<Byte> -> Digest, s: System, gaps: seq<seq<Event>>, x: Peer, p: Packet, data: Slice)
    requires Inv(H, s) && AllReady(s) && x in s.nodes && p in s.net && p.dst == x && p.msg.ResultMsg?
    requires CheckJob(H, p.msg.result.hash, data, p.msg.result.nonce)
    requires CachedEachTime(H, s, gaps, x, p, p.msg.result.id, data)
    ensures Copies(Redeliver(H, s, gaps, x, p).nodes[x].desk.saves, p.msg.result) >=
            Copies(s.nodes[x].desk.saves, p.msg.result) + |gaps|
    decreases |gaps|
  {
    if gaps != [] {
      var u := RunSystem(H, s, gaps[0]);
      RunInv(H, s, gaps[0]);
      CopiesGrow(s.nodes[x].desk.saves, u.nodes[x].desk.saves, p.msg.result);
      var t := NextSystem(H, u, At(x, Deliver(p)));
      DeliveryCopies(H, u, x, p, data);
      NextInv(H, u, At(x, Deliver(p)));
      SavedEachTime(H, t, gaps[1..], x, p, data);
    }
  }

  lemma DeliveryCopies(H: seq<Byte> -> Digest, s: System, x: Peer, p: Packet, data: Slice)
    requires AllReady(s) && x in s.nodes && p in s.net && p.dst == x && p.msg.ResultMsg?
    requires KeepsCached(s.nodes[x], p.msg.result.id, data)
    requires CheckJob(H, p.msg.result.hash, data, p.msg.result.nonce)
    ensures Copies(NextSystem(H, s, At(x, Deliver(p))).nodes[x].desk.saves, p.msg.result) ==
            Copies(s.nodes[x].desk.saves, p.msg.result) + 1
  {
    DeliverySaves(H, s, x, p, data);
    var saves, now := s.nodes[x].desk.saves, NextSystem(H, s, At(x, Deliver(p))).nodes[x].desk.saves;
    assert now[..|now| - 1] == saves;
  }

  // ----- what a saved difficulty is worth -----

  /** Requests of this node that share an id ask for equally many zero bits. */
  ghost predicate EqualDemand(k: Desk) {
    forall r, q :: r in k.submitted && q in k.submitted && r.id == q.id ==>
      RequiredBits(r.difficulty) == RequiredBits(q.difficulty)
  }

  /**
   * In every run, if requests that share an id ask for equally many bits (in particular if no id is used twice), a
   * saved result that came down an honest chain has a hash divisible by the power of two that the saved difficulty
   * asks for.
   */
  lemma SavedDifficultyIsMet(H: seq<Byte> -> Digest, t: System, x: Peer)
    requires Reachable(H, t) && x in t.nodes
    ensures var k := t.nodes[x].desk;
            EqualDemand(k) ==> forall i :: 0 <= i < |k.saves| && k.saves[i].honest ==> MeetsDemand(k.saves[i])
  {
    ReachableInv(H, t);
    var k := t.nodes[x].desk;
    if EqualDemand(k) {
      forall i | 0 <= i < |k.saves| && k.saves[i].honest
        ensures MeetsDemand(k.saves[i])
      {
        HonestSaveMeets(H, k, i);
      }
    }
  }

  /** The saved hash is a digest divisible by 2^min(difficulty,152), and by 2^8 for difficulty 0. */
  ghost predicate MeetsDemand(v: Save) {
    && v.hash.Slice? && |v.hash.bytes| == HASH_SIZE
    && BigEndian(v.hash.bytes) % Pow2(if v.difficulty == 0 then 8 else Min(v.difficulty, 152)) == 0
  }

  lemma HonestSaveMeets(H: seq<Byte> -> Digest, k: Desk, i: nat)
    requires DeskInv(H, k) && HonestSaves(H, k) && EqualDemand(k) && i < |k.saves| && k.saves[i].honest
    ensures MeetsDemand(k.saves[i])
  {
    var v := k.saves[i];
    var r :| r in k.submitted && Solved(H, r, Result(v.id, v.nonce, v.hash));
    assert GoodSave(H, k.submitted, v);
    assert RequiredBits(Request(v.id, v.data, v.difficulty).difficulty) == RequiredBits(r.difficulty);
    JudgeMeaning(r.difficulty, v.hash.bytes);
  }

  /**
   * Job accounting in every run: the counter is the number of running jobs plus the number given up, and stays
   * within the limit; every request handled is running, about to be answered, or answered exactly once; and an
   * answer is Busy, AreYouKidding or Gaveup for that request, or a result that solves it.
   */
  lemma JobsAreAccounted(H: seq<Byte> -> Digest, t: System, x: Peer)
    requires Reachable(H, t) && x in t.nodes
    ensures var b := t.nodes[x].book;
            && b.currentJobs == Running(b.tickets) + GivenUp(b.tickets)
            && Running(b.tickets) <= b.currentJobs
            && (b.maxJobs >= 0 ==> b.currentJobs <= b.maxJobs)
            && (forall i, j :: 0 <= i < j < |b.answers| ==> b.answers[i].0 != b.answers[j].0)
            && (forall i :: 0 <= i < |b.answers| ==>
                  b.answers[i].0 < |b.tickets| && RightAnswer(H, Asked(b, b.answers[i].0), b.answers[i].1))
            && (forall u :: 0 <= u < |b.tickets| ==>
                  (Answered(b, u) <==> !IsRunning(b.tickets[u].fate) && !b.tickets[u].fate.Pending?))
  {
    ReachableInv(H, t);
    AnswersOnce(H, t.nodes[x].book);
  }

  /** From any reached state on, in every run: tickets stay, decided answers never change, nothing is un-sent. */
  lemma AnswersAreFinal(H: seq<Byte> -> Digest, t: System, more: seq<Event>, x: Peer)
    requires Reachable(H, t) && x in t.nodes
    ensures NodeFollows(t.nodes[x], RunSystem(H, t, more).nodes[x])
  {
    ReachableInv(H, t);
    RunInv(H, t, more);
  }

  lemma ApplyExhausted(H: seq<Byte> -> Digest, me: Peer, n: Node, net: set<Packet>, a: Action, from: nat)
    requires NodeInv(H, n) && Enabled(H, me, n, net, a) && Exhausted(n.book, from)
    ensures Exhausted(Apply(H, me, n, net, a).book, from)
  {
    ApplyBook(H, me, n, net, a);
    if a.Deliver? && a.p.msg.RequestMsg? {
      AdmitExhausted(n.book, a.p, Results.Full(n.results), n.maxDifficulty, from);
    } else {
      FollowsExhausted(n.book, Apply(H, me, n, net, a).book, from);
    }
  }

  lemma NextExhausted(H: seq<Byte> -> Digest, s: System, e: Event, x: Peer, from: nat)
    requires Inv(H, s) && AllReady(s) && x in s.nodes && Exhausted(s.nodes[x].book, from)
    ensures Exhausted(NextSystem(H, s, e).nodes[x].book, from)
  {
    NextNode(H, s, e, x);
    if Happens(H, s, e) && e.At? && e.me == x {
      ApplyExhausted(H, x, s.nodes[x], s.net, e.a, from);
    }
  }

  lemma {:induction false} RunExhausted(H: seq<Byte> -> Digest, s: System, events: seq<Event>, x: Peer, from: nat)
    requires Inv(H, s) && AllReady(s) && x in s.nodes && Exhausted(s.nodes[x].book, from)
    ensures Exhausted(RunSystem(H, s, events).nodes[x].book, from)
    decreases |events|
  {
    if events != [] {
      NextInv(H, s, events[0]);
      NextExhausted(H, s, events[0], x, from);
      RunExhausted(H, NextSystem(H, s, events[0]), events[1..], x, from);
    }
  }

  /** Once maxJobs jobs have been given up, every later request is refused as busy, in every run. */
  lemma ExhaustedForever(H: seq<Byte> -> Digest, t: System, more: seq<Event>, x: Peer)
    requires Reachable(H, t) && x in t.nodes
    ensures var b := t.nodes[x].book;
            GivenUp(b.tickets) >= b.maxJobs ==> Exhausted(RunSystem(H, t, more).nodes[x].book, |b.tickets|)
  {
    ReachableInv(H, t);
    if GivenUp(t.nodes[x].book.tickets) >= t.nodes[x].book.maxJobs {
      RunExhausted(H, t, more, x, |t.nodes[x].book.tickets|);
    }
  }

  /** Submitting for a difficulty that no known worker offers leaves the lock held, and nothing else does. */
  lemma LockedBySubmit(H: seq<Byte> -> Digest, me: Peer, n: Node, net: set<Packet>, a: Action)
    requires Ready(n) && Enabled(H, me, n, net, a) && !n.locked
    ensures Apply(H, me, n, net, a).locked <==> a.Submit? && forall p :: p in n.workers ==> n.workers[p] < a.difficulty
  {
  }

  /** What the lock guards. */
  datatype Guarded = Guarded(maxDifficulty: Uint8, workers: map<Peer, Uint8>, currentJobs: int, received: nat,
                             submitted: set<Request>, saves: seq<Save>)

  function GuardedState(n: Node): Guarded {
    Guarded(n.maxDifficulty, n.workers, n.book.currentJobs, |n.book.tickets|, n.desk.submitted, n.desk.saves)
  }

  lemma ApplyLocked(H: seq<Byte> -> Digest, me: Peer, n: Node, net: set<Packet>, a: Action)
    requires Ready(n) && Enabled(H, me, n, net, a) && n.locked
    ensures var m := Apply(H, me, n, net, a); m.locked && GuardedState(m) == GuardedState(n)
  {
  }

  /** A node whose lock was left held never again handles a message, submits, saves or uncounts a job. */
  lemma {:induction false} LockedForever(H: seq<Byte> -> Digest, s: System, events: seq<Event>, x: Peer)
    requires AllReady(s) && x in s.nodes && s.nodes[x].locked
    ensures var n := RunSystem(H, s, events).nodes[x]; n.locked && GuardedState(n) == GuardedState(s.nodes[x])
    decreases |events|
  {
    if events != [] {
      var e := events[0];
      if Happens(H, s, e) && e.At? && e.me == x {
        ApplyLocked(H, x, s.nodes[x], s.net, e.a);
      }
      LockedForever(H, NextSystem(H, s, e), events[1..], x);
    }
  }
}
