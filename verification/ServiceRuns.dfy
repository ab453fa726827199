/** Runs in which an id is used twice: why the difficulty guarantee asks for equal demands. */
module ServiceRuns {
  import opened Arithmetic
  import opened Bytes
  import opened Minipow
  import opened Protocol
  import opened Work
  import opened WorkerSide
  import opened RequesterSide
  import opened Service
  import opened ServiceSafety
  import Results
  import Submits

  /** Node 0 requests, node 1 works: one job at a time, of any difficulty. */
  ghost function Pair(): (s: System)
    ensures Init(s) && AllReady(s)
  {
    var requester, worker := NewNode(0, 0, Submits.DEFAULT_CAPACITY, Results.DEFAULT_CAPACITY),
                             NewNode(1, 255, Submits.DEFAULT_CAPACITY, Results.DEFAULT_CAPACITY);
    assert Ready(requester) && Ready(worker) by {
      Results.EmptyIsCoherent(Results.DEFAULT_CAPACITY);
    }
    System(map[0 := requester, 1 := worker], {})
  }

  ghost predicate Reached(H: seq<Byte> -> Digest, s: System) {
    ReachedFrom(H, Pair(), s)
  }

  ghost predicate ReachedFrom(H: seq<Byte> -> Digest, start: System, s: System)
    requires AllReady(start)
  {
    exists events :: s == RunSystem(H, start, events)
  }

  lemma ReachedFromNext(H: seq<Byte> -> Digest, start: System, s: System, e: Event)
    requires AllReady(start) && ReachedFrom(H, start, s) && AllReady(s)
    ensures ReachedFrom(H, start, NextSystem(H, s, e))
  {
    var events :| s == RunSystem(H, start, events);
    RunSnoc(H, start, events, e);
    Reaches(H, start, NextSystem(H, s, e), events + [e]);
  }

  lemma Reaches(H: seq<Byte> -> Digest, start: System, s: System, events: seq<Event>)
    requires AllReady(start) && s == RunSystem(H, start, events)
    ensures ReachedFrom(H, start, s)
  {
  }

  lemma {:induction false} RunSnoc(H: seq<Byte> -> Digest, s: System, events: seq<Event>, e: Event)
    requires AllReady(s)
    ensures RunSystem(H, s, events + [e]) == NextSystem(H, RunSystem(H, s, events), e)
    decreases |events|
  {
    if events == [] {
      assert RunSystem(H, NextSystem(H, s, e), []) == NextSystem(H, s, e);
    } else {
      assert (events + [e])[1..] == events[1..] + [e];
      RunSnoc(H, NextSystem(H, s, events[0]), events[1..], e);
    }
  }

  lemma ReachedNext(H: seq<Byte> -> Digest, s: System, e: Event)
    requires Reached(H, s) && AllReady(s)
    ensures Reached(H, NextSystem(H, s, e))
  {
    ReachedFromNext(H, Pair(), s, e);
  }

  /** One enabled action of one node. */
  lemma Act(H: seq<Byte> -> Digest, s: System, me: Peer, a: Action) returns (t: System)
    requires Reached(H, s) && AllReady(s) && me in s.nodes && Enabled(H, me, s.nodes[me], s.net, a)
    ensures Reached(H, t) && AllReady(t)
    ensures t.nodes == s.nodes[me := Apply(H, me, s.nodes[me], s.net, a)]
    ensures t.net == s.net + Output(H, me, s.nodes[me], s.net, a)
  {
    t := NextSystem(H, s, At(me, a));
    ReachedNext(H, s, At(me, a));
  }

  lemma ApplyDeliver(H: seq<Byte> -> Digest, me: Peer, n: Node, net: set<Packet>, p: Packet)
    requires Ready(n) && Enabled(H, me, n, net, Deliver(p))
    ensures p.msg.ResultMsg? ==>
              Apply(H, me, n, net, Deliver(p)) == n.(desk := Receive(H, n.desk, p.msg.result, p.honest))
    ensures p.msg.SkillsMsg? ==>
              Apply(H, me, n, net, Deliver(p)) == n.(workers := n.workers[p.src := p.msg.difficulty])
    ensures p.msg.RequestMsg? ==>
              Apply(H, me, n, net, Deliver(p)) ==
              n.(book := Admit(n.book, p, Results.Full(n.results), n.maxDifficulty))
  {
  }

  /** Node 0 knows the worker and has nothing in its way. */
  ghost predicate Able(s: System) {
    && AllReady(s) && s.nodes.Keys == {0, 1}
    && s.nodes[0].workers == map[1 := 255]
    && !s.nodes[0].locked && !s.nodes[0].crashed
  }

  /** Node 0 has changed its desk only, and node 1 nothing. */
  ghost predicate DeskOnly(s: System, t: System, k: Desk)
    requires s.nodes.Keys == {0, 1}
  {
    Able(t) && t.nodes[0].desk == k && t.nodes[1] == s.nodes[1]
  }

  /** The worker announces itself. */
  lemma Meet(H: seq<Byte> -> Digest) returns (s: System)
    ensures Reached(H, s) && DeskOnly(Pair(), s, Pair().nodes[0].desk)
  {
    assert Pair() == RunSystem(H, Pair(), []);
    s := Act(H, Pair(), 1, Announce(0));
    s := MeetBack(H, s, Packet(1, 0, SkillsMsg(255), true));
  }

  lemma MeetBack(H: seq<Byte> -> Digest, s: System, p: Packet) returns (t: System)
    requires Reached(H, s) && AllReady(s) && s.nodes == Pair().nodes
    requires p in s.net && p == Packet(1, 0, SkillsMsg(255), true)
    ensures Reached(H, t) && DeskOnly(s, t, s.nodes[0].desk)
  {
    ApplyDeliver(H, 0, s.nodes[0], s.net, p);
    t := Act(H, s, 0, Deliver(p));
    var n := s.nodes[0].(workers := map[1 := 255]);
    assert t.nodes[0] == n && t.nodes[1] == s.nodes[1];
  }

  lemma DoSubmit(H: seq<Byte> -> Digest, s: System, raw: seq<Byte>, difficulty: Uint8) returns (t: System)
    requires Reached(H, s) && Able(s)
    ensures Reached(H, t) && DeskOnly(s, t, SubmitTo(H, s.nodes[0].desk, Slice(raw), difficulty, 1))
  {
    assert Fits(s.nodes[0], 1, difficulty);
    t := Act(H, s, 0, Submit(Slice(raw), difficulty, 1));
  }

  lemma DoSend(H: seq<Byte> -> Digest, s: System, i: nat) returns (t: System)
    requires Reached(H, s) && Able(s) && i in s.nodes[0].desk.sending && s.nodes[0].desk.sending[i].1 == 1
    ensures Reached(H, t) && DeskOnly(s, t, AfterSend(s.nodes[0].desk, i, true))
    ensures Packet(0, 1, RequestMsg(s.nodes[0].desk.sending[i].0), true) in t.net
  {
    t := Act(H, s, 0, SendRequest(i, true));
  }

  lemma DoPut(H: seq<Byte> -> Digest, s: System, i: nat) returns (t: System)
    requires Reached(H, s) && Able(s) && i in s.nodes[0].desk.putting
    ensures Reached(H, t) && DeskOnly(s, t, AfterPut(s.nodes[0].desk, i))
  {
    t := Act(H, s, 0, PutRequest(i));
  }

  function RequestFor(H: seq<Byte> -> Digest, raw: seq<Byte>, difficulty: Uint8): Request {
    Request(NewID(H, Slice(raw), 0), Slice(raw), difficulty)
  }

  /** What the requester's desk has come to: the hard request cached, both submitted, nothing saved. */
  ghost predicate Misled(H: seq<Byte> -> Digest, raw: seq<Byte>, hard: Uint8, easy: Uint8, k: Desk) {
    var r, q := RequestFor(H, raw, hard), RequestFor(H, raw, easy);
    k.submits.idx == map[r.id := r] && k.saves == [] && k.submitted == {r, q}
  }

  lemma FirstDesk(H: seq<Byte> -> Digest, raw: seq<Byte>, hard: Uint8, easy: Uint8)
    ensures var r := RequestFor(H, raw, hard);
            var k1 := SubmitTo(H, Pair().nodes[0].desk, Slice(raw), hard, 1);
            && 0 in k1.sending && k1.sending[0] == (r, 1)
            && 0 in AfterSend(k1, 0, true).putting && AfterSend(k1, 0, true).putting[0] == r
            && |k1.submits.entries| == Submits.DEFAULT_CAPACITY
            && AfterPut(AfterSend(k1, 0, true), 0).submits.idx == map[r.id := r]
            && AfterPut(AfterSend(k1, 0, true), 0).submitted == {r}
            && AfterPut(AfterSend(k1, 0, true), 0).saves == []
  {
  }

  lemma SecondDesk(H: seq<Byte> -> Digest, raw: seq<Byte>, hard: Uint8, easy: Uint8, k: Desk)
    requires var r := RequestFor(H, raw, hard); k.submits.idx == map[r.id := r] && k.submitted == {r} && k.saves == []
    ensures var q, i := RequestFor(H, raw, easy), k.submissions;
            var k1 := SubmitTo(H, k, Slice(raw), easy, 1);
            && i in k1.sending && k1.sending[i] == (q, 1)
            && Misled(H, raw, hard, easy, AfterSend(k1, i, true))
  {
  }

  lemma SubmitHard(H: seq<Byte> -> Digest, raw: seq<Byte>, hard: Uint8, easy: Uint8) returns (s: System)
    ensures Reached(H, s) && Able(s) && s.nodes[1] == Pair().nodes[1]
    ensures var k, r := s.nodes[0].desk, RequestFor(H, raw, hard);
            k.submits.idx == map[r.id := r] && k.submitted == {r} && k.saves == []
  {
    s := Meet(H);
    FirstDesk(H, raw, hard, easy);
    s := DoSubmit(H, s, raw, hard);
    s := DoSend(H, s, 0);
    s := DoPut(H, s, 0);
  }

  /**
   * The requester submits for difficulty `hard`, and that request is sent and cached; then it submits the same data for
   * difficulty `easy`, which is sent under the same id.
   */
  lemma SubmitTwice(H: seq<Byte> -> Digest, raw: seq<Byte>, hard: Uint8, easy: Uint8) returns (s: System)
    ensures Reached(H, s) && Able(s) && Misled(H, raw, hard, easy, s.nodes[0].desk)
    ensures s.nodes[1] == Pair().nodes[1]
    ensures Packet(0, 1, RequestMsg(RequestFor(H, raw, easy)), true) in s.net
  {
    s := SubmitHard(H, raw, hard, easy);
    SecondDesk(H, raw, hard, easy, s.nodes[0].desk);
    var i := s.nodes[0].desk.submissions;
    s := DoSubmit(H, s, raw, easy);
    s := DoSend(H, s, i);
  }

  /** Node 1 has changed its book, and node 0 nothing. */
  ghost predicate BookOnly(s: System, t: System, b: Book)
    requires s.nodes.Keys == {0, 1}
  {
    && AllReady(t) && t.nodes.Keys == {0, 1} && t.nodes[0] == s.nodes[0]
    && t.nodes[1].book == b && !t.nodes[1].locked && !t.nodes[1].crashed
  }

  lemma DoAdmit(H: seq<Byte> -> Digest, s: System, p: Packet) returns (t: System)
    requires Reached(H, s) && Able(s) && s.nodes[1] == Pair().nodes[1]
    requires p in s.net && p.dst == 1 && p.msg.RequestMsg?
    ensures Reached(H, t) && BookOnly(s, t, Admit(Book(1, 0, [], []), p, false, 255))
  {
    assert Results.Full(s.nodes[1].results) == false && s.nodes[1].book == Book(1, 0, [], []);
    ApplyDeliver(H, 1, s.nodes[1], s.net, p);
    t := Act(H, s, 1, Deliver(p));
    var n := s.nodes[1].(book := Admit(Book(1, 0, [], []), p, false, 255));
    assert t.nodes[1] == n && t.nodes[0] == s.nodes[0];
  }

  lemma DoSolve(H: seq<Byte> -> Digest, s: System, b: Book) returns (t: System)
    requires Reached(H, s) && s.nodes.Keys == {0, 1} && BookOnly(s, s, b)
    requires Hunting(b, 0) && Solves(H, Asked(b, 0).data.Content(), Asked(b, 0).difficulty, 1)
    ensures Reached(H, t) && BookOnly(s, t, Find(H, b, 0, 1))
  {
    t := Act(H, s, 1, JobFound(0, 1, 0));
  }

  lemma DoRelease(H: seq<Byte> -> Digest, s: System, b: Book) returns (t: System)
    requires Reached(H, s) && s.nodes.Keys == {0, 1} && BookOnly(s, s, b) && Holding(b, 0)
    ensures Reached(H, t) && BookOnly(s, t, Release(b, 0))
  {
    t := Act(H, s, 1, JobReleases(0));
  }

  lemma DoAnswer(H: seq<Byte> -> Digest, s: System, b: Book) returns (t: System)
    requires Reached(H, s) && s.nodes.Keys == {0, 1} && BookOnly(s, s, b) && Waiting(b, 0)
    ensures Reached(H, t) && AllReady(t) && t.nodes.Keys == {0, 1} && t.nodes[0] == s.nodes[0]
    ensures Packet(1, b.tickets[0].p.src, b.tickets[0].fate.msg, b.tickets[0].p.honest) in t.net
  {
    t := Act(H, s, 1, SendAnswer(0, true));
  }

  lemma FirstBook(H: seq<Byte> -> Digest, p: Packet, raw: seq<Byte>, hard: Uint8, easy: Uint8)
    requires p.msg == RequestMsg(RequestFor(H, raw, easy)) && Judge(easy, H(Buffer(raw, 1))) == Accept
    ensures var b1 := Admit(Book(1, 0, [], []), p, false, 255);
            && Hunting(b1, 0) && Asked(b1, 0) == RequestFor(H, raw, easy) && Solves(H, raw, easy, 1)
            && Holding(Find(H, b1, 0, 1), 0)
            && var b3 := Release(Find(H, b1, 0, 1), 0);
               && Waiting(b3, 0) && b3.tickets[0].p == p
               && b3.tickets[0].fate.msg == ResultMsg(ResultAfter(H, RequestFor(H, raw, easy), 1))
  {
  }

  /** The worker solves the easy request at its first nonce. */
  lemma SolveEasy(H: seq<Byte> -> Digest, raw: seq<Byte>, hard: Uint8, easy: Uint8) returns (s: System)
    requires Judge(easy, H(Buffer(raw, 1))) == Accept
    ensures Reached(H, s) && Able(s) && Misled(H, raw, hard, easy, s.nodes[0].desk)
    ensures Packet(1, 0, ResultMsg(ResultAfter(H, RequestFor(H, raw, easy), 1)), true) in s.net
  {
    var p := Packet(0, 1, RequestMsg(RequestFor(H, raw, easy)), true);
    s := SubmitTwice(H, raw, hard, easy);
    FirstBook(H, p, raw, hard, easy);
    var b := Admit(Book(1, 0, [], []), p, false, 255);
    s := DoAdmit(H, s, p);
    s := DoSolve(H, s, b);
    s := DoRelease(H, s, Find(H, b, 0, 1));
    s := DoAnswer(H, s, Release(Find(H, b, 0, 1), 0));
  }

  lemma DoReceive(H: seq<Byte> -> Digest, s: System, p: Packet) returns (t: System)
    requires Reached(H, s) && Able(s) && p in s.net && p.dst == 0 && p.msg.ResultMsg?
    ensures Reached(H, t) && DeskOnly(s, t, Receive(H, s.nodes[0].desk, p.msg.result, p.honest))
  {
    ApplyDeliver(H, 0, s.nodes[0], s.net, p);
    t := Act(H, s, 0, Deliver(p));
    var n := s.nodes[0].(desk := Receive(H, s.nodes[0].desk, p.msg.result, p.honest));
    assert t.nodes[0] == n && t.nodes[1] == s.nodes[1];
  }

  lemma MisledSaves(H: seq<Byte> -> Digest, raw: seq<Byte>, hard: Uint8, easy: Uint8, k: Desk)
    requires Misled(H, raw, hard, easy, k) && RequiredBits(hard) != RequiredBits(easy)
    ensures var m := Receive(H, k, ResultAfter(H, RequestFor(H, raw, easy), 1), true);
            && !EqualDemand(m)
            && |m.saves| == 1 && m.saves[0].honest && m.saves[0].difficulty == hard
            && m.saves[0].hash == Slice(H(Buffer(raw, 1)))
  {
    CheckAcceptsFound(H, raw, 1);
    var r, q := RequestFor(H, raw, hard), RequestFor(H, raw, easy);
    assert r in k.submitted && q in k.submitted && r.id == q.id;
  }

  /**
   * Without equal demands the guarantee fails, with both nodes honest: the same data submitted for difficulty `hard`
   * and then for `easy` gets one id, so the answer to the second request is saved as if it were one to the first,
   * for every hash function and data whose first nonce satisfies `easy` but not `hard`.
   */
  lemma ReusedIdBreaksDifficulty(H: seq<Byte> -> Digest, raw: seq<Byte>, hard: Uint8, easy: Uint8)
    returns (events: seq<Event>)
    requires Judge(easy, H(Buffer(raw, 1))) == Accept && Judge(hard, H(Buffer(raw, 1))) == Reject
    ensures var k := RunSystem(H, Pair(), events).nodes[0].desk;
            && !EqualDemand(k)
            && |k.saves| == 1 && k.saves[0].honest && k.saves[0].difficulty == hard
            && k.saves[0].hash == Slice(H(Buffer(raw, 1)))
            && Judge(k.saves[0].difficulty, k.saves[0].hash.bytes) != Accept
  {
    var s := SolveEasy(H, raw, hard, easy);
    MisledSaves(H, raw, hard, easy, s.nodes[0].desk);
    s := DoReceive(H, s, Packet(1, 0, ResultMsg(ResultAfter(H, RequestFor(H, raw, easy), 1)), true));
    events :| s == RunSystem(H, Pair(), events);
  }

  /** A digest that satisfies one demand and not a greater one: the number 2^bits. */
  lemma BetweenDemands(hard: Uint8, easy: Uint8) returns (digest: Digest)
    requires RequiredBits(easy) < RequiredBits(hard)
    ensures Judge(easy, digest) == Accept && Judge(hard, digest) == Reject
  {
    digest := PowerDigest(RequiredBits(easy));
    PowerBetween(RequiredBits(easy), RequiredBits(hard));
    JudgeMeaning(easy, digest);
    JudgeMeaning(hard, digest);
  }

  lemma PowerDigest(n: nat) returns (digest: Digest)
    requires n <= 152
    ensures BigEndian(digest) == Pow2(n)
  {
    MaskValue(HASH_SIZE, n);
    Pow256IsPow2(HASH_SIZE);
    Pow2Grows(n, 8 * HASH_SIZE);
    BigEndianIncrement(Mask(HASH_SIZE, n));
    digest := Increment(Mask(HASH_SIZE, n));
  }

  lemma PowerBetween(n: nat, m: nat)
    requires n < m
    ensures Pow2(n) % Pow2(n) == 0 && Pow2(n) % Pow2(m) != 0
  {
    Pow2Grows(n, m);
    DivModUnique(1, 0, Pow2(n));
    DivModUnique(0, Pow2(n), Pow2(m));
  }

  /**
   * The condition cannot be weakened: for any data, as soon as two requests for it ask for different numbers of
   * bits, some hash function and run end with an honest save below its difficulty.
   */
  lemma UnequalDemandsAreUnsafe(raw: seq<Byte>, hard: Uint8, easy: Uint8)
    returns (H: seq<Byte> -> Digest, events: seq<Event>)
    requires RequiredBits(easy) < RequiredBits(hard)
    ensures var k := RunSystem(H, Pair(), events).nodes[0].desk;
            |k.saves| == 1 && k.saves[0].honest && !MeetsDemand(k.saves[0])
  {
    var digest := BetweenDemands(hard, easy);
    H := _ => digest;
    events := ReusedIdBreaksDifficulty(H, raw, hard, easy);
    JudgeMeaning(hard, digest);
  }
}
