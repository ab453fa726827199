/** What is on the network in every run: who sent what an honest packet says, and that answers and thanks are sent. */
module ServiceNetwork {
  import opened Bytes
  import opened Protocol
  import opened Work
  import opened WorkerSide
  import opened RequesterSide
  import opened Service
  import opened ServiceSafety
  import opened ServiceEffects

  // ----- honest packets -----

  /** The packet is a logged answer, and goes to the peer that asked. */
  ghost predicate IsAnswer(b: Book, p: Packet) {
    exists i :: 0 <= i < |b.answers| && AnswersWith(b, i, p)
  }

  predicate AnswersWith(b: Book, i: nat, p: Packet)
    requires i < |b.answers|
  {
    var (t, msg) := b.answers[i];
    t < |b.tickets| && msg == p.msg && b.tickets[t].p.src == p.dst && b.tickets[t].p.honest
  }

  ghost predicate HasSaved(k: Desk, id: ID) {
    exists i :: 0 <= i < |k.saves| && k.saves[i].id == id && k.saves[i].honest
  }

  /** The node that an honest packet names as its source has done what the packet says. */
  ghost predicate SentBy(n: Node, p: Packet) {
    match p.msg
    case SkillsMsg(_) => true
    case RequestMsg(r) => r in n.desk.submitted
    case ResultMsg(_) => IsAnswer(n.book, p)
    case StatusMsg(id, code) => if code == ThanksABunch then HasSaved(n.desk, id) else IsAnswer(n.book, p)
  }

  ghost predicate AllSent(s: System) {
    forall p :: p in s.net && p.honest ==> p.src in s.nodes && SentBy(s.nodes[p.src], p)
  }

  lemma SentStays(n: Node, m: Node, p: Packet)
    requires SentBy(n, p) && NodeFollows(n, m)
    ensures SentBy(m, p)
  {
    if IsAnswer(n.book, p) {
      var i :| 0 <= i < |n.book.answers| && AnswersWith(n.book, i, p);
      assert m.book.answers[i] == n.book.answers[i];
      assert AnswersWith(m.book, i, p);
    }
    if p.msg.StatusMsg? && HasSaved(n.desk, p.msg.id) {
      var i :| 0 <= i < |n.desk.saves| && n.desk.saves[i].id == p.msg.id && n.desk.saves[i].honest;
      assert m.desk.saves[i] == n.desk.saves[i];
    }
  }

  lemma AnswerWaits(H: seq<Byte> -> Digest, s: System, x: Peer, t: nat, ok: bool)
    requires Happens(H, s, At(x, SendAnswer(t, ok)))
    ensures x in s.nodes && Waiting(s.nodes[x].book, t)
  {
  }

  lemma AnswerSent(H: seq<Byte> -> Digest, s: System, x: Peer, t: nat, ok: bool, p: Packet)
    requires Inv(H, s) && AllReady(s) && Happens(H, s, At(x, SendAnswer(t, ok)))
    requires p in Output(H, x, s.nodes[x], s.net, SendAnswer(t, ok)) && p.honest
    ensures p.src == x && SentBy(NextSystem(H, s, At(x, SendAnswer(t, ok))).nodes[x], p)
  {
    AnswerWaits(H, s, x, t, ok);
    var ticket := s.nodes[x].book.tickets[t];
    assert p == Packet(x, ticket.p.src, ticket.fate.msg, ticket.p.honest);
    ReplySent(H, s.nodes[x], t, p);
    Answering(H, s, x, t, ok);
  }

  lemma ReplySent(H: seq<Byte> -> Digest, n: Node, t: nat, p: Packet)
    requires BookInv(H, n.book) && Waiting(n.book, t) && n.book.tickets[t].p.honest
    requires p.msg == n.book.tickets[t].fate.msg && p.dst == n.book.tickets[t].p.src
    ensures SentBy(n.(book := Reply(n.book, t)), p)
  {
    assert RightTicket(H, n.book.tickets[t]);
    ReplyIsAnswer(n.book, t, p);
  }

  lemma ReplyIsAnswer(b: Book, t: nat, p: Packet)
    requires Waiting(b, t) && b.tickets[t].p.honest
    requires p.msg == b.tickets[t].fate.msg && p.dst == b.tickets[t].p.src
    ensures IsAnswer(Reply(b, t), p)
  {
    assert AnswersWith(Reply(b, t), |b.answers|, p);
  }

  lemma ThanksSent(H: seq<Byte> -> Digest, s: System, x: Peer, q: Packet, p: Packet)
    requires AllReady(s) && Happens(H, s, At(x, Deliver(q))) && p in Thanks(H, x, s.nodes[x], q) && p.honest
    ensures p.src == x && SentBy(NextSystem(H, s, At(x, Deliver(q))).nodes[x], p)
  {
    ResultDelivered(H, s, x, q);
    var k, m := s.nodes[x].desk, NextSystem(H, s, At(x, Deliver(q))).nodes[x].desk;
    assert m.saves[|k.saves|].id == p.msg.id && m.saves[|k.saves|].honest;
  }

  /** What an action puts on the network is sent by its node. */
  lemma OutputSent(H: seq<Byte> -> Digest, s: System, x: Peer, a: Action, p: Packet)
    requires Inv(H, s) && AllReady(s) && Happens(H, s, At(x, a))
    requires p in Output(H, x, s.nodes[x], s.net, a) && p.honest
    ensures p.src == x && SentBy(NextSystem(H, s, At(x, a)).nodes[x], p)
  {
    match a
    case SendRequest(i, ok) => RequestSent(H, s, x, i, ok, p);
    case SendAnswer(t, ok) => AnswerSent(H, s, x, t, ok, p);
    case Deliver(q) => ThanksSent(H, s, x, q, p);
    case Announce(peer) => assert p == Packet(x, peer, SkillsMsg(s.nodes[x].maxDifficulty), true);
    case _ =>
  }

  lemma RequestSent(H: seq<Byte> -> Digest, s: System, x: Peer, i: nat, ok: bool, p: Packet)
    requires Inv(H, s) && AllReady(s) && Happens(H, s, At(x, SendRequest(i, ok)))
    requires p in Output(H, x, s.nodes[x], s.net, SendRequest(i, ok))
    ensures p.src == x && SentBy(NextSystem(H, s, At(x, SendRequest(i, ok))).nodes[x], p)
  {
    Sending(H, s, x, i, ok);
    assert s.nodes[x].desk.sending[i].0 in s.nodes[x].desk.submitted;
  }

  lemma NextSent(H: seq<Byte> -> Digest, s: System, e: Event)
    requires Inv(H, s) && AllReady(s) && AllSent(s)
    ensures AllSent(NextSystem(H, s, e))
  {
    var t := NextSystem(H, s, e);
    forall p | p in t.net && p.honest
      ensures p.src in t.nodes && SentBy(t.nodes[p.src], p)
    {
      if p in s.net {
        NextFollows(H, s, e, p.src);
        SentStays(s.nodes[p.src], t.nodes[p.src], p);
      } else {
        NewPacket(H, s, e, p);
        OutputSent(H, s, e.me, e.a, p);
      }
    }
  }

  /** A new honest packet is the output of an action. */
  lemma NewPacket(H: seq<Byte> -> Digest, s: System, e: Event, p: Packet)
    requires AllReady(s) && p in NextSystem(H, s, e).net && p !in s.net && p.honest
    ensures Happens(H, s, e) && e.At? && p in Output(H, e.me, s.nodes[e.me], s.net, e.a)
  {
  }

  lemma {:induction false} RunSent(H: seq<Byte> -> Digest, s: System, events: seq<Event>)
    requires Inv(H, s) && AllReady(s) && AllSent(s)
    ensures AllSent(RunSystem(H, s, events))
    decreases |events|
  {
    if events != [] {
      NextInv(H, s, events[0]);
      NextSent(H, s, events[0]);
      RunSent(H, NextSystem(H, s, events[0]), events[1..]);
    }
  }

  /**
   * In every run, the source of an honest packet has done what it says: submitted that request; logged that answer to a
   * request of the addressee; or saved a result with that id, if it thanks.
   */
  lemma HonestPacketsAreSent(H: seq<Byte> -> Digest, t: System, p: Packet)
    requires Reachable(H, t) && p in t.net && p.honest
    ensures p.src in t.nodes && SentBy(t.nodes[p.src], p)
  {
    var s, events :| Init(s) && AllReady(s) && t == RunSystem(H, s, events);
    InitInv(H, s);
    RunSent(H, s, events);
  }

  // ----- answers reach the network -----

  predicate AnswerOut(x: Peer, b: Book, i: nat, net: set<Packet>)
    requires i < |b.answers|
  {
    var (t, msg) := b.answers[i];
    t < |b.tickets| && Packet(x, b.tickets[t].p.src, msg, b.tickets[t].p.honest) in net
  }

  /** Every logged answer is on the network, to the peer that asked. */
  predicate AnswersOut(x: Peer, n: Node, net: set<Packet>) {
    forall i :: 0 <= i < |n.book.answers| ==> AnswerOut(x, n.book, i, net)
  }

  predicate FailsToAnswer(e: Event, x: Peer) {
    e.At? && e.me == x && e.a.SendAnswer? && !e.a.ok
  }

  /** Answers that are out stay out, and one more is. */
  lemma AnswersStayOut(x: Peer, n: Node, m: Node, net: set<Packet>, more: set<Packet>)
    requires AnswersOut(x, n, net) && Follows(n.book, m.book) && net <= more
    requires |m.book.answers| <= |n.book.answers| + 1
    requires |m.book.answers| > |n.book.answers| ==> AnswerOut(x, m.book, |n.book.answers|, more)
    ensures AnswersOut(x, m, more)
  {
    forall i | 0 <= i < |m.book.answers|
      ensures AnswerOut(x, m.book, i, more)
    {
      if i < |n.book.answers| {
        assert AnswerOut(x, n.book, i, net) && m.book.answers[i] == n.book.answers[i];
      }
    }
  }

  lemma NextAnswersOut(H: seq<Byte> -> Digest, s: System, e: Event, x: Peer)
    requires Inv(H, s) && AllReady(s) && x in s.nodes && AnswersOut(x, s.nodes[x], s.net) && !FailsToAnswer(e, x)
    ensures var t := NextSystem(H, s, e); AnswersOut(x, t.nodes[x], t.net)
  {
    var t := NextSystem(H, s, e);
    NextFollows(H, s, e, x);
    if e.At? && e.me == x && e.a.SendAnswer? && Happens(H, s, e) {
      AnswerLogged(H, s, x, e.a.t, e.a.ok);
    } else {
      NothingLogged(H, s, e, x);
    }
    AnswersStayOut(x, s.nodes[x], t.nodes[x], s.net, t.net);
  }

  /** What is sent without an error is on the network when it is logged. */
  lemma AnswerLogged(H: seq<Byte> -> Digest, s: System, x: Peer, t: nat, ok: bool)
    requires AllReady(s) && Happens(H, s, At(x, SendAnswer(t, ok)))
    ensures var u := NextSystem(H, s, At(x, SendAnswer(t, ok)));
            && |u.nodes[x].book.answers| == |s.nodes[x].book.answers| + 1
            && (ok ==> AnswerOut(x, u.nodes[x].book, |s.nodes[x].book.answers|, u.net))
  {
    var b := s.nodes[x].book;
    Answering(H, s, x, t, ok);
    ReplyLast(b, t);
  }

  lemma ReplyLast(b: Book, t: nat)
    requires Waiting(b, t)
    ensures var c := Reply(b, t);
            && |c.answers| == |b.answers| + 1 && c.answers[|b.answers|] == (t, b.tickets[t].fate.msg)
            && t < |c.tickets| && c.tickets[t].p == b.tickets[t].p
  {
  }

  /** The log grows by sending only. */
  lemma NothingLogged(H: seq<Byte> -> Digest, s: System, e: Event, x: Peer)
    requires AllReady(s) && x in s.nodes
    requires !(e.At? && e.me == x && e.a.SendAnswer? && Happens(H, s, e))
    ensures NextSystem(H, s, e).nodes[x].book.answers == s.nodes[x].book.answers
  {
    NextNode(H, s, e, x);
    if Happens(H, s, e) && e.At? && e.me == x {
      BookAfterIs(H, x, s.nodes[x], s.net, e.a);
      BookKeepsLog(H, s.nodes[x], e.a);
    }
  }

  lemma BookKeepsLog(H: seq<Byte> -> Digest, n: Node, a: Action)
    requires !a.SendAnswer?
    ensures BookAfter(H, n, a).answers == n.book.answers
  {
  }

  /** No send of an answer by x fails. */
  predicate AnswersGetOut(events: seq<Event>, x: Peer) {
    forall i :: 0 <= i < |events| ==> !FailsToAnswer(events[i], x)
  }

  lemma {:induction false} RunAnswers(H: seq<Byte> -> Digest, s: System, events: seq<Event>, x: Peer)
    requires Inv(H, s) && AllReady(s) && x in s.nodes && AnswersOut(x, s.nodes[x], s.net) && AnswersGetOut(events, x)
    ensures var t := RunSystem(H, s, events); AnswersOut(x, t.nodes[x], t.net)
    decreases |events|
  {
    if events != [] {
      assert forall i :: 0 <= i < |events[1..]| ==> events[1..][i] == events[i + 1];
      NextInv(H, s, events[0]);
      NextAnswersOut(H, s, events[0], x);
      RunAnswers(H, NextSystem(H, s, events[0]), events[1..], x);
    }
  }

  /** In every run in which no send of an answer by x fails, its answers are on the network, to the peers that asked. */
  lemma AnswersAreSent(H: seq<Byte> -> Digest, s: System, events: seq<Event>, x: Peer)
    requires Init(s) && AllReady(s) && x in s.nodes && AnswersGetOut(events, x)
    ensures var t := RunSystem(H, s, events); AnswersOut(x, t.nodes[x], t.net)
  {
    InitInv(H, s);
    RunAnswers(H, s, events, x);
  }

  // ----- saves are thanked for -----

  /** The save is of a result that came from some peer, and that peer is thanked. */
  ghost predicate Thanked(x: Peer, v: Save, net: set<Packet>) {
    exists src :: Thanking(x, v, src, net)
  }

  predicate Thanking(x: Peer, v: Save, src: Peer, net: set<Packet>) {
    && Packet(src, x, ResultMsg(Result(v.id, v.nonce, v.hash)), v.honest) in net
    && Packet(x, src, StatusMsg(v.id, ThanksABunch), v.honest) in net
  }

  ghost predicate AllThanked(x: Peer, n: Node, net: set<Packet>) {
    forall i :: 0 <= i < |n.desk.saves| ==> Thanked(x, n.desk.saves[i], net)
  }

  lemma ThankedGrows(x: Peer, v: Save, net: set<Packet>, more: set<Packet>)
    requires Thanked(x, v, net) && net <= more
    ensures Thanked(x, v, more)
  {
    var src :| Thanking(x, v, src, net);
    assert Thanking(x, v, src, more);
  }

  lemma ThanksStay(x: Peer, n: Node, m: Node, net: set<Packet>, more: set<Packet>)
    requires AllThanked(x, n, net) && n.desk.saves <= m.desk.saves && net <= more
    requires |m.desk.saves| <= |n.desk.saves| + 1
    requires |m.desk.saves| > |n.desk.saves| ==> Thanked(x, m.desk.saves[|n.desk.saves|], more)
    ensures AllThanked(x, m, more)
  {
    forall i | 0 <= i < |m.desk.saves|
      ensures Thanked(x, m.desk.saves[i], more)
    {
      if i < |n.desk.saves| {
        assert m.desk.saves[i] == n.desk.saves[i];
        ThankedGrows(x, n.desk.saves[i], net, more);
      }
    }
  }

  lemma NextThanked(H: seq<Byte> -> Digest, s: System, e: Event, x: Peer)
    requires Inv(H, s) && AllReady(s) && x in s.nodes && AllThanked(x, s.nodes[x], s.net)
    ensures var t := NextSystem(H, s, e); AllThanked(x, t.nodes[x], t.net)
  {
    var t := NextSystem(H, s, e);
    NextFollows(H, s, e, x);
    if e.At? && e.me == x && e.a.Deliver? && e.a.p.msg.ResultMsg? && Happens(H, s, e) {
      SaveThanked(H, s, x, e.a.p);
    } else {
      NoSave(H, s, e, x);
    }
    ThanksStay(x, s.nodes[x], t.nodes[x], s.net, t.net);
  }

  lemma SaveThanked(H: seq<Byte> -> Digest, s: System, x: Peer, p: Packet)
    requires AllReady(s) && Happens(H, s, At(x, Deliver(p))) && p.msg.ResultMsg?
    ensures var t := NextSystem(H, s, At(x, Deliver(p)));
            var k, m := s.nodes[x].desk, t.nodes[x].desk;
            && |m.saves| <= |k.saves| + 1
            && (|m.saves| > |k.saves| ==> Thanked(x, m.saves[|k.saves|], t.net))
  {
    ResultDelivered(H, s, x, p);
    var t := NextSystem(H, s, At(x, Deliver(p)));
    if |t.nodes[x].desk.saves| > |s.nodes[x].desk.saves| {
      var v := t.nodes[x].desk.saves[|s.nodes[x].desk.saves|];
      assert Packet(p.src, x, ResultMsg(Result(v.id, v.nonce, v.hash)), v.honest) == p;
      assert Thanking(x, v, p.src, t.net);
    }
  }

  lemma NoSave(H: seq<Byte> -> Digest, s: System, e: Event, x: Peer)
    requires AllReady(s) && x in s.nodes
    requires !(e.At? && e.me == x && e.a.Deliver? && e.a.p.msg.ResultMsg? && Happens(H, s, e))
    ensures NextSystem(H, s, e).nodes[x].desk.saves == s.nodes[x].desk.saves
  {
    NextNode(H, s, e, x);
    if Happens(H, s, e) && e.At? && e.me == x {
      ApplyNoSave(H, x, s.nodes[x], s.net, e.a);
    }
  }

  lemma ApplyNoSave(H: seq<Byte> -> Digest, me: Peer, n: Node, net: set<Packet>, a: Action)
    requires Ready(n) && Enabled(H, me, n, net, a) && !(a.Deliver? && a.p.msg.ResultMsg?)
    ensures Apply(H, me, n, net, a).desk.saves == n.desk.saves
  {
  }

  lemma {:induction false} RunThanked(H: seq<Byte> -> Digest, s: System, events: seq<Event>, x: Peer)
    requires Inv(H, s) && AllReady(s) && x in s.nodes && AllThanked(x, s.nodes[x], s.net)
    ensures var t := RunSystem(H, s, events); AllThanked(x, t.nodes[x], t.net)
    decreases |events|
  {
    if events != [] {
      NextInv(H, s, events[0]);
      NextThanked(H, s, events[0], x);
      RunThanked(H, NextSystem(H, s, events[0]), events[1..], x);
    }
  }

  /** In every run, each save is of a result that was on the network, and its sender has been thanked for that id. */
  lemma SavesAreThanked(H: seq<Byte> -> Digest, t: System, x: Peer)
    requires Reachable(H, t) && x in t.nodes
    ensures AllThanked(x, t.nodes[x], t.net)
  {
    var s, events :| Init(s) && AllReady(s) && t == RunSystem(H, s, events);
    InitInv(H, s);
    RunThanked(H, s, events, x);
  }
}
