/** What each event of the service does: which events can happen, what they change, and what they put on the network. */
module ServiceEffects {
  import opened Bytes
  import opened Protocol
  import opened Work
  import opened WorkerSide
  import opened RequesterSide
  import opened Service
  import opened ServiceSafety
  import Results
  import Submits

  // ----- which events can happen -----

  /** Any packet on the network, honest or forged, can be delivered while its addressee handles messages. */
  lemma DeliveryHappensIff(H: seq<Byte> -> Digest, s: System, x: Peer, p: Packet)
    requires x in s.nodes
    ensures Happens(H, s, At(x, Deliver(p))) <==>
            p in s.net && p.dst == x && !s.nodes[x].locked && !s.nodes[x].crashed
  {
  }

  /** Every job can be given up at any time, and found or crash as its search would; only the lock delays it. */
  lemma JobsHappenIff(H: seq<Byte> -> Digest, s: System, x: Peer, t: nat, k: nat, expires: int, ok: bool)
    requires x in s.nodes && !s.nodes[x].crashed
    ensures var b := s.nodes[x].book;
            && (Happens(H, s, At(x, JobGivesUp(t))) <==> Hunting(b, t))
            && (Happens(H, s, At(x, JobFound(t, k, expires))) <==>
                Hunting(b, t) && Solves(H, Asked(b, t).data.Content(), Asked(b, t).difficulty, k))
            && (Happens(H, s, At(x, JobPanics(t, k))) <==>
                Hunting(b, t) && Panics(H, Asked(b, t).data.Content(), Asked(b, t).difficulty, k))
            && (Happens(H, s, At(x, JobReleases(t))) <==> Holding(b, t) && !s.nodes[x].locked)
            && (Happens(H, s, At(x, SendAnswer(t, ok))) <==> Waiting(b, t))
  {
  }

  /** A submission can go to any worker that fits, and without one it keeps the lock; sends and puts never wait. */
  lemma SubmissionsHappenIff(H: seq<Byte> -> Digest, s: System, x: Peer, data: Slice, d: Uint8, choice: Peer,
                             i: nat, ok: bool)
    requires x in s.nodes && !s.nodes[x].crashed
    ensures var n := s.nodes[x];
            && (Happens(H, s, At(x, Submit(data, d, choice))) <==>
                !n.locked && ((choice in n.workers && n.workers[choice] >= d)
                              || forall y :: y in n.workers ==> n.workers[y] < d))
            && (Happens(H, s, At(x, SendRequest(i, ok))) <==> i in n.desk.sending)
            && (Happens(H, s, At(x, PutRequest(i))) <==> i in n.desk.putting)
  {
  }

  /** No node changes by what happens at another, and a crashed node does nothing ever again. */
  lemma OthersStay(H: seq<Byte> -> Digest, s: System, e: Event, x: Peer)
    requires AllReady(s) && x in s.nodes && (e.Forge? || e.me != x || s.nodes[x].crashed)
    ensures NextSystem(H, s, e).nodes[x] == s.nodes[x]
  {
  }

  lemma {:induction false} CrashedForever(H: seq<Byte> -> Digest, s: System, events: seq<Event>, x: Peer)
    requires AllReady(s) && x in s.nodes && s.nodes[x].crashed
    ensures RunSystem(H, s, events).nodes[x] == s.nodes[x]
    decreases |events|
  {
    if events != [] {
      OthersStay(H, s, events[0], x);
      CrashedForever(H, NextSystem(H, s, events[0]), events[1..], x);
    }
  }

  // ----- what a delivery does -----

  /** The system after an event of x that can happen is this. */
  lemma AtOnly(H: seq<Byte> -> Digest, s: System, x: Peer, a: Action)
    requires AllReady(s) && Happens(H, s, At(x, a))
    ensures NextSystem(H, s, At(x, a)).nodes == s.nodes[x := Apply(H, x, s.nodes[x], s.net, a)]
    ensures NextSystem(H, s, At(x, a)).net == s.net + Output(H, x, s.nodes[x], s.net, a)
  {
  }

  lemma SkillsDelivered(H: seq<Byte> -> Digest, s: System, x: Peer, p: Packet)
    requires AllReady(s) && Happens(H, s, At(x, Deliver(p))) && p.msg.SkillsMsg?
    ensures var n, t := s.nodes[x], NextSystem(H, s, At(x, Deliver(p)));
            t.nodes[x] == n.(workers := n.workers[p.src := p.msg.difficulty]) && t.net == s.net
  {
    AtOnly(H, s, x, Deliver(p));
  }

  /**
   * Of all status messages only thanks to a worker do anything. They take the result with that id off a coherent store,
   * unless it is the last of several.
   */
  lemma StatusDelivered(H: seq<Byte> -> Digest, s: System, x: Peer, p: Packet)
    requires AllReady(s) && Happens(H, s, At(x, Deliver(p))) && p.msg.StatusMsg?
    ensures var n, t := s.nodes[x], NextSystem(H, s, At(x, Deliver(p)));
            var m, id := t.nodes[x], p.msg.id;
            && t.net == s.net
            && (p.msg.code != ThanksABunch || n.maxDifficulty == 0 ==> m == n)
            && (p.msg.code == ThanksABunch && n.maxDifficulty > 0 ==>
                  && m == n.(results := Results.Remove(n.results, id, false))
                  && (Results.Coherent(n.results) && !Results.LastOfMany(n.results, id) ==>
                        Results.Coherent(m.results) && Results.View(m.results) == Results.View(n.results) - {id}))
  {
    AtOnly(H, s, x, Deliver(p));
    assert Apply(H, x, s.nodes[x], s.net, Deliver(p)) == HandleStatus(s.nodes[x], p.msg.id, p.msg.code);
    StatusHandled(s.nodes[x], p.msg.id, p.msg.code);
  }

  lemma StatusHandled(n: Node, id: ID, code: Code)
    requires Ready(n)
    ensures var m := HandleStatus(n, id, code);
            && (code != ThanksABunch || n.maxDifficulty == 0 ==> m == n)
            && (code == ThanksABunch && n.maxDifficulty > 0 ==>
                  && m == n.(results := Results.Remove(n.results, id, false))
                  && (Results.Coherent(n.results) && !Results.LastOfMany(n.results, id) ==>
                        Results.Coherent(m.results) && Results.View(m.results) == Results.View(n.results) - {id}))
  {
    if Results.Coherent(n.results) {
      Results.RemoveAsWritten(n.results, id);
    }
  }

  /** A request changes the book only, in which exactly one ticket is booked, for this packet. */
  lemma RequestDelivered(H: seq<Byte> -> Digest, s: System, x: Peer, p: Packet)
    requires AllReady(s) && Happens(H, s, At(x, Deliver(p))) && p.msg.RequestMsg?
    ensures var n, t := s.nodes[x], NextSystem(H, s, At(x, Deliver(p)));
            var m, req := t.nodes[x], p.msg.request;
            && t.net == s.net && m == n.(book := m.book)
            && |m.book.tickets| == |n.book.tickets| + 1 && m.book.tickets[..|n.book.tickets|] == n.book.tickets
            && m.book.maxJobs == n.book.maxJobs && m.book.answers == n.book.answers
            && m.book.tickets[|n.book.tickets|] ==
               Ticket(p, if n.book.currentJobs >= n.book.maxJobs || n.results.counter == |n.results.entries| then
                           Pending(StatusMsg(req.id, Busy))
                         else if n.maxDifficulty < req.difficulty then Pending(StatusMsg(req.id, AreYouKidding))
                         else Searching)
  {
    AtOnly(H, s, x, Deliver(p));
    AdmitBooks(s.nodes[x].book, p, Results.Full(s.nodes[x].results), s.nodes[x].maxDifficulty);
  }

  /** A result changes the saves only, and is thanked for to the peer it came from exactly if it is saved. */
  lemma ResultDelivered(H: seq<Byte> -> Digest, s: System, x: Peer, p: Packet)
    requires AllReady(s) && Happens(H, s, At(x, Deliver(p))) && p.msg.ResultMsg?
    ensures var k, res, t := s.nodes[x].desk, p.msg.result, NextSystem(H, s, At(x, Deliver(p)));
            var ok := res.id in k.submits.idx && CheckJob(H, res.hash, k.submits.idx[res.id].data, res.nonce);
            && t.nodes[x] == s.nodes[x].(desk := k.(saves := t.nodes[x].desk.saves))
            && t.nodes[x].desk.saves ==
               (if ok then k.saves + [Save(res.id, k.submits.idx[res.id].difficulty, k.submits.idx[res.id].data,
                                           res.nonce, res.hash, p.honest)]
                else k.saves)
            && t.net == s.net + if ok then {Packet(x, p.src, StatusMsg(res.id, ThanksABunch), p.honest)} else {}
  {
    AtOnly(H, s, x, Deliver(p));
  }

  // ----- what the other events do -----

  /** A submission to a fitting worker makes up its request; without one, only the lock is taken. */
  lemma Submitting(H: seq<Byte> -> Digest, s: System, x: Peer, data: Slice, d: Uint8, choice: Peer)
    requires AllReady(s) && Happens(H, s, At(x, Submit(data, d, choice)))
    ensures var n, t := s.nodes[x], NextSystem(H, s, At(x, Submit(data, d, choice)));
            && t.net == s.net
            && t.nodes[x] == if choice in n.workers && n.workers[choice] >= d
                             then n.(desk := SubmitTo(H, n.desk, data, d, choice))
                             else n.(locked := true)
  {
    AtOnly(H, s, x, Submit(data, d, choice));
    if choice in s.nodes[x].workers && s.nodes[x].workers[choice] >= d {
      assert Fits(s.nodes[x], choice, d);
    }
  }

  /** A request goes to the chosen worker; a send that fails puts nothing on the network. */
  lemma Sending(H: seq<Byte> -> Digest, s: System, x: Peer, i: nat, ok: bool)
    requires AllReady(s) && Happens(H, s, At(x, SendRequest(i, ok)))
    ensures var n, t := s.nodes[x], NextSystem(H, s, At(x, SendRequest(i, ok)));
            var (req, worker) := n.desk.sending[i];
            && t.nodes[x] == n.(desk := AfterSend(n.desk, i, ok))
            && t.net == s.net + if ok then {Packet(x, worker, RequestMsg(req), true)} else {}
  {
    AtOnly(H, s, x, SendRequest(i, ok));
  }

  lemma Putting(H: seq<Byte> -> Digest, s: System, x: Peer, i: nat)
    requires AllReady(s) && Happens(H, s, At(x, PutRequest(i)))
    ensures var n, t := s.nodes[x], NextSystem(H, s, At(x, PutRequest(i)));
            t.nodes[x] == n.(desk := AfterPut(n.desk, i)) && t.net == s.net
  {
    AtOnly(H, s, x, PutRequest(i));
  }

  /** A found result is stored under its request's id if there was room, and then it can be looked up. */
  lemma FoundIsStored(H: seq<Byte> -> Digest, s: System, x: Peer, t: nat, k: nat, expires: int)
    requires AllReady(s) && Happens(H, s, At(x, JobFound(t, k, expires)))
    ensures var n, u := s.nodes[x], NextSystem(H, s, At(x, JobFound(t, k, expires)));
            var m := u.nodes[x];
            && u.net == s.net && m == n.(results := m.results, book := Find(H, n.book, t, k))
            && (Results.Full(n.results) ==> m.results == n.results)
            && (!Results.Full(n.results) ==>
                  && Results.Lookup(m.results, Asked(n.book, t).id) == Some(m.book.tickets[t].fate.result)
                  && m.results.counter == n.results.counter + 1
                  && m.results.entries[n.results.counter].Some?
                  && m.results.entries[n.results.counter].value.expires == expires)
  {
    AtOnly(H, s, x, JobFound(t, k, expires));
    var res := ResultAfter(H, Asked(s.nodes[x].book, t), k);
    Results.PutSafe(s.nodes[x].results, res.id, Results.Entry(res, res.id, expires));
  }

  /** The job is uncounted, and its answer is decided. */
  lemma Releasing(H: seq<Byte> -> Digest, s: System, x: Peer, t: nat)
    requires AllReady(s) && Happens(H, s, At(x, JobReleases(t)))
    ensures var u := NextSystem(H, s, At(x, JobReleases(t)));
            u.nodes[x] == s.nodes[x].(book := Release(s.nodes[x].book, t)) && u.net == s.net
  {
    AtOnly(H, s, x, JobReleases(t));
  }

  lemma GivingUp(H: seq<Byte> -> Digest, s: System, x: Peer, t: nat)
    requires AllReady(s) && Happens(H, s, At(x, JobGivesUp(t)))
    ensures var u := NextSystem(H, s, At(x, JobGivesUp(t)));
            u.nodes[x] == s.nodes[x].(book := GiveUp(s.nodes[x].book, t)) && u.net == s.net
  {
    AtOnly(H, s, x, JobGivesUp(t));
  }

  /** A panic in a search ends the process. */
  lemma Crashing(H: seq<Byte> -> Digest, s: System, x: Peer, t: nat, k: nat)
    requires AllReady(s) && Happens(H, s, At(x, JobPanics(t, k)))
    ensures var u := NextSystem(H, s, At(x, JobPanics(t, k)));
            u.nodes[x] == s.nodes[x].(crashed := true) && u.net == s.net
  {
    AtOnly(H, s, x, JobPanics(t, k));
  }

  /** An answer goes to the peer that asked; a send that fails puts nothing on the network. */
  lemma Answering(H: seq<Byte> -> Digest, s: System, x: Peer, t: nat, ok: bool)
    requires AllReady(s) && Happens(H, s, At(x, SendAnswer(t, ok)))
    ensures var b, u := s.nodes[x].book, NextSystem(H, s, At(x, SendAnswer(t, ok)));
            var asked, msg := b.tickets[t].p, b.tickets[t].fate.msg;
            && u.nodes[x] == s.nodes[x].(book := Reply(b, t))
            && u.net == s.net + if ok then {Packet(x, asked.src, msg, asked.honest)} else {}
  {
    AtOnly(H, s, x, SendAnswer(t, ok));
  }

  /** Announcing tells a peer the own difficulty. */
  lemma Announcing(H: seq<Byte> -> Digest, s: System, x: Peer, peer: Peer)
    requires AllReady(s) && x in s.nodes && !s.nodes[x].crashed
    ensures Happens(H, s, At(x, Announce(peer))) <==> !s.nodes[x].locked
    ensures Happens(H, s, At(x, Announce(peer))) ==>
              var n, t := s.nodes[x], NextSystem(H, s, At(x, Announce(peer)));
              t.nodes[x] == n && t.net == s.net + {Packet(x, peer, SkillsMsg(n.maxDifficulty), true)}
  {
    if Happens(H, s, At(x, Announce(peer))) {
      AtOnly(H, s, x, Announce(peer));
    }
  }

  lemma SettingDifficulty(H: seq<Byte> -> Digest, s: System, x: Peer, d: Uint8)
    requires AllReady(s) && x in s.nodes && !s.nodes[x].crashed
    ensures Happens(H, s, At(x, SetDifficulty(d))) <==> !s.nodes[x].locked
    ensures Happens(H, s, At(x, SetDifficulty(d))) ==>
              var t := NextSystem(H, s, At(x, SetDifficulty(d)));
              t.nodes[x] == s.nodes[x].(maxDifficulty := d) && t.net == s.net
  {
    if Happens(H, s, At(x, SetDifficulty(d))) {
      AtOnly(H, s, x, SetDifficulty(d));
    }
  }

  /** A sweep runs without the service lock, over the keys in any order. */
  lemma SweepHappensIff(H: seq<Byte> -> Digest, s: System, x: Peer, order: seq<ID>, now: ID -> int)
    requires AllReady(s) && x in s.nodes && !s.nodes[x].crashed
    ensures Happens(H, s, At(x, PruneResults(order, now))) <==> Results.SweepOrder(s.nodes[x].results, order)
  {
  }

  /** It changes the store only, and is right under the condition of PruneAsWritten. */
  lemma Sweeping(H: seq<Byte> -> Digest, s: System, x: Peer, order: seq<ID>, now: ID -> int)
    requires AllReady(s) && Happens(H, s, At(x, PruneResults(order, now)))
    ensures var n, t := s.nodes[x], NextSystem(H, s, At(x, PruneResults(order, now)));
            && t.net == s.net
            && t.nodes[x] == n.(results := Results.Sweep(n.results, order, now, false).0)
            && (Results.Coherent(n.results) && Results.PruneSafe(n.results, now) ==>
                  Results.View(t.nodes[x].results) == Results.Unexpired(Results.View(n.results), order, now))
  {
    var n := s.nodes[x];
    AtOnly(H, s, x, PruneResults(order, now));
    if Results.Coherent(n.results) && Results.PruneSafe(n.results, now) {
      SweepsRight(n.results, order, now);
    }
  }

  lemma SweepsRight(s: Results.Store, order: seq<ID>, now: ID -> int)
    requires Results.Coherent(s) && Results.PruneSafe(s, now) && Results.SweepOrder(s, order)
    ensures Results.View(Results.Sweep(s, order, now, false).0) == Results.Unexpired(Results.View(s), order, now)
  {
    Results.PruneAsWritten(s, now);
    assert Results.SweptRight(s, order, now);
  }

  // ----- every request is booked, in every run -----

  function PacketsOf(tickets: seq<Ticket>): (ps: seq<Packet>)
    ensures |ps| == |tickets| && forall t :: 0 <= t < |ps| ==> ps[t] == tickets[t].p
  {
    if tickets == [] then [] else PacketsOf(tickets[..|tickets| - 1]) + [tickets[|tickets| - 1].p]
  }

  /** The event is the delivery of a request to x. */
  ghost predicate HandsOver(H: seq<Byte> -> Digest, s: System, e: Event, x: Peer) {
    e.At? && e.me == x && e.a.Deliver? && e.a.p.msg.RequestMsg? && Happens(H, s, e)
  }

  /** The requests that are delivered to x in the run. */
  ghost function Handled(H: seq<Byte> -> Digest, s: System, events: seq<Event>, x: Peer): seq<Packet>
    requires AllReady(s)
    decreases |events|
  {
    if events == [] then [] else
      (if HandsOver(H, s, events[0], x) then [events[0].a.p] else [])
      + Handled(H, NextSystem(H, s, events[0]), events[1..], x)
  }

  lemma NextBooks(H: seq<Byte> -> Digest, s: System, e: Event, x: Peer)
    requires Inv(H, s) && AllReady(s) && x in s.nodes
    ensures PacketsOf(NextSystem(H, s, e).nodes[x].book.tickets) ==
            PacketsOf(s.nodes[x].book.tickets) + if HandsOver(H, s, e, x) then [e.a.p] else []
  {
    var b, c := s.nodes[x].book, NextSystem(H, s, e).nodes[x].book;
    if HandsOver(H, s, e, x) {
      assert e == At(x, Deliver(e.a.p));
      RequestDelivered(H, s, x, e.a.p);
      OneMorePacket(b.tickets, c.tickets);
    } else {
      NextFollows(H, s, e, x);
      NextKeepsTickets(H, s, e, x);
      SamePackets(b, c);
    }
  }

  lemma OneMorePacket(tickets: seq<Ticket>, more: seq<Ticket>)
    requires |more| == |tickets| + 1 && more[..|tickets|] == tickets
    ensures PacketsOf(more) == PacketsOf(tickets) + [more[|tickets|].p]
  {
  }

  lemma SamePackets(b: Book, c: Book)
    requires Follows(b, c) && |c.tickets| == |b.tickets|
    ensures PacketsOf(c.tickets) == PacketsOf(b.tickets)
  {
    forall t | 0 <= t < |b.tickets|
      ensures PacketsOf(c.tickets)[t] == PacketsOf(b.tickets)[t]
    {
      assert c.tickets[t].p == b.tickets[t].p;
    }
  }

  lemma NextKeepsTickets(H: seq<Byte> -> Digest, s: System, e: Event, x: Peer)
    requires Inv(H, s) && AllReady(s) && x in s.nodes && !HandsOver(H, s, e, x)
    ensures |NextSystem(H, s, e).nodes[x].book.tickets| == |s.nodes[x].book.tickets|
  {
    NextNode(H, s, e, x);
    if Happens(H, s, e) && e.At? && e.me == x {
      ApplyBook(H, x, s.nodes[x], s.net, e.a);
    }
  }

  /**
   * In every run from a reached state: the tickets of x are those it had and one for each request delivered since, in
   * the order of the deliveries; so each request is searched or refused on its own, and no other job exists.
   */
  lemma EveryRequestIsBooked(H: seq<Byte> -> Digest, s: System, events: seq<Event>, x: Peer)
    requires Reachable(H, s) && x in s.nodes
    ensures PacketsOf(RunSystem(H, s, events).nodes[x].book.tickets) ==
            PacketsOf(s.nodes[x].book.tickets) + Handled(H, s, events, x)
  {
    ReachableInv(H, s);
    RunBooks(H, s, events, x);
  }

  lemma Appended(a: seq<Packet>, b: seq<Packet>, c: seq<Packet>)
    ensures (a + b) + c == a + (b + c)
  {
  }

  lemma {:induction false} RunBooks(H: seq<Byte> -> Digest, s: System, events: seq<Event>, x: Peer)
    requires Inv(H, s) && AllReady(s) && x in s.nodes
    ensures PacketsOf(RunSystem(H, s, events).nodes[x].book.tickets) ==
            PacketsOf(s.nodes[x].book.tickets) + Handled(H, s, events, x)
    decreases |events|
  {
    if events != [] {
      NextInv(H, s, events[0]);
      NextBooks(H, s, events[0], x);
      RunBooks(H, NextSystem(H, s, events[0]), events[1..], x);
      Appended(PacketsOf(s.nodes[x].book.tickets), if HandsOver(H, s, events[0], x) then [events[0].a.p] else [],
               Handled(H, NextSystem(H, s, events[0]), events[1..], x));
    }
  }
}
