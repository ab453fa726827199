/** The worker's half of service.go: admitting requests, running jobs, counting them, and answering. */
module WorkerSide {
  import opened Bytes
  import opened Minipow
  import opened Protocol
  import opened Work

  /**
   * Where a received request has got to: its goroutine is searching, or holds a stored result before it takes the
   * lock; or its answer is decided and about to be sent, or has been handed to the network.
   */
  datatype Fate = Searching | Finished(result: Result) | Pending(msg: Message) | Sent(msg: Message)

  /** One handled request packet. */
  datatype Ticket = Ticket(p: Packet, fate: Fate)

  /** `answers` logs every answer handed to the network, with the ticket it answers. */
  datatype Book = Book(maxJobs: int, currentJobs: int, tickets: seq<Ticket>, answers: seq<(nat, Message)>)

  function RequestOf(p: Packet): Request {
    if p.msg.RequestMsg? then p.msg.request else Request(Zeros(ID_SIZE), Nil, 0)
  }

  function Asked(b: Book, t: nat): Request
    requires t < |b.tickets|
  {
    RequestOf(b.tickets[t].p)
  }

  function SetFate(b: Book, t: nat, fate: Fate): Book
    requires t < |b.tickets|
  {
    b.(tickets := b.tickets[t := b.tickets[t].(fate := fate)])
  }

  /** A request is refused when too many jobs are counted or the result store is full, then when it is too hard. */
  function Admit(b: Book, p: Packet, full: bool, maxDifficulty: Uint8): Book {
    var req := RequestOf(p);
    if b.currentJobs >= b.maxJobs || full then
      b.(tickets := b.tickets + [Ticket(p, Pending(StatusMsg(req.id, Busy)))])
    else if maxDifficulty < req.difficulty then
      b.(tickets := b.tickets + [Ticket(p, Pending(StatusMsg(req.id, AreYouKidding)))])
    else
      b.(currentJobs := b.currentJobs + 1, tickets := b.tickets + [Ticket(p, Searching)])
  }

  function ResultAfter(H: seq<Byte> -> Digest, req: Request, k: nat): Result {
    var raw := req.data.Content();
    Result(req.id, Slice(NonceAfter(raw, k)), Slice(H(Buffer(raw, k))))
  }

  predicate Hunting(b: Book, t: nat) {
    t < |b.tickets| && b.tickets[t].fate.Searching?
  }

  predicate Holding(b: Book, t: nat) {
    t < |b.tickets| && b.tickets[t].fate.Finished?
  }

  predicate Waiting(b: Book, t: nat) {
    t < |b.tickets| && b.tickets[t].fate.Pending?
  }

  function Find(H: seq<Byte> -> Digest, b: Book, t: nat, k: nat): Book
    requires Hunting(b, t)
  {
    SetFate(b, t, Finished(ResultAfter(H, Asked(b, t), k)))
  }

  function Release(b: Book, t: nat): Book
    requires Holding(b, t)
  {
    SetFate(b, t, Pending(ResultMsg(b.tickets[t].fate.result))).(currentJobs := b.currentJobs - 1)
  }

  /** Giving up answers the request but does not uncount the job. */
  function GiveUp(b: Book, t: nat): Book
    requires Hunting(b, t)
  {
    SetFate(b, t, Pending(StatusMsg(Asked(b, t).id, Gaveup)))
  }

  function Reply(b: Book, t: nat): Book
    requires Waiting(b, t)
  {
    var msg := b.tickets[t].fate.msg;
    SetFate(b, t, Sent(msg)).(answers := b.answers + [(t, msg)])
  }

  // ----- what every step keeps -----

  /** `res` is what the search returns for `req`. */
  ghost predicate Solved(H: seq<Byte> -> Digest, req: Request, res: Result) {
    exists k: nat :: Solves(H, req.data.Content(), req.difficulty, k) && res == ResultAfter(H, req, k)
  }

  ghost predicate RightAnswer(H: seq<Byte> -> Digest, req: Request, msg: Message) {
    match msg
    case StatusMsg(id, code) => id == req.id && code != ThanksABunch
    case ResultMsg(res) => Solved(H, req, res)
    case _ => false
  }

  ghost predicate RightTicket(H: seq<Byte> -> Digest, ticket: Ticket) {
    && ticket.p.msg.RequestMsg?
    && match ticket.fate {
         case Searching => true
         case Finished(res) => Solved(H, RequestOf(ticket.p), res)
         case Pending(msg) => RightAnswer(H, RequestOf(ticket.p), msg)
         case Sent(msg) => RightAnswer(H, RequestOf(ticket.p), msg)
       }
  }

  ghost predicate RightTickets(H: seq<Byte> -> Digest, b: Book) {
    forall t :: 0 <= t < |b.tickets| ==> RightTicket(H, b.tickets[t])
  }

  predicate IsRunning(f: Fate) {
    f.Searching? || f.Finished?
  }

  predicate IsGaveup(msg: Message) {
    msg.StatusMsg? && msg.code == Gaveup
  }

  predicate IsGivenUp(f: Fate) {
    (f.Pending? || f.Sent?) && IsGaveup(f.msg)
  }

  function Running(tickets: seq<Ticket>): nat {
    if tickets == [] then 0 else
      Running(tickets[..|tickets| - 1]) + if IsRunning(tickets[|tickets| - 1].fate) then 1 else 0
  }

  function GivenUp(tickets: seq<Ticket>): nat {
    if tickets == [] then 0 else
      GivenUp(tickets[..|tickets| - 1]) + if IsGivenUp(tickets[|tickets| - 1].fate) then 1 else 0
  }

  /** The job counter is the number of running jobs plus the number ever given up, and respects the limit. */
  predicate Counted(b: Book) {
    && b.currentJobs == Running(b.tickets) + GivenUp(b.tickets)
    && (b.currentJobs > 0 ==> b.currentJobs <= b.maxJobs)
  }

  /** The log holds exactly the sent answers, each ticket at most once. */
  ghost predicate Logged(b: Book) {
    && (forall i :: 0 <= i < |b.answers| ==>
          b.answers[i].0 < |b.tickets| && b.tickets[b.answers[i].0].fate == Sent(b.answers[i].1))
    && (forall i, j :: 0 <= i < j < |b.answers| ==> b.answers[i].0 != b.answers[j].0)
    && (forall t :: 0 <= t < |b.tickets| && b.tickets[t].fate.Sent? ==> (t, b.tickets[t].fate.msg) in b.answers)
  }

  ghost predicate BookInv(H: seq<Byte> -> Digest, b: Book) {
    RightTickets(H, b) && Counted(b) && Logged(b)
  }

  /** Tickets are never lost or reassigned, a decided answer never changes, and the log only grows. */
  ghost predicate Follows(b: Book, c: Book) {
    && c.maxJobs == b.maxJobs
    && |b.tickets| <= |c.tickets|
    && (forall t :: 0 <= t < |b.tickets| ==>
          && c.tickets[t].p == b.tickets[t].p
          && (b.tickets[t].fate.Sent? ==> c.tickets[t].fate == b.tickets[t].fate)
          && (b.tickets[t].fate.Pending? ==>
                c.tickets[t].fate in {b.tickets[t].fate, Sent(b.tickets[t].fate.msg)}))
    && b.answers <= c.answers
    && GivenUp(b.tickets) <= GivenUp(c.tickets)
  }

  lemma {:induction false} CountUpdate(tickets: seq<Ticket>, t: nat, x: Ticket)
    requires t < |tickets|
    ensures var now := tickets[t := x];
            && Running(now) + (if IsRunning(tickets[t].fate) then 1 else 0) ==
               Running(tickets) + (if IsRunning(x.fate) then 1 else 0)
            && GivenUp(now) + (if IsGivenUp(tickets[t].fate) then 1 else 0) ==
               GivenUp(tickets) + (if IsGivenUp(x.fate) then 1 else 0)
  {
    var n := |tickets| - 1;
    if t == n {
      assert tickets[t := x][..n] == tickets[..n];
    } else {
      assert tickets[t := x][..n] == tickets[..n][t := x];
      CountUpdate(tickets[..n], t, x);
    }
  }

  lemma AdmitInv(H: seq<Byte> -> Digest, b: Book, p: Packet, full: bool, maxDifficulty: Uint8)
    requires BookInv(H, b) && p.msg.RequestMsg?
    ensures var c := Admit(b, p, full, maxDifficulty); BookInv(H, c) && Follows(b, c)
  {
    var c := Admit(b, p, full, maxDifficulty);
    var x := c.tickets[|b.tickets|];
    NewTicket(H, b, p, full, maxDifficulty);
    AppendRight(H, b, c, x);
    AppendCounts(b, c, x);
    AppendLogged(b, c, x);
  }

  lemma NewTicket(H: seq<Byte> -> Digest, b: Book, p: Packet, full: bool, maxDifficulty: Uint8)
    requires p.msg.RequestMsg?
    ensures var c := Admit(b, p, full, maxDifficulty);
            |c.tickets| == |b.tickets| + 1 &&
            var x := c.tickets[|b.tickets|];
            && Appends(b, c, x) && RightTicket(H, x) && !IsGivenUp(x.fate)
            && c.currentJobs == b.currentJobs + (if IsRunning(x.fate) then 1 else 0)
            && (IsRunning(x.fate) ==> b.currentJobs < b.maxJobs)
  {
  }

  /**
   * One ticket is booked, for the packet that was handled: a job of its own, which is counted, or the refusal that
   * goes to its sender. No earlier ticket is touched.
   */
  lemma AdmitBooks(b: Book, p: Packet, full: bool, maxDifficulty: Uint8)
    requires p.msg.RequestMsg?
    ensures var c, req := Admit(b, p, full, maxDifficulty), p.msg.request;
            && |c.tickets| == |b.tickets| + 1 && c.tickets[..|b.tickets|] == b.tickets
            && c.maxJobs == b.maxJobs && c.answers == b.answers
            && var x := c.tickets[|b.tickets|];
               && x.p == p
               && (x.fate == Pending(StatusMsg(req.id, Busy)) <==> b.currentJobs >= b.maxJobs || full)
               && (x.fate == Pending(StatusMsg(req.id, AreYouKidding)) <==>
                   b.currentJobs < b.maxJobs && !full && maxDifficulty < req.difficulty)
               && (x.fate == Searching <==>
                   b.currentJobs < b.maxJobs && !full && req.difficulty <= maxDifficulty)
               && c.currentJobs == (if x.fate == Searching then b.currentJobs + 1 else b.currentJobs)
  {
    var c := Admit(b, p, full, maxDifficulty);
    assert c.tickets == b.tickets + [c.tickets[|b.tickets|]];
  }

  /** c is b with one more ticket, whose answer is not sent yet. */
  predicate Appends(b: Book, c: Book, x: Ticket) {
    c.maxJobs == b.maxJobs && c.answers == b.answers && c.tickets == b.tickets + [x] && !x.fate.Sent?
  }

  lemma AppendRight(H: seq<Byte> -> Digest, b: Book, c: Book, x: Ticket)
    requires RightTickets(H, b) && Appends(b, c, x) && RightTicket(H, x)
    ensures RightTickets(H, c)
  {
    forall t | 0 <= t < |c.tickets|
      ensures RightTicket(H, c.tickets[t])
    {
      if t < |b.tickets| {
        assert c.tickets[t] == b.tickets[t];
      }
    }
  }

  lemma AppendCounts(b: Book, c: Book, x: Ticket)
    requires Appends(b, c, x)
    ensures Running(c.tickets) == Running(b.tickets) + if IsRunning(x.fate) then 1 else 0
    ensures GivenUp(c.tickets) == GivenUp(b.tickets) + if IsGivenUp(x.fate) then 1 else 0
  {
    assert c.tickets[..|c.tickets| - 1] == b.tickets;
  }

  lemma AppendLogged(b: Book, c: Book, x: Ticket)
    requires Logged(b) && Appends(b, c, x)
    ensures Logged(c) && Follows(b, c)
  {
    AppendCounts(b, c, x);
    forall t | 0 <= t < |b.tickets|
      ensures c.tickets[t] == b.tickets[t]
    {
    }
  }

  lemma SetFateRight(H: seq<Byte> -> Digest, b: Book, t: nat, fate: Fate)
    requires RightTickets(H, b) && t < |b.tickets| && RightTicket(H, b.tickets[t].(fate := fate))
    ensures RightTickets(H, SetFate(b, t, fate))
  {
    var c := SetFate(b, t, fate);
    forall u | 0 <= u < |c.tickets|
      ensures RightTicket(H, c.tickets[u])
    {
      assert c.tickets[u] == if u == t then b.tickets[t].(fate := fate) else b.tickets[u];
    }
  }

  lemma SetFateKeeps(H: seq<Byte> -> Digest, b: Book, t: nat, fate: Fate)
    requires RightTickets(H, b) && Logged(b) && t < |b.tickets|
    requires RightTicket(H, b.tickets[t].(fate := fate))
    requires !fate.Sent? && !b.tickets[t].fate.Sent?
    ensures RightTickets(H, SetFate(b, t, fate)) && Logged(SetFate(b, t, fate))
  {
    var c := SetFate(b, t, fate);
    SetFateRight(H, b, t, fate);
    forall i | 0 <= i < |c.answers|
      ensures c.answers[i].0 < |c.tickets| && c.tickets[c.answers[i].0].fate == Sent(c.answers[i].1)
    {
      assert b.tickets[b.answers[i].0].fate == Sent(b.answers[i].1);
    }
  }

  /** Ticket t, for the same packet, has got to `fate`, and no other ticket is touched. */
  predicate OnlyFate(b: Book, c: Book, t: nat, fate: Fate) {
    && c.maxJobs == b.maxJobs
    && t < |b.tickets| == |c.tickets|
    && c.tickets[t] == Ticket(b.tickets[t].p, fate)
    && forall u :: 0 <= u < |b.tickets| && u != t ==> c.tickets[u] == b.tickets[u]
  }

  /**
   * What each step of a job does: the search leaves its result, which is stored before the job is uncounted and
   * answered with it; giving up answers without uncounting; and an answer is sent, once, as it was decided.
   */
  lemma JobSteps(H: seq<Byte> -> Digest, b: Book, t: nat, k: nat)
    ensures Hunting(b, t) ==>
              var c, req := Find(H, b, t, k), Asked(b, t);
              var raw := req.data.Content();
              && OnlyFate(b, c, t, Finished(Result(req.id, Slice(NonceAfter(raw, k)), Slice(H(Buffer(raw, k))))))
              && c.currentJobs == b.currentJobs && c.answers == b.answers
    ensures Hunting(b, t) ==>
              var c := GiveUp(b, t);
              && OnlyFate(b, c, t, Pending(StatusMsg(Asked(b, t).id, Gaveup)))
              && c.currentJobs == b.currentJobs && c.answers == b.answers
    ensures Holding(b, t) ==>
              var c := Release(b, t);
              && OnlyFate(b, c, t, Pending(ResultMsg(b.tickets[t].fate.result)))
              && c.currentJobs == b.currentJobs - 1 && c.answers == b.answers
    ensures Waiting(b, t) ==>
              var c, msg := Reply(b, t), b.tickets[t].fate.msg;
              && OnlyFate(b, c, t, Sent(msg))
              && c.currentJobs == b.currentJobs && c.answers == b.answers + [(t, msg)]
  {
  }

  lemma FindInv(H: seq<Byte> -> Digest, b: Book, t: nat, k: nat)
    requires BookInv(H, b) && Hunting(b, t)
    requires Solves(H, Asked(b, t).data.Content(), Asked(b, t).difficulty, k)
    ensures BookInv(H, Find(H, b, t, k)) && Follows(b, Find(H, b, t, k))
  {
    var fate := Finished(ResultAfter(H, Asked(b, t), k));
    CountUpdate(b.tickets, t, b.tickets[t].(fate := fate));
    assert Solved(H, Asked(b, t), fate.result);
    SetFateKeeps(H, b, t, fate);
  }

  lemma ReleaseInv(H: seq<Byte> -> Digest, b: Book, t: nat)
    requires BookInv(H, b) && Holding(b, t)
    ensures BookInv(H, Release(b, t)) && Follows(b, Release(b, t))
  {
    var fate := Pending(ResultMsg(b.tickets[t].fate.result));
    assert RightTicket(H, b.tickets[t]);
    assert Release(b, t).tickets == SetFate(b, t, fate).tickets;
    CountUpdate(b.tickets, t, b.tickets[t].(fate := fate));
    SetFateKeeps(H, b, t, fate);
  }

  lemma GiveUpInv(H: seq<Byte> -> Digest, b: Book, t: nat)
    requires BookInv(H, b) && Hunting(b, t)
    ensures BookInv(H, GiveUp(b, t)) && Follows(b, GiveUp(b, t))
  {
    var fate := Pending(StatusMsg(Asked(b, t).id, Gaveup));
    CountUpdate(b.tickets, t, b.tickets[t].(fate := fate));
    SetFateKeeps(H, b, t, fate);
  }

  lemma ReplyInv(H: seq<Byte> -> Digest, b: Book, t: nat)
    requires BookInv(H, b) && Waiting(b, t)
    ensures BookInv(H, Reply(b, t)) && Follows(b, Reply(b, t))
  {
    var msg, c := b.tickets[t].fate.msg, Reply(b, t);
    CountUpdate(b.tickets, t, b.tickets[t].(fate := Sent(msg)));
    ReplyLogged(b, t);
    assert RightTicket(H, b.tickets[t]);
    SetFateRight(H, b, t, Sent(msg));
    assert c.tickets == SetFate(b, t, Sent(msg)).tickets;
  }

  lemma ReplyLogged(b: Book, t: nat)
    requires Logged(b) && Waiting(b, t)
    ensures Logged(Reply(b, t))
  {
    var msg, c := b.tickets[t].fate.msg, Reply(b, t);
    assert c.answers == b.answers + [(t, msg)] && c.answers[|b.answers|] == (t, msg);
    forall i | 0 <= i < |b.answers|
      ensures c.answers[i] == b.answers[i] && b.answers[i].0 != t
    {
      assert b.tickets[b.answers[i].0].fate.Sent?;
    }
    forall u | 0 <= u < |c.tickets| && c.tickets[u].fate.Sent?
      ensures (u, c.tickets[u].fate.msg) in c.answers
    {
      assert u != t ==> c.tickets[u] == b.tickets[u];
    }
  }

  /** Ticket t has been answered over the network. */
  ghost predicate Answered(b: Book, t: nat) {
    exists i :: 0 <= i < |b.answers| && b.answers[i].0 == t
  }

  /** What the log says: at most one answer per ticket, the right one, and none just for running or pending tickets. */
  lemma AnswersOnce(H: seq<Byte> -> Digest, b: Book)
    requires BookInv(H, b)
    ensures forall i, j :: 0 <= i < j < |b.answers| ==> b.answers[i].0 != b.answers[j].0
    ensures forall i :: 0 <= i < |b.answers| ==>
              b.answers[i].0 < |b.tickets| && RightAnswer(H, Asked(b, b.answers[i].0), b.answers[i].1)
    ensures forall t :: 0 <= t < |b.tickets| ==>
              (Answered(b, t) <==> !IsRunning(b.tickets[t].fate) && !b.tickets[t].fate.Pending?)
  {
    forall i | 0 <= i < |b.answers|
      ensures RightAnswer(H, Asked(b, b.answers[i].0), b.answers[i].1)
    {
      assert RightTicket(H, b.tickets[b.answers[i].0]);
    }
    forall t | 0 <= t < |b.tickets| && b.tickets[t].fate.Sent?
      ensures Answered(b, t)
    {
      var i :| 0 <= i < |b.answers| && b.answers[i] == (t, b.tickets[t].fate.msg);
      assert b.answers[i].0 == t;
    }
  }

  lemma FollowsTrans(b: Book, c: Book, d: Book)
    requires Follows(b, c) && Follows(c, d)
    ensures Follows(b, d)
  {
  }

  /** As many jobs have been given up as the limit allows, and every ticket from `from` on was refused as busy. */
  predicate Exhausted(b: Book, from: nat) {
    && GivenUp(b.tickets) >= b.maxJobs
    && forall t :: from <= t < |b.tickets| ==>
         var f := b.tickets[t].fate; (f.Pending? || f.Sent?) && f.msg == StatusMsg(Asked(b, t).id, Busy)
  }

  /** Since giving up is never uncounted, a worker that has given up maxJobs jobs refuses everything from then on. */
  lemma AdmitExhausted(b: Book, p: Packet, full: bool, maxDifficulty: Uint8, from: nat)
    requires Counted(b) && Exhausted(b, from)
    ensures Exhausted(Admit(b, p, full, maxDifficulty), from)
  {
    var c := Admit(b, p, full, maxDifficulty);
    var x := Ticket(p, Pending(StatusMsg(RequestOf(p).id, Busy)));
    assert b.currentJobs >= b.maxJobs;
    assert Appends(b, c, x);
    AppendCounts(b, c, x);
    forall t | from <= t < |c.tickets|
      ensures !IsRunning(c.tickets[t].fate) && c.tickets[t].fate.msg == StatusMsg(Asked(c, t).id, Busy)
    {
      if t < |b.tickets| {
        assert c.tickets[t] == b.tickets[t];
      }
    }
  }

  lemma FollowsExhausted(b: Book, c: Book, from: nat)
    requires Exhausted(b, from) && Follows(b, c) && |c.tickets| == |b.tickets|
    ensures Exhausted(c, from)
  {
  }
}
