/** doJob and the search of work.go as two goroutines that meet over two unbuffered channels, in every interleaving. */
module Rendezvous {
  import opened Bytes
  import opened Minipow
  import opened Work

  /** Where doJob is. A returned nonce is a view into the buffer, so only the hash is stored here. */
  datatype JobPc = Selecting | SendingQuit | Failed | Returned(hash: Slice)

  /** Where the search is: before the poll, after it, blocked on a send, or gone. */
  datatype MinePc = Polling | Trying | Sending(result: Slice) | Exited | Crashed

  datatype State = State(
    raw: seq<Byte>, difficulty: int, job: JobPc, mine: MinePc, buffer: seq<Byte>, expired: bool, tries: nat)

  datatype Step = Expire | SelectDone | SelectResult | PollQuit | PollDefault | TryNonce

  function Start(raw: seq<Byte>, difficulty: int): State {
    State(raw, difficulty, Selecting, Polling, WorkData(raw), false, 0)
  }

  /** A step of either goroutine, or the passing of the deadline. A send needs its receiver to be waiting. */
  predicate Enabled(s: State, step: Step) {
    && s.mine != Crashed
    && match step {
         case Expire => !s.expired
         case SelectDone => s.job == Selecting && s.expired
         case SelectResult => s.job == Selecting && s.mine.Sending?
         case PollQuit => s.job == SendingQuit && s.mine == Polling
         case PollDefault => s.job != SendingQuit && s.mine == Polling
         case TryNonce => s.mine == Trying
       }
  }

  function Next(H: seq<Byte> -> Digest, s: State, step: Step): State
    requires Enabled(s, step)
  {
    match step
    case Expire => s.(expired := true)
    case SelectDone => s.(job := SendingQuit)
    case SelectResult => s.(job := Returned(s.mine.result), mine := Exited)
    case PollQuit => s.(job := Failed, mine := Sending(Nil))
    case PollDefault => s.(mine := Trying)
    case TryNonce =>
      var b := Increment(s.buffer);
      s.(buffer := b, tries := s.tries + 1,
         mine := match Judge(s.difficulty, H(b))
                 case Reject => Polling
                 case Accept => Sending(Slice(H(b)))
                 case IndexPanic => Crashed)
  }

  function Run(H: seq<Byte> -> Digest, s: State, steps: seq<Step>): (t: State)
    ensures |t.buffer| == |s.buffer| && t.raw == s.raw && t.difficulty == s.difficulty
    decreases |steps|
  {
    if steps == [] then s
    else if Enabled(s, steps[0]) then Run(H, Next(H, s, steps[0]), steps[1..])
    else Run(H, s, steps[1..])
  }

  ghost predicate Inv(H: seq<Byte> -> Digest, s: State) {
    && s.buffer == Buffer(s.raw, s.tries)
    && (forall j: nat :: 1 <= j < s.tries ==> Judge(s.difficulty, H(IncrementN(WorkData(s.raw), j))) == Reject)
    && match s.mine {
         case Polling => !Ended(s) && LastRejected(H, s)
         case Trying => !Ended(s) && LastRejected(H, s)
         case Sending(Nil) => s.job == Failed && LastRejected(H, s)
         case Sending(Slice(h)) => !Ended(s) && LastAccepted(H, s) && h == H(s.buffer)
         case Exited => LastAccepted(H, s) && s.job == Returned(Slice(H(s.buffer)))
         case Crashed => !Ended(s) && s.tries >= 1 && Judge(s.difficulty, H(s.buffer)) == IndexPanic
       }
  }

  predicate Ended(s: State) {
    s.job.Failed? || s.job.Returned?
  }

  ghost predicate LastRejected(H: seq<Byte> -> Digest, s: State) {
    s.tries >= 1 ==> Judge(s.difficulty, H(s.buffer)) == Reject
  }

  ghost predicate LastAccepted(H: seq<Byte> -> Digest, s: State) {
    s.tries >= 1 && Judge(s.difficulty, H(s.buffer)) == Accept
  }

  lemma NextKeepsInv(H: seq<Byte> -> Digest, s: State, step: Step)
    requires Inv(H, s) && Enabled(s, step)
    ensures Inv(H, Next(H, s, step))
  {
  }

  lemma {:induction false} RunKeepsInv(H: seq<Byte> -> Digest, s: State, steps: seq<Step>)
    requires Inv(H, s)
    ensures Inv(H, Run(H, s, steps))
    decreases |steps|
  {
    if steps != [] {
      if Enabled(s, steps[0]) {
        NextKeepsInv(H, s, steps[0]);
      }
      RunKeepsInv(H, if Enabled(s, steps[0]) then Next(H, s, steps[0]) else s, steps[1..]);
    }
  }

  /** In every interleaving, a return without error carries the digest of the first accepted nonce, never nil. */
  lemma ReturnIsSolved(H: seq<Byte> -> Digest, raw: seq<Byte>, difficulty: int, steps: seq<Step>)
    ensures var s := Run(H, Start(raw, difficulty), steps);
            s.job.Returned? ==>
              && Solves(H, raw, difficulty, s.tries)
              && s.job.hash == Slice(H(s.buffer))
              && s.buffer[|raw|..] == NonceAfter(raw, s.tries)
              && (s.tries < NONCE_SPACE ==>
                    CheckJob(H, s.job.hash, Slice(raw), Slice(s.buffer[|raw|..])))
  {
    RunKeepsInv(H, Start(raw, difficulty), steps);
    var s := Run(H, Start(raw, difficulty), steps);
    if s.tries < NONCE_SPACE {
      CheckAcceptsFound(H, raw, s.tries);
    }
  }

  /** The nonce aliases the search's buffer, but nothing writes the buffer after the return. */
  lemma {:induction false} NonceIsFinal(H: seq<Byte> -> Digest, s: State, more: seq<Step>)
    requires Inv(H, s) && s.job.Returned?
    ensures var t := Run(H, s, more); t.job == s.job && t.buffer == s.buffer
    decreases |more|
  {
    if more != [] {
      NonceIsFinal(H, if Enabled(s, more[0]) then Next(H, s, more[0]) else s, more[1..]);
    }
  }

  /** Neither goroutine can move. */
  predicate Stuck(s: State) {
    forall step :: step != Expire ==> !Enabled(s, step)
  }

  /** doJob offers a quit while the search offers a digest. */
  predicate Deadlocked(s: State) {
    s.job == SendingQuit && s.mine.Sending?
  }

  /** doJob has given up and the search still offers its nil. */
  predicate Leaked(s: State) {
    s.job == Failed && s.mine == Sending(Nil)
  }

  /** In every run, short of a crash, the goroutines stop only when both are done, deadlocked, or one is leaked. */
  lemma StuckStates(H: seq<Byte> -> Digest, raw: seq<Byte>, difficulty: int, steps: seq<Step>)
    ensures var s := Run(H, Start(raw, difficulty), steps);
            s.mine != Crashed ==>
              (Stuck(s) <==> (s.job.Returned? && s.mine == Exited) || Deadlocked(s) || Leaked(s))
  {
    RunKeepsInv(H, Start(raw, difficulty), steps);
    var s := Run(H, Start(raw, difficulty), steps);
    if s.mine != Crashed && Stuck(s) {
      assert !Enabled(s, SelectDone) && !Enabled(s, SelectResult) && !Enabled(s, PollQuit);
      assert !Enabled(s, PollDefault) && !Enabled(s, TryNonce);
    }
  }

  /** A deadlock lasts: doJob then never returns, so its caller never answers the request. */
  lemma {:induction false} DeadlockIsFinal(H: seq<Byte> -> Digest, s: State, more: seq<Step>)
    requires Deadlocked(s)
    ensures Deadlocked(Run(H, s, more))
    decreases |more|
  {
    if more != [] {
      DeadlockIsFinal(H, if Enabled(s, more[0]) then Next(H, s, more[0]) else s, more[1..]);
    }
  }

  // ----- a solvable job can complete, and can deadlock -----

  /** k turns of the search, with no deadline passing. */
  function Turns(k: nat): seq<Step> {
    if k == 0 then [] else Turns(k - 1) + [PollDefault, TryNonce]
  }

  lemma {:induction false} RunAppend(H: seq<Byte> -> Digest, s: State, a: seq<Step>, b: seq<Step>)
    ensures Run(H, s, a + b) == Run(H, Run(H, s, a), b)
    decreases |a|
  {
    if a == [] {
      assert a + b == b;
    } else {
      assert (a + b)[1..] == a[1..] + b;
      RunAppend(H, if Enabled(s, a[0]) then Next(H, s, a[0]) else s, a[1..], b);
    }
  }

  lemma TurnOnce(H: seq<Byte> -> Digest, s: State)
    requires s.mine == Polling && s.job == Selecting
    ensures Run(H, s, [PollDefault, TryNonce]) == Next(H, s.(mine := Trying), TryNonce)
  {
    var t := s.(mine := Trying);
    assert Next(H, s, PollDefault) == t;
    assert [PollDefault, TryNonce][1..] == [TryNonce] && [TryNonce][1..] == [];
    assert Run(H, t, [TryNonce]) == Run(H, Next(H, t, TryNonce), []);
  }

  lemma {:induction false} TurnsSearch(H: seq<Byte> -> Digest, raw: seq<Byte>, difficulty: int, k: nat)
    requires forall j: nat :: 1 <= j <= k ==> Judge(difficulty, H(IncrementN(WorkData(raw), j))) == Reject
    ensures Run(H, Start(raw, difficulty), Turns(k)) ==
            State(raw, difficulty, Selecting, Polling, Buffer(raw, k), false, k)
  {
    if k > 0 {
      TurnsSearch(H, raw, difficulty, k - 1);
      RunAppend(H, Start(raw, difficulty), Turns(k - 1), [PollDefault, TryNonce]);
      TurnOnce(H, Run(H, Start(raw, difficulty), Turns(k - 1)));
    }
  }

  /** A job that the search can solve is returned in some interleaving, after exactly the solving number of tries. */
  lemma SolvableCanReturn(H: seq<Byte> -> Digest, raw: seq<Byte>, difficulty: int, k: nat)
    requires Solves(H, raw, difficulty, k)
    ensures var s := Run(H, Start(raw, difficulty), Turns(k) + [SelectResult]);
            s.job == Returned(Slice(H(Buffer(raw, k)))) && s.tries == k && s.buffer == Buffer(raw, k)
  {
    SolvingTurns(H, raw, difficulty, k);
    var s := Run(H, Start(raw, difficulty), Turns(k));
    RunAppend(H, Start(raw, difficulty), Turns(k), [SelectResult]);
    assert Run(H, s, [SelectResult]) == Run(H, Next(H, s, SelectResult), []);
  }

  /** After the solving number of turns the search offers its digest. */
  lemma SolvingTurns(H: seq<Byte> -> Digest, raw: seq<Byte>, difficulty: int, k: nat)
    requires Solves(H, raw, difficulty, k)
    ensures Run(H, Start(raw, difficulty), Turns(k)) ==
            State(raw, difficulty, Selecting, Sending(Slice(H(Buffer(raw, k)))), Buffer(raw, k), false, k)
  {
    BeforeSolved(H, raw, difficulty, k);
    RunAppend(H, Start(raw, difficulty), Turns(k - 1), [PollDefault, TryNonce]);
    TurnOnce(H, Run(H, Start(raw, difficulty), Turns(k - 1)));
  }

  /** The turns before the solving one reject, and the solving one accepts. */
  lemma BeforeSolved(H: seq<Byte> -> Digest, raw: seq<Byte>, difficulty: int, k: nat)
    requires Solves(H, raw, difficulty, k)
    ensures k >= 1 && Buffer(raw, k) == Increment(Buffer(raw, k - 1))
    ensures Judge(difficulty, H(Buffer(raw, k))) == Accept
    ensures Run(H, Start(raw, difficulty), Turns(k - 1)) ==
            State(raw, difficulty, Selecting, Polling, Buffer(raw, k - 1), false, k - 1)
  {
    TurnsSearch(H, raw, difficulty, k - 1);
  }

  /** The last turn, with the deadline passing between its poll and its nonce. */
  const LATE_TURN := [PollDefault, Expire, SelectDone, TryNonce]

  /** Whatever number of tries solves the job, a deadline that passes during the last of them ends in the deadlock. */
  lemma DeadlockAfter(H: seq<Byte> -> Digest, raw: seq<Byte>, difficulty: int, k: nat)
    requires Solves(H, raw, difficulty, k)
    ensures Deadlocked(Run(H, Start(raw, difficulty), Turns(k - 1) + LATE_TURN))
  {
    BeforeSolved(H, raw, difficulty, k);
    RunAppend(H, Start(raw, difficulty), Turns(k - 1), LATE_TURN);
    LateTurn(H, Run(H, Start(raw, difficulty), Turns(k - 1)));
  }

  lemma LateTurn(H: seq<Byte> -> Digest, s: State)
    requires s.mine == Polling && s.job == Selecting && !s.expired
    requires Judge(s.difficulty, H(Increment(s.buffer))) == Accept
    ensures Deadlocked(Run(H, s, LATE_TURN))
  {
    var s1 := Next(H, s, PollDefault);
    var s2 := Next(H, s1, Expire);
    var s3 := Next(H, s2, SelectDone);
    var s4 := Next(H, s3, TryNonce);
    assert LATE_TURN[1..] == [Expire, SelectDone, TryNonce];
    assert [Expire, SelectDone, TryNonce][1..] == [SelectDone, TryNonce];
    assert [SelectDone, TryNonce][1..] == [TryNonce] && [TryNonce][1..] == [];
    assert Run(H, s3, [TryNonce]) == Run(H, s4, []);
    assert Run(H, s1, [Expire, SelectDone, TryNonce]) == Run(H, s2, [SelectDone, TryNonce]);
  }

  /** After any turns that all reject, a deadline that the search meets at its poll ends in an error. */
  lemma ExpiredCanFail(H: seq<Byte> -> Digest, raw: seq<Byte>, difficulty: int, k: nat)
    requires forall j: nat :: 1 <= j <= k ==> Judge(difficulty, H(IncrementN(WorkData(raw), j))) == Reject
    ensures Run(H, Start(raw, difficulty), Turns(k) + [Expire, SelectDone, PollQuit]) ==
            State(raw, difficulty, Failed, Sending(Nil), Buffer(raw, k), true, k)
  {
    var s := State(raw, difficulty, Selecting, Polling, Buffer(raw, k), false, k);
    TurnsSearch(H, raw, difficulty, k);
    RunAppend(H, Start(raw, difficulty), Turns(k), [Expire, SelectDone, PollQuit]);
    var s1 := Next(H, s, Expire);
    var s2 := Next(H, s1, SelectDone);
    assert [Expire, SelectDone, PollQuit][1..] == [SelectDone, PollQuit];
    assert [SelectDone, PollQuit][1..] == [PollQuit] && [PollQuit][1..] == [];
    assert Run(H, s2, [PollQuit]) == Run(H, Next(H, s2, PollQuit), []);
    assert Run(H, s1, [SelectDone, PollQuit]) == Run(H, s2, [PollQuit]);
  }

  /** A crash ends both goroutines. */
  lemma {:induction false} CrashIsFinal(H: seq<Byte> -> Digest, s: State, more: seq<Step>)
    requires s.mine == Crashed
    ensures Run(H, s, more) == s
    decreases |more|
  {
    if more != [] {
      CrashIsFinal(H, s, more[1..]);
    }
  }

  /** A quit that is offered while the search is before its poll is taken by that poll: no other nonce is tried. */
  lemma {:induction false} QuitIsTaken(H: seq<Byte> -> Digest, s: State, more: seq<Step>)
    requires s.job == SendingQuit && s.mine == Polling
    ensures Enabled(s, PollQuit)
    ensures var t := Run(H, s, more);
            && t.buffer == s.buffer && t.tries == s.tries
            && ((t.job == SendingQuit && t.mine == Polling) || (t.job == Failed && t.mine == Sending(Nil)))
            && (PollQuit in more ==> t.job == Failed)
    decreases |more|
  {
    if more != [] {
      assert more == [more[0]] + more[1..];
      var u := if Enabled(s, more[0]) then Next(H, s, more[0]) else s;
      if u.job == SendingQuit {
        QuitIsTaken(H, u, more[1..]);
      } else {
        FailedStays(H, u, more[1..]);
      }
    }
  }

  lemma {:induction false} FailedStays(H: seq<Byte> -> Digest, s: State, more: seq<Step>)
    requires s.job == Failed && s.mine == Sending(Nil)
    ensures var t := Run(H, s, more); t == s.(expired := t.expired)
    decreases |more|
  {
    if more != [] {
      FailedStays(H, if Enabled(s, more[0]) then Next(H, s, more[0]) else s, more[1..]);
    }
  }

  /** In every run, doJob quits or fails only after the deadline. */
  lemma {:induction false} FailsOnlyExpired(H: seq<Byte> -> Digest, s: State, steps: seq<Step>)
    requires s.job == SendingQuit || s.job == Failed ==> s.expired
    ensures var t := Run(H, s, steps); t.job == SendingQuit || t.job == Failed ==> t.expired
    decreases |steps|
  {
    if steps != [] {
      FailsOnlyExpired(H, if Enabled(s, steps[0]) then Next(H, s, steps[0]) else s, steps[1..]);
    }
  }

  /** The search can crash exactly on the jobs whose first digest that is not rejected makes the comparison panic. */
  lemma CrashIff(H: seq<Byte> -> Digest, raw: seq<Byte>, difficulty: int)
    ensures (exists steps :: Run(H, Start(raw, difficulty), steps).mine == Crashed) <==>
            (exists k: nat :: Panics(H, raw, difficulty, k))
  {
    if steps :| Run(H, Start(raw, difficulty), steps).mine == Crashed {
      RunKeepsInv(H, Start(raw, difficulty), steps);
      assert Panics(H, raw, difficulty, Run(H, Start(raw, difficulty), steps).tries);
    }
    if k: nat :| Panics(H, raw, difficulty, k) {
      CrashAfter(H, raw, difficulty, k);
    }
  }

  lemma CrashAfter(H: seq<Byte> -> Digest, raw: seq<Byte>, difficulty: int, k: nat)
    requires Panics(H, raw, difficulty, k)
    ensures Run(H, Start(raw, difficulty), Turns(k)).mine == Crashed
  {
    TurnsSearch(H, raw, difficulty, k - 1);
    assert Buffer(raw, k) == Increment(Buffer(raw, k - 1));
    RunAppend(H, Start(raw, difficulty), Turns(k - 1), [PollDefault, TryNonce]);
    TurnOnce(H, Run(H, Start(raw, difficulty), Turns(k - 1)));
  }

  /** doJob can deadlock exactly on the jobs that can be solved at all. */
  lemma DeadlockIff(H: seq<Byte> -> Digest, raw: seq<Byte>, difficulty: int)
    ensures (exists steps :: Deadlocked(Run(H, Start(raw, difficulty), steps))) <==>
            (exists k: nat :: Solves(H, raw, difficulty, k))
  {
    if steps :| Deadlocked(Run(H, Start(raw, difficulty), steps)) {
      RunKeepsInv(H, Start(raw, difficulty), steps);
      assert Solves(H, raw, difficulty, Run(H, Start(raw, difficulty), steps).tries);
    }
    if k: nat :| Solves(H, raw, difficulty, k) {
      DeadlockAfter(H, raw, difficulty, k);
    }
  }
}
