/** The service object of service.go: its fields, its two stores, and the handlers that change them. */
module Demo {
  import opened Bytes
  import opened Protocol
  import opened Work
  import opened WorkerSide
  import opened RequesterSide
  import opened Service
  import Results
  import Submits

  /** What an object of the service class shows of its node. */
  datatype Fields = Fields(
    maxDifficulty: Uint8, workers: map<Peer, Uint8>, locked: bool, maxJobs: int, currentJobs: int,
    results: Results.Store, submits: Submits.Cache, serial: nat, saves: seq<Save>)

  function Shown(n: Node): Fields {
    Fields(n.maxDifficulty, n.workers, n.locked, n.book.maxJobs, n.book.currentJobs,
           n.results, n.desk.submits, n.desk.serial, n.desk.saves)
  }

  class DemoService {
    const maxJobs: int
    var currentJobs: int
    var maxDifficulty: Uint8
    var workers: map<Peer, Uint8>
    const submits: Submits.SubmitStore
    const results: Results.ResultStore
    /** the calls of the save callback */
    var saves: seq<Save>
    /** the mutex is held by a call that has returned */
    var locked: bool
    /** this node in the state machine: the fields above, and the goroutines that are under way */
    ghost var node: Node

    constructor (
      maxJobs: int, maxDifficulty: Uint8, submitCapacity: nat, resultCapacity: nat, releaseDelay: nat)
      requires submitCapacity > 0
      ensures Valid() && IsNew(node) && node == NewNode(maxJobs, maxDifficulty, submitCapacity, resultCapacity)
    {
      this.maxJobs, currentJobs, this.maxDifficulty := maxJobs, 0, maxDifficulty;
      workers, saves, locked := map[], [], false;
      submits := new Submits.SubmitStore(submitCapacity);
      results := new Results.ResultStore(resultCapacity, releaseDelay);
      node := NewNode(maxJobs, maxDifficulty, submitCapacity, resultCapacity);
      new;
      assert submits.State() == Submits.Empty(submitCapacity);
    }

    ghost predicate StoresValid()
      reads submits, submits.entries, results, results.entries
    {
      Submits.Sound(submits.State()) && results.Valid() && submits.entries as object != results.entries
    }

    function Own(): Fields
      reads this, submits, submits.entries, results, results.entries
    {
      Fields(maxDifficulty, workers, locked, maxJobs, currentJobs,
             results.State(), submits.State(), submits.serial, saves)
    }

    ghost predicate Valid()
      reads this, submits, submits.entries, results, results.entries
      ensures Valid() ==> Ready(node)
    {
      StoresValid() && Shown(node) == Own()
    }

    method SkillsHandler(difficulty: Uint8, peer: Peer)
      requires Valid() && !locked
      modifies this`workers, this`node
      ensures Valid() && node == HandleSkills(old(node), difficulty, peer)
      ensures workers == old(workers)[peer := difficulty]
    {
      workers := workers[peer := difficulty];
      node := HandleSkills(node, difficulty, peer);
    }

    method StatusHandler(id: ID, code: Code)
      requires Valid() && !locked
      modifies this`node, results, results.entries
      ensures Valid() && node == HandleStatus(old(node), id, code)
      ensures code != ThanksABunch || maxDifficulty == 0 ==> node == old(node)
      ensures node == old(node).(results := results.State())
      ensures code == ThanksABunch && maxDifficulty > 0 ==>
                results.State() == Results.Remove(old(results.State()), id, false)
      ensures code == ThanksABunch && maxDifficulty > 0
              && Results.Coherent(old(results.State())) && !Results.LastOfMany(old(results.State()), id) ==>
                Results.Coherent(results.State())
                && Results.View(results.State()) == Results.View(old(results.State())) - {id}
    {
      ghost var n := node;
      if code == ThanksABunch && maxDifficulty > 0 {
        results.Del(id);
      }
      assert submits.State() == n.desk.submits;
      node := HandleStatus(n, id, code);
    }

    /** The reply sent at once, if any; without one a job has been started. */
    method RequestHandler(p: Packet) returns (reply: Option<Code>)
      requires Valid() && !locked && p.msg.RequestMsg?
      modifies this`currentJobs, this`node
      ensures Valid() && node == HandleRequest(old(node), p)
      ensures reply == Some(Busy) <==> old(currentJobs) >= maxJobs || Results.Full(old(results.State()))
      ensures reply == Some(AreYouKidding) <==> reply != Some(Busy) && maxDifficulty < p.msg.request.difficulty
      ensures node.book.maxJobs == old(node).book.maxJobs && node.book.answers == old(node).book.answers
      ensures node.book.tickets ==
              old(node).book.tickets +
              [Ticket(p, if reply.None? then Searching else Pending(StatusMsg(p.msg.request.id, reply.value)))]
      ensures currentJobs == old(currentJobs) + (if reply.None? then 1 else 0)
    {
      AdmitBooks(node.book, p, Results.Full(results.State()), maxDifficulty);
      var full := results.IsFull();
      node := HandleRequest(node, p);
      if currentJobs >= maxJobs || full {
        return Some(Busy);
      }
      if maxDifficulty < p.msg.request.difficulty {
        return Some(AreYouKidding);
      }
      currentJobs := currentJobs + 1;
      return None;
    }

    /** Whether the result was saved, and a thanks is sent. */
    method ResultHandler(H: seq<Byte> -> Digest, res: Result, honest: bool) returns (saved: bool)
      requires Valid() && !locked
      modifies this`saves, this`node
      ensures Valid() && node == HandleResult(H, old(node), res, honest)
      ensures saved <==> Accepts(H, old(node).desk, res)
      ensures saves == if saved then old(saves) + [Save(res.id, Submits.DifficultyOf(old(submits.State()), res.id),
                                                        Submits.DataOf(old(submits.State()), res.id),
                                                        res.nonce, res.hash, honest)]
                       else old(saves)
    {
      var data, difficulty;
      saved, data, difficulty := LookUp(H, res);
      if saved {
        saves := saves + [Save(res.id, difficulty, data, res.nonce, res.hash, honest)];
      }
      node := HandleResult(H, node, res, honest);
    }

    /** The reading part of the result handler. */
    method LookUp(H: seq<Byte> -> Digest, res: Result) returns (ok: bool, data: Slice, difficulty: Uint8)
      requires Valid()
      ensures ok <==> Accepts(H, node.desk, res)
      ensures data == Submits.DataOf(node.desk.submits, res.id)
      ensures difficulty == Submits.DifficultyOf(node.desk.submits, res.id)
    {
      var have := submits.Have(res.id);
      data := submits.GetData(res.id);
      difficulty := submits.GetDifficulty(res.id);
      ok := have && CheckJob(H, res.hash, data, res.nonce);
    }

    /** With no worker to pick, the call returns an error and leaves the lock held. */
    method Submit(H: seq<Byte> -> Digest, data: Slice, difficulty: Uint8) returns (id: Option<ID>, ghost choice: Peer)
      requires Valid() && !locked
      modifies this`locked, this`node, submits`serial
      ensures Valid() && node == SubmitRequest(H, old(node), data, difficulty, choice)
      ensures id == if SomeWorkerFits(old(node), difficulty) then Some(H(data.Content())[..ID_SIZE]) else None
      ensures id.Some? ==> Fits(old(node), choice, difficulty)
      ensures locked <==> id.None?
    {
      ghost var n := node;
      var worker := GetNextWorker(difficulty);
      if worker.None? {
        locked, choice := true, 0;
        node := SubmitRequest(H, n, data, difficulty, 0);
        return None, choice;
      }
      choice := worker.value;
      var serial := submits.IncSerial();
      node := SubmitRequest(H, n, data, difficulty, choice);
      return Some(NewID(H, data, serial)), choice;
    }

    method GetNextWorker(difficulty: Uint8) returns (p: Option<Peer>)
      requires Valid()
      ensures p.None? <==> !SomeWorkerFits(node, difficulty)
      ensures p.Some? ==> Fits(node, p.value, difficulty)
    {
      if q :| q in workers && workers[q] >= difficulty {
        assert Fits(node, q, difficulty);
        return Some(q);
      }
      return None;
    }

    /** The goroutine of a submission when its send has returned: it goes on to the put only without an error. */
    method SendReturned(ghost i: nat, sent: bool) returns (putting: bool)
      requires Valid() && i in node.desk.sending
      modifies this`node
      ensures Valid() && node == old(node).(desk := AfterSend(old(node).desk, i, sent))
      ensures putting == sent && i !in node.desk.sending
      ensures putting ==> i in node.desk.putting && node.desk.putting[i] == old(node).desk.sending[i].0
    {
      node := node.(desk := AfterSend(node.desk, i, sent));
      return sent;
    }

    /** Its put of the request that it captured; other handlers may have run since the send. */
    method PutSent(req: Request, ghost i: nat)
      requires Valid() && i in node.desk.putting && node.desk.putting[i] == req
      modifies this`node, submits, submits.entries
      ensures Valid() && node == old(node).(desk := AfterPut(old(node).desk, i))
    {
      ghost var n := node;
      PutInCache(req);
      node := n.(desk := AfterPut(n.desk, i));
    }

    method PutInCache(req: Request)
      requires StoresValid()
      modifies submits, submits.entries
      ensures StoresValid() && results.State() == old(results.State()) && submits.serial == old(submits.serial)
      ensures submits.State() == Submits.Insert(old(submits.State()), req, req.id).0
    {
      var ok := submits.Put(req, req.id);
    }

    /** The end of a job's goroutine: store the result, whether or not there is room, then uncount the job. */
    method StoreResult(H: seq<Byte> -> Digest, res: Result, now: int, ghost t: nat, ghost k: nat)
      requires Valid() && Hunting(node.book, t) && res == ResultAfter(H, Asked(node.book, t), k)
      modifies this`node, results, results.entries
      ensures Valid() && node == StoreFound(H, old(node), t, k, now + results.releaseDelay)
      ensures !Results.Full(old(results.State())) ==> Results.Lookup(results.State(), res.id) == Some(res)
      ensures Results.Full(old(results.State())) ==> results.State() == old(results.State())
    {
      ghost var n := node;
      var ok := results.Put(res.id, res, now);
      assert submits.State() == n.desk.submits;
      node := StoreFound(H, n, t, k, now + results.releaseDelay);
    }

    method ReleaseJob(ghost t: nat)
      requires Valid() && !locked && Holding(node.book, t)
      modifies this`currentJobs, this`node
      ensures Valid() && node == old(node).(book := Release(old(node).book, t))
      ensures currentJobs == old(currentJobs) - 1
    {
      currentJobs := currentJobs - 1;
      node := node.(book := Release(node.book, t));
    }
  }
}
