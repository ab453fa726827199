/** The requester's half of service.go: submitting requests, caching them once sent, and saving accepted results. */
module RequesterSide {
  import opened Bytes
  import opened Protocol
  import opened Submits
  import opened Work
  import opened WorkerSide

  /** A call of the save callback; `honest` is that of the packet that led to it. */
  datatype Save = Save(id: ID, difficulty: Uint8, data: Slice, nonce: Slice, hash: Slice, honest: bool)

  /**
   * `sending` and `putting` are the goroutines of SubmitRequest, by submission number, before and after their
   * send; `submitted` collects every request ever made up, and `saves` logs the calls of the callback.
   */
  datatype Desk = Desk(
    submits: Cache,
    serial: nat,
    submissions: nat,
    sending: map<nat, (Request, Peer)>,
    putting: map<nat, Request>,
    submitted: set<Request>,
    saves: seq<Save>)

  /** The serial is written to a buffer that the digest never reads. */
  function NewID(H: seq<Byte> -> Digest, data: Slice, serial: nat): ID {
    H(data.Content())[..ID_SIZE]
  }

  function SubmitTo(H: seq<Byte> -> Digest, k: Desk, data: Slice, difficulty: Uint8, worker: Peer): Desk {
    var serial := (k.serial + 1) % 0x1_0000_0000_0000_0000;
    var req := Request(NewID(H, data, serial), data, difficulty);
    k.(serial := serial,
       submissions := k.submissions + 1,
       sending := k.sending[k.submissions := (req, worker)],
       submitted := k.submitted + {req})
  }

  function AfterSend(k: Desk, i: nat, ok: bool): Desk
    requires i in k.sending
  {
    k.(sending := k.sending - {i}, putting := if ok then k.putting[i := k.sending[i].0] else k.putting)
  }

  function AfterPut(k: Desk, i: nat): Desk
    requires Sound(k.submits) && i in k.putting
  {
    k.(putting := k.putting - {i}, submits := Insert(k.submits, k.putting[i], k.putting[i].id).0)
  }

  /** The id is cached and the hash is that of the cached data and the nonce. Difficulty is not looked at. */
  predicate Accepts(H: seq<Byte> -> Digest, k: Desk, res: Result) {
    res.id in k.submits.idx && CheckJob(H, res.hash, DataOf(k.submits, res.id), res.nonce)
  }

  function Receive(H: seq<Byte> -> Digest, k: Desk, res: Result, honest: bool): Desk {
    if !Accepts(H, k, res) then k else
      k.(saves := k.saves +
          [Save(res.id, DifficultyOf(k.submits, res.id), DataOf(k.submits, res.id), res.nonce, res.hash, honest)])
  }

  // ----- what every step keeps -----

  /** A saved id, difficulty and data are those of one submitted request, and the hash is of its data and the nonce. */
  ghost predicate GoodSave(H: seq<Byte> -> Digest, submitted: set<Request>, v: Save) {
    && Request(v.id, v.data, v.difficulty) in submitted
    && v.data.Slice? && v.nonce.Slice? && v.hash.Slice?
    && v.hash.bytes == H(v.data.bytes + v.nonce.bytes)
  }

  /** Everything cached, on its way to the cache, or saved, was submitted here. */
  ghost predicate DeskInv(H: seq<Byte> -> Digest, k: Desk) {
    && Sound(k.submits)
    && (forall i :: i in k.sending ==> k.sending[i].0 in k.submitted)
    && (forall i :: i in k.putting ==> k.putting[i] in k.submitted)
    && (forall id :: id in k.submits.idx ==> k.submits.idx[id] in k.submitted && k.submits.idx[id].id == id)
    && (forall i :: 0 <= i < |k.saves| ==> GoodSave(H, k.submitted, k.saves[i]))
  }

  /** A submission makes up one request for the data and difficulty, named by the data alone, for the chosen worker. */
  lemma SubmitInv(H: seq<Byte> -> Digest, k: Desk, data: Slice, difficulty: Uint8, worker: Peer)
    requires DeskInv(H, k)
    ensures DeskInv(H, SubmitTo(H, k, data, difficulty, worker))
    ensures var req := Request(H(data.Content())[..ID_SIZE], data, difficulty);
            var m := SubmitTo(H, k, data, difficulty, worker);
            && m.submitted == k.submitted + {req}
            && m.sending == k.sending[k.submissions := (req, worker)]
            && m.submits == k.submits && m.putting == k.putting && m.saves == k.saves
            && m.submissions == k.submissions + 1 && m.serial == (k.serial + 1) % 0x1_0000_0000_0000_0000
  {
  }

  lemma SendInv(H: seq<Byte> -> Digest, k: Desk, i: nat, ok: bool)
    requires DeskInv(H, k) && i in k.sending
    ensures DeskInv(H, AfterSend(k, i, ok))
  {
  }

  /**
   * A submission is sent once; only then, and only if the send went through, the same request waits to be put. The put
   * takes it off, and offers it to the cache under its own id.
   */
  lemma SubmissionSteps(k: Desk, i: nat, j: nat, ok: bool)
    ensures i in k.sending ==>
              var m := AfterSend(k, i, ok);
              && m == k.(sending := m.sending, putting := m.putting)
              && (j in m.sending <==> j in k.sending && j != i)
              && (j in m.sending ==> m.sending[j] == k.sending[j])
              && (j in m.putting <==> j in k.putting || (ok && j == i))
              && (j in m.putting ==> m.putting[j] == if ok && j == i then k.sending[i].0 else k.putting[j])
    ensures i in k.putting && Sound(k.submits) ==>
              var m := AfterPut(k, i);
              && m == k.(submits := m.submits, putting := m.putting)
              && (j in m.putting <==> j in k.putting && j != i)
              && (j in m.putting ==> m.putting[j] == k.putting[j])
              && (m.submits, k.putting[i].id !in k.submits.idx) == Insert(k.submits, k.putting[i], k.putting[i].id)
  {
  }

  lemma PutInv(H: seq<Byte> -> Digest, k: Desk, i: nat)
    requires DeskInv(H, k) && i in k.putting
    ensures DeskInv(H, AfterPut(k, i))
  {
    var m := AfterPut(k, i);
    forall id | id in m.submits.idx
      ensures m.submits.idx[id] in k.submitted && m.submits.idx[id].id == id
    {
      assert m.submits.idx[id] == if id in k.submits.idx then k.submits.idx[id] else k.putting[i];
    }
  }

  lemma ReceiveInv(H: seq<Byte> -> Digest, k: Desk, res: Result, honest: bool)
    requires DeskInv(H, k)
    ensures DeskInv(H, Receive(H, k, res, honest))
  {
    if Accepts(H, k, res) {
      var m := Receive(H, k, res, honest);
      assert GoodSave(H, k.submitted, m.saves[|k.saves|]) by {
        assert k.submits.idx[res.id] in k.submitted;
      }
      assert forall i :: 0 <= i < |k.saves| ==> m.saves[i] == k.saves[i];
    }
  }

  /** From k to m at most one save was made, for what k has cached under its id. */
  ghost predicate SavesCached(H: seq<Byte> -> Digest, k: Desk, m: Desk) {
    m.saves == k.saves
    || (|m.saves| == |k.saves| + 1 && m.saves[..|k.saves|] == k.saves && IsCached(H, k, m.saves[|k.saves|]))
  }

  predicate IsCached(H: seq<Byte> -> Digest, k: Desk, v: Save) {
    && v.id in k.submits.idx && k.submits.idx[v.id] == Request(v.id, v.data, v.difficulty)
    && CheckJob(H, v.hash, v.data, v.nonce)
  }

  lemma ReceiveSaves(H: seq<Byte> -> Digest, k: Desk, res: Result, honest: bool)
    requires DeskInv(H, k)
    ensures SavesCached(H, k, Receive(H, k, res, honest))
  {
    if Accepts(H, k, res) {
      var m := Receive(H, k, res, honest);
      assert m.saves[..|k.saves|] == k.saves;
      assert IsCached(H, k, m.saves[|k.saves|]);
    }
  }

  /**
   * The handler's reads in detail: it looks the id up (in `have`), gets the data to check (`first`), the difficulty
   * (`second`), and the data again (`last`). Puts of other goroutines can come in between.
   */
  function SaveFrom(H: seq<Byte> -> Digest, have: Cache, first: Cache, second: Cache, last: Cache, res: Result,
                    honest: bool): seq<Save> {
    if res.id in have.idx && CheckJob(H, res.hash, DataOf(first, res.id), res.nonce) then
      [Save(res.id, DifficultyOf(second, res.id), DataOf(last, res.id), res.nonce, res.hash, honest)]
    else []
  }

  /** With no put in between this is the step Receive. */
  lemma SaveFromOne(H: seq<Byte> -> Digest, k: Desk, res: Result, honest: bool)
    ensures Receive(H, k, res, honest).saves ==
            k.saves + SaveFrom(H, k.submits, k.submits, k.submits, k.submits, res, honest)
  {
  }

  /**
   * What a look-up of the id of r shows after some puts: r's own data and difficulty as long as it stays cached, and
   * then nothing, or those of a later put of the id.
   */
  predicate ReadsAs(t: Cache, r: Request, stays: bool, puts: seq<Request>) {
    var data, difficulty := DataOf(t, r.id), DifficultyOf(t, r.id);
    if stays then data == r.data && difficulty == r.difficulty
    else (data == Nil && difficulty == 0) || Request(r.id, data, difficulty) in puts
  }

  /**
   * What a handler saves when any puts come between its reads. As long as the accepted ones do not evict request j, it
   * saves what the single step saves. From the eviction on a read shows nothing, or a later put of the id.
   */
  lemma AnyPutsBetweenReads(H: seq<Byte> -> Digest, k: Desk, log: seq<Request>, j: nat,
                            a: seq<Request>, b: seq<Request>, c: seq<Request>, res: Result, honest: bool)
    requires IsQueued(k.submits, log, j) && res.id == log[j].id
    ensures var (first, x) := InsertAll(k.submits, a);
            var (second, y) := InsertAll(first, b);
            var (last, z) := InsertAll(second, c);
            var room := j + |k.submits.entries| - |log|;
            && ReadsAs(first, log[j], x <= room, a)
            && ReadsAs(second, log[j], x + y <= room, a + b)
            && ReadsAs(last, log[j], x + y + z <= room, a + b + c)
            && (x + y + z <= room ==>
                  Receive(H, k, res, honest).saves ==
                  k.saves + SaveFrom(H, k.submits, first, second, last, res, honest))
  {
    InsertAllAppend(k.submits, a, b);
    InsertAllAppend(k.submits, a + b, c);
    ReadAfterPuts(k.submits, log, j, []);
    ReadAfterPuts(k.submits, log, j, a);
    ReadAfterPuts(k.submits, log, j, a + b);
    ReadAfterPuts(k.submits, log, j, a + b + c);
    QueuedIsFound(k.submits, log, j);
    SaveFromOne(H, k, res, honest);
  }

  lemma ReadAfterPuts(s: Cache, log: seq<Request>, j: nat, puts: seq<Request>)
    requires IsQueued(s, log, j)
    ensures var (t, n) := InsertAll(s, puts); ReadsAs(t, log[j], |log| + n <= j + |s.entries|, puts)
  {
    LookupsAfterPuts(s, log, j, puts);
  }

  /**
   * With no put of the id itself the accepted puts decide exactly: evicted before the check, nothing is saved; after
   * it, difficulty 0; and after the difficulty was read, nil data. So an accepted result is saved as by the single step
   * exactly if none of the puts evicts the request.
   */
  lemma PutsBetweenReads(H: seq<Byte> -> Digest, k: Desk, log: seq<Request>, j: nat,
                         a: seq<Request>, b: seq<Request>, c: seq<Request>, res: Result, honest: bool)
    requires IsQueued(k.submits, log, j) && res.id == log[j].id
    requires forall r :: r in a + b + c ==> r.id != res.id
    ensures var (first, x) := InsertAll(k.submits, a);
            var (second, y) := InsertAll(first, b);
            var (last, z) := InsertAll(second, c);
            var room := j + |k.submits.entries| - |log|;
            var saved := SaveFrom(H, k.submits, first, second, last, res, honest);
            && saved == (if x > room || !CheckJob(H, res.hash, log[j].data, res.nonce) then []
                         else [Save(res.id, if x + y <= room then log[j].difficulty else 0,
                                    if x + y + z <= room then log[j].data else Nil, res.nonce, res.hash, honest)])
            && (Receive(H, k, res, honest).saves == k.saves + saved <==>
                x + y + z <= room || !CheckJob(H, res.hash, log[j].data, res.nonce))
  {
    AnyPutsBetweenReads(H, k, log, j, a, b, c, res, honest);
    var (first, x) := InsertAll(k.submits, a);
    var (second, y) := InsertAll(first, b);
    var (last, z) := InsertAll(second, c);
    var room := j + |k.submits.entries| - |log|;
    ReadsExactly(first, log[j], x <= room, a);
    ReadsExactly(second, log[j], x + y <= room, a + b);
    ReadsExactly(last, log[j], x + y + z <= room, a + b + c);
    QueuedIsFound(k.submits, log, j);
    SavesExactly(H, k, first, second, last, log[j], x <= room, x + y <= room, x + y + z <= room, res, honest);
  }

  lemma ReadsExactly(t: Cache, r: Request, stays: bool, puts: seq<Request>)
    requires ReadsAs(t, r, stays, puts) && forall q :: q in puts ==> q.id != r.id
    ensures DataOf(t, r.id) == (if stays then r.data else Nil)
    ensures DifficultyOf(t, r.id) == (if stays then r.difficulty else 0)
  {
  }

  /** From the exact reads to what is saved, against the single step. */
  lemma SavesExactly(H: seq<Byte> -> Digest, k: Desk, first: Cache, second: Cache, last: Cache, r: Request,
                     checks: bool, rates: bool, stays: bool, res: Result, honest: bool)
    requires res.id == r.id && r.id in k.submits.idx && k.submits.idx[r.id] == r
    requires (stays ==> rates) && (rates ==> checks)
    requires DataOf(first, r.id) == if checks then r.data else Nil
    requires DifficultyOf(second, r.id) == if rates then r.difficulty else 0
    requires DataOf(last, r.id) == if stays then r.data else Nil
    ensures var saved := SaveFrom(H, k.submits, first, second, last, res, honest);
            && saved == (if !checks || !CheckJob(H, res.hash, r.data, res.nonce) then []
                         else [Save(res.id, if rates then r.difficulty else 0, if stays then r.data else Nil,
                                    res.nonce, res.hash, honest)])
            && (Receive(H, k, res, honest).saves == k.saves + saved <==>
                stays || !CheckJob(H, res.hash, r.data, res.nonce))
  {
    var saved, now := SaveFrom(H, k.submits, first, second, last, res, honest), Receive(H, k, res, honest).saves;
    if CheckJob(H, res.hash, r.data, res.nonce) {
      assert r.data != Nil;
      assert now[|k.saves|].data == r.data && |now| == |k.saves| + 1;
      if checks {
        assert (k.saves + saved)[|k.saves|] == saved[0];
      } else {
        assert |k.saves + saved| == |k.saves|;
      }
    } else {
      assert saved == [] && k.saves + saved == k.saves;
    }
  }

  /** Some submitted request has the result's id and is solved by it. */
  ghost predicate SolvesOwn(H: seq<Byte> -> Digest, submitted: set<Request>, res: Result) {
    exists r :: r in submitted && Solved(H, r, res)
  }

  ghost predicate HonestSaves(H: seq<Byte> -> Digest, k: Desk) {
    forall i :: 0 <= i < |k.saves| && k.saves[i].honest ==>
      SolvesOwn(H, k.submitted, Result(k.saves[i].id, k.saves[i].nonce, k.saves[i].hash))
  }

  lemma SolvesOwnGrows(H: seq<Byte> -> Digest, submitted: set<Request>, more: set<Request>, res: Result)
    requires SolvesOwn(H, submitted, res) && submitted <= more
    ensures SolvesOwn(H, more, res)
  {
    var r :| r in submitted && Solved(H, r, res);
    assert r in more;
  }

  lemma HonestSavesGrow(H: seq<Byte> -> Digest, k: Desk, m: Desk)
    requires HonestSaves(H, k) && m.saves == k.saves && k.submitted <= m.submitted
    ensures HonestSaves(H, m)
  {
    forall i | 0 <= i < |m.saves| && m.saves[i].honest
      ensures SolvesOwn(H, m.submitted, Result(m.saves[i].id, m.saves[i].nonce, m.saves[i].hash))
    {
      SolvesOwnGrows(H, k.submitted, m.submitted, Result(k.saves[i].id, k.saves[i].nonce, k.saves[i].hash));
    }
  }

  lemma ReceiveHonest(H: seq<Byte> -> Digest, k: Desk, res: Result, honest: bool)
    requires HonestSaves(H, k) && (honest ==> SolvesOwn(H, k.submitted, res))
    ensures HonestSaves(H, Receive(H, k, res, honest))
  {
    if Accepts(H, k, res) {
      var m := Receive(H, k, res, honest);
      assert Result(m.saves[|k.saves|].id, m.saves[|k.saves|].nonce, m.saves[|k.saves|].hash) == res;
      assert forall i :: 0 <= i < |k.saves| ==> m.saves[i] == k.saves[i];
    }
  }
}
