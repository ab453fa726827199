/** The submit cache of submit.go: a wrapping array of requests with an index by id, which evicts in FIFO order. */
module Submits {
  import opened Arithmetic
  import opened Bytes
  import opened Protocol

  /** The store's fields; the capacity is the length of the array. */
  datatype Cache = Cache(entries: seq<Option<Request>>, cursor: nat, idx: map<ID, Request>)

  function Empty(capacity: nat): Cache {
    Cache(seq(capacity, _ => None), 0, map[])
  }

  /** The write position is a slot of the array. */
  predicate Sound(s: Cache) {
    s.cursor < |s.entries|
  }

  function Insert(s: Cache, req: Request, id: ID): (r: (Cache, bool))
    requires Sound(s)
    ensures Sound(r.0) && |r.0.entries| == |s.entries|
  {
    if id in s.idx then (s, false) else
      var c := Advance(s.cursor, |s.entries|);
      var idx := if s.entries[c].Some? then s.idx - {s.entries[c].value.id} else s.idx;
      (Cache(s.entries[c := Some(req)], c, idx[id := req]), true)
  }

  function DataOf(s: Cache, id: ID): Slice {
    if id in s.idx then s.idx[id].data else Nil
  }

  function DifficultyOf(s: Cache, id: ID): Uint8 {
    if id in s.idx then s.idx[id].difficulty else 0
  }

  // ----- the queue it stands for -----

  /** The array after the requests of `log` were written one after the other. */
  function Ring(capacity: nat, log: seq<Request>): (r: seq<Option<Request>>)
    requires capacity > 0
    ensures |r| == capacity
  {
    if log == [] then seq(capacity, _ => None) else
      Ring(capacity, log[..|log| - 1])[Cycle(0, |log|, capacity) := Some(log[|log| - 1])]
  }

  /** The last `capacity` of the accepted requests. */
  function Window(log: seq<Request>, capacity: nat): seq<Request> {
    if |log| <= capacity then log else log[|log| - capacity..]
  }

  predicate DistinctIds(q: seq<Request>) {
    forall i, j :: 0 <= i < j < |q| ==> q[i].id != q[j].id
  }

  predicate Holds(q: seq<Request>, id: ID) {
    exists i :: 0 <= i < |q| && q[i].id == id
  }

  predicate Agrees(idx: map<ID, Request>, q: seq<Request>) {
    && (forall i :: 0 <= i < |q| ==> q[i].id in idx && idx[q[i].id] == q[i])
    && (forall id :: id in idx ==> idx[id] in q && idx[id].id == id)
  }

  /** The cache after exactly the requests of `log` were accepted. */
  predicate Represents(s: Cache, log: seq<Request>) {
    && Sound(s)
    && s.cursor == Cycle(0, |log|, |s.entries|)
    && s.entries == Ring(|s.entries|, log)
    && DistinctIds(Window(log, |s.entries|))
    && Agrees(s.idx, Window(log, |s.entries|))
  }

  /** The slot that request number j of the log is written to: (j + 1) mod capacity. */
  function SlotOf(j: nat, capacity: nat): nat
    requires capacity > 0
  {
    Cycle(0, j + 1, capacity)
  }

  /** That slot holds request j as long as it is among the last `capacity`, and nothing before it is first written. */
  lemma {:induction false} RingAt(capacity: nat, log: seq<Request>, j: nat)
    requires capacity > 0 && |log| <= j + capacity && (j < |log| || j < capacity)
    ensures Ring(capacity, log)[SlotOf(j, capacity)] == if j < |log| then Some(log[j]) else None
  {
    if log != [] {
      var n := |log| - 1;
      if j < n {
        RingAt(capacity, log[..n], j);
        CycleDistinct(j + 1, n + 1, capacity);
      } else if j > n {
        RingAt(capacity, log[..n], j);
        CycleDistinct(n + 1, j + 1, capacity);
      }
    }
  }

  /** The slot that the next write takes holds the oldest request of a full window, and nothing before that. */
  lemma NextSlot(capacity: nat, log: seq<Request>)
    requires capacity > 0
    ensures Ring(capacity, log)[SlotOf(|log|, capacity)] ==
            if |log| < capacity then None else Some(log[|log| - capacity])
  {
    if |log| < capacity {
      RingAt(capacity, log, |log|);
    } else {
      RingAt(capacity, log, |log| - capacity);
      CycleAround(|log| - capacity + 1, capacity);
    }
  }

  /** What a put leaves of the window before it appends. */
  function Kept(q: seq<Request>, capacity: nat): seq<Request> {
    if |q| < capacity || q == [] then q else q[1..]
  }

  lemma WindowGrows(log: seq<Request>, req: Request, capacity: nat)
    requires capacity > 0
    ensures Window(log + [req], capacity) == Kept(Window(log, capacity), capacity) + [req]
  {
  }

  lemma EmptyRepresents(capacity: nat)
    requires capacity > 0
    ensures Represents(Empty(capacity), [])
  {
  }

  /**
   * A put is refused exactly when the id is among the last `capacity` accepted ones. An accepted put appends
   * to the log and evicts the oldest entry of a full cache, exactly when the request carries the id it is put under.
   */
  lemma InsertIsEnqueue(s: Cache, log: seq<Request>, req: Request, id: ID)
    requires Represents(s, log)
    ensures var (t, ok) := Insert(s, req, id);
            && (ok <==> !Holds(Window(log, |s.entries|), id))
            && (!ok ==> t == s)
            && (ok ==> (Represents(t, log + [req]) <==> req.id == id))
  {
    var q := Window(log, |s.entries|);
    if id in s.idx {
      assert s.idx[id] in q;
    } else {
      var (t, _) := Insert(s, req, id);
      InsertFields(s, log, req, id);
      KeptFits(s, log);
      WindowGrows(log, req, |s.entries|);
      if req.id == id {
        EnqueueAgrees(KeptIdx(s), Kept(q, |s.entries|), req);
      } else {
        assert t.idx[id].id != id;
      }
    }
  }

  /** The index after the eviction of a put. */
  function KeptIdx(s: Cache): map<ID, Request>
    requires Sound(s)
  {
    var c := Advance(s.cursor, |s.entries|);
    if s.entries[c].Some? then s.idx - {s.entries[c].value.id} else s.idx
  }

  lemma InsertFields(s: Cache, log: seq<Request>, req: Request, id: ID)
    requires Represents(s, log) && id !in s.idx
    ensures var (t, _) := Insert(s, req, id);
            && t.cursor == Cycle(0, |log + [req]|, |s.entries|)
            && t.entries == Ring(|s.entries|, log + [req])
            && t.idx == KeptIdx(s)[id := req]
  {
    var capacity := |s.entries|;
    InsertShape(s, req, id);
    CursorNext(s, log);
    RingSnoc(capacity, log, req);
    assert s.entries == Ring(capacity, log);
    assert |log + [req]| == |log| + 1;
  }

  lemma InsertShape(s: Cache, req: Request, id: ID)
    requires Sound(s) && id !in s.idx
    ensures var c := Advance(s.cursor, |s.entries|);
            Insert(s, req, id).0 == Cache(s.entries[c := Some(req)], c, KeptIdx(s)[id := req])
  {
  }

  lemma CursorNext(s: Cache, log: seq<Request>)
    requires Represents(s, log)
    ensures Advance(s.cursor, |s.entries|) == SlotOf(|log|, |s.entries|)
  {
  }

  lemma RingSnoc(capacity: nat, log: seq<Request>, req: Request)
    requires capacity > 0
    ensures Ring(capacity, log + [req]) == Ring(capacity, log)[SlotOf(|log|, capacity) := Some(req)]
  {
    assert (log + [req])[..|log|] == log;
  }

  lemma KeptFits(s: Cache, log: seq<Request>)
    requires Represents(s, log)
    ensures var kept := Kept(Window(log, |s.entries|), |s.entries|);
            DistinctIds(kept) && Agrees(KeptIdx(s), kept) && KeptIdx(s).Keys <= s.idx.Keys
  {
    EvictedSlot(s, log);
    if |log| >= |s.entries| {
      assert KeptIdx(s) == s.idx - {Window(log, |s.entries|)[0].id};
      KeptAgrees(s.idx, Window(log, |s.entries|));
    }
  }

  lemma EvictedSlot(s: Cache, log: seq<Request>)
    requires Represents(s, log)
    ensures var c := Advance(s.cursor, |s.entries|);
            && c == SlotOf(|log|, |s.entries|)
            && s.entries[c] == if |log| < |s.entries| then None else Some(Window(log, |s.entries|)[0])
  {
    NextSlot(|s.entries|, log);
  }

  /** Evicting the oldest of a queue with distinct ids from its index. */
  lemma KeptAgrees(idx: map<ID, Request>, q: seq<Request>)
    requires DistinctIds(q) && Agrees(idx, q) && q != []
    ensures DistinctIds(q[1..]) && Agrees(idx - {q[0].id}, q[1..])
  {
    var kept, r := idx - {q[0].id}, q[1..];
    assert forall i :: 0 <= i < |r| ==> r[i] == q[i + 1];
    forall k | k in kept
      ensures kept[k] in r && kept[k].id == k
    {
      var i :| 0 <= i < |q| && q[i] == idx[k];
      assert i != 0;
      assert r[i - 1] == q[i];
    }
  }

  lemma EnqueueAgrees(idx: map<ID, Request>, q: seq<Request>, req: Request)
    requires DistinctIds(q) && Agrees(idx, q) && req.id !in idx
    ensures DistinctIds(q + [req]) && Agrees(idx[req.id := req], q + [req])
  {
    var t, more := q + [req], idx[req.id := req];
    forall i, j | 0 <= i < j < |t|
      ensures t[i].id != t[j].id
    {
      assert t[i] == q[i] && q[i].id in idx;
    }
    forall k | k in more
      ensures more[k] in t && more[k].id == k
    {
      if k == req.id {
        assert t[|q|] == req;
      } else {
        assert idx[k] in q;
      }
    }
  }

  // ----- every sequence of puts -----

  /** The specification: a queue of at most `capacity` requests with distinct ids. */
  function Offer(q: seq<Request>, capacity: nat, req: Request): seq<Request>
    requires capacity > 0
  {
    if Holds(q, req.id) then q else Kept(q, capacity) + [req]
  }

  function OfferAll(q: seq<Request>, capacity: nat, reqs: seq<Request>): seq<Request>
    requires capacity > 0
    decreases |reqs|
  {
    if reqs == [] then q else OfferAll(Offer(q, capacity, reqs[0]), capacity, reqs[1..])
  }

  function InsertAll(s: Cache, reqs: seq<Request>): (r: (Cache, nat))
    requires Sound(s)
    ensures Sound(r.0) && |r.0.entries| == |s.entries|
    decreases |reqs|
  {
    if reqs == [] then (s, 0) else
      var (t, ok) := Insert(s, reqs[0], reqs[0].id);
      var (u, n) := InsertAll(t, reqs[1..]);
      (u, n + if ok then 1 else 0)
  }

  lemma OfferIsInsert(s: Cache, log: seq<Request>, req: Request)
    requires Represents(s, log)
    ensures var (t, ok) := Insert(s, req, req.id);
            && (ok <==> !Holds(Window(log, |s.entries|), req.id))
            && Represents(t, if ok then log + [req] else log)
            && |t.entries| == |s.entries|
            && Window(if ok then log + [req] else log, |s.entries|) ==
               Offer(Window(log, |s.entries|), |s.entries|, req)
  {
    InsertIsEnqueue(s, log, req, req.id);
    WindowGrows(log, req, |s.entries|);
  }

  lemma CursorCounts(s: Cache, log: seq<Request>)
    requires Represents(s, log)
    ensures s.cursor == |log| % |s.entries|
  {
    CycleIsMod(0, |log|, |s.entries|);
  }

  /** The requests that were accepted, in order. */
  function Accepted(s: Cache, reqs: seq<Request>): seq<Request>
    requires Sound(s)
    decreases |reqs|
  {
    if reqs == [] then [] else
      var (t, ok) := Insert(s, reqs[0], reqs[0].id);
      (if ok then [reqs[0]] else []) + Accepted(t, reqs[1..])
  }

  lemma {:induction false} AcceptedFrom(s: Cache, reqs: seq<Request>)
    requires Sound(s)
    ensures |Accepted(s, reqs)| == InsertAll(s, reqs).1
    ensures AllFrom(Accepted(s, reqs), reqs)
    decreases |reqs|
  {
    if reqs != [] {
      var (t, ok) := Insert(s, reqs[0], reqs[0].id);
      AcceptedFrom(t, reqs[1..]);
      AllFromMore(if ok then [reqs[0]] else [], Accepted(t, reqs[1..]), reqs);
    }
  }

  /** Every request of q is one of `reqs`. */
  predicate AllFrom(q: seq<Request>, reqs: seq<Request>) {
    forall i :: 0 <= i < |q| ==> q[i] in reqs
  }

  lemma AllFromMore(first: seq<Request>, rest: seq<Request>, reqs: seq<Request>)
    requires reqs != [] && first <= [reqs[0]] && AllFrom(rest, reqs[1..])
    ensures AllFrom(first + rest, reqs)
  {
    assert forall r :: r in reqs[1..] ==> r in reqs;
  }

  lemma AcceptedNext(s: Cache, log: seq<Request>, reqs: seq<Request>)
    requires Sound(s) && reqs != []
    ensures var (t, ok) := Insert(s, reqs[0], reqs[0].id);
            log + Accepted(s, reqs) == (if ok then log + [reqs[0]] else log) + Accepted(t, reqs[1..])
  {
    var (t, ok) := Insert(s, reqs[0], reqs[0].id);
    var rest := Accepted(t, reqs[1..]);
    if ok {
      AppendOne(log, reqs[0], rest);
    } else {
      assert [] + rest == rest;
    }
  }

  lemma AppendOne(log: seq<Request>, req: Request, rest: seq<Request>)
    ensures log + ([req] + rest) == (log + [req]) + rest
  {
  }

  lemma {:induction false} InsertAllRuns(s: Cache, log: seq<Request>, reqs: seq<Request>, accepted: seq<Request>)
    requires Represents(s, log) && accepted == log + Accepted(s, reqs)
    ensures Represents(InsertAll(s, reqs).0, accepted)
    ensures Window(accepted, |s.entries|) == OfferAll(Window(log, |s.entries|), |s.entries|, reqs)
    decreases |reqs|
  {
    if reqs == [] {
      assert accepted == log;
    } else {
      var (t, ok) := Insert(s, reqs[0], reqs[0].id);
      OfferIsInsert(s, log, reqs[0]);
      AcceptedNext(s, log, reqs);
      InsertAllRuns(t, if ok then log + [reqs[0]] else log, reqs[1..], accepted);
    }
  }

  /**
   * After any sequence of puts the cache answers like the queue: it holds the last min(accepted, capacity)
   * accepted requests, with distinct ids, and the cursor counts the accepted puts modulo the capacity.
   */
  lemma InsertAllIsQueue(s: Cache, log: seq<Request>, reqs: seq<Request>) returns (accepted: seq<Request>)
    requires Represents(s, log)
    ensures var (t, n) := InsertAll(s, reqs);
            && Represents(t, accepted)
            && log <= accepted && |accepted| == |log| + n && AllFrom(accepted[|log|..], reqs)
            && t.cursor == |accepted| % |s.entries|
            && |t.entries| == |s.entries|
            && Window(accepted, |s.entries|) == OfferAll(Window(log, |s.entries|), |s.entries|, reqs)
  {
    accepted := log + Accepted(s, reqs);
    AcceptedFrom(s, reqs);
    InsertAllRuns(s, log, reqs, accepted);
    assert accepted[|log|..] == Accepted(s, reqs);
    CursorCounts(InsertAll(s, reqs).0, accepted);
  }

  /** The three look-ups are look-ups in the queue. */
  lemma LookupsAgree(s: Cache, log: seq<Request>, id: ID)
    requires Represents(s, log)
    ensures var q := Window(log, |s.entries|);
            && (id in s.idx <==> Holds(q, id))
            && (forall r :: r in q && r.id == id ==> DataOf(s, id) == r.data && DifficultyOf(s, id) == r.difficulty)
            && (id !in s.idx ==> DataOf(s, id) == Nil && DifficultyOf(s, id) == 0)
  {
  }

  lemma {:induction false} InsertAllAppend(s: Cache, reqs: seq<Request>, more: seq<Request>)
    requires Sound(s)
    ensures var (t, n) := InsertAll(s, reqs);
            var (u, m) := InsertAll(t, more);
            InsertAll(s, reqs + more) == (u, n + m)
    decreases |reqs|
  {
    if reqs == [] {
      assert reqs + more == more;
    } else {
      assert (reqs + more)[1..] == reqs[1..] + more;
      InsertAllAppend(Insert(s, reqs[0], reqs[0].id).0, reqs[1..], more);
    }
  }

  /** Request j of the log is among the queued ones. */
  predicate IsQueued(s: Cache, log: seq<Request>, j: nat) {
    Represents(s, log) && j < |log| <= j + |s.entries|
  }

  /**
   * How long a queued request can be looked up, whatever is put after it: exactly until the accepted puts that follow
   * it reach the capacity. After that its id is unknown, or stands for a later put of it.
   */
  lemma LookupsAfterPuts(s: Cache, log: seq<Request>, j: nat, reqs: seq<Request>)
    requires IsQueued(s, log, j)
    ensures var (t, n) := InsertAll(s, reqs);
            var id := log[j].id;
            if |log| + n <= j + |s.entries|
            then id in t.idx && t.idx[id] == log[j]
            else id in t.idx ==> t.idx[id] in reqs && t.idx[id].id == id
  {
    var t, added := InsertAll(s, reqs).0, Accepted(s, reqs);
    AcceptedFrom(s, reqs);
    InsertAllRuns(s, log, reqs, log + added);
    if |log + added| <= j + |s.entries| {
      QueuedIsFound(t, log + added, j);
    } else if log[j].id in t.idx {
      EvictedThenLater(|s.entries|, log, j, reqs, added, t.idx[log[j].id]);
    }
  }

  lemma QueuedIsFound(s: Cache, log: seq<Request>, j: nat)
    requires Represents(s, log) && j < |log| <= j + |s.entries|
    ensures log[j].id in s.idx && s.idx[log[j].id] == log[j]
  {
    InWindow(log, |s.entries|, j);
    FoundInIndex(s.idx, Window(log, |s.entries|), log[j]);
  }

  lemma KnownIsQueued(s: Cache, log: seq<Request>, id: ID) returns (j: nat)
    requires Represents(s, log) && id in s.idx
    ensures IsQueued(s, log, j) && log[j] == s.idx[id] && log[j].id == id
  {
    var q := Window(log, |s.entries|);
    var i :| 0 <= i < |q| && q[i] == s.idx[id];
    j := if |log| <= |s.entries| then i else |log| - |s.entries| + i;
  }

  lemma InWindow(log: seq<Request>, capacity: nat, j: nat)
    requires j < |log| <= j + capacity
    ensures log[j] in Window(log, capacity)
  {
    var from := if |log| <= capacity then 0 else |log| - capacity;
    assert Window(log, capacity)[j - from] == log[j];
  }

  lemma FoundInIndex(idx: map<ID, Request>, q: seq<Request>, r: Request)
    requires Agrees(idx, q) && r in q
    ensures r.id in idx && idx[r.id] == r
  {
  }

  /** Two requests of a log that are in a window with distinct ids. */
  lemma DistinctInWindow(log: seq<Request>, capacity: nat, j: nat, k: nat)
    requires DistinctIds(Window(log, capacity))
    requires j < k < |log| <= j + capacity
    ensures log[j].id != log[k].id
  {
    var from := if |log| <= capacity then 0 else |log| - capacity;
    var q := Window(log, capacity);
    assert q[j - from] == log[j] && q[k - from] == log[k];
  }

  lemma OtherInWindow(capacity: nat, log: seq<Request>, j: nat, reqs: seq<Request>, added: seq<Request>, k: nat)
    requires j < |log| <= j + capacity && DistinctIds(Window(log, capacity))
    requires AllFrom(added, reqs) && j < k < |log| + |added|
    ensures (log + added)[k].id == log[j].id ==> (log + added)[k] in reqs
  {
    if k < |log| {
      DistinctInWindow(log, capacity, j, k);
    } else {
      assert added[k - |log|] in reqs;
    }
  }

  lemma FullWindowAt(log: seq<Request>, capacity: nat, i: nat)
    requires capacity < |log| && i < capacity
    ensures |Window(log, capacity)| == capacity
    ensures Window(log, capacity)[i] == log[|log| - capacity + i]
  {
  }

  lemma EvictedThenLater(
    capacity: nat, log: seq<Request>, j: nat, reqs: seq<Request>, added: seq<Request>, r: Request)
    requires j < |log| <= j + capacity < |log + added| && DistinctIds(Window(log, capacity))
    requires AllFrom(added, reqs) && r in Window(log + added, capacity) && r.id == log[j].id
    ensures r in reqs
  {
    var all := log + added;
    var i :| 0 <= i < |Window(all, capacity)| && Window(all, capacity)[i] == r;
    FullWindowAt(all, capacity, 0);
    FullWindowAt(all, capacity, i);
    OtherInWindow(capacity, log, j, reqs, added, |all| - capacity + i);
  }

  // ----- the cache as an object -----

  const DEFAULT_CAPACITY: nat := 1000

  class SubmitStore {
    var serial: nat
    var entries: array<Option<Request>>
    var cursor: nat
    var idx: map<ID, Request>
    ghost var log: seq<Request>

    constructor (capacity: nat)
      requires capacity > 0
      ensures Valid() && fresh(entries) && entries.Length == capacity && log == [] && serial == 0
    {
      serial := 0;
      entries := new Option<Request>[capacity](_ => None);
      cursor := 0;
      idx := map[];
      log := [];
      new;
      assert entries[..] == Empty(capacity).entries;
      EmptyRepresents(capacity);
    }

    function State(): Cache
      reads this, entries
    {
      Cache(entries[..], cursor, idx)
    }

    /** The log lists the accepted requests, oldest first. */
    ghost predicate Valid()
      reads this, entries
    {
      Represents(State(), log)
    }

    ghost function Queue(): seq<Request>
      reads this, entries
    {
      Window(log, entries.Length)
    }

    /**
     * Takes any request and id, as the source does. From a cache that stands for its log, an accepted put leaves
     * one that stands for the longer log exactly when the request carries the id it is put under.
     */
    method Put(req: Request, id: ID) returns (ok: bool)
      requires Sound(State())
      modifies this`cursor, this`idx, this`log, entries
      ensures (State(), ok) == Insert(old(State()), req, id)
      ensures log == if ok then old(log) + [req] else old(log)
      ensures old(Valid()) ==> (ok <==> !Holds(old(Queue()), id)) && (Valid() <==> !ok || req.id == id)
    {
      ghost var s, before := State(), log;
      ok := Write(req, id);
      if ok {
        log := log + [req];
      }
      if Represents(s, before) {
        InsertIsEnqueue(s, before, req, id);
      }
    }

    /** The fields' part of a put. */
    method Write(req: Request, id: ID) returns (ok: bool)
      requires Sound(State())
      modifies this`cursor, this`idx, entries
      ensures (State(), ok) == Insert(old(State()), req, id)
    {
      ghost var s := State();
      AdvanceIsMod(cursor, entries.Length);
      if id in idx {
        return false;
      }
      cursor := cursor + 1;
      cursor := cursor % entries.Length;
      if entries[cursor] != None {
        idx := idx - {entries[cursor].value.id};
      }
      entries[cursor] := Some(req);
      idx := idx[id := req];
      assert entries[..] == s.entries[cursor := Some(req)];
      return true;
    }

    method Have(id: ID) returns (b: bool)
      ensures b <==> id in State().idx
      ensures Valid() ==> (b <==> Holds(Queue(), id))
    {
      if Valid() {
        LookupsAgree(State(), log, id);
      }
      return id in idx;
    }

    method GetData(id: ID) returns (data: Slice)
      ensures data == DataOf(State(), id)
      ensures Valid() ==> forall r :: r in Queue() && r.id == id ==> data == r.data
      ensures Valid() && !Holds(Queue(), id) ==> data == Nil
    {
      if Valid() {
        LookupsAgree(State(), log, id);
      }
      if id in idx {
        return idx[id].data;
      }
      return Nil;
    }

    method GetDifficulty(id: ID) returns (d: Uint8)
      ensures d == DifficultyOf(State(), id)
      ensures Valid() ==> forall r :: r in Queue() && r.id == id ==> d == r.difficulty
      ensures Valid() && !Holds(Queue(), id) ==> d == 0
    {
      if Valid() {
        LookupsAgree(State(), log, id);
      }
      if id in idx {
        return idx[id].difficulty;
      }
      return 0;
    }

    /** The serial is a uint64. */
    method IncSerial() returns (n: nat)
      modifies this`serial
      ensures n == serial == (old(serial) + 1) % 0x1_0000_0000_0000_0000
    {
      serial := (serial + 1) % 0x1_0000_0000_0000_0000;
      return serial;
    }

    method LastSerial() returns (n: nat)
      ensures n == serial
    {
      return serial;
    }
  }
}
