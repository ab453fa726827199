/** The result store of result.go: a dense array with swap-remove, an index by id, and the expiry sweep. */
module Results {
  import opened Bytes
  import opened Protocol

  datatype Entry = Entry(result: Result, prid: ID, expires: int)

  /** The store's fields; the capacity is the length of the array. */
  datatype Store = Store(entries: seq<Option<Entry>>, idx: map<ID, nat>, counter: nat)

  function Empty(capacity: nat): Store {
    Store(seq(capacity, _ => None), map[], 0)
  }

  /** The number of leading slots that are not nil. Slots are never set back to nil. */
  function HighWater(entries: seq<Option<Entry>>): (h: nat)
    ensures h <= |entries|
    ensures forall i :: 0 <= i < h ==> entries[i].Some?
    ensures h < |entries| ==> entries[h].None?
  {
    if entries == [] || entries[0].None? then 0 else
      var h := HighWater(entries[1..]);
      assert forall i :: 0 < i < h + 1 ==> entries[i] == entries[1..][i - 1];
      h + 1
  }

  /** Index safety: no operation can read a nil slot or leave the array. */
  predicate Safe(s: Store) {
    && s.counter <= HighWater(s.entries)
    && forall id :: id in s.idx ==> s.idx[id] < HighWater(s.entries)
  }

  /** Live slots and index entries are in bijection through the stored id. */
  predicate Coherent(s: Store) {
    && Safe(s)
    && (forall i :: 0 <= i < s.counter ==>
          s.entries[i].value.prid in s.idx && s.idx[s.entries[i].value.prid] == i)
    && (forall id :: id in s.idx ==> s.idx[id] < s.counter && s.entries[s.idx[id]].value.prid == id)
  }

  function View(s: Store): (m: map<ID, Entry>)
    requires Safe(s)
    ensures m.Keys == s.idx.Keys
  {
    map id | id in s.idx :: s.entries[s.idx[id]].value
  }

  predicate Full(s: Store) {
    s.counter == |s.entries|
  }

  function PutEntry(s: Store, id: ID, e: Entry): Store
    requires s.counter <= |s.entries|
  {
    if Full(s) then s
    else Store(s.entries[s.counter := Some(e)], s.idx[id := s.counter], s.counter + 1)
  }

  function Lookup(s: Store, id: ID): Option<Result>
    requires Safe(s)
  {
    if id !in s.idx then None else Some(s.entries[s.idx[id]].value.result)
  }

  /** Removal by moving the last entry into the hole: as written, or with the guard `n != counter` (repaired). */
  function Remove(s: Store, id: ID, repaired: bool): Store
    requires Safe(s)
  {
    if id !in s.idx then s else
      var n := s.idx[id];
      var idx := s.idx - {id};
      if s.counter == 0 then s.(idx := idx) else
        var c := s.counter - 1;
        if (if repaired then n != c else c > 0) then
          Store(s.entries[n := s.entries[c]], idx[s.entries[c].value.prid := n], c)
        else
          Store(s.entries, idx, c)
  }

  /** The guard of the branch that fails: the removed slot is the last of several. */
  predicate LastOfMany(s: Store, id: ID) {
    id in s.idx && s.counter > 1 && s.idx[id] == s.counter - 1
  }

  /** The expiry sweep's handling of one key at time t: the store, and what goes to the sink. */
  function Visit(s: Store, id: ID, t: int, repaired: bool): (Store, seq<Result>)
    requires Safe(s)
  {
    if id !in s.idx then (s, []) else
      var e := s.entries[s.idx[id]].value;
      if e.expires < t then (Remove(s, id, repaired), [e.result]) else (s, [])
  }

  /** The sweep: each key of `order` is visited once, at time now(key), and its current slot is read then. */
  function Sweep(s: Store, order: seq<ID>, now: ID -> int, repaired: bool): (r: (Store, seq<Result>))
    requires Safe(s)
    ensures Safe(r.0)
    decreases |order|
  {
    if order == [] then (s, []) else
      VisitSafe(s, order[0], now(order[0]), repaired);
      var (t, sunk) := Visit(s, order[0], now(order[0]), repaired);
      var (u, more) := Sweep(t, order[1..], now, repaired);
      (u, sunk + more)
  }

  // ----- index safety -----

  lemma {:induction false} HighWaterGrows(entries: seq<Option<Entry>>, i: nat, e: Entry)
    requires i <= HighWater(entries) && i < |entries|
    ensures HighWater(entries[i := Some(e)]) >= HighWater(entries)
    ensures HighWater(entries[i := Some(e)]) > i
  {
    if i == 0 {
      assert entries[0 := Some(e)][1..] == entries[1..];
    } else {
      assert entries[i := Some(e)][1..] == entries[1..][i - 1 := Some(e)];
      HighWaterGrows(entries[1..], i - 1, e);
    }
  }

  /** As written, for any argument, in any safe state: whether or not ids are fresh or keys have come back. */
  lemma PutSafe(s: Store, id: ID, e: Entry)
    requires Safe(s)
    ensures Safe(PutEntry(s, id, e))
  {
    if !Full(s) {
      HighWaterGrows(s.entries, s.counter, e);
    }
  }

  lemma RemoveSafe(s: Store, id: ID, repaired: bool)
    requires Safe(s)
    ensures Safe(Remove(s, id, repaired))
  {
    if id in s.idx && s.counter > 0 {
      HighWaterGrows(s.entries, s.idx[id], s.entries[s.counter - 1].value);
    }
  }

  lemma VisitSafe(s: Store, id: ID, t: int, repaired: bool)
    requires Safe(s)
    ensures Safe(Visit(s, id, t, repaired).0)
  {
    RemoveSafe(s, id, repaired);
  }

  // ----- single operations against a map -----

  /** A stored id is a map insertion exactly when the id is fresh; the code does not check. */
  lemma PutIsInsert(s: Store, id: ID, e: Entry)
    requires Coherent(s) && !Full(s) && e.prid == id
    ensures var t := PutEntry(s, id, e);
            Safe(t) && (Coherent(t) && View(t) == View(s)[id := e] <==> id !in s.idx)
  {
    PutSafe(s, id, e);
    var t := PutEntry(s, id, e);
    if id in s.idx {
      assert t.entries[s.idx[id]].value.prid == id && t.idx[id] == s.counter;
    }
  }

  /** Removal as written is a map removal exactly when the slot is not the last of several. */
  lemma RemoveAsWritten(s: Store, id: ID)
    requires Coherent(s)
    ensures var t := Remove(s, id, false);
            Safe(t) && (Coherent(t) && View(t) == View(s) - {id} <==> !LastOfMany(s, id))
  {
    RemoveSafe(s, id, false);
    if LastOfMany(s, id) {
      assert id in Remove(s, id, false).idx;
    } else {
      RemoveRepaired(s, id);
      if id in s.idx && s.counter > 0 {
        assert Remove(s, id, false) == Remove(s, id, true);
      }
    }
  }

  /**
   * Removal as written in any safe state, coherent or not: the id goes, the last counted entry moves into its slot and
   * is indexed there, unless it is the only one, and the counter goes down to 0 but not below.
   */
  lemma RemoveAnyState(s: Store, id: ID, k: ID)
    requires Safe(s)
    ensures id !in s.idx ==> Remove(s, id, false) == s
    ensures id in s.idx ==>
              var n, t := s.idx[id], Remove(s, id, false);
              if s.counter <= 1 then t == Store(s.entries, s.idx - {id}, 0)
              else
                var last := s.entries[s.counter - 1];
                && t.counter == s.counter - 1 && t.entries == s.entries[n := last]
                && (k in t.idx <==> k == last.value.prid || (k in s.idx && k != id))
                && (k in t.idx ==> t.idx[k] == if k == last.value.prid then n else s.idx[k])
  {
  }

  /** The repaired removal always is. */
  lemma RemoveRepaired(s: Store, id: ID)
    requires Coherent(s)
    ensures var t := Remove(s, id, true); Coherent(t) && View(t) == View(s) - {id}
  {
    RemoveSafe(s, id, true);
    if id in s.idx {
      SwapRemove(s, id);
      var t := Remove(s, id, true);
      assert View(t).Keys == (View(s) - {id}).Keys;
    }
  }

  /** Where everything is after a repaired removal: only the last entry has moved, into the hole. */
  lemma SlotsAfterRemove(s: Store, id: ID)
    requires Coherent(s) && id in s.idx
    ensures var n, c, t := s.idx[id], s.counter - 1, Remove(s, id, true);
            && t.counter == c && t.idx.Keys == s.idx.Keys - {id} && |t.entries| == |s.entries|
            && (forall j: nat :: j < c ==> t.entries[j] == if j == n then s.entries[c] else s.entries[j])
            && (forall k :: k in t.idx ==> t.idx[k] == if s.idx[k] == c then n else s.idx[k])
  {
    var n, c := s.idx[id], s.counter - 1;
    if n != c {
      assert s.idx[s.entries[c].value.prid] == c;
      assert Remove(s, id, true).idx == (s.idx - {id})[s.entries[c].value.prid := n];
    }
  }

  lemma SwapRemove(s: Store, id: ID)
    requires Coherent(s) && id in s.idx
    ensures var t := Remove(s, id, true);
            && Coherent(t) && t.counter == s.counter - 1
            && t.idx.Keys == s.idx.Keys - {id}
            && forall k :: k in t.idx ==> t.entries[t.idx[k]] == s.entries[s.idx[k]]
  {
    RemoveSafe(s, id, true);
    SlotsAfterRemove(s, id);
    var t := Remove(s, id, true);
    forall i | 0 <= i < t.counter
      ensures t.entries[i].value.prid in t.idx && t.idx[t.entries[i].value.prid] == i
    {
      var was := if i == s.idx[id] then s.counter - 1 else i;
      assert s.entries[was].value.prid in s.idx && s.idx[s.entries[was].value.prid] == was;
      assert t.entries[i] == s.entries[was];
    }
    forall k | k in t.idx
      ensures t.idx[k] < t.counter && t.entries[t.idx[k]] == s.entries[s.idx[k]]
      ensures t.entries[t.idx[k]].value.prid == k
    {
      assert s.idx[k] != s.idx[id];
    }
  }

  lemma SizeOfKeys(m: map<ID, Entry>)
    ensures |m| == |m.Keys|
  {
  }

  lemma {:induction false} CountIsSize(s: Store)
    requires Coherent(s)
    ensures |View(s)| == s.counter
    decreases s.counter
  {
    if s.counter > 0 {
      var id := s.entries[s.counter - 1].value.prid;
      SwapRemove(s, id);
      CountIsSize(Remove(s, id, true));
      assert s.idx.Keys == Remove(s, id, true).idx.Keys + {id};
      SizeOfKeys(View(s));
      SizeOfKeys(View(Remove(s, id, true)));
    } else {
      assert View(s).Keys == {};
    }
  }

  // ----- every sequence of operations against a bounded map -----

  datatype Op =
    | PutOp(id: ID, e: Entry)
    | GetOp(id: ID)
    | DelOp(id: ID)
    | CountOp
    | VisitOp(id: ID, t: int)

  datatype Seen = Stored(ok: bool) | Got(r: Option<Result>) | Deleted | Counted(n: nat) | Sunk(rs: seq<Result>)

  function Step(s: Store, op: Op, repaired: bool): (Store, Seen)
    requires Safe(s)
  {
    match op
    case PutOp(id, e) => (PutEntry(s, id, e.(prid := id)), Stored(!Full(s)))
    case GetOp(id) => (s, Got(Lookup(s, id)))
    case DelOp(id) => (Remove(s, id, repaired), Deleted)
    case CountOp => (s, Counted(s.counter))
    case VisitOp(id, t) =>
      var (u, rs) := Visit(s, id, t, repaired);
      (u, Sunk(rs))
  }

  lemma StepSafe(s: Store, op: Op, repaired: bool)
    requires Safe(s)
    ensures Safe(Step(s, op, repaired).0) && |Step(s, op, repaired).0.entries| == |s.entries|
  {
    match op
    case PutOp(id, e) => PutSafe(s, id, e.(prid := id));
    case DelOp(id) => RemoveSafe(s, id, repaired);
    case VisitOp(id, t) => VisitSafe(s, id, t, repaired);
    case _ =>
  }

  /** No operation sequence, however it repeats ids, makes an operation fault: Run is total on safe stores. */
  function Run(s: Store, ops: seq<Op>, repaired: bool): (r: (Store, seq<Seen>))
    requires Safe(s)
    ensures Safe(r.0)
    decreases |ops|
  {
    if ops == [] then (s, []) else
      StepSafe(s, ops[0], repaired);
      var (t, seen) := Step(s, ops[0], repaired);
      var (u, more) := Run(t, ops[1..], repaired);
      (u, [seen] + more)
  }

  /** The specification: a map that holds at most `capacity` entries. */
  function MapStep(m: map<ID, Entry>, capacity: nat, op: Op): (map<ID, Entry>, Seen) {
    match op
    case PutOp(id, e) => if |m| == capacity then (m, Stored(false)) else (m[id := e.(prid := id)], Stored(true))
    case GetOp(id) => (m, Got(if id in m then Some(m[id].result) else None))
    case DelOp(id) => (m - {id}, Deleted)
    case CountOp => (m, Counted(|m|))
    case VisitOp(id, t) =>
      if Expired(m, id, t) then (m - {id}, Sunk([m[id].result])) else (m, Sunk([]))
  }

  function MapRun(m: map<ID, Entry>, capacity: nat, ops: seq<Op>): (map<ID, Entry>, seq<Seen>)
    decreases |ops|
  {
    if ops == [] then (m, []) else
      var (t, seen) := MapStep(m, capacity, ops[0]);
      var (u, more) := MapRun(t, capacity, ops[1..]);
      (u, [seen] + more)
  }

  /** What a caller can check before one operation. */
  predicate Proper(s: Store, op: Op, repaired: bool)
    requires Safe(s)
  {
    match op
    case PutOp(id, _) => Full(s) || id !in s.idx
    case DelOp(id) => repaired || !LastOfMany(s, id)
    case VisitOp(id, t) => repaired || !LastOfMany(s, id) || Visit(s, id, t, repaired).1 == []
    case _ => true
  }

  predicate AllProper(s: Store, ops: seq<Op>, repaired: bool)
    requires Safe(s)
    decreases |ops|
  {
    if ops == [] then true else
      StepSafe(s, ops[0], repaired);
      Proper(s, ops[0], repaired) && AllProper(Step(s, ops[0], repaired).0, ops[1..], repaired)
  }

  predicate Expired(m: map<ID, Entry>, id: ID, t: int) {
    id in m && m[id].expires < t
  }

  lemma VisitRefines(s: Store, id: ID, t: int, repaired: bool)
    requires Coherent(s)
    ensures var (u, sunk) := Visit(s, id, t, repaired);
            && Safe(u)
            && sunk == (if Expired(View(s), id, t) then [View(s)[id].result] else [])
            && (Coherent(u) && View(u) == (if Expired(View(s), id, t) then View(s) - {id} else View(s)) <==>
                  repaired || !LastOfMany(s, id) || !Expired(View(s), id, t))
  {
    VisitSafe(s, id, t, repaired);
    RemoveAsWritten(s, id);
    RemoveRepaired(s, id);
  }

  /** Operation `op` does what the map does and keeps the bijection. */
  predicate Refines(s: Store, op: Op, repaired: bool)
    requires Safe(s)
  {
    var (t, seen) := Step(s, op, repaired);
    Safe(t) && Coherent(t) && (View(t), seen) == MapStep(View(s), |s.entries|, op)
  }

  lemma PutRefines(s: Store, id: ID, e: Entry, repaired: bool)
    requires Coherent(s)
    ensures Refines(s, PutOp(id, e), repaired) <==> Full(s) || id !in s.idx
  {
    CountIsSize(s);
    if !Full(s) {
      PutIsInsert(s, id, e.(prid := id));
    }
  }

  lemma DelRefines(s: Store, id: ID, repaired: bool)
    requires Coherent(s)
    ensures Refines(s, DelOp(id), repaired) <==> repaired || !LastOfMany(s, id)
  {
    if repaired {
      RemoveRepaired(s, id);
    } else {
      RemoveAsWritten(s, id);
    }
  }

  /** One operation does what the map does, and keeps the bijection, exactly when it is proper. */
  lemma StepRefines(s: Store, op: Op, repaired: bool)
    requires Coherent(s)
    ensures var (t, seen) := Step(s, op, repaired);
            Safe(t) &&
            (Coherent(t) && (View(t), seen) == MapStep(View(s), |s.entries|, op) <==> Proper(s, op, repaired))
  {
    StepSafe(s, op, repaired);
    assert Refines(s, op, repaired) <==> Proper(s, op, repaired) by {
      match op
      case PutOp(id, e) => PutRefines(s, id, e, repaired);
      case DelOp(id) => DelRefines(s, id, repaired);
      case VisitOp(id, t) => VisitRefines(s, id, t, repaired);
      case CountOp => CountIsSize(s);
      case GetOp(_) =>
    }
  }

  /** Over every sequence of proper operations the store answers exactly like the bounded map. */
  lemma {:induction false} RunRefines(s: Store, ops: seq<Op>, repaired: bool)
    requires Coherent(s) && AllProper(s, ops, repaired)
    ensures var (t, seen) := Run(s, ops, repaired);
            Coherent(t) && (View(t), seen) == MapRun(View(s), |s.entries|, ops)
    decreases |ops|
  {
    if ops != [] {
      StepRefines(s, ops[0], repaired);
      StepSafe(s, ops[0], repaired);
      RunRefines(Step(s, ops[0], repaired).0, ops[1..], repaired);
    }
  }

  lemma EmptyIsCoherent(capacity: nat)
    ensures Coherent(Empty(capacity)) && View(Empty(capacity)) == map[]
  {
  }

  // ----- the sweep -----

  predicate Distinct(order: seq<ID>) {
    forall i, j :: 0 <= i < j < |order| ==> order[i] != order[j]
  }

  /** The results of the expired keys, in the order of the visits. */
  function Delivered(m: map<ID, Entry>, order: seq<ID>, now: ID -> int): seq<Result>
    decreases |order|
  {
    if order == [] then [] else
      (if Expired(m, order[0], now(order[0])) then [m[order[0]].result] else [])
      + Delivered(m, order[1..], now)
  }

  function Unexpired(m: map<ID, Entry>, order: seq<ID>, now: ID -> int): map<ID, Entry> {
    map id | id in m && !(id in order && Expired(m, id, now(id))) :: m[id]
  }

  lemma {:induction false} DeliveredWithout(m: map<ID, Entry>, id: ID, order: seq<ID>, now: ID -> int)
    requires id !in order
    ensures Delivered(m - {id}, order, now) == Delivered(m, order, now)
    decreases |order|
  {
    if order != [] {
      DeliveredWithout(m, id, order[1..], now);
    }
  }

  lemma UnexpiredStep(m: map<ID, Entry>, order: seq<ID>, now: ID -> int)
    requires order != [] && Distinct(order)
    ensures var m' := if Expired(m, order[0], now(order[0])) then m - {order[0]} else m;
            Unexpired(m', order[1..], now) == Unexpired(m, order, now)
  {
    var m' := if Expired(m, order[0], now(order[0])) then m - {order[0]} else m;
    forall id
      ensures id in order <==> id == order[0] || id in order[1..]
    {
      assert order == [order[0]] + order[1..];
    }
    assert order[0] !in order[1..];
    assert Unexpired(m', order[1..], now).Keys == Unexpired(m, order, now).Keys;
  }

  /**
   * A sweep with the repaired removal, over any distinct keys in any order, removes exactly the expired ones
   * among them and hands each expired result to the sink exactly once, although entries move between slots.
   */
  lemma {:induction false} PruneRepaired(s: Store, order: seq<ID>, now: ID -> int)
    requires Coherent(s) && Distinct(order)
    ensures var (t, sunk) := Sweep(s, order, now, true);
            && Coherent(t)
            && View(t) == Unexpired(View(s), order, now)
            && sunk == Delivered(View(s), order, now)
    decreases |order|
  {
    if order != [] {
      var id := order[0];
      VisitRefines(s, id, now(id), true);
      PruneRepaired(Visit(s, id, now(id), true).0, order[1..], now);
      DeliveredWithout(View(s), id, order[1..], now);
      UnexpiredStep(View(s), order, now);
    }
  }

  // ----- the sweep as written -----

  /** The visits of one sweep: every key that is in the index at the start, once, in some order. */
  ghost predicate SweepOrder(s: Store, order: seq<ID>) {
    Distinct(order) && forall id :: id in order <==> id in s.idx
  }

  ghost predicate SweptRight(s: Store, order: seq<ID>, now: ID -> int)
    requires Safe(s)
  {
    var (t, sunk) := Sweep(s, order, now, false);
    && Coherent(t)
    && View(t) == Unexpired(View(s), order, now)
    && sunk == Delivered(View(s), order, now)
  }

  function ExpiredSlots(s: Store, now: ID -> int): set<nat>
    requires Safe(s)
  {
    set i: nat | i < s.counter && s.entries[i].value.expires < now(s.entries[i].value.prid)
  }

  /** Every expired entry lies below all the slots that the removals can bring to the end. */
  predicate PruneSafe(s: Store, now: ID -> int)
    requires Safe(s)
  {
    s.counter <= 1 || forall i :: i in ExpiredSlots(s, now) ==> i + |ExpiredSlots(s, now)| < s.counter
  }

  lemma RemoveExpired(s: Store, i: nat, now: ID -> int)
    requires Coherent(s) && i in ExpiredSlots(s, now)
    requires s.counter - 1 in ExpiredSlots(s, now) ==> i == s.counter - 1
    ensures var t := Remove(s, s.entries[i].value.prid, true);
            && Coherent(t)
            && ExpiredSlots(t, now) == ExpiredSlots(s, now) - {i}
            && |ExpiredSlots(t, now)| == |ExpiredSlots(s, now)| - 1
            && forall k :: k in t.idx ==> t.entries[t.idx[k]] == s.entries[s.idx[k]]
  {
    SwapRemove(s, s.entries[i].value.prid);
    ExpiredAfterRemove(s, i, now);
  }

  lemma ExpiredAfterRemove(s: Store, i: nat, now: ID -> int)
    requires Coherent(s) && i in ExpiredSlots(s, now)
    requires s.counter - 1 in ExpiredSlots(s, now) ==> i == s.counter - 1
    requires Safe(Remove(s, s.entries[i].value.prid, true))
    ensures ExpiredSlots(Remove(s, s.entries[i].value.prid, true), now) == ExpiredSlots(s, now) - {i}
  {
    var t := Remove(s, s.entries[i].value.prid, true);
    SlotsAfterRemove(s, s.entries[i].value.prid);
    ExpiredMoved(s, t, i, now);
  }

  lemma ExpiredMoved(s: Store, t: Store, i: nat, now: ID -> int)
    requires Safe(s) && Safe(t) && i in ExpiredSlots(s, now) && t.counter == s.counter - 1
    requires s.counter - 1 in ExpiredSlots(s, now) ==> i == s.counter - 1
    requires forall j: nat :: j < t.counter ==>
               t.entries[j] == if j == i then s.entries[s.counter - 1] else s.entries[j]
    ensures ExpiredSlots(t, now) == ExpiredSlots(s, now) - {i}
  {
    forall j: nat
      ensures j in ExpiredSlots(t, now) <==> j in ExpiredSlots(s, now) && j != i
    {
      if j < t.counter {
        assert t.entries[j] == if j == i then s.entries[s.counter - 1] else s.entries[j];
      }
    }
  }

  lemma {:induction false} PruneAgrees(s: Store, order: seq<ID>, now: ID -> int)
    requires Coherent(s) && Distinct(order) && PruneSafe(s, now)
    requires forall i :: i in ExpiredSlots(s, now) ==> s.entries[i].value.prid in order
    ensures Sweep(s, order, now, false) == Sweep(s, order, now, true)
    decreases |order|
  {
    if order != [] {
      var id := order[0];
      VisitSafe(s, id, now(id), true);
      var t := Visit(s, id, now(id), true).0;
      VisitAgrees(s, order, now);
      PruneAgrees(t, order[1..], now);
    }
  }

  lemma VisitAgrees(s: Store, order: seq<ID>, now: ID -> int)
    requires Coherent(s) && order != [] && PruneSafe(s, now)
    requires forall i :: i in ExpiredSlots(s, now) ==> s.entries[i].value.prid in order
    ensures var t := Visit(s, order[0], now(order[0]), true).0;
            && Visit(s, order[0], now(order[0]), false) == Visit(s, order[0], now(order[0]), true)
            && Coherent(t) && PruneSafe(t, now)
            && forall i :: i in ExpiredSlots(t, now) ==> t.entries[i].value.prid in order[1..]
  {
    var id := order[0];
    var t := Visit(s, id, now(id), true).0;
    if Expired(View(s), id, now(id)) {
      RemoveExpired(s, s.idx[id], now);
      assert Remove(s, id, false) == t;
    }
    forall j | j in ExpiredSlots(t, now)
      ensures t.entries[j].value.prid in order[1..]
    {
      var k := t.entries[j].value.prid;
      assert t.idx[k] == j && t.entries[j] == s.entries[s.idx[k]];
      assert s.idx[k] in ExpiredSlots(s, now);
      assert k in order && k != id;
    }
  }

  lemma {:induction false} KeyStays(s: Store, k: ID, order: seq<ID>, now: ID -> int)
    requires Safe(s) && k in s.idx && k !in order
    ensures k in Sweep(s, order, now, false).0.idx
    decreases |order|
  {
    if order != [] {
      VisitSafe(s, order[0], now(order[0]), false);
      KeyStays(Visit(s, order[0], now(order[0]), false).0, k, order[1..], now);
    }
  }

  lemma Enumerate(keys: set<ID>) returns (order: seq<ID>)
    ensures Distinct(order) && forall id :: id in order <==> id in keys
  {
    order := [];
    var rest := keys;
    while rest != {}
      invariant rest <= keys && Distinct(order)
      invariant forall id :: id in order <==> id in keys - rest
    {
      var id :| id in rest;
      assert id !in order;
      order := order + [id];
      rest := rest - {id};
    }
  }

  /** If the expired slot x can be brought to the end while it is not alone, some order leaves its key behind. */
  lemma {:induction false} BadSweep(s: Store, x: nat, now: ID -> int) returns (order: seq<ID>, bad: ID)
    requires Coherent(s) && s.counter > 1
    requires x in ExpiredSlots(s, now) && forall y :: y in ExpiredSlots(s, now) ==> y <= x
    requires x + |ExpiredSlots(s, now)| >= s.counter
    ensures SweepOrder(s, order)
    ensures Expired(View(s), bad, now(bad)) && bad in Sweep(s, order, now, false).0.idx
    decreases s.counter
  {
    if x == s.counter - 1 {
      bad := s.entries[x].value.prid;
      order := LastGoesFirst(s, bad, now);
    } else {
      var y := OtherSlot(ExpiredSlots(s, now), x);
      var id := s.entries[y].value.prid;
      RemoveExpired(s, y, now);
      assert s.entries[x].value.prid in Remove(s, id, true).idx;
      var rest;
      rest, bad := BadSweep(Remove(s, id, true), x, now);
      order := [id] + rest;
      OneMoreVisit(s, id, rest, now);
    }
  }

  lemma LastGoesFirst(s: Store, bad: ID, now: ID -> int) returns (order: seq<ID>)
    requires Coherent(s) && LastOfMany(s, bad) && Expired(View(s), bad, now(bad))
    ensures SweepOrder(s, order) && bad in Sweep(s, order, now, false).0.idx
  {
    var rest := Enumerate(s.idx.Keys - {bad});
    order := [bad] + rest;
    VisitSafe(s, bad, now(bad), false);
    KeyStays(Visit(s, bad, now(bad), false).0, bad, rest, now);
    assert order[1..] == rest;
    assert forall id :: id in order <==> id == bad || id in rest;
  }

  lemma OneMoreVisit(s: Store, id: ID, rest: seq<ID>, now: ID -> int)
    requires Coherent(s) && id in s.idx && !LastOfMany(s, id) && Expired(View(s), id, now(id))
    requires SweepOrder(Remove(s, id, true), rest)
    ensures SweepOrder(s, [id] + rest)
    ensures Safe(Remove(s, id, true))
    ensures View(Remove(s, id, true)) == View(s) - {id}
    ensures Sweep(s, [id] + rest, now, false).0 == Sweep(Remove(s, id, true), rest, now, false).0
  {
    RemoveRepaired(s, id);
    assert Visit(s, id, now(id), false).0 == Remove(s, id, true);
    var order := [id] + rest;
    assert order[1..] == rest && order[0] == id;
    assert forall k :: k in order <==> k == id || k in rest;
    assert Remove(s, id, true).idx.Keys == s.idx.Keys - {id};
  }

  lemma OtherSlot(slots: set<nat>, x: nat) returns (y: nat)
    requires x in slots && |slots| >= 2
    ensures y in slots && y != x
  {
    assert |slots - {x}| >= 1;
    y :| y in slots - {x};
  }

  lemma MaxSlot(slots: set<nat>) returns (x: nat)
    requires slots != {}
    ensures x in slots && forall y :: y in slots ==> y <= x
  {
    x :| x in slots;
    var seen := {x};
    while seen != slots
      invariant seen <= slots && x in seen
      invariant forall y :: y in seen ==> y <= x
      decreases |slots - seen|
    {
      var y :| y in slots - seen;
      assert slots - (seen + {y}) == (slots - seen) - {y};
      seen := seen + {y};
      if y > x { x := y; }
    }
  }

  /**
   * The sweep as written, whatever order the index is visited in, leaves exactly the unexpired entries and
   * delivers each expired result once if and only if every expired slot lies below counter minus the number
   * of expired slots (or at most one entry is stored).
   */
  lemma PruneAsWritten(s: Store, now: ID -> int)
    requires Coherent(s)
    ensures (forall order :: SweepOrder(s, order) ==> SweptRight(s, order, now)) <==> PruneSafe(s, now)
  {
    if PruneSafe(s, now) {
      forall order | SweepOrder(s, order)
        ensures SweptRight(s, order, now)
      {
        PruneAgrees(s, order, now);
        PruneRepaired(s, order, now);
      }
    } else {
      var m := ExpiredSlots(s, now);
      var i :| i in m && i + |m| >= s.counter;
      var x := MaxSlot(m);
      var order, bad := BadSweep(s, x, now);
      assert bad !in Unexpired(View(s), order, now);
      assert !SweptRight(s, order, now);
    }
  }

  /** The store after the last of several entries, in slot c, was removed twice; a is the id in the slot below. */
  lemma RemovedTwice(s: Store, b: ID)
    requires Coherent(s) && LastOfMany(s, b)
    ensures Safe(Remove(s, b, false))
    ensures var a, c, t := s.entries[s.counter - 2].value.prid, s.counter - 1, Remove(Remove(s, b, false), b, false);
            && Safe(t) && a in s.idx && a != b && s.idx[a] == c - 1
            && t == if c == 1 then Store(s.entries, s.idx - {b}, 0)
                    else Store(s.entries[c := s.entries[c - 1]], (s.idx - {b})[a := c], c - 1)
  {
    var c := s.counter - 1;
    assert s.entries[c].value.prid == b;
    assert Remove(s, b, false) == s.(counter := c) by {
      assert s.entries[c := s.entries[c]] == s.entries;
      assert (s.idx - {b})[b := c] == s.idx;
    }
    RemoveSafe(s, b, false);
    RemoveSafe(s.(counter := c), b, false);
  }

  /** Two more results are stored while a's slot is one of the next two. */
  lemma TakesSlot(t: Store, a: ID, x: ID, e: Entry, y: ID, f: Entry)
    requires Safe(t) && t.counter + 1 < |t.entries| && x != a && y != a
    requires a in t.idx && t.counter <= t.idx[a] <= t.counter + 1
    ensures Safe(PutEntry(t, x, e)) && Safe(PutEntry(PutEntry(t, x, e), y, f))
    ensures Lookup(PutEntry(PutEntry(t, x, e), y, f), a) ==
            Some(if t.idx[a] == t.counter then e.result else f.result)
  {
    PutSafe(t, x, e);
    PutSafe(PutEntry(t, x, e), y, f);
  }

  /**
   * The last of several entries is removed twice, as happens when its thanks message is duplicated: the entry of the
   * slot below it (id a) is still indexed but no longer counted, its slot is at or above the new end, and one of the
   * next two results stored takes its place.
   */
  lemma DoubleRemoveLosesEntry(s: Store, b: ID, x: ID, e: Entry, y: ID, f: Entry)
    requires Coherent(s) && LastOfMany(s, b)
    ensures Safe(Remove(s, b, false))
    ensures var a, t := s.entries[s.counter - 2].value.prid, Remove(Remove(s, b, false), b, false);
            && t.counter == s.counter - 2
            && a in t.idx && t.idx[a] == (if s.counter == 2 then t.counter else t.counter + 1)
            && var u := PutEntry(PutEntry(t, x, e), y, f);
               && Safe(u)
               && (x != a && y != a ==> Lookup(u, a) == Some(if s.counter == 2 then e.result else f.result))
  {
    RemovedTwice(s, b);
    var a, t := s.entries[s.counter - 2].value.prid, Remove(Remove(s, b, false), b, false);
    PutSafe(t, x, e);
    PutSafe(PutEntry(t, x, e), y, f);
    if x != a && y != a {
      TakesSlot(t, a, x, e, y, f);
    }
  }

  function Later(before: seq<Result>, r: (Store, seq<Result>)): (Store, seq<Result>) {
    (r.0, before + r.1)
  }

  lemma SweepFrom(s: Store, order: seq<ID>, i: nat, now: ID -> int, before: seq<Result>)
    requires Safe(s) && i < |order|
    ensures var v := Visit(s, order[i], now(order[i]), false);
            && Safe(v.0)
            && Later(before, Sweep(s, order[i..], now, false)) ==
               Later(before + v.1, Sweep(v.0, order[i + 1..], now, false))
  {
    var v := Visit(s, order[i], now(order[i]), false);
    VisitSafe(s, order[i], now(order[i]), false);
    assert order[i..][0] == order[i] && order[i..][1..] == order[i + 1..];
    var rest := Sweep(v.0, order[i + 1..], now, false).1;
    assert before + (v.1 + rest) == (before + v.1) + rest;
  }

  // ----- a visit that reads its slot number before it takes the lock -----

  lemma {:induction false} FilledSlotsStay(s: Store, ops: seq<Op>)
    requires Safe(s)
    ensures HighWater(s.entries) <= HighWater(Run(s, ops, false).0.entries)
    decreases |ops|
  {
    if ops != [] {
      StepSafe(s, ops[0], false);
      StepFills(s, ops[0]);
      FilledSlotsStay(Step(s, ops[0], false).0, ops[1..]);
    }
  }

  lemma StepFills(s: Store, op: Op)
    requires Safe(s)
    ensures HighWater(s.entries) <= HighWater(Step(s, op, false).0.entries)
  {
    match op
    case PutOp(id, e) => if !Full(s) { HighWaterGrows(s.entries, s.counter, e.(prid := id)); }
    case DelOp(id) => RemoveFills(s, id);
    case VisitOp(id, t) => RemoveFills(s, id);
    case _ =>
  }

  lemma RemoveFills(s: Store, id: ID)
    requires Safe(s)
    ensures HighWater(s.entries) <= HighWater(Remove(s, id, false).entries)
  {
    if id in s.idx && s.counter > 0 {
      HighWaterGrows(s.entries, s.idx[id], s.entries[s.counter - 1].value);
    }
  }

  /** The visit of a key whose slot number was read earlier: slot n decides and is handed over, the key is removed. */
  function VisitSlot(s: Store, id: ID, n: nat, t: int): (Store, seq<Result>)
    requires Safe(s) && n < HighWater(s.entries)
  {
    var e := s.entries[n].value;
    if e.expires < t then (Remove(s, id, false), [e.result]) else (s, [])
  }

  /** The entries of the key and of slot n are both unexpired, or both expired with the same result. */
  predicate SlotSpeaksFor(s: Store, id: ID, n: nat, t: int)
    requires Safe(s) && n < HighWater(s.entries)
  {
    var e := s.entries[n].value;
    if id !in s.idx then e.expires >= t else
      var own := s.entries[s.idx[id]].value;
      (e.expires < t <==> own.expires < t) && (e.expires < t ==> e.result == own.result)
  }

  /**
   * Whatever operations come between the reading of the slot number and the lock: the visit cannot fault, keeps the
   * store safe, and does what a visit in one step does exactly if that slot's entry speaks for the key, as it does
   * while the key is in its slot.
   */
  lemma LateVisit(s: Store, id: ID, ops: seq<Op>, t: int)
    requires Safe(s) && id in s.idx
    ensures var u, n := Run(s, ops, false).0, s.idx[id];
            && n < HighWater(u.entries)
            && Safe(VisitSlot(u, id, n, t).0)
            && (VisitSlot(u, id, n, t) == Visit(u, id, t, false) <==> SlotSpeaksFor(u, id, n, t))
            && (id in u.idx && u.idx[id] == n ==> SlotSpeaksFor(u, id, n, t))
  {
    FilledSlotsStay(s, ops);
    RemoveSafe(Run(s, ops, false).0, id, false);
  }

  // ----- the store as an object -----

  const DEFAULT_CAPACITY: nat := 1000

  class ResultStore {
    var entries: array<Option<Entry>>
    var idx: map<ID, nat>
    var counter: nat
    const releaseDelay: nat

    constructor (capacity: nat, releaseDelay: nat)
      ensures Valid() && fresh(entries) && State() == Empty(capacity) && this.releaseDelay == releaseDelay
      ensures Coherent(State())
    {
      entries := new Option<Entry>[capacity](_ => None);
      idx := map[];
      counter := 0;
      this.releaseDelay := releaseDelay;
      new;
      assert entries[..] == Empty(capacity).entries;
    }

    function State(): Store
      reads this, entries
    {
      Store(entries[..], idx, counter)
    }

    ghost predicate Valid()
      reads this, entries
    {
      Safe(State())
    }

    method Put(id: ID, res: Result, now: int) returns (ok: bool)
      requires Valid()
      modifies this, entries
      ensures Valid() && entries == old(entries)
      ensures ok == !Full(old(State()))
      ensures State() == PutEntry(old(State()), id, Entry(res, id, now + releaseDelay))
    {
      ghost var s := State();
      PutSafe(s, id, Entry(res, id, now + releaseDelay));
      if counter == entries.Length {
        return false;
      }
      entries[counter] := Some(Entry(res, id, now + releaseDelay));
      idx := idx[id := counter];
      counter := counter + 1;
      assert entries[..] == s.entries[s.counter := Some(Entry(res, id, now + releaseDelay))];
      return true;
    }

    method Get(id: ID) returns (r: Option<Result>)
      requires Valid()
      ensures r == Lookup(State(), id)
      ensures Coherent(State()) ==> r == if id in View(State()) then Some(View(State())[id].result) else None
    {
      if id !in idx {
        return None;
      }
      assert entries[..][idx[id]] == entries[idx[id]];
      return Some(entries[idx[id]].value.result);
    }

    method Del(id: ID)
      requires Valid()
      modifies this, entries
      ensures Valid() && entries == old(entries)
      ensures State() == Remove(old(State()), id, false)
      ensures old(Coherent(State()) && !LastOfMany(State(), id)) ==>
                Coherent(State()) && View(State()) == old(View(State())) - {id}
    {
      ghost var s := State();
      RemoveSafe(s, id, false);
      if Coherent(s) {
        RemoveAsWritten(s, id);
      }
      if id in idx {
        var n := idx[id];
        idx := idx - {id};
        if counter == 0 {
          return;
        }
        counter := counter - 1;
        if counter > 0 {
          entries[n] := entries[counter];
          assert entries[n] == s.entries[s.counter - 1];
          idx := idx[entries[n].value.prid := n];
          assert entries[..] == s.entries[n := s.entries[s.counter - 1]];
        }
      }
    }

    method Count() returns (n: nat)
      requires Valid()
      ensures n == counter
      ensures Coherent(State()) ==> n == |View(State())|
    {
      if Coherent(State()) {
        CountIsSize(State());
      }
      return counter;
    }

    method IsFull() returns (b: bool)
      ensures b == Full(State())
    {
      return counter == entries.Length;
    }

    /** The sweep's callback for one key at time t, with what it hands to the sink. */
    method VisitKey(id: ID, t: int) returns (sunk: seq<Result>)
      requires Valid()
      modifies this, entries
      ensures Valid() && entries == old(entries)
      ensures (State(), sunk) == Visit(old(State()), id, t, false)
    {
      sunk := [];
      if id in idx {
        assert entries[..][idx[id]] == entries[idx[id]];
        var e := entries[idx[id]].value;
        if e.expires < t {
          Del(id);
          sunk := [e.result];
        }
      }
    }

    /** The sweep; `order` is the order in which the index is visited and now(key) the clock at that visit. */
    method Prune(order: seq<ID>, now: ID -> int) returns (sunk: seq<Result>)
      requires Valid()
      modifies this, entries
      ensures Valid() && entries == old(entries)
      ensures (State(), sunk) == Sweep(old(State()), order, now, false)
      ensures old(Coherent(State()) && PruneSafe(State(), now)) && SweepOrder(old(State()), order) ==>
                SweptRight(old(State()), order, now)
    {
      ghost var s := State();
      if Coherent(s) {
        PruneAsWritten(s, now);
      }
      sunk := [];
      var i := 0;
      assert order[0..] == order;
      ghost var all := Sweep(s, order, now, false);
      assert [] + all.1 == all.1;
      while i < |order|
        invariant i <= |order| && Valid() && entries == old(entries)
        invariant all == Later(sunk, Sweep(State(), order[i..], now, false))
      {
        SweepFrom(State(), order, i, now, sunk);
        var more := VisitKey(order[i], now(order[i]));
        sunk := sunk + more;
        i := i + 1;
      }
      assert sunk + [] == sunk;
    }
  }
}
