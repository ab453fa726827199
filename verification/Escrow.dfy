/** The escrow of escrow.sol: participants pay in, release or cancel, and withdraw. */
module Escrow {
  import opened Accounts

  type Uint80 = x: int | 0 <= x < 0x1_0000_0000_0000_0000_0000

  const UINT80: nat := 0x1_0000_0000_0000_0000_0000

  // The statuses, as numbered in the contract.
  const INACTIVE := 0
  const ACTIVE := 1
  const PAID := 2
  const RELEASED := 3
  const WITHDRAWN := 4
  const CANCELLED := 5

  datatype Participant = Participant(amount: Uint80, status: nat, beneficiary: Address)

  const NOBODY := Participant(0, INACTIVE, 0)

  /** One escrow: its name, owner, the participants' mapping, and the list of those who were added. */
  datatype Item = Item(name: nat, owner: Address, participants: map<Address, Participant>, listed: seq<Address>)

  /** The contract: all escrows, their counter, and the Ether held. */
  datatype State = State(items: seq<Item>, count: nat, balance: nat)

  /** How a call ends: it reverts, it runs out of gas in a loop that cannot end, or it returns. */
  datatype Outcome = Reverted | OutOfGas | Returned(ok: bool)

  function Of(e: Item, who: Address): Participant {
    if who in e.participants then e.participants[who] else NOBODY
  }

  function StatusOf(e: Item, who: Address): nat {
    Of(e, who).status
  }

  function Set(e: Item, who: Address, p: Participant): Item {
    e.(participants := e.participants[who := p])
  }

  function Update(s: State, id: nat, e: Item): State
    requires id < |s.items|
  {
    s.(items := s.items[id := e])
  }

  // ----- the functions of the contract -----

  function CreateEscrow(s: State, sender: Address, name: nat): State {
    s.(items := s.items + [Item(name, sender, map[], [])], count := s.count + 1)
  }

  /** The escrow after `who` was added. */
  function Added(e: Item, who: Address, amount: Uint80, beneficiary: Address): Item {
    Set(e, who, Participant(amount, ACTIVE, beneficiary)).(listed := e.listed + [who])
  }

  /** The escrow is named by its counter here, one more than its index; elsewhere by its index. */
  function AddParticipant(s: State, sender: Address, no: nat, amount: Uint80, who: Address, beneficiary: Address)
    : (State, Outcome)
  {
    if no == 0 || no > |s.items| || s.items[no - 1].owner != sender || StatusOf(s.items[no - 1], who) != INACTIVE then
      (s, Reverted)
    else
      (Update(s, no - 1, Added(s.items[no - 1], who, amount, beneficiary)), Returned(true))
  }

  /** Paying in looks at the beneficiary and the amount, not at the status; the amount is cut to 80 bits. */
  function Put(s: State, sender: Address, id: nat, value: Word): (State, Outcome) {
    if id >= |s.items| then (s, Reverted) else
      var p := Of(s.items[id], sender);
      if p.beneficiary == 0 || p.amount > value then (s, Reverted)
      else
        (Update(s, id, Set(s.items[id], sender, p.(amount := value % UINT80, status := PAID)))
         .(balance := s.balance + value), Returned(true))
  }

  function ReleaseBy(s: State, sender: Address, id: nat): (State, Outcome) {
    if id >= |s.items| || StatusOf(s.items[id], sender) != PAID then (s, Reverted)
    else
      (Update(s, id, Set(s.items[id], sender, Of(s.items[id], sender).(status := RELEASED))), Returned(true))
  }

  /** What the loop over the listed participants finds. */
  datatype Scan = AllReleased | FoundCancelled | FoundOther | Endless

  /** From index i on. The counter is a uint8, so it never gets past 255. */
  function ScanFrom(e: Item, i: nat): Scan
    requires i <= |e.listed| && i <= 256
    decreases 256 - i
  {
    if i == 256 then Endless
    else if i == |e.listed| then AllReleased
    else if StatusOf(e, e.listed[i]) == CANCELLED then FoundCancelled
    else if StatusOf(e, e.listed[i]) != RELEASED then FoundOther
    else ScanFrom(e, i + 1)
  }

  /** The changed escrow, how the call ended, and the Ether it sent. */
  datatype Paid = Paid(item: Item, outcome: Outcome, sent: nat)

  /**
   * The payout of one escrow. The record is zeroed before its amount is read again for the send; `delivered` says
   * whether the send goes through. A failed send puts the amount back, with the status the loop ended in.
   */
  function PayoutOf(e: Item, sender: Address, delivered: bool): Paid {
    var p := Of(e, sender);
    if p.status <= PAID then Paid(e, Reverted, 0) else
      match ScanFrom(e, 0)
      case Endless => Paid(e, OutOfGas, 0)
      case FoundOther => Paid(e, Reverted, 0)
      case FoundCancelled =>
        if p.status == CANCELLED then Finish(e, sender, CANCELLED, delivered) else Paid(e, Reverted, 0)
      case AllReleased => Finish(e, sender, RELEASED, delivered)
  }

  function Finish(e: Item, sender: Address, mode: nat, delivered: bool): Paid {
    var amountToSend := Of(e, sender).amount;
    var zeroed := Set(e, sender, Of(e, sender).(status := WITHDRAWN, amount := 0));
    if delivered then
      Paid(zeroed, Returned(true), Of(zeroed, sender).amount)
    else
      Paid(Set(zeroed, sender, Of(zeroed, sender).(amount := amountToSend, status := mode)), Returned(false), 0)
  }

  function Payout(s: State, sender: Address, id: nat, delivered: bool): (State, Outcome) {
    if id >= |s.items| then (s, Reverted) else
      var r := PayoutOf(s.items[id], sender, delivered);
      if r.sent > s.balance then (s, Reverted)
      else (Update(s, id, r.item).(balance := s.balance - r.sent), r.outcome)
  }

  /** How many of the first n listed participants have released. */
  function Releases(e: Item, n: nat): nat
    requires n <= |e.listed|
  {
    if n == 0 then 0 else
      Releases(e, n - 1) + if StatusOf(e, e.listed[n - 1]) == RELEASED then 1 else 0
  }

  function CancelOf(e: Item, sender: Address): (Item, Outcome) {
    if StatusOf(e, sender) >= WITHDRAWN then (e, Reverted)
    else if |e.listed| > 255 then (e, OutOfGas)
    else if Releases(e, |e.listed|) == |e.listed| then (e, Reverted)
    else (Set(e, sender, Of(e, sender).(status := CANCELLED)), Returned(true))
  }

  function Cancel(s: State, sender: Address, id: nat): (State, Outcome) {
    if id >= |s.items| then (s, Reverted) else
      var (e, o) := CancelOf(s.items[id], sender);
      (Update(s, id, e), o)
  }

  // ----- when a payout or a cancellation succeeds -----

  predicate AllListedReleased(e: Item) {
    forall i :: 0 <= i < |e.listed| ==> StatusOf(e, e.listed[i]) == RELEASED
  }

  /** Some listed participant among the first 256 has cancelled, and everyone listed before it has released. */
  predicate CancelledFirst(e: Item) {
    exists i :: 0 <= i < |e.listed| && i < 256 && StatusOf(e, e.listed[i]) == CANCELLED
                && forall j :: 0 <= j < i ==> StatusOf(e, e.listed[j]) == RELEASED
  }

  /** The first n listed participants have released. */
  predicate FirstReleased(e: Item, n: nat) {
    forall i :: 0 <= i < n && i < |e.listed| ==> StatusOf(e, e.listed[i]) == RELEASED
  }

  lemma {:induction false} ScanMeaning(e: Item, i: nat)
    requires i <= |e.listed| && i <= 256
    requires forall j :: 0 <= j < i ==> StatusOf(e, e.listed[j]) == RELEASED
    ensures ScanFrom(e, i) == AllReleased <==> AllListedReleased(e) && |e.listed| <= 255
    ensures ScanFrom(e, i) == FoundCancelled <==> CancelledFirst(e)
    ensures ScanFrom(e, i) == Endless <==> |e.listed| > 255 && FirstReleased(e, 256)
    decreases 256 - i
  {
    if i < 256 && i < |e.listed| && StatusOf(e, e.listed[i]) == RELEASED {
      ScanMeaning(e, i + 1);
    }
  }

  /**
   * Exactly when anyone's payout goes through: it has got past paying in, and all listed participants have released and
   * there are at most 255 of them; or it has cancelled itself, and nobody listed before the first cancelled one holds
   * it up.
   */
  lemma PayoutSucceedsIff(e: Item, sender: Address, delivered: bool)
    ensures PayoutOf(e, sender, delivered).outcome.Returned? <==>
            (StatusOf(e, sender) > PAID && AllListedReleased(e) && |e.listed| <= 255)
            || (StatusOf(e, sender) == CANCELLED && CancelledFirst(e))
    ensures PayoutOf(e, sender, delivered).outcome.Returned? ==>
              StatusOf(e, sender) == CANCELLED || forall p :: p in e.listed ==> StatusOf(e, p) == RELEASED
    ensures PayoutOf(e, sender, delivered).outcome == OutOfGas <==>
            StatusOf(e, sender) > PAID && |e.listed| > 255 && FirstReleased(e, 256)
    ensures !PayoutOf(e, sender, delivered).outcome.Returned? ==> PayoutOf(e, sender, delivered).item == e
  {
    ScanMeaning(e, 0);
  }

  /** As soon as one listed participant has withdrawn, nobody can be paid except by cancelling. */
  lemma FirstPayoutBlocksOthers(e: Item, first: Address, other: Address, delivered: bool)
    requires first in e.listed
    requires StatusOf(e, first) == WITHDRAWN && StatusOf(e, other) != CANCELLED
    ensures !PayoutOf(e, other, delivered).outcome.Returned?
  {
    PayoutSucceedsIff(e, other, delivered);
  }

  lemma {:induction false} ReleasesCount(e: Item, n: nat)
    requires n <= |e.listed|
    ensures Releases(e, n) <= n
    ensures Releases(e, n) == n <==> forall i :: 0 <= i < n ==> StatusOf(e, e.listed[i]) == RELEASED
  {
    if n > 0 {
      ReleasesCount(e, n - 1);
    }
  }

  /** A cancellation goes through exactly before the own payout and unless everybody listed has released. */
  lemma CancelSucceedsIff(e: Item, sender: Address)
    ensures CancelOf(e, sender).1.Returned? <==>
            StatusOf(e, sender) < WITHDRAWN && |e.listed| <= 255 && !AllListedReleased(e)
    ensures CancelOf(e, sender).1 == OutOfGas <==> StatusOf(e, sender) < WITHDRAWN && |e.listed| > 255
  {
    ReleasesCount(e, |e.listed|);
  }

  // ----- when each call goes through, and what it leaves -----

  /** Only escrow `id` has changed, and of it only the record of `who`, which is now p. */
  ghost predicate OnlyRecord(s: State, t: State, id: nat, who: Address, p: Participant) {
    && id < |s.items| == |t.items| && t.count == s.count
    && (forall i :: 0 <= i < |s.items| && i != id ==> t.items[i] == s.items[i])
    && t.items[id].owner == s.items[id].owner && t.items[id].name == s.items[id].name
    && forall a :: Of(t.items[id], a) == if a == who then p else Of(s.items[id], a)
  }

  /** A new escrow belongs to its sender and has nobody in it; it comes last, and nothing else changes. */
  lemma CreateAppends(s: State, sender: Address, name: nat, a: Address)
    ensures var t := CreateEscrow(s, sender, name);
            && |t.items| == |s.items| + 1 && t.items[..|s.items|] == s.items
            && t.count == s.count + 1 && t.balance == s.balance
            && var e := t.items[|s.items|];
               e.owner == sender && e.name == name && e.listed == [] && Of(e, a) == Participant(0, INACTIVE, 0)
  {
  }

  /** An add goes through exactly for the owner and an inactive address, which is then active and listed last. */
  lemma AddSucceedsIff(s: State, sender: Address, no: nat, amount: Uint80, who: Address, beneficiary: Address)
    ensures var (t, o) := AddParticipant(s, sender, no, amount, who, beneficiary);
            && (o.Returned? <==>
                1 <= no <= |s.items| && s.items[no - 1].owner == sender
                && StatusOf(s.items[no - 1], who) == INACTIVE)
            && (!o.Returned? ==> t == s && o == Reverted)
            && (o.Returned? ==>
                  && OnlyRecord(s, t, no - 1, who, Participant(amount, ACTIVE, beneficiary))
                  && t.items[no - 1].listed == s.items[no - 1].listed + [who]
                  && t.balance == s.balance && o == Returned(true))
  {
  }

  /** A payment goes through exactly with a beneficiary and at least the amount asked, in any status. */
  lemma PutSucceedsIff(s: State, sender: Address, id: nat, value: Word)
    ensures var (t, o) := Put(s, sender, id, value);
            && (o.Returned? <==>
                id < |s.items| && Of(s.items[id], sender).beneficiary != 0 && Of(s.items[id], sender).amount <= value)
            && (!o.Returned? ==> t == s && o == Reverted)
            && (o.Returned? ==>
                  && OnlyRecord(s, t, id, sender,
                                Participant(value % UINT80, PAID, Of(s.items[id], sender).beneficiary))
                  && t.items[id].listed == s.items[id].listed
                  && t.balance == s.balance + value && o == Returned(true))
  {
  }

  /** A release goes through exactly for one that has paid, and changes its status only. */
  lemma ReleaseSucceedsIff(s: State, sender: Address, id: nat)
    ensures var (t, o) := ReleaseBy(s, sender, id);
            && (o.Returned? <==> id < |s.items| && StatusOf(s.items[id], sender) == PAID)
            && (!o.Returned? ==> t == s && o == Reverted)
            && (o.Returned? ==>
                  && OnlyRecord(s, t, id, sender, Of(s.items[id], sender).(status := RELEASED))
                  && t.items[id].listed == s.items[id].listed
                  && t.balance == s.balance && o == Returned(true))
  {
  }

  /** A cancellation changes the sender's status only, and keeps its amount. */
  lemma CancelLeaves(s: State, sender: Address, id: nat)
    ensures var (t, o) := Cancel(s, sender, id);
            && (o.Returned? <==>
                id < |s.items| && StatusOf(s.items[id], sender) < WITHDRAWN
                && |s.items[id].listed| <= 255 && !AllListedReleased(s.items[id]))
            && (!o.Returned? ==> t == s)
            && (o.Returned? ==>
                  && OnlyRecord(s, t, id, sender, Of(s.items[id], sender).(status := CANCELLED))
                  && t.items[id].listed == s.items[id].listed
                  && t.balance == s.balance && o == Returned(true))
  {
    if id < |s.items| {
      CancelSucceedsIff(s.items[id], sender);
      assert s.items[id := s.items[id]] == s.items;
    }
  }

  /** A payout never touches the balance, another escrow or another record. */
  lemma PayoutLeaves(s: State, sender: Address, id: nat, delivered: bool)
    ensures var (t, o) := Payout(s, sender, id, delivered);
            && (o.Returned? <==> id < |s.items| && PayoutOf(s.items[id], sender, delivered).outcome.Returned?)
            && (!o.Returned? ==> t == s)
            && (o.Returned? ==>
                  && OnlyRecord(s, t, id, sender, Of(PayoutOf(s.items[id], sender, delivered).item, sender))
                  && t.items[id].listed == s.items[id].listed
                  && t.balance == s.balance && o == Returned(delivered))
  {
    if id < |s.items| {
      SendsNothing(s.items[id], sender, delivered);
      PayoutSucceedsIff(s.items[id], sender, delivered);
      if PayoutOf(s.items[id], sender, delivered).outcome.Returned? {
        PayoutSets(s.items[id], sender, delivered);
      } else {
        assert s.items[id := s.items[id]] == s.items;
      }
    }
  }

  // ----- runs -----

  datatype Tx =
    | CreateTx(sender: Address, name: nat)
    | AddTx(sender: Address, no: nat, amount: Uint80, who: Address, beneficiary: Address)
    | PutTx(sender: Address, id: nat, value: Word)
    | ReleaseTx(sender: Address, id: nat)
    | PayoutTx(sender: Address, id: nat, delivered: bool)
    | CancelTx(sender: Address, id: nat)

  function Exec(s: State, tx: Tx): (State, Outcome) {
    match tx
    case CreateTx(sender, name) => (CreateEscrow(s, sender, name), Returned(true))
    case AddTx(sender, no, amount, who, beneficiary) => AddParticipant(s, sender, no, amount, who, beneficiary)
    case PutTx(sender, id, value) => Put(s, sender, id, value)
    case ReleaseTx(sender, id) => ReleaseBy(s, sender, id)
    case PayoutTx(sender, id, delivered) => Payout(s, sender, id, delivered)
    case CancelTx(sender, id) => Cancel(s, sender, id)
  }

  function Run(s: State, txs: seq<Tx>): State
    decreases |txs|
  {
    if txs == [] then s else Run(Exec(s, txs[0]).0, txs[1..])
  }

  predicate Distinct(q: seq<Address>) {
    forall i, j :: 0 <= i < j < |q| ==> q[i] != q[j]
  }

  /** Listed addresses are distinct and active; anyone else has neither amount nor beneficiary. */
  ghost predicate ItemInv(e: Item) {
    && Distinct(e.listed)
    && (forall p :: p in e.listed ==> StatusOf(e, p) != INACTIVE)
    && (forall p :: p !in e.listed ==> Of(e, p).amount == 0 && Of(e, p).beneficiary == 0)
  }

  predicate Holds(p: Participant) {
    p.status == PAID || p.status == RELEASED
  }

  function Share(p: Participant): nat {
    if Holds(p) then p.amount else 0
  }

  /** The amounts of the participants in q that have paid in and not withdrawn or cancelled. */
  function HeldBy(e: Item, q: seq<Address>): nat {
    if q == [] then 0 else
      HeldBy(e, q[..|q| - 1]) + Share(Of(e, q[|q| - 1]))
  }

  function HeldIn(items: seq<Item>): nat {
    if items == [] then 0 else
      HeldIn(items[..|items| - 1]) + HeldBy(items[|items| - 1], items[|items| - 1].listed)
  }

  /** The balance covers everything that was paid in and may still be claimed, over all escrows. */
  ghost predicate Solvent(s: State) {
    && (forall i :: 0 <= i < |s.items| ==> ItemInv(s.items[i]))
    && s.count == |s.items|
    && s.balance >= HeldIn(s.items)
  }

  lemma {:induction false} HeldOutside(e: Item, who: Address, p: Participant, q: seq<Address>)
    requires who !in q
    ensures HeldBy(Set(e, who, p), q) == HeldBy(e, q)
  {
    if q != [] {
      HeldOutside(e, who, p, q[..|q| - 1]);
    }
  }

  lemma {:induction false} HeldUpdate(e: Item, who: Address, p: Participant, q: seq<Address>)
    requires who in q && Distinct(q)
    ensures HeldBy(Set(e, who, p), q) + Share(Of(e, who)) == HeldBy(e, q) + Share(p)
  {
    var n := |q| - 1;
    if q[n] == who {
      HeldOutside(e, who, p, q[..n]);
    } else {
      HeldUpdate(e, who, p, q[..n]);
    }
  }

  lemma {:induction false} HeldInUpdate(items: seq<Item>, id: nat, e: Item)
    requires id < |items|
    ensures HeldIn(items[id := e]) + HeldBy(items[id], items[id].listed) == HeldIn(items) + HeldBy(e, e.listed)
  {
    var n := |items| - 1;
    if id == n {
      assert items[id := e][..n] == items[..n];
    } else {
      assert items[id := e][..n] == items[..n][id := e];
      HeldInUpdate(items[..n], id, e);
    }
  }

  /** A participant's new record changes what is held by its own share, and by nothing if it is not listed. */
  lemma SetHeld(e: Item, who: Address, p: Participant)
    requires ItemInv(e) && p.status != INACTIVE
    requires who !in e.listed ==> p.amount == 0 && p.beneficiary == 0
    ensures ItemInv(Set(e, who, p))
    ensures HeldBy(Set(e, who, p), e.listed) <= HeldBy(e, e.listed) + Share(p)
    ensures Share(p) <= Share(Of(e, who)) ==> HeldBy(Set(e, who, p), e.listed) <= HeldBy(e, e.listed)
  {
    if who in e.listed {
      HeldUpdate(e, who, p, e.listed);
    } else {
      HeldOutside(e, who, p, e.listed);
    }
  }

  lemma AddKeeps(e: Item, who: Address, amount: Uint80, beneficiary: Address)
    requires ItemInv(e) && StatusOf(e, who) == INACTIVE
    ensures var f := Added(e, who, amount, beneficiary); ItemInv(f) && HeldBy(f, f.listed) == HeldBy(e, e.listed)
  {
    AddListed(e, who, amount, beneficiary);
    var f := Added(e, who, amount, beneficiary);
    HeldOutside(e, who, Participant(amount, ACTIVE, beneficiary), e.listed);
    assert f.listed[..|e.listed|] == e.listed;
    SameHeld(f, Set(e, who, Participant(amount, ACTIVE, beneficiary)), e.listed);
  }

  lemma AddListed(e: Item, who: Address, amount: Uint80, beneficiary: Address)
    requires ItemInv(e) && StatusOf(e, who) == INACTIVE
    ensures who !in e.listed && ItemInv(Added(e, who, amount, beneficiary))
  {
    var f := Added(e, who, amount, beneficiary);
    assert forall p :: p in f.listed <==> p == who || p in e.listed;
    assert forall p :: p != who ==> Of(f, p) == Of(e, p);
  }

  lemma {:induction false} SameHeld(e: Item, d: Item, q: seq<Address>)
    requires e.participants == d.participants
    ensures HeldBy(e, q) == HeldBy(d, q)
  {
    if q != [] {
      SameHeld(e, d, q[..|q| - 1]);
    }
  }

  lemma UpdateSolvent(s: State, id: nat, e: Item, more: nat)
    requires Solvent(s) && id < |s.items| && ItemInv(e)
    requires HeldBy(e, e.listed) <= HeldBy(s.items[id], s.items[id].listed) + more
    ensures Solvent(Update(s, id, e).(balance := s.balance + more))
  {
    HeldInUpdate(s.items, id, e);
  }

  /** Every transaction, whoever sends it and whatever happens to the send, keeps the contract solvent. */
  lemma ExecSolvent(s: State, tx: Tx)
    requires Solvent(s)
    ensures Solvent(Exec(s, tx).0)
  {
    match tx
    case CreateTx(sender, name) => CreateSolvent(s, sender, name);
    case AddTx(sender, no, amount, who, beneficiary) => AddSolvent(s, sender, no, amount, who, beneficiary);
    case PutTx(sender, id, value) => PutSolvent(s, sender, id, value);
    case ReleaseTx(sender, id) => ReleaseSolvent(s, sender, id);
    case PayoutTx(sender, id, delivered) => if id < |s.items| { PayoutSolvent(s, sender, id, delivered); }
    case CancelTx(sender, id) => CancelSolvent(s, sender, id);
  }

  lemma CreateSolvent(s: State, sender: Address, name: nat)
    requires Solvent(s)
    ensures Solvent(CreateEscrow(s, sender, name))
  {
    var items := CreateEscrow(s, sender, name).items;
    assert items[..|items| - 1] == s.items;
    assert ItemInv(items[|s.items|]) && HeldBy(items[|s.items|], []) == 0;
  }

  lemma AddSolvent(s: State, sender: Address, no: nat, amount: Uint80, who: Address, beneficiary: Address)
    requires Solvent(s)
    ensures Solvent(AddParticipant(s, sender, no, amount, who, beneficiary).0)
  {
    var (t, o) := AddParticipant(s, sender, no, amount, who, beneficiary);
    if o.Returned? {
      AddKeeps(s.items[no - 1], who, amount, beneficiary);
      UpdateSolvent(s, no - 1, t.items[no - 1], 0);
    }
  }

  lemma ReleaseSolvent(s: State, sender: Address, id: nat)
    requires Solvent(s)
    ensures Solvent(ReleaseBy(s, sender, id).0)
  {
    if ReleaseBy(s, sender, id).1.Returned? {
      var p := Of(s.items[id], sender).(status := RELEASED);
      SetHeld(s.items[id], sender, p);
      UpdateSolvent(s, id, Set(s.items[id], sender, p), 0);
    }
  }

  lemma CancelSolvent(s: State, sender: Address, id: nat)
    requires Solvent(s)
    ensures Solvent(Cancel(s, sender, id).0)
  {
    if id < |s.items| {
      SetHeld(s.items[id], sender, Of(s.items[id], sender).(status := CANCELLED));
      UpdateSolvent(s, id, CancelOf(s.items[id], sender).0, 0);
    }
  }

  lemma PutSolvent(s: State, sender: Address, id: nat, value: Word)
    requires Solvent(s)
    ensures Solvent(Put(s, sender, id, value).0)
  {
    if Put(s, sender, id, value).1.Returned? {
      var p := Of(s.items[id], sender).(amount := value % UINT80, status := PAID);
      assert value % UINT80 <= value;
      SetHeld(s.items[id], sender, p);
      UpdateSolvent(s, id, Set(s.items[id], sender, p), value);
    }
  }

  lemma PayoutSolvent(s: State, sender: Address, id: nat, delivered: bool)
    requires Solvent(s) && id < |s.items|
    ensures Solvent(Payout(s, sender, id, delivered).0)
  {
    var e := s.items[id];
    var r := PayoutOf(e, sender, delivered);
    SendsNothing(e, sender, delivered);
    if r.outcome.Returned? {
      ScanMeaning(e, 0);
      PayoutSets(e, sender, delivered);
      SetHeld(e, sender, Of(r.item, sender));
      SameHeld(r.item, Set(e, sender, Of(r.item, sender)), e.listed);
    }
    UpdateSolvent(s, id, r.item, 0);
  }

  /**
   * What a payout leaves: delivered, nothing and withdrawn; otherwise the amount, and the status the loop ended in,
   * which for a listed sender is the one before.
   */
  lemma PayoutSets(e: Item, sender: Address, delivered: bool)
    requires PayoutOf(e, sender, delivered).outcome.Returned?
    ensures PayoutOf(e, sender, delivered).outcome == Returned(delivered)
    ensures var f, p := PayoutOf(e, sender, delivered).item, Of(e, sender);
            && f == Set(e, sender, Of(f, sender))
            && Of(f, sender) ==
               if delivered then Participant(0, WITHDRAWN, p.beneficiary)
               else Participant(p.amount, if AllListedReleased(e) then RELEASED else CANCELLED, p.beneficiary)
    ensures sender in e.listed && !delivered ==> Of(PayoutOf(e, sender, delivered).item, sender) == Of(e, sender)
  {
    ScanMeaning(e, 0);
  }

  /** The record is zeroed before it is read, so every payout as written sends nothing. */
  lemma SendsNothing(e: Item, sender: Address, delivered: bool)
    ensures PayoutOf(e, sender, delivered).sent == 0
  {
  }

  /** Every run keeps solvency: listed addresses are distinct, and the balance covers the claims. */
  lemma {:induction false} RunSolvent(s: State, txs: seq<Tx>)
    requires Solvent(s)
    ensures Solvent(Run(s, txs))
    decreases |txs|
  {
    if txs != [] {
      ExecSolvent(s, txs[0]);
      RunSolvent(Exec(s, txs[0]).0, txs[1..]);
    }
  }

  /** So every run from the freshly deployed contract is solvent, whatever Ether its address held before. */
  lemma DeployedStaysSolvent(balance: nat, txs: seq<Tx>)
    ensures Solvent(Run(State([], 0, balance), txs))
  {
    RunSolvent(State([], 0, balance), txs);
  }

  /** The owner and the name of an escrow never change, in any run, and its list only grows. */
  lemma {:induction false} OwnersStay(s: State, txs: seq<Tx>, id: nat)
    requires id < |s.items|
    ensures var t := Run(s, txs);
            && |s.items| <= |t.items| && t.items[id].owner == s.items[id].owner && t.items[id].name == s.items[id].name
            && s.items[id].listed <= t.items[id].listed
    decreases |txs|
  {
    if txs != [] {
      ExecKeepsOwners(s, txs[0], id);
      OwnersStay(Exec(s, txs[0]).0, txs[1..], id);
    }
  }

  lemma ExecKeepsOwners(s: State, tx: Tx, id: nat)
    requires id < |s.items|
    ensures var t := Exec(s, tx).0;
            && |s.items| <= |t.items| && t.items[id].owner == s.items[id].owner && t.items[id].name == s.items[id].name
            && s.items[id].listed <= t.items[id].listed
  {
    match tx
    case CreateTx(sender, name) =>
    case AddTx(sender, no, amount, who, beneficiary) => AddSucceedsIff(s, sender, no, amount, who, beneficiary);
    case PutTx(sender, i, value) => PutSucceedsIff(s, sender, i, value);
    case ReleaseTx(sender, i) => ReleaseSucceedsIff(s, sender, i);
    case PayoutTx(sender, i, delivered) => PayoutLeaves(s, sender, i, delivered);
    case CancelTx(sender, i) => CancelLeaves(s, sender, i);
  }

  /** A participant's record changes only by its own calls, or when the owner adds it while it is inactive. */
  lemma OthersCannotTouch(s: State, tx: Tx, who: Address, id: nat)
    requires id < |s.items| && tx.sender != who
    requires !(tx.AddTx? && tx.who == who && tx.no == id + 1
               && tx.sender == s.items[id].owner && StatusOf(s.items[id], who) == INACTIVE)
    ensures var t := Exec(s, tx).0;
            && |s.items| <= |t.items| && Of(t.items[id], who) == Of(s.items[id], who)
            && s.items[id].listed <= t.items[id].listed
  {
    ExecKeepsOwners(s, tx, id);
    match tx
    case CreateTx(sender, name) =>
    case AddTx(sender, no, amount, x, beneficiary) => AddSucceedsIff(s, sender, no, amount, x, beneficiary);
    case PutTx(sender, i, value) => PutSucceedsIff(s, sender, i, value);
    case ReleaseTx(sender, i) => ReleaseSucceedsIff(s, sender, i);
    case PayoutTx(sender, i, delivered) => PayoutLeaves(s, sender, i, delivered);
    case CancelTx(sender, i) => CancelLeaves(s, sender, i);
  }

  // ----- a withdrawal is final until one pays in again -----

  predicate PutsBy(txs: seq<Tx>, who: Address, id: nat) {
    exists i :: 0 <= i < |txs| && txs[i].PutTx? && txs[i].sender == who && txs[i].id == id
  }

  predicate IsWithdrawn(s: State, who: Address, id: nat) {
    id < |s.items| && who in s.items[id].listed && StatusOf(s.items[id], who) == WITHDRAWN
  }

  lemma ExecKeepsWithdrawn(s: State, tx: Tx, who: Address, id: nat)
    requires Solvent(s) && IsWithdrawn(s, who, id)
    requires !(tx.PutTx? && tx.sender == who && tx.id == id)
    ensures IsWithdrawn(Exec(s, tx).0, who, id)
    ensures tx.PayoutTx? && tx.sender == who && tx.id == id ==> !Exec(s, tx).1.Returned?
  {
    if tx.PayoutTx? && tx.id < |s.items| {
      SendsNothing(s.items[tx.id], tx.sender, tx.delivered);
      if tx.id == id {
        PayoutSucceedsIff(s.items[id], who, tx.delivered);
      }
    }
  }

  /** In any run without a new payment by the participant, one that has withdrawn stays withdrawn and is never paid. */
  lemma {:induction false} NoSecondPayout(s: State, txs: seq<Tx>, who: Address, id: nat, delivered: bool)
    requires Solvent(s) && IsWithdrawn(s, who, id) && !PutsBy(txs, who, id)
    ensures var t := Run(s, txs);
            IsWithdrawn(t, who, id) && !Payout(t, who, id, delivered).1.Returned?
    decreases |txs|
  {
    if txs == [] {
      ExecKeepsWithdrawn(s, PayoutTx(who, id, delivered), who, id);
    } else {
      ExecKeepsWithdrawn(s, txs[0], who, id);
      ExecSolvent(s, txs[0]);
      assert forall i :: 0 <= i < |txs[1..]| ==> txs[1..][i] == txs[i + 1];
      NoSecondPayout(Exec(s, txs[0]).0, txs[1..], who, id, delivered);
    }
  }

  /** The contract as written never pays anything out: its balance only grows. */
  lemma {:induction false} NothingIsEverPaid(s: State, txs: seq<Tx>)
    ensures Run(s, txs).balance >= s.balance
    decreases |txs|
  {
    if txs != [] {
      if txs[0].PayoutTx? && txs[0].id < |s.items| {
        SendsNothing(s.items[txs[0].id], txs[0].sender, txs[0].delivered);
      }
      NothingIsEverPaid(Exec(s, txs[0]).0, txs[1..]);
    }
  }

  // ----- the contract as an object -----

  class EscrowContract {
    var items: seq<Item>
    var count: nat
    var balance: nat

    constructor (balance: nat)
      ensures Here() == State([], 0, balance) && Solvent(Here())
    {
      items, count, this.balance := [], 0, balance;
    }

    function Here(): State
      reads this
    {
      State(items, count, balance)
    }

    method Create(sender: Address, name: nat)
      modifies this
      ensures Here() == CreateEscrow(old(Here()), sender, name)
      ensures old(Solvent(Here())) ==> Solvent(Here())
    {
      if Solvent(Here()) { CreateSolvent(Here(), sender, name); }
      count := count + 1;
      items := items + [Item(name, sender, map[], [])];
    }

    method Add(sender: Address, no: nat, amount: Uint80, who: Address, beneficiary: Address) returns (o: Outcome)
      modifies this`items
      ensures (Here(), o) == AddParticipant(old(Here()), sender, no, amount, who, beneficiary)
      ensures old(Solvent(Here())) ==> Solvent(Here())
    {
      if Solvent(Here()) { AddSolvent(Here(), sender, no, amount, who, beneficiary); }
      if no == 0 || no > |items| || items[no - 1].owner != sender || StatusOf(items[no - 1], who) != INACTIVE {
        return Reverted;
      }
      var e := Set(items[no - 1], who, Participant(amount, ACTIVE, beneficiary));
      e := e.(listed := e.listed + [who]);
      items := items[no - 1 := e];
      return Returned(true);
    }

    method PutIn(sender: Address, id: nat, value: Word) returns (o: Outcome)
      modifies this`items, this`balance
      ensures (Here(), o) == Put(old(Here()), sender, id, value)
      ensures old(Solvent(Here())) ==> Solvent(Here())
    {
      if Solvent(Here()) { PutSolvent(Here(), sender, id, value); }
      if id >= |items| || Of(items[id], sender).beneficiary == 0 || Of(items[id], sender).amount > value {
        return Reverted;
      }
      var p := Of(items[id], sender);
      p := p.(amount := value % UINT80);
      p := p.(status := PAID);
      items := items[id := Set(items[id], sender, p)];
      balance := balance + value;
      return Returned(true);
    }

    method Release(sender: Address, id: nat) returns (o: Outcome)
      modifies this`items
      ensures (Here(), o) == ReleaseBy(old(Here()), sender, id)
      ensures old(Solvent(Here())) ==> Solvent(Here())
    {
      if Solvent(Here()) { ReleaseSolvent(Here(), sender, id); }
      if id >= |items| || StatusOf(items[id], sender) != PAID {
        return Reverted;
      }
      items := items[id := Set(items[id], sender, Of(items[id], sender).(status := RELEASED))];
      return Returned(true);
    }

    /**
     * The payout's loop. Its counter is a uint8: when it wraps, every listed participant from 0 to 255 has been
     * seen released, and the loop would repeat for ever.
     */
    method ScanListed(e: Item) returns (found: Scan)
      ensures found == ScanFrom(e, 0)
      ensures found == AllReleased <==> AllListedReleased(e) && |e.listed| <= 255
      ensures found == FoundCancelled <==> CancelledFirst(e)
    {
      ScanMeaning(e, 0);
      var i := 0;
      while i < |e.listed|
        invariant i <= |e.listed| && i <= 255
        invariant ScanFrom(e, 0) == ScanFrom(e, i)
        decreases 256 - i
      {
        if StatusOf(e, e.listed[i]) == CANCELLED {
          return FoundCancelled;
        }
        if StatusOf(e, e.listed[i]) != RELEASED {
          return FoundOther;
        }
        if i == 255 {
          return Endless;
        }
        i := i + 1;
      }
      return AllReleased;
    }

    method PayOut(sender: Address, id: nat, delivered: bool) returns (o: Outcome)
      modifies this`items, this`balance
      ensures (Here(), o) == Payout(old(Here()), sender, id, delivered)
      ensures old(Solvent(Here())) ==> Solvent(Here())
      ensures balance == old(balance)
    {
      if id >= |items| {
        return Reverted;
      }
      if Solvent(Here()) { PayoutSolvent(Here(), sender, id, delivered); }
      SendsNothing(items[id], sender, delivered);
      var item, sent;
      item, o, sent := PayFrom(items[id], sender, delivered);
      items := items[id := item];
      balance := balance - sent;
    }

    method PayFrom(e: Item, sender: Address, delivered: bool) returns (item: Item, o: Outcome, sent: nat)
      ensures Paid(item, o, sent) == PayoutOf(e, sender, delivered)
    {
      item, sent := e, 0;
      if StatusOf(e, sender) <= PAID {
        return item, Reverted, sent;
      }
      var found := ScanListed(e);
      if found == Endless {
        return item, OutOfGas, sent;
      }
      var mode := if found == FoundCancelled then CANCELLED else RELEASED;
      if found == FoundOther || (mode == CANCELLED && StatusOf(e, sender) != CANCELLED) {
        return item, Reverted, sent;
      }
      var amountToSend := Of(e, sender).amount;
      item := Set(item, sender, Of(item, sender).(status := WITHDRAWN, amount := 0));
      if !delivered {
        item := Set(item, sender, Of(item, sender).(amount := amountToSend, status := mode));
        return item, Returned(false), sent;
      }
      return item, Returned(true), Of(item, sender).amount;
    }

    /** The cancellation's count; again a uint8 counter that never gets past 255. */
    method CountReleases(e: Item) returns (releases: nat, ended: bool)
      ensures ended <==> |e.listed| <= 255
      ensures ended ==> releases == Releases(e, |e.listed|)
      ensures ended ==> (releases == |e.listed| <==> AllListedReleased(e))
    {
      ReleasesCount(e, |e.listed|);
      releases := 0;
      var i := 0;
      while i < |e.listed|
        invariant i <= |e.listed| && i <= 255
        invariant releases == Releases(e, i) <= i
        decreases 256 - i
      {
        if StatusOf(e, e.listed[i]) == RELEASED {
          releases := releases + 1;
        }
        if i == 255 {
          return releases, false;
        }
        i := i + 1;
      }
      return releases, true;
    }

    method CancelParticipation(sender: Address, id: nat) returns (o: Outcome)
      modifies this`items
      ensures (Here(), o) == Cancel(old(Here()), sender, id)
      ensures old(Solvent(Here())) ==> Solvent(Here())
    {
      if id >= |items| {
        return Reverted;
      }
      if Solvent(Here()) { CancelSolvent(Here(), sender, id); }
      var e := items[id];
      assert items[id := e] == items;
      if StatusOf(e, sender) >= WITHDRAWN {
        return Reverted;
      }
      var releases, ended := CountReleases(e);
      if !ended {
        return OutOfGas;
      }
      if releases == |e.listed| {
        return Reverted;
      }
      items := items[id := Set(e, sender, Of(e, sender).(status := CANCELLED))];
      return Returned(true);
    }
  }
}
