/** The deposits and credits ledger of pss.sol, with the calls that other contracts make back into it. */
module Pss {
  import opened Accounts

  /**
   * One transaction or nested call. During a withdrawal's send the receiver may run `inner`, any further calls by
   * anyone, and then `accepts` or rolls all of it back. Pay is Ether moving elsewhere; ForceIn is Ether that arrives
   * without a call (a self-destruct).
   */
  datatype Call =
    | Deposit(sender: Address, value: Word)
    | Transfer(sender: Address, amount: Word, beneficiary: Address)
    | Withdraw(sender: Address, amount: Word, inner: seq<Call>, accepts: bool)
    | Pay(from: Address, to: Address, value: Word)
    | ForceIn(from: Address, value: Word)

  /** The contract's two mappings and balance, everyone else's Ether, and the Ether that was forced in. */
  datatype Ledger = Ledger(
    deposits: map<Address, nat>, credits: map<Address, nat>, balance: nat, wallets: map<Address, nat>, forced: nat)

  /** uint256 arithmetic, or, with wrap off, exact arithmetic. */
  function Add(wrap: bool, a: nat, b: nat): nat {
    if wrap && a + b >= WORD then (a + b) % WORD else a + b
  }

  function Sub(wrap: bool, a: nat, b: nat): nat {
    if b <= a then a - b else if wrap then (a - b) % WORD else 0
  }

  function Credit(wrap: bool, m: map<Address, nat>, a: Address, v: nat): map<Address, nat> {
    m[a := Add(wrap, At(m, a), v)]
  }

  function Debit(wrap: bool, m: map<Address, nat>, a: Address, v: nat): map<Address, nat> {
    m[a := Sub(wrap, At(m, a), v)]
  }

  /** On words, that is arithmetic modulo 2^256. */
  lemma WordArithmetic(a: Word, b: Word)
    ensures Add(true, a, b) == (a + b) % WORD && Sub(true, a, b) == (a - b) % WORD
  {
  }

  function Exec(w: Ledger, c: Call, wrap: bool): Ledger
    decreases c
  {
    match c
    case Deposit(sender, value) =>
      if At(w.wallets, sender) < value then w else
        w.(wallets := w.wallets[sender := At(w.wallets, sender) - value],
           balance := w.balance + value,
           deposits := Credit(wrap, w.deposits, sender, value))
    case Transfer(sender, amount, beneficiary) =>
      if At(w.deposits, sender) < amount then w else
        w.(deposits := Debit(wrap, w.deposits, sender, amount), credits := Credit(wrap, w.credits, beneficiary, amount))
    case Withdraw(sender, amount, inner, accepts) =>
      if At(w.credits, sender) < amount then w else
        var debited := w.(credits := Debit(wrap, w.credits, sender, amount));
        var refunded := debited.(credits := Credit(wrap, debited.credits, sender, amount));
        if debited.balance < amount || !accepts then refunded
        else ExecAll(Sent(debited, sender, amount), inner, wrap)
    case Pay(from, to, value) =>
      if At(w.wallets, from) < value then w else
        var paid := w.wallets[from := At(w.wallets, from) - value];
        w.(wallets := paid[to := At(paid, to) + value])
    case ForceIn(from, value) =>
      if At(w.wallets, from) < value then w else
        w.(wallets := w.wallets[from := At(w.wallets, from) - value],
           balance := w.balance + value,
           forced := w.forced + value)
  }

  function Sent(w: Ledger, to: Address, amount: nat): Ledger
    requires amount <= w.balance
  {
    w.(balance := w.balance - amount, wallets := w.wallets[to := At(w.wallets, to) + amount])
  }

  function ExecAll(w: Ledger, calls: seq<Call>, wrap: bool): Ledger
    decreases calls
  {
    if calls == [] then w else ExecAll(Exec(w, calls[0], wrap), calls[1..], wrap)
  }

  // ----- conservation -----

  ghost function Supply(w: Ledger): nat {
    w.balance + Sum(w.wallets)
  }

  /** The contract holds exactly what it owes, and all Ether together fits a word. */
  ghost predicate Conserved(w: Ledger) {
    w.balance == Sum(w.deposits) + Sum(w.credits) + w.forced && Supply(w) < WORD
  }

  lemma CreditSum(m: map<Address, nat>, a: Address, v: nat)
    requires Sum(m) + v < WORD
    ensures Credit(true, m, a, v) == Credit(false, m, a, v)
    ensures Sum(Credit(true, m, a, v)) == Sum(m) + v
  {
    SumUpdate(m, a, At(m, a) + v);
  }

  lemma DebitSum(m: map<Address, nat>, a: Address, v: nat)
    requires v <= At(m, a) && Sum(m) < WORD
    ensures Debit(true, m, a, v) == Debit(false, m, a, v)
    ensures Sum(Debit(true, m, a, v)) == Sum(m) - v
  {
    SumUpdate(m, a, At(m, a) - v);
  }

  lemma MoveOut(m: map<Address, nat>, a: Address, v: nat)
    requires v <= At(m, a)
    ensures Sum(m[a := At(m, a) - v]) == Sum(m) - v
  {
    SumUpdate(m, a, At(m, a) - v);
  }

  lemma MoveIn(m: map<Address, nat>, a: Address, v: nat)
    ensures Sum(m[a := At(m, a) + v]) == Sum(m) + v
  {
    SumUpdate(m, a, At(m, a) + v);
  }

  /** `v` is what a call may make of `w`: the books balance, and no Ether appeared or vanished. */
  ghost predicate Keeps(w: Ledger, v: Ledger) {
    Conserved(v) && Supply(v) == Supply(w)
  }

  lemma DepositKeeps(w: Ledger, sender: Address, value: Word)
    requires Conserved(w)
    ensures Exec(w, Deposit(sender, value), true) == Exec(w, Deposit(sender, value), false)
    ensures Keeps(w, Exec(w, Deposit(sender, value), true))
  {
    if value <= At(w.wallets, sender) {
      MoveOut(w.wallets, sender, value);
      CreditSum(w.deposits, sender, value);
    }
  }

  lemma TransferKeeps(w: Ledger, sender: Address, amount: Word, beneficiary: Address)
    requires Conserved(w)
    ensures var c := Transfer(sender, amount, beneficiary);
            Exec(w, c, true) == Exec(w, c, false) && Keeps(w, Exec(w, c, true))
  {
    if amount <= At(w.deposits, sender) {
      DebitSum(w.deposits, sender, amount);
      CreditSum(w.credits, beneficiary, amount);
    }
  }

  function Debited(w: Ledger, sender: Address, amount: nat): Ledger {
    w.(credits := Debit(true, w.credits, sender, amount))
  }

  function Refunded(w: Ledger, sender: Address, amount: nat): Ledger {
    w.(credits := Credit(true, w.credits, sender, amount))
  }

  /** The two ways a withdrawal goes on from its debit: the refund, or the state in which the receiver's code runs. */
  lemma WithdrawKeeps(w: Ledger, sender: Address, amount: Word)
    requires Conserved(w) && amount <= At(w.credits, sender)
    ensures Debit(true, w.credits, sender, amount) == Debit(false, w.credits, sender, amount)
    ensures var debited := Debited(w, sender, amount);
            && Credit(true, debited.credits, sender, amount) == Credit(false, debited.credits, sender, amount)
            && Keeps(w, Refunded(debited, sender, amount))
            && amount <= debited.balance
            && Keeps(w, Sent(debited, sender, amount))
  {
    WithdrawIsFunded(w, sender, amount);
    DebitSum(w.credits, sender, amount);
    var debited := Debited(w, sender, amount);
    CreditSum(debited.credits, sender, amount);
    MoveIn(w.wallets, sender, amount);
    var sent := Sent(debited, sender, amount);
    assert Sum(sent.credits) == Sum(w.credits) - amount && Sum(sent.wallets) == Sum(w.wallets) + amount;
    assert Sum(Refunded(debited, sender, amount).credits) == Sum(w.credits);
  }

  lemma PayKeeps(w: Ledger, from: Address, to: Address, value: Word)
    requires Conserved(w)
    ensures Keeps(w, Exec(w, Pay(from, to, value), true))
  {
    if value <= At(w.wallets, from) {
      SumMove(w.wallets, from, to, value);
    }
  }

  lemma ForceKeeps(w: Ledger, from: Address, value: Word)
    requires Conserved(w)
    ensures Keeps(w, Exec(w, ForceIn(from, value), true))
  {
    if value <= At(w.wallets, from) {
      MoveOut(w.wallets, from, value);
      var v := Exec(w, ForceIn(from, value), true);
      assert Sum(v.wallets) == Sum(w.wallets) - value && v.balance == w.balance + value;
      assert Sum(v.deposits) == Sum(w.deposits) && Sum(v.credits) == Sum(w.credits);
    }
  }

  /**
   * One call, with everything nested in it, keeps the contract solvent to the wei, keeps the total of all Ether, and
   * computes in 256 bits what exact arithmetic computes: no addition or subtraction in it ever wraps.
   */
  lemma {:induction false} ExecConserves(w: Ledger, c: Call)
    requires Conserved(w)
    ensures Exec(w, c, true) == Exec(w, c, false)
    ensures Keeps(w, Exec(w, c, true))
    decreases c
  {
    match c
    case Deposit(sender, value) => DepositKeeps(w, sender, value);
    case Transfer(sender, amount, beneficiary) => TransferKeeps(w, sender, amount, beneficiary);
    case Withdraw(sender, amount, inner, accepts) =>
      if amount <= At(w.credits, sender) {
        WithdrawKeeps(w, sender, amount);
        if accepts {
          ExecAllConserves(Sent(Debited(w, sender, amount), sender, amount), inner);
        }
      }
    case Pay(from, to, value) => PayKeeps(w, from, to, value);
    case ForceIn(from, value) => ForceKeeps(w, from, value);
  }

  /** The same for any sequence of calls: in every reachable state the balance is deposits plus credits. */
  lemma {:induction false} ExecAllConserves(w: Ledger, calls: seq<Call>)
    requires Conserved(w)
    ensures ExecAll(w, calls, true) == ExecAll(w, calls, false)
    ensures Keeps(w, ExecAll(w, calls, true))
    decreases calls
  {
    if calls != [] {
      ExecConserves(w, calls[0]);
      ExecAllConserves(Exec(w, calls[0], true), calls[1..]);
    }
  }

  /** From a fresh contract, whatever Ether its address held before, every run conserves. */
  lemma RunsConserve(wallets: map<Address, nat>, before: nat, calls: seq<Call>)
    requires before + Sum(wallets) < WORD
    ensures var w := ExecAll(Ledger(map[], map[], before, wallets, before), calls, true);
            w.balance == Sum(w.deposits) + Sum(w.credits) + w.forced && Supply(w) == before + Sum(wallets)
  {
    ExecAllConserves(Ledger(map[], map[], before, wallets, before), calls);
  }

  /** A withdrawal that the guard lets through never fails for lack of funds. */
  lemma WithdrawIsFunded(w: Ledger, sender: Address, amount: Word)
    requires Conserved(w) && amount <= At(w.credits, sender)
    ensures amount <= w.balance
  {
    SumUpdate(w.credits, sender, 0);
  }

  /** A withdrawal whose send fails leaves every account as it was. */
  lemma RefusedWithdrawIsUndone(w: Ledger, sender: Address, amount: Word, inner: seq<Call>)
    requires Conserved(w)
    ensures var v := Exec(w, Withdraw(sender, amount, inner, false), true);
            && v.deposits == w.deposits && v.balance == w.balance && v.wallets == w.wallets && v.forced == w.forced
            && forall a :: At(v.credits, a) == At(w.credits, a)
  {
    if amount <= At(w.credits, sender) {
      DebitSum(w.credits, sender, amount);
      CreditSum(Debit(true, w.credits, sender, amount), sender, amount);
    }
  }

  /** What a deposit does to each account, in exact numbers. */
  lemma DepositEffect(w: Ledger, sender: Address, value: Word, a: Address)
    requires Conserved(w) && value <= At(w.wallets, sender)
    ensures var v := Exec(w, Deposit(sender, value), true);
            && At(v.deposits, a) == At(w.deposits, a) + (if a == sender then value else 0)
            && At(v.wallets, a) == At(w.wallets, a) - (if a == sender then value else 0)
            && v.credits == w.credits && v.balance == w.balance + value && v.forced == w.forced
  {
    DepositKeeps(w, sender, value);
  }

  /** A call that cannot be paid for changes nothing. */
  lemma RefusedCallsDoNothing(w: Ledger, c: Call)
    requires match c
             case Deposit(sender, value) => At(w.wallets, sender) < value
             case Transfer(sender, amount, _) => At(w.deposits, sender) < amount
             case Withdraw(sender, amount, _, _) => At(w.credits, sender) < amount
             case Pay(from, _, value) => At(w.wallets, from) < value
             case ForceIn(from, value) => At(w.wallets, from) < value
    ensures Exec(w, c, true) == w
  {
  }

  /** What Ether that moves around the contract's functions does to each account. */
  lemma OutsideEther(w: Ledger, from: Address, to: Address, value: Word, a: Address)
    requires value <= At(w.wallets, from)
    ensures var v := Exec(w, Pay(from, to, value), true);
            && At(v.wallets, a) ==
               At(w.wallets, a) - (if a == from then value else 0) + (if a == to then value else 0)
            && v == w.(wallets := v.wallets)
    ensures var v := Exec(w, ForceIn(from, value), true);
            && At(v.wallets, a) == At(w.wallets, a) - (if a == from then value else 0)
            && v.balance == w.balance + value && v.forced == w.forced + value
            && v.deposits == w.deposits && v.credits == w.credits
  {
  }

  /** What a transfer does to each account, in exact numbers. */
  lemma TransferEffect(w: Ledger, sender: Address, amount: Word, beneficiary: Address, a: Address)
    requires Conserved(w) && amount <= At(w.deposits, sender)
    ensures var v := Exec(w, Transfer(sender, amount, beneficiary), true);
            && At(v.deposits, a) == At(w.deposits, a) - (if a == sender then amount else 0)
            && At(v.credits, a) == At(w.credits, a) + (if a == beneficiary then amount else 0)
            && v.balance == w.balance && v.wallets == w.wallets && v.forced == w.forced
  {
    TransferKeeps(w, sender, amount, beneficiary);
  }

  /** What an accepted withdrawal has done to each account when the receiver's code starts to run. */
  lemma WithdrawEffect(w: Ledger, sender: Address, amount: Word, a: Address)
    requires Conserved(w) && amount <= At(w.credits, sender)
    ensures var v := Exec(w, Withdraw(sender, amount, [], true), true);
            && At(v.credits, a) == At(w.credits, a) - (if a == sender then amount else 0)
            && At(v.wallets, a) == At(w.wallets, a) + (if a == sender then amount else 0)
            && v.deposits == w.deposits && v.balance == w.balance - amount && v.forced == w.forced
    ensures forall inner :: Exec(w, Withdraw(sender, amount, inner, true), true) ==
                            ExecAll(Exec(w, Withdraw(sender, amount, [], true), true), inner, true)
  {
    WithdrawKeeps(w, sender, amount);
  }

  // ----- only the owner spends -----

  /** Nothing in the call, nor nested in it, is sent by a. */
  predicate Silent(c: Call, a: Address)
    decreases c
  {
    match c
    case Deposit(sender, _) => sender != a
    case Transfer(sender, _, _) => sender != a
    case Withdraw(sender, _, inner, _) => sender != a && AllSilent(inner, a)
    case _ => true
  }

  predicate AllSilent(calls: seq<Call>, a: Address)
    decreases calls
  {
    calls == [] || (Silent(calls[0], a) && AllSilent(calls[1..], a))
  }

  /** What others do, however deeply nested, leaves an account's deposit as it is and never lowers its credit. */
  lemma {:induction false} OnlyOwnerSpends(w: Ledger, c: Call, a: Address)
    requires Conserved(w) && Silent(c, a)
    ensures var v := Exec(w, c, true); At(v.deposits, a) == At(w.deposits, a) && At(v.credits, a) >= At(w.credits, a)
    decreases c
  {
    if c.Withdraw? && c.amount <= At(w.credits, c.sender) {
      WithdrawKeeps(w, c.sender, c.amount);
      if c.accepts {
        OnlyOwnersSpend(Sent(Debited(w, c.sender, c.amount), c.sender, c.amount), c.inner, a);
      }
    } else if !c.Withdraw? {
      OthersAdd(w, c, a);
    }
  }

  lemma OthersAdd(w: Ledger, c: Call, a: Address)
    requires Conserved(w) && Silent(c, a) && !c.Withdraw?
    ensures var v := Exec(w, c, true); At(v.deposits, a) == At(w.deposits, a) && At(v.credits, a) >= At(w.credits, a)
  {
    ExecConserves(w, c);
  }

  lemma {:induction false} OnlyOwnersSpend(w: Ledger, calls: seq<Call>, a: Address)
    requires Conserved(w) && AllSilent(calls, a)
    ensures var v := ExecAll(w, calls, true);
            At(v.deposits, a) == At(w.deposits, a) && At(v.credits, a) >= At(w.credits, a)
    decreases calls
  {
    if calls != [] {
      ExecConserves(w, calls[0]);
      OnlyOwnerSpends(w, calls[0], a);
      OnlyOwnersSpend(Exec(w, calls[0], true), calls[1..], a);
    }
  }

  // ----- the contract as an object -----

  class PssContract {
    var deposits: map<Address, nat>
    var credits: map<Address, nat>
    var balance: nat
    var wallets: map<Address, nat>
    var forced: nat

    constructor (wallets: map<Address, nat>, before: nat)
      ensures State() == Ledger(map[], map[], before, wallets, before)
    {
      deposits, credits := map[], map[];
      balance, this.wallets, forced := before, wallets, before;
    }

    function State(): Ledger
      reads this
    {
      Ledger(deposits, credits, balance, wallets, forced)
    }

    method DepositEther(sender: Address, value: Word)
      requires Conserved(State())
      modifies this
      ensures State() == Exec(old(State()), Deposit(sender, value), true)
      ensures Keeps(old(State()), State())
    {
      DepositKeeps(State(), sender, value);
      if At(wallets, sender) < value {
        return;
      }
      wallets := wallets[sender := At(wallets, sender) - value];
      balance := balance + value;
      deposits := Credit(true, deposits, sender, value);
    }

    method TransferDeposit(sender: Address, amount: Word, beneficiary: Address)
      requires Conserved(State())
      modifies this
      ensures State() == Exec(old(State()), Transfer(sender, amount, beneficiary), true)
      ensures Keeps(old(State()), State())
    {
      TransferKeeps(State(), sender, amount, beneficiary);
      if At(deposits, sender) < amount {
        return;
      }
      deposits := Debit(true, deposits, sender, amount);
      credits := Credit(true, credits, beneficiary, amount);
    }

    /** The send runs the nested calls on this very object; a refusal restores the state before the send. */
    method WithdrawCredit(sender: Address, amount: Word, inner: seq<Call>, accepts: bool)
      requires Conserved(State())
      modifies this
      ensures State() == Exec(old(State()), Withdraw(sender, amount, inner, accepts), true)
      decreases inner, 1
    {
      if At(credits, sender) < amount {
        return;
      }
      WithdrawKeeps(State(), sender, amount);
      credits := Debit(true, credits, sender, amount);
      if balance < amount || !accepts {
        credits := Credit(true, credits, sender, amount);
        return;
      }
      SendEther(sender, amount);
      Nested(inner);
    }

    method SendEther(to: Address, amount: nat)
      requires amount <= balance
      modifies this
      ensures State() == Sent(old(State()), to, amount)
    {
      balance := balance - amount;
      wallets := wallets[to := At(wallets, to) + amount];
    }

    method Nested(calls: seq<Call>)
      requires Conserved(State())
      modifies this
      ensures State() == ExecAll(old(State()), calls, true)
      ensures Keeps(old(State()), State())
      decreases calls, 0
    {
      if calls == [] {
        return;
      }
      Dispatch(calls[0]);
      Nested(calls[1..]);
    }

    method Dispatch(c: Call)
      requires Conserved(State())
      modifies this
      ensures State() == Exec(old(State()), c, true)
      ensures Keeps(old(State()), State())
      decreases c, 0
    {
      ExecConserves(State(), c);
      match c
      case Deposit(sender, value) => DepositEther(sender, value);
      case Transfer(sender, amount, beneficiary) => TransferDeposit(sender, amount, beneficiary);
      case Withdraw(sender, amount, inner, accepts) => WithdrawCredit(sender, amount, inner, accepts);
      case Pay(from, to, value) => MoveEther(from, to, value);
      case ForceIn(from, value) => ForceEther(from, value);
    }

    method MoveEther(from: Address, to: Address, value: Word)
      modifies this
      ensures State() == Exec(old(State()), Pay(from, to, value), true)
    {
      if At(wallets, from) < value {
        return;
      }
      wallets := wallets[from := At(wallets, from) - value];
      wallets := wallets[to := At(wallets, to) + value];
    }

    method ForceEther(from: Address, value: Word)
      modifies this
      ensures State() == Exec(old(State()), ForceIn(from, value), true)
    {
      if At(wallets, from) < value {
        return;
      }
      wallets := wallets[from := At(wallets, from) - value];
      balance := balance + value;
      forced := forced + value;
    }
  }
}
