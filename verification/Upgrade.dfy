/**
 * The upgradeable contract: Upgrader.sol over main contracts derived from AbstractMain.sol, owned.sol and Store.sol,
 * as transactions of several calls on one chain.
 */
module Upgrade {
  import opened Accounts

  const NO_STORE: Address := 0

  datatype Main = Main(owner: Address, store: Address)

  /**
   * The main contracts that have code, the stores with their flag, everyone's Ether, the upgrader's own address and
   * its `current`, and every address that has ever carried code. Main contracts never send Ether of their own accord.
   * A main that destroys itself is `doomed`: it keeps its code and storage until the transaction ends.
   */
  datatype Chain = Chain(
    mains: map<Address, Main>, stores: map<Address, bool>, balances: map<Address, nat>,
    upgrader: Address, current: Address, used: set<Address>, doomed: set<Address>)

  /**
   * A call by `who`, an account or another contract. New contracts get an address, `main` or `store`, that nobody
   * used before. A transaction is a sequence of calls; one that its caller reverts is the empty sequence.
   */
  datatype Call =
    | NewMain(who: Address, main: Address)
    | NewStore(who: Address, store: Address)
    | Poke(who: Address, store: Address)
    | SetStore(who: Address, main: Address, store: Address)
    | TransferOwner(who: Address, main: Address, owner: Address)
    | Kill(who: Address, main: Address, beneficiary: Address)
    | Fund(who: Address, to: Address, value: nat)
    | Create(who: Address, main: Address, store: Address)
    | DoUpgrade(who: Address, main: Address)

  function MoveAll(balances: map<Address, nat>, from: Address, to: Address): map<Address, nat> {
    var emptied := balances[from := 0];
    emptied[to := At(emptied, to) + At(balances, from)]
  }

  /** Self-destruct pays out at once: to the beneficiary, and to nobody if that is the contract itself. */
  function Destruct(c: Chain, main: Address, beneficiary: Address): Chain {
    c.(doomed := c.doomed + {main},
       balances := if beneficiary == main then c.balances[main := 0] else MoveAll(c.balances, main, beneficiary))
  }

  predicate IsFresh(c: Chain, a: Address) {
    a != 0 && a !in c.used
  }

  /** The chain after a call, and whether it went through; a revert changes nothing. */
  function Exec(c: Chain, call: Call): (Chain, bool) {
    match call
    case NewMain(who, main) =>
      if !IsFresh(c, main) then (c, false) else
        (c.(mains := c.mains[main := Main(who, NO_STORE)], used := c.used + {main}), true)
    case NewStore(who, store) =>
      if !IsFresh(c, store) then (c, false) else
        (c.(stores := c.stores[store := false], used := c.used + {store}), true)
    case Poke(who, store) =>
      if store !in c.stores then (c, false) else (c.(stores := c.stores[store := true]), true)
    case SetStore(who, main, store) =>
      if main !in c.mains || c.mains[main].store != NO_STORE then (c, false) else
        (c.(mains := c.mains[main := c.mains[main].(store := store)]), true)
    case TransferOwner(who, main, owner) =>
      if main !in c.mains then (c, false) else
        (if c.mains[main].owner == who then c.(mains := c.mains[main := c.mains[main].(owner := owner)]) else c, true)
    case Kill(who, main, beneficiary) =>
      if main !in c.mains || c.mains[main].owner != who then (c, false) else (Destruct(c, main, beneficiary), true)
    case Fund(who, to, value) =>
      if At(c.balances, who) < value || who in c.mains || who in c.stores || to in c.stores || to == c.upgrader then
        (c, false)
      else
        var paid := c.balances[who := At(c.balances, who) - value];
        (c.(balances := paid[to := At(paid, to) + value]), true)
    case Create(who, main, store) =>
      if !IsFresh(c, main) || !IsFresh(c, store) || main == store then (c, false) else
        (c.(stores := c.stores[store := true],
            mains := c.mains[main := Main(c.upgrader, store)],
            balances := MoveAll(c.balances, c.upgrader, main),
            current := main,
            used := c.used + {main, store}), true)
    case DoUpgrade(who, main) => ExecUpgrade(c, main)
  }

  /** The four calls of upgrade in turn; each require that fails reverts the whole call. */
  function ExecUpgrade(c: Chain, main: Address): (Chain, bool) {
    if main !in c.mains || c.mains[main].owner != c.upgrader then (c, false)
    else if c.current !in c.mains then (c, false)
    else
      var store := c.mains[c.current].store;
      if c.mains[main].store != NO_STORE then (c, false)
      else
        var stored := c.(mains := c.mains[main := c.mains[main].(store := store)]);
        if stored.mains[c.current].owner != c.upgrader then (c, false)
        else (Destruct(stored, c.current, main).(current := main), true)
  }

  function Perform(c: Chain, calls: seq<Call>): Chain {
    if calls == [] then c else Exec(Perform(c, calls[..|calls| - 1]), calls[|calls| - 1]).0
  }

  /** The end of a transaction: the doomed mains are deleted, with whatever Ether has reached them since. */
  function Settle(c: Chain): Chain {
    c.(mains := c.mains - c.doomed, balances := c.balances - c.doomed, doomed := {})
  }

  function Transact(c: Chain, calls: seq<Call>): Chain {
    Settle(Perform(c, calls))
  }

  function Run(c: Chain, txs: seq<seq<Call>>): Chain {
    if txs == [] then c else Transact(Run(c, txs[..|txs| - 1]), txs[|txs| - 1])
  }

  // ----- what every call keeps -----

  /** A current main that has code is owned by the upgrader and bound to a store whose flag is set. */
  predicate Proper(c: Chain) {
    && c.upgrader in c.used && 0 !in c.used
    && c.mains.Keys <= c.used - {c.upgrader} && c.stores.Keys <= c.used - {c.upgrader}
    && c.mains.Keys !! c.stores.Keys
    && c.doomed <= c.mains.Keys
    && (c.current != 0 ==> c.current in c.used)
    && (c.current in c.mains ==>
          && c.mains[c.current].owner == c.upgrader
          && c.mains[c.current].store in c.stores
          && c.stores[c.mains[c.current].store])
  }

  /** There is a current main, and it has no code. */
  predicate Dead(c: Chain) {
    c.current != 0 && c.current !in c.mains
  }

  /** Between transactions: the current main, if there is one, is alive. */
  predicate Sound(c: Chain) {
    Proper(c) && c.doomed == {} && !Dead(c)
  }

  /** The store of the current main. */
  function CurrentStore(c: Chain): Address {
    if c.current in c.mains then c.mains[c.current].store else NO_STORE
  }

  /**
   * Whatever anyone but the upgrader itself calls, a current main that has code stays owned by the upgrader and bound
   * to a store whose flag is set.
   */
  lemma ExecProper(c: Chain, call: Call)
    requires Proper(c) && call.who != c.upgrader
    ensures var d := Exec(c, call).0;
            && Proper(d) && d.upgrader == c.upgrader
            && c.used <= d.used && c.doomed <= d.doomed && c.mains.Keys <= d.mains.Keys
            && (c.current != 0 ==> d.current != 0)
  {
  }

  /** Its store stays the same exactly unless the call is a create that goes through. */
  lemma ExecStoreIff(c: Chain, call: Call)
    requires Proper(c) && call.who != c.upgrader && c.current in c.mains
    ensures CurrentStore(Exec(c, call).0) == CurrentStore(c) <==> !(call.Create? && Exec(c, call).1)
  {
  }

  /** Other calls than create and upgrade leave the current main, its owner, its store and its code alone. */
  lemma OutsidersCannotTouch(c: Chain, call: Call)
    requires Proper(c) && call.who != c.upgrader && c.current in c.mains && !call.Create? && !call.DoUpgrade?
    ensures var d := Exec(c, call).0;
            && d.current == c.current && d.current in d.mains && d.mains[d.current] == c.mains[c.current]
            && (d.current in d.doomed <==> c.current in c.doomed)
    ensures call.SetStore? && call.main == c.current ==> !Exec(c, call).1
    ensures call.Kill? && call.main == c.current ==> !Exec(c, call).1
    ensures call.TransferOwner? && call.main == c.current ==> Exec(c, call).0 == c
  {
  }

  // ----- what a transaction keeps, and when it loses the current main -----

  predicate NobodyIs(calls: seq<Call>, a: Address) {
    forall i :: 0 <= i < |calls| ==> calls[i].who != a
  }

  /** The mains that kill calls of the sequence have destroyed. */
  function Killed(c: Chain, calls: seq<Call>): set<Address> {
    if calls == [] then {} else
      var before, call := calls[..|calls| - 1], calls[|calls| - 1];
      Killed(c, before) + if call.Kill? && Exec(Perform(c, before), call).1 then {call.main} else {}
  }

  /**
   * The last create or upgrade of the sequence that goes through is an upgrade to a main killed earlier in it; if none
   * goes through, the current main was dead before.
   */
  predicate EndsLost(c: Chain, calls: seq<Call>) {
    if calls == [] then Dead(c) else
      var before, call := calls[..|calls| - 1], calls[|calls| - 1];
      var ok := Exec(Perform(c, before), call).1;
      if ok && call.Create? then false
      else if ok && call.DoUpgrade? then call.main in Killed(c, before)
      else EndsLost(c, before)
  }

  /** The current main has no code, or loses it when the transaction ends. */
  predicate Lost(c: Chain) {
    Dead(c) || c.current in c.doomed
  }

  /** The doomed mains are those killed by calls, and mains with a store, which no upgrade accepts. */
  ghost predicate DoomedBy(c: Chain, killed: set<Address>) {
    killed <= c.doomed && forall m :: m in c.doomed && m in c.mains && c.mains[m].store == NO_STORE ==> m in killed
  }

  lemma ExecDoomed(c: Chain, call: Call, killed: set<Address>)
    requires Proper(c) && call.who != c.upgrader && DoomedBy(c, killed)
    ensures var (d, ok) := Exec(c, call);
            && DoomedBy(d, killed + if call.Kill? && ok then {call.main} else {})
            && (Lost(d) <==> if ok && call.Create? then false
                             else if ok && call.DoUpgrade? then call.main in killed
                             else Lost(c))
  {
  }

  lemma {:induction false} PerformProper(c: Chain, calls: seq<Call>)
    requires Proper(c) && c.doomed == {} && NobodyIs(calls, c.upgrader)
    ensures var d := Perform(c, calls);
            && Proper(d) && d.upgrader == c.upgrader
            && c.used <= d.used && c.mains.Keys <= d.mains.Keys
            && (c.current != 0 ==> d.current != 0)
            && DoomedBy(d, Killed(c, calls))
            && (Lost(d) <==> EndsLost(c, calls))
  {
    if calls != [] {
      var before, call := calls[..|calls| - 1], calls[|calls| - 1];
      PerformProper(c, before);
      ExecProper(Perform(c, before), call);
      ExecDoomed(Perform(c, before), call, Killed(c, before));
    }
  }

  /**
   * Whatever calls of outsiders make up a transaction, it leaves the current main alive, owned by the upgrader and
   * bound to a store with its flag set, exactly unless the last create or upgrade that goes through in it is an
   * upgrade to a main killed earlier in it.
   */
  lemma TransactSoundIff(c: Chain, calls: seq<Call>)
    requires Proper(c) && c.doomed == {} && NobodyIs(calls, c.upgrader)
    ensures var t := Transact(c, calls);
            && Proper(t) && t.doomed == {} && t.upgrader == c.upgrader
            && (c.current != 0 ==> t.current != 0)
            && (Sound(t) <==> !EndsLost(c, calls))
  {
    PerformProper(c, calls);
  }

  /** Some create of the sequence goes through. */
  predicate Creates(c: Chain, calls: seq<Call>) {
    calls != [] &&
    var before, call := calls[..|calls| - 1], calls[|calls| - 1];
    Creates(c, before) || (call.Create? && Exec(Perform(c, before), call).1)
  }

  lemma {:induction false} PerformStore(c: Chain, calls: seq<Call>)
    requires Sound(c) && c.current != 0 && NobodyIs(calls, c.upgrader)
    ensures var d := Perform(c, calls);
            && d.current in d.mains
            && if Creates(c, calls) then CurrentStore(d) !in c.used else CurrentStore(d) == CurrentStore(c)
  {
    if calls != [] {
      var before, call := calls[..|calls| - 1], calls[|calls| - 1];
      PerformStore(c, before);
      PerformProper(c, before);
      ExecProper(Perform(c, before), call);
      ExecStoreIff(Perform(c, before), call);
    }
  }

  /** A transaction that does not lose the current main keeps its store exactly unless a create goes through in it. */
  lemma TransactStoreIff(c: Chain, calls: seq<Call>)
    requires Sound(c) && c.current != 0 && NobodyIs(calls, c.upgrader) && !EndsLost(c, calls)
    ensures CurrentStore(Transact(c, calls)) == CurrentStore(c) <==> !Creates(c, calls)
  {
    PerformProper(c, calls);
    PerformStore(c, calls);
  }

  // ----- runs -----

  predicate AllOutside(txs: seq<seq<Call>>, a: Address) {
    forall i :: 0 <= i < |txs| ==> NobodyIs(txs[i], a)
  }

  /** No transaction of the run ends with the current main lost. */
  predicate NeverLost(c: Chain, txs: seq<seq<Call>>) {
    txs == [] ||
    (NeverLost(c, txs[..|txs| - 1]) && !EndsLost(Run(c, txs[..|txs| - 1]), txs[|txs| - 1]))
  }

  lemma {:induction false} RunProper(c: Chain, txs: seq<seq<Call>>)
    requires Proper(c) && c.doomed == {} && AllOutside(txs, c.upgrader)
    ensures var d := Run(c, txs);
            && Proper(d) && d.doomed == {} && d.upgrader == c.upgrader && (c.current != 0 ==> d.current != 0)
  {
    if txs != [] {
      RunProper(c, txs[..|txs| - 1]);
      TransactSoundIff(Run(c, txs[..|txs| - 1]), txs[|txs| - 1]);
    }
  }

  /** Every state between the transactions of a run is sound exactly if no transaction loses the current main. */
  lemma {:induction false} RunSoundIff(c: Chain, txs: seq<seq<Call>>)
    requires Sound(c) && AllOutside(txs, c.upgrader)
    ensures (forall n :: 0 <= n <= |txs| ==> Sound(Run(c, txs[..n]))) <==> NeverLost(c, txs)
  {
    assert txs[..|txs|] == txs;
    if txs == [] {
      assert txs[..0] == [];
    } else {
      var before := txs[..|txs| - 1];
      RunSoundIff(c, before);
      RunProper(c, before);
      TransactSoundIff(Run(c, before), txs[|txs| - 1]);
      assert forall n :: 0 <= n <= |before| ==> before[..n] == txs[..n];
      assert forall n :: 0 <= n <= |txs| ==> n <= |before| || txs[..n] == txs;
    }
  }

  /** What check reports: the flag of the current store and the Ether of the current main. */
  datatype Report = Reverts | Reports(foo: bool, held: nat)

  function Check(c: Chain): Report {
    var store := CurrentStore(c);
    if store !in c.stores then Reverts else Reports(c.stores[store], At(c.balances, c.current))
  }

  /** A chain on which only the upgrader has been deployed is sound. */
  lemma DeployedIsSound(balances: map<Address, nat>, upgrader: Address)
    requires upgrader != 0
    ensures Sound(Chain(map[], map[], balances, upgrader, 0, {upgrader}, {}))
  {
  }

  /**
   * After a create, even where the current main had been lost, the chain is sound, and check reports the set flag and
   * all the Ether the upgrader had.
   */
  lemma CreateChecks(c: Chain, who: Address, main: Address, store: Address)
    requires Proper(c) && who != c.upgrader && Exec(c, Create(who, main, store)).1
    ensures var t := Settle(Exec(c, Create(who, main, store)).0);
            Sound(t) && Check(t) == Reports(true, At(c.balances, main) + At(c.balances, c.upgrader))
  {
    ExecProper(c, Create(who, main, store));
  }

  predicate NoCreate(calls: seq<Call>) {
    forall i :: 0 <= i < |calls| ==> !calls[i].Create?
  }

  predicate NoCreates(txs: seq<seq<Call>>) {
    forall i :: 0 <= i < |txs| ==> NoCreate(txs[i])
  }

  /** The Ether behind the current main never shrinks, short of a create. */
  lemma CurrentKeepsEther(c: Chain, call: Call)
    requires Proper(c) && c.current in c.mains && call.who != c.upgrader && !call.Create?
    ensures At(Exec(c, call).0.balances, Exec(c, call).0.current) >= At(c.balances, c.current)
  {
  }

  lemma {:induction false} PerformKeepsEther(c: Chain, calls: seq<Call>)
    requires Sound(c) && c.current != 0 && NobodyIs(calls, c.upgrader) && NoCreate(calls)
    ensures !Creates(c, calls)
    ensures var d := Perform(c, calls); At(d.balances, d.current) >= At(c.balances, c.current)
  {
    if calls != [] {
      var before := calls[..|calls| - 1];
      PerformKeepsEther(c, before);
      PerformProper(c, before);
      PerformStore(c, before);
      CurrentKeepsEther(Perform(c, before), calls[|calls| - 1]);
    }
  }

  lemma {:induction false} PerformDead(c: Chain, calls: seq<Call>)
    requires Proper(c) && c.doomed == {} && Dead(c) && NobodyIs(calls, c.upgrader) && NoCreate(calls)
    ensures Perform(c, calls).current == c.current && Dead(Perform(c, calls))
    ensures EndsLost(c, calls)
  {
    if calls != [] {
      PerformDead(c, calls[..|calls| - 1]);
      PerformProper(c, calls[..|calls| - 1]);
    }
  }

  /** Once it is lost, the current main stays lost, check reverts and no upgrade goes through, until a create. */
  lemma {:induction false} DeadUntilCreate(c: Chain, txs: seq<seq<Call>>, anyone: Address, main: Address)
    requires Proper(c) && c.doomed == {} && Dead(c) && AllOutside(txs, c.upgrader) && NoCreates(txs)
    ensures var d := Run(c, txs);
            d.current == c.current && Dead(d) && Check(d) == Reverts && !Exec(d, DoUpgrade(anyone, main)).1
  {
    if txs != [] {
      var before := txs[..|txs| - 1];
      DeadUntilCreate(c, before, anyone, main);
      RunProper(c, before);
      PerformDead(Run(c, before), txs[|txs| - 1]);
      TransactSoundIff(Run(c, before), txs[|txs| - 1]);
    }
    RunProper(c, txs);
  }

  /**
   * Between creates, in every run of transactions of outsiders: check reports at the end exactly if no transaction
   * loses the current main, and then the store is the first one, its flag is set, and the Ether has not shrunk.
   */
  lemma {:induction false} StorePersists(c: Chain, txs: seq<seq<Call>>)
    requires Sound(c) && c.current != 0 && AllOutside(txs, c.upgrader) && NoCreates(txs)
    ensures var d := Run(c, txs);
            && (Check(d).Reports? <==> NeverLost(c, txs))
            && (NeverLost(c, txs) ==>
                  && Sound(d) && d.current != 0
                  && CurrentStore(d) == CurrentStore(c)
                  && Check(d).foo && Check(d).held >= Check(c).held)
  {
    if txs != [] {
      var before, tx := txs[..|txs| - 1], txs[|txs| - 1];
      var d := Run(c, before);
      StorePersists(c, before);
      RunProper(c, before);
      TransactSoundIff(d, tx);
      if NeverLost(c, before) {
        if !EndsLost(d, tx) {
          KeepsThrough(d, tx);
        }
      } else {
        PerformDead(d, tx);
      }
    }
  }

  lemma KeepsThrough(c: Chain, calls: seq<Call>)
    requires Sound(c) && c.current != 0 && NobodyIs(calls, c.upgrader) && NoCreate(calls) && !EndsLost(c, calls)
    ensures var t := Transact(c, calls);
            CurrentStore(t) == CurrentStore(c) && At(t.balances, t.current) >= At(c.balances, c.current)
  {
    PerformKeepsEther(c, calls);
    PerformProper(c, calls);
    TransactStoreIff(c, calls);
  }

  // ----- when the other calls go through, and what they do -----

  /** The two chains have the same code, storage and marks, whatever the balances. */
  predicate SameCode(c: Chain, d: Chain) {
    d == c.(balances := d.balances)
  }

  /**
   * A create goes through exactly when its two addresses are fresh and differ, which they always are on a real chain;
   * whatever the upgrader holds, and whether or not there was a current main. Then the new store's flag is set, the new
   * main is bound to it and current, the upgrader's Ether has moved to it, and everything else is as before.
   */
  lemma CreateSucceedsIff(c: Chain, who: Address, main: Address, store: Address)
    requires Proper(c)
    ensures var (d, ok) := Exec(c, Create(who, main, store));
            && (ok <==> IsFresh(c, main) && IsFresh(c, store) && main != store)
            && (!ok ==> d == c)
            && (ok ==>
                  && d.current == main && d.mains == c.mains[main := Main(c.upgrader, store)]
                  && d.stores == c.stores[store := true]
                  && d.used == c.used + {main, store} && d.doomed == c.doomed && d.upgrader == c.upgrader
                  && forall a :: At(d.balances, a) ==
                                 if a == main then At(c.balances, main) + At(c.balances, c.upgrader)
                                 else if a == c.upgrader then 0 else At(c.balances, a))
  {
  }

  /** A kill goes through exactly for the owner; the beneficiary has the Ether at once, and all else stays as it was. */
  lemma KillPays(c: Chain, who: Address, main: Address, beneficiary: Address)
    ensures var (d, ok) := Exec(c, Kill(who, main, beneficiary));
            && (ok <==> main in c.mains && c.mains[main].owner == who)
            && (!ok ==> d == c)
            && (ok ==>
                  && d == c.(doomed := c.doomed + {main}, balances := d.balances)
                  && At(d.balances, main) == 0
                  && forall a :: a != main ==>
                       At(d.balances, a) ==
                       At(c.balances, a) + if a == beneficiary then At(c.balances, main) else 0)
  {
  }

  /** A store can be set exactly once, by anyone. */
  lemma StoreIsSetOnce(c: Chain, who: Address, main: Address, store: Address, anyone: Address, another: Address)
    ensures var (d, ok) := Exec(c, SetStore(who, main, store));
            && (ok <==> main in c.mains && c.mains[main].store == NO_STORE)
            && (!ok ==> d == c)
            && (ok ==> d == c.(mains := c.mains[main := Main(c.mains[main].owner, store)]))
            && (ok && store != NO_STORE ==> !Exec(d, SetStore(anyone, main, another)).1)
  {
  }

  /** Only the owner can hand a main over; after that it is no longer the owner. */
  lemma OwnerHandsOver(c: Chain, who: Address, main: Address, owner: Address)
    ensures var (d, ok) := Exec(c, TransferOwner(who, main, owner));
            && (ok <==> main in c.mains)
            && (!ok || who != c.mains[main].owner ==> d == c)
            && (ok && who == c.mains[main].owner ==>
                  && d == c.(mains := c.mains[main := Main(owner, c.mains[main].store)])
                  && (owner != who ==> !Exec(d, Kill(who, main, who)).1))
  {
  }

  /** New contracts: a main is owned by its creator and has no store; a store's flag is not set until it is poked. */
  lemma NewContracts(c: Chain, who: Address, a: Address, anyone: Address)
    ensures var (d, ok) := Exec(c, NewMain(who, a));
            && (ok <==> IsFresh(c, a)) && (!ok ==> d == c)
            && (ok ==> d == c.(mains := c.mains[a := Main(who, NO_STORE)], used := c.used + {a}))
    ensures var (d, ok) := Exec(c, NewStore(who, a));
            && (ok <==> IsFresh(c, a)) && (!ok ==> d == c)
            && (ok ==>
                  && d == c.(stores := c.stores[a := false], used := c.used + {a})
                  && Exec(d, Poke(anyone, a)) == (d.(stores := d.stores[a := true]), true))
    ensures var (d, ok) := Exec(c, Poke(who, a));
            && (ok <==> a in c.stores) && (!ok ==> d == c)
            && (ok ==> d == c.(stores := c.stores[a := true]))
  {
  }

  /** A main takes any payment; a store and the upgrader take none, and no contract pays on its own. */
  lemma PaymentsToMains(c: Chain, who: Address, to: Address, value: nat)
    ensures var (d, ok) := Exec(c, Fund(who, to, value));
            && (ok <==> value <= At(c.balances, who) && who !in c.mains && who !in c.stores
                        && to !in c.stores && to != c.upgrader)
            && (!ok ==> d == c)
            && (ok ==>
                  && SameCode(c, d)
                  && forall a :: At(d.balances, a) ==
                       At(c.balances, a) - (if a == who then value else 0) + (if a == to then value else 0))
  {
  }

  /** The end of a transaction deletes the doomed mains with their Ether, and nothing else. */
  lemma SettleDeletes(c: Chain, a: Address)
    ensures var d := Settle(c);
            && (a in d.mains <==> a in c.mains && a !in c.doomed)
            && (a in d.mains ==> d.mains[a] == c.mains[a])
            && At(d.balances, a) == (if a in c.doomed then 0 else At(c.balances, a))
            && d.stores == c.stores && d.current == c.current && d.upgrader == c.upgrader && d.used == c.used
            && d.doomed == {}
  {
  }

  // ----- upgrades -----

  /**
   * An upgrade goes through exactly when both mains have code and are owned by the upgrader, as the current one always
   * is, and the new one has no store yet. Whether the new one was killed in the same transaction is not looked at.
   */
  lemma UpgradeSucceedsIff(c: Chain, who: Address, main: Address)
    ensures var (d, ok) := Exec(c, DoUpgrade(who, main));
            && (ok <==> c.current in c.mains && c.mains[c.current].owner == c.upgrader
                        && main in c.mains && c.mains[main].owner == c.upgrader && c.mains[main].store == NO_STORE)
            && (!ok ==> d == c)
            && (Proper(c) && c.current in c.mains ==> c.mains[c.current].owner == c.upgrader)
            && (Proper(c) && main == c.current ==> !ok)
  {
  }

  /** A successful upgrade moves the whole balance and the store to the new main, and dooms the old one. */
  lemma UpgradeMovesAll(c: Chain, who: Address, main: Address)
    requires Proper(c) && Exec(c, DoUpgrade(who, main)).1
    ensures var d := Exec(c, DoUpgrade(who, main)).0;
            && d.current == main && main != c.current
            && d.doomed == c.doomed + {c.current}
            && d.mains[main] == Main(c.upgrader, CurrentStore(c))
            && At(d.balances, main) == At(c.balances, c.current) + At(c.balances, main)
            && At(d.balances, c.current) == 0
            && Sum(d.balances) == Sum(c.balances)
            && (forall a :: a != main && a != c.current ==> At(d.balances, a) == At(c.balances, a))
            && d.stores == c.stores
  {
    MoveAllSum(c.balances, c.current, main);
  }

  /** The address carries no code any more, or a main with a store. */
  predicate Spent(c: Chain, main: Address) {
    main in c.used && (main in c.mains ==> c.mains[main].store != NO_STORE)
  }

  lemma {:induction false} PerformSpent(c: Chain, calls: seq<Call>, main: Address)
    requires Spent(c, main)
    ensures Spent(Perform(c, calls), main)
  {
    if calls != [] {
      PerformSpent(c, calls[..|calls| - 1], main);
      ExecSpent(Perform(c, calls[..|calls| - 1]), calls[|calls| - 1], main);
    }
  }

  lemma ExecSpent(c: Chain, call: Call, main: Address)
    requires Spent(c, main)
    ensures Spent(Exec(c, call).0, main)
  {
  }

  lemma {:induction false} RunSpent(c: Chain, txs: seq<seq<Call>>, main: Address)
    requires Spent(c, main)
    ensures Spent(Run(c, txs), main)
  {
    if txs != [] {
      RunSpent(c, txs[..|txs| - 1], main);
      PerformSpent(Run(c, txs[..|txs| - 1]), txs[|txs| - 1], main);
    }
  }

  /**
   * A main that has been current never becomes current by an upgrade again: whatever the rest of its transaction, the
   * transactions after it and the calls before the attempt are, and whoever sends them.
   */
  lemma NoWayBack(c: Chain, rest: seq<Call>, txs: seq<seq<Call>>, calls: seq<Call>, anyone: Address)
    requires Proper(c) && c.current in c.mains
    ensures !Exec(Perform(c, rest), DoUpgrade(anyone, c.current)).1
    ensures !Exec(Perform(Run(Transact(c, rest), txs), calls), DoUpgrade(anyone, c.current)).1
  {
    PerformSpent(c, rest, c.current);
    RunSpent(Transact(c, rest), txs, c.current);
    PerformSpent(Run(Transact(c, rest), txs), calls, c.current);
  }

  // ----- Ether -----

  lemma MoveAllSum(balances: map<Address, nat>, from: Address, to: Address)
    requires from != to
    ensures Sum(MoveAll(balances, from, to)) == Sum(balances)
  {
    var emptied := balances[from := 0];
    SumUpdate(balances, from, 0);
    SumUpdate(emptied, to, At(emptied, to) + At(balances, from));
  }

  /** What a call burns at once: the Ether of a main that is killed in its own favour. */
  function BurntAtOnce(c: Chain, call: Call): nat {
    if call.Kill? && call.beneficiary == call.main && Exec(c, call).1 then At(c.balances, call.main) else 0
  }

  function BurntBy(c: Chain, calls: seq<Call>): nat {
    if calls == [] then 0 else
      BurntBy(c, calls[..|calls| - 1]) + BurntAtOnce(Perform(c, calls[..|calls| - 1]), calls[|calls| - 1])
  }

  lemma CallEther(c: Chain, call: Call)
    requires Proper(c)
    ensures Sum(Exec(c, call).0.balances) + BurntAtOnce(c, call) == Sum(c.balances)
  {
    match call
    case Kill(who, main, beneficiary) =>
      if beneficiary != main { MoveAllSum(c.balances, main, beneficiary); }
      SumUpdate(c.balances, main, 0);
    case Fund(who, to, value) => if At(c.balances, who) >= value { SumMove(c.balances, who, to, value); }
    case Create(who, main, store) => if IsFresh(c, main) { MoveAllSum(c.balances, c.upgrader, main); }
    case DoUpgrade(who, main) => if Exec(c, call).1 { UpgradeMovesAll(c, who, main); }
    case _ =>
  }

  lemma {:induction false} PerformEther(c: Chain, calls: seq<Call>)
    requires Proper(c) && c.doomed == {} && NobodyIs(calls, c.upgrader)
    ensures Sum(Perform(c, calls).balances) + BurntBy(c, calls) == Sum(c.balances)
  {
    if calls != [] {
      var before := calls[..|calls| - 1];
      PerformEther(c, before);
      PerformProper(c, before);
      CallEther(Perform(c, before), calls[|calls| - 1]);
    }
  }

  /**
   * Exactly this Ether is lost in a transaction: what mains held that were killed in their own favour, and what has
   * reached doomed mains by its end.
   */
  lemma EtherIsConserved(c: Chain, calls: seq<Call>)
    requires Proper(c) && c.doomed == {} && NobodyIs(calls, c.upgrader)
    ensures var d := Perform(c, calls);
            Sum(Transact(c, calls).balances) + BurntBy(c, calls) + Sum(Only(d.balances, d.doomed)) == Sum(c.balances)
  {
    PerformEther(c, calls);
    SumParts(Perform(c, calls).balances, Perform(c, calls).doomed);
  }

  // ----- a transaction that loses the current main -----

  /** A new main is killed by its owner, handed to the upgrader all the same, and upgraded to. */
  function LosingCalls(c: Chain, a: Address, m: Address): seq<Call> {
    [NewMain(a, m), Kill(a, m, a), TransferOwner(a, m, c.upgrader), DoUpgrade(a, m)]
  }

  lemma PerformFour(c: Chain, p: Call, q: Call, r: Call, s: Call)
    ensures Perform(c, [p, q, r, s]) == Exec(Exec(Exec(Exec(c, p).0, q).0, r).0, s).0
  {
    assert [p, q, r, s][..3] == [p, q, r] && [p, q, r][..2] == [p, q] && [p, q][..1] == [p] && [p][..0] == [];
    assert Perform(c, [p]) == Exec(Perform(c, []), p).0;
    assert Perform(c, [p, q]) == Exec(Perform(c, [p]), q).0;
    assert Perform(c, [p, q, r]) == Exec(Perform(c, [p, q]), r).0;
  }

  /**
   * From every sound chain with a current main, anyone can do this in one transaction: the upgrader is left with a
   * main that no longer exists, the old one is gone, and exactly its Ether is lost.
   */
  lemma KilledMainIsAccepted(c: Chain, a: Address, m: Address)
    requires Sound(c) && c.current != 0 && IsFresh(c, m)
    requires a != c.upgrader && a != m && a !in c.mains
    ensures EndsLost(c, LosingCalls(c, a, m))
    ensures var t := Transact(c, LosingCalls(c, a, m));
            && t.current == m && Dead(t) && Check(t) == Reverts
            && c.current !in t.mains && At(t.balances, c.current) == 0 && At(t.balances, m) == 0
            && Sum(t.balances) + At(c.balances, c.current) == Sum(c.balances)
  {
    FourCalls(c, a, m);
    PerformProper(c, LosingCalls(c, a, m));
    SettleLost(Perform(c, LosingCalls(c, a, m)), c.current);
  }

  /** What the end of the transaction makes of a current main that is doomed together with the one before it. */
  lemma SettleLost(d: Chain, last: Address)
    requires Proper(d) && d.doomed == {d.current, last} && d.current != last
    ensures Lost(d)
    ensures var t := Settle(d);
            && t.current == d.current && Dead(t) && Check(t) == Reverts
            && last !in t.mains && At(t.balances, last) == 0 && At(t.balances, d.current) == 0
            && Sum(t.balances) + At(d.balances, d.current) + At(d.balances, last) == Sum(d.balances)
  {
    SettleTwo(d, d.current, last);
  }

  lemma SettleTwo(d: Chain, x: Address, y: Address)
    requires d.doomed == {x, y} && x != y
    ensures Sum(Settle(d).balances) + At(d.balances, x) + At(d.balances, y) == Sum(d.balances)
    ensures At(Settle(d).balances, x) == 0 && At(Settle(d).balances, y) == 0
  {
    SumDrop(d.balances, x);
    SumDrop(d.balances - {x}, y);
    assert d.balances - d.doomed == d.balances - {x} - {y};
  }

  /** The chain after the four calls, before the transaction ends. */
  lemma FourCalls(c: Chain, a: Address, m: Address)
    requires Sound(c) && c.current != 0 && IsFresh(c, m)
    requires a != c.upgrader && a != m && a !in c.mains
    ensures var d := Perform(c, LosingCalls(c, a, m));
            && d.current == m && d.doomed == {m, c.current} && m != c.current
            && At(d.balances, m) == At(c.balances, c.current) && At(d.balances, c.current) == 0
            && Sum(d.balances) == Sum(c.balances)
  {
    var made := Exec(c, NewMain(a, m)).0;
    var killed := Exec(made, Kill(a, m, a)).0;
    var handed := Exec(killed, TransferOwner(a, m, c.upgrader)).0;
    PerformFour(c, NewMain(a, m), Kill(a, m, a), TransferOwner(a, m, c.upgrader), DoUpgrade(a, m));
    assert killed.doomed == {m} && handed.balances == MoveAll(c.balances, m, a);
    assert handed.mains[m] == Main(c.upgrader, NO_STORE) && handed.current == c.current;
    MoveAllSum(c.balances, m, a);
    MoveAllSum(handed.balances, c.current, m);
    assert At(handed.balances, m) == 0 && At(handed.balances, c.current) == At(c.balances, c.current);
  }


  // ----- the contracts as objects on the chain -----

  class World {
    var mains: map<Address, Main>
    var stores: map<Address, bool>
    var balances: map<Address, nat>
    const upgrader: Address
    var current: Address
    var used: set<Address>
    var doomed: set<Address>

    constructor (balances: map<Address, nat>, upgrader: Address)
      requires upgrader != 0
      ensures State() == Chain(map[], map[], balances, upgrader, 0, {upgrader}, {}) && Sound(State())
    {
      mains, stores, this.balances := map[], map[], balances;
      this.upgrader, current, used, doomed := upgrader, 0, {upgrader}, {};
    }

    function State(): Chain
      reads this
    {
      Chain(mains, stores, balances, upgrader, current, used, doomed)
    }

    method NewMainContract(who: Address, main: Address) returns (ok: bool)
      modifies this
      ensures (State(), ok) == Exec(old(State()), NewMain(who, main))
    {
      if !IsFresh(State(), main) {
        return false;
      }
      mains := mains[main := Main(who, NO_STORE)];
      used := used + {main};
      return true;
    }

    method IsOwned(who: Address, main: Address) returns (ok: bool)
      ensures ok <==> main in mains && mains[main].owner == who
    {
      return main in mains && mains[main].owner == who;
    }

    method SetStoreOf(who: Address, main: Address, store: Address) returns (ok: bool)
      modifies this`mains
      ensures (State(), ok) == Exec(old(State()), SetStore(who, main, store))
    {
      if main !in mains || mains[main].store != NO_STORE {
        return false;
      }
      mains := mains[main := mains[main].(store := store)];
      return true;
    }

    method TransferOwnership(who: Address, main: Address, owner: Address) returns (ok: bool)
      modifies this`mains
      ensures (State(), ok) == Exec(old(State()), TransferOwner(who, main, owner))
    {
      if main !in mains {
        return false;
      }
      if mains[main].owner == who {
        mains := mains[main := mains[main].(owner := owner)];
      }
      return true;
    }

    method KillMain(who: Address, main: Address, beneficiary: Address) returns (ok: bool)
      modifies this`doomed, this`balances
      ensures (State(), ok) == Exec(old(State()), Kill(who, main, beneficiary))
    {
      ok := IsOwned(who, main);
      if !ok {
        return false;
      }
      doomed := doomed + {main};
      var held := At(balances, main);
      balances := balances[main := 0];
      if beneficiary != main {
        balances := balances[beneficiary := At(balances, beneficiary) + held];
      }
    }

    /** create, of the first main or a later one; the two fresh addresses are where the new contracts land. */
    method CreateMain(who: Address, main: Address, store: Address) returns (ok: bool)
      modifies this
      ensures (State(), ok) == Exec(old(State()), Create(who, main, store))
    {
      if !IsFresh(State(), main) || !IsFresh(State(), store) || main == store {
        return false;
      }
      stores := stores[store := false];
      stores := stores[store := true];
      mains := mains[main := Main(upgrader, NO_STORE)];
      used := used + {main, store};
      ok := SetStoreOf(upgrader, main, store);
      assert ok && mains == old(mains)[main := Main(upgrader, store)];
      balances := MoveAll(balances, upgrader, main);
      current := main;
      assert stores == old(stores)[store := true];
    }

    /** upgrade, call by call; a failing call undoes the ones before it. */
    method UpgradeTo(who: Address, main: Address) returns (ok: bool)
      modifies this
      ensures (State(), ok) == Exec(old(State()), DoUpgrade(who, main))
      ensures old(Proper(State())) && who != upgrader ==> Proper(State())
    {
      if Proper(State()) && who != upgrader {
        ExecProper(State(), DoUpgrade(who, main));
      }
      var owned := IsOwned(upgrader, main);
      if !owned || current !in mains {
        return false;
      }
      var before := mains;
      ok := SetStoreOf(upgrader, main, mains[current].store);
      if !ok {
        return false;
      }
      ok := KillMain(upgrader, current, main);
      if !ok {
        mains := before;
        return false;
      }
      current := main;
    }

    /** The end of a transaction. */
    method EndTransaction()
      modifies this`mains, this`balances, this`doomed
      ensures State() == Settle(old(State()))
      ensures old(Proper(State())) ==> (Sound(State()) <==> !Lost(old(State())))
    {
      mains := mains - doomed;
      balances := balances - doomed;
      doomed := {};
    }
  }
}
