/** Ether addresses, 256-bit words, and totals over finite maps of amounts. */
module Accounts {

  type Address = nat

  /** 2^256 */
  const WORD: nat := 0x1_0000_0000_0000_0000_0000_0000_0000_0000_0000_0000_0000_0000_0000_0000_0000_0000

  type Word = x: int | 0 <= x < WORD

  /** A mapping reads as zero where nothing was written. */
  function At(m: map<Address, nat>, a: Address): nat {
    if a in m then m[a] else 0
  }

  ghost function Sum(m: map<Address, nat>): nat {
    if m == map[] then 0 else
      var a :| a in m;
      m[a] + Sum(m - {a})
  }

  /** The total does not depend on the order of adding up. */
  lemma {:induction false} SumSplit(m: map<Address, nat>, a: Address)
    requires a in m
    ensures Sum(m) == m[a] + Sum(m - {a})
    decreases |m|
  {
    var b :| b in m && Sum(m) == m[b] + Sum(m - {b});
    if a != b {
      SumSplit(m - {b}, a);
      SumSplit(m - {a}, b);
      assert m - {b} - {a} == m - {a} - {b};
    }
  }

  lemma SumUpdate(m: map<Address, nat>, a: Address, v: nat)
    ensures Sum(m[a := v]) + At(m, a) == Sum(m) + v
    ensures At(m, a) <= Sum(m)
  {
    SumSplit(m[a := v], a);
    if a in m {
      SumSplit(m, a);
      assert m[a := v] - {a} == m - {a};
    } else {
      assert m[a := v] - {a} == m;
    }
  }

  /** Moving v from one entry to another keeps the total. */
  lemma SumMove(m: map<Address, nat>, from: Address, to: Address, v: nat)
    requires v <= At(m, from)
    ensures var n := m[from := At(m, from) - v]; Sum(n[to := At(n, to) + v]) == Sum(m)
  {
    var n := m[from := At(m, from) - v];
    SumUpdate(m, from, At(m, from) - v);
    SumUpdate(n, to, At(n, to) + v);
  }

  lemma SumDrop(m: map<Address, nat>, a: Address)
    ensures Sum(m - {a}) + At(m, a) == Sum(m)
  {
    if a in m {
      SumSplit(m, a);
    } else {
      assert m - {a} == m;
    }
  }

  /** The entries at the given addresses. */
  function Only(m: map<Address, nat>, s: set<Address>): map<Address, nat> {
    map a | a in m && a in s :: m[a]
  }

  lemma {:induction false} SumParts(m: map<Address, nat>, s: set<Address>)
    ensures Sum(m - s) + Sum(Only(m, s)) == Sum(m)
    decreases |m|
  {
    if m == map[] {
      assert m - s == m && Only(m, s) == m;
    } else {
      var a :| a in m;
      SumSplit(m, a);
      SumParts(m - {a}, s);
      SumDrop(Only(m, s), a);
      SumDrop(m - s, a);
      PartsWithout(m, s, a);
    }
  }

  lemma PartsWithout(m: map<Address, nat>, s: set<Address>, a: Address)
    ensures (m - {a}) - s == (m - s) - {a} && Only(m - {a}, s) == Only(m, s) - {a}
  {
  }
}
