/** Powers of two and division with remainder. */
module Arithmetic {

  function Pow2(k: nat): (p: nat)
    ensures p > 0
  {
    if k == 0 then 1 else 2 * Pow2(k - 1)
  }

  /** The number of values that n bytes can hold. */
  function Pow256(n: nat): (p: nat)
    ensures p > 0
  {
    if n == 0 then 1 else Pow256(n - 1) * 256
  }

  lemma MulAssoc(a: int, b: int, c: int)
    ensures a * b * c == a * (b * c)
  {
  }

  lemma MulSign(x: int, y: int)
    requires x >= 0 && y >= 0
    ensures x * y >= 0
  {
  }

  lemma LargeMultiple(d: int, m: int)
    requires d != 0 && m >= 0
    ensures d * m >= m || d * m <= -m
  {
    if d > 0 {
      MulSign(d - 1, m);
    } else {
      MulSign(-d - 1, m);
    }
  }

  lemma DivModUnique(q: int, r: int, m: int)
    requires 0 <= r < m
    ensures (q * m + r) / m == q && (q * m + r) % m == r
  {
    var a := q * m + r;
    var p, s := a / m, a % m;
    assert a == p * m + s;
    assert (q - p) * m == q * m - p * m;
    if q != p {
      LargeMultiple(q - p, m);
    }
  }

  lemma Pow2Add8(k: nat)
    ensures Pow2(k + 8) == 256 * Pow2(k)
  {
    var p := Pow2(k);
    assert Pow2(k + 1) == 2 * p;
    assert Pow2(k + 2) == 4 * p;
    assert Pow2(k + 3) == 8 * p;
    assert Pow2(k + 4) == 16 * p;
    assert Pow2(k + 5) == 32 * p;
    assert Pow2(k + 6) == 64 * p;
    assert Pow2(k + 7) == 128 * p;
  }

  lemma {:induction false} Pow256IsPow2(n: nat)
    ensures Pow256(n) == Pow2(8 * n)
  {
    if n > 0 {
      Pow256IsPow2(n - 1);
      Pow2Add8(8 * (n - 1));
    }
  }

  lemma {:induction false} Pow2Sum(a: nat, b: nat)
    ensures Pow2(a) * Pow2(b) == Pow2(a + b)
  {
    if a > 0 {
      Pow2Sum(a - 1, b);
      MulAssoc(2, Pow2(a - 1), Pow2(b));
    }
  }

  lemma {:induction false} Pow2Grows(a: nat, b: nat)
    requires a < b
    ensures Pow2(a) < Pow2(b)
  {
    if a + 1 < b {
      Pow2Grows(a, b - 1);
    }
  }

  lemma ModShift(q: int, r: int, m: int)
    requires m > 0
    ensures (q * m + r) % m == r % m
  {
    var x, y := r / m, r % m;
    assert q * m + r == (q + x) * m + y;
    DivModUnique(q + x, y, m);
  }

  lemma ScaleBound(r: int, lo: int, base: int, m: int)
    requires 0 <= lo < base && 0 <= r < m
    ensures 0 <= r * base + lo < base * m
    ensures r * base + lo == 0 <==> r == 0 && lo == 0
  {
    MulSign(r, base);
    MulSign(m - 1 - r, base);
    if r > 0 {
      MulSign(r - 1, base);
    }
  }

  lemma ScaleSum(q: int, r: int, lo: int, base: int, m: int)
    ensures (q * m + r) * base + lo == q * (base * m) + (r * base + lo)
  {
    MulAssoc(q, m, base);
  }

  lemma ModScale(hi: int, lo: int, base: int, m: int)
    requires 0 <= lo < base && m > 0
    ensures (hi * base + lo) % (base * m) == 0 <==> lo == 0 && hi % m == 0
  {
    var q, r := hi / m, hi % m;
    ScaleSum(q, r, lo, base, m);
    ScaleBound(r, lo, base, m);
    DivModUnique(q, r * base + lo, base * m);
  }

  /** Counting modulo m: one step either stays below m or comes back to 0. */
  lemma ModStep(v: int, m: int)
    requires m > 0
    ensures (v + 1) % m == if v % m + 1 == m then 0 else v % m + 1
  {
    var q, r := v / m, v % m;
    assert v == q * m + r;
    if r + 1 == m {
      MulNext(q, m);
      assert v + 1 == (q + 1) * m + 0;
      DivModUnique(q + 1, 0, m);
    } else {
      assert v + 1 == q * m + (r + 1);
      DivModUnique(q, r + 1, m);
    }
  }

  lemma MulNext(q: int, m: int)
    ensures (q + 1) * m == q * m + m
  {
  }

  /** One step of a counter that goes back to 0 when it reaches m. */
  function Advance(c: nat, m: nat): (r: nat)
    requires c < m
    ensures r < m
  {
    if c + 1 == m then 0 else c + 1
  }

  lemma AdvanceIsMod(c: nat, m: nat)
    requires c < m
    ensures Advance(c, m) == (c + 1) % m
  {
    if c + 1 == m {
      DivModUnique(1, 0, m);
    } else {
      DivModUnique(0, c + 1, m);
    }
  }

  /** A counter below m that starts at v and goes back to 0 when it reaches m, after k steps. */
  function Cycle(v: nat, k: nat, m: nat): (r: nat)
    requires v < m
    ensures r < m
  {
    if k == 0 then v else Advance(Cycle(v, k - 1, m), m)
  }

  lemma {:induction false} CycleIsMod(v: nat, k: nat, m: nat)
    requires v < m
    ensures Cycle(v, k, m) == (v + k) % m
  {
    if k == 0 {
      DivModUnique(0, v, m);
    } else {
      CycleIsMod(v, k - 1, m);
      ModStep(v + k - 1, m);
    }
  }

  /** Positions less than m steps apart differ. */
  lemma CycleDistinct(j: nat, k: nat, m: nat)
    requires 0 < k - j < m
    ensures Cycle(0, j, m) != Cycle(0, k, m)
  {
    CycleIsMod(0, j, m);
    CycleIsMod(0, k, m);
    ModDistinct(j, k - j, m);
  }

  lemma ModDistinct(j: nat, d: nat, m: nat)
    requires 0 < d < m
    ensures (j + d) % m != j % m
  {
    var q, r := j / m, j % m;
    assert j == q * m + r;
    if r + d < m {
      DivModUnique(q, r + d, m);
      assert j + d == q * m + (r + d);
    } else {
      MulNext(q, m);
      DivModUnique(q + 1, r + d - m, m);
      assert j + d == (q + 1) * m + (r + d - m);
    }
  }

  lemma CycleAround(k: nat, m: nat)
    requires m > 0
    ensures Cycle(0, k + m, m) == Cycle(0, k, m)
  {
    CycleIsMod(0, k, m);
    CycleIsMod(0, k + m, m);
    ModShift(1, k, m);
  }
}
