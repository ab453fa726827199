/** Byte sequences read as big-endian numbers, and the wrapping increment that the nonce search uses. */
module Bytes {
  import opened Arithmetic

  type Byte = bv8

  /** A byte slice that, unlike a sequence, can also be nil. */
  datatype Slice = Nil | Slice(bytes: seq<Byte>) {
    function Content(): seq<Byte> {
      if Nil? then [] else bytes
    }
  }

  const HASH_SIZE: nat := 20

  /** What the hash function returns; the function itself is a parameter everywhere. */
  type Digest = s: seq<Byte> | |s| == HASH_SIZE witness seq(HASH_SIZE, _ => 0)

  const ID_SIZE: nat := 8

  type ID = s: seq<Byte> | |s| == ID_SIZE witness seq(ID_SIZE, _ => 0)

  type Uint8 = x: int | 0 <= x < 256

  function BigEndian(s: seq<Byte>): nat {
    if s == [] then 0 else BigEndian(s[..|s| - 1]) * 256 + s[|s| - 1] as int
  }

  /** One carry-propagating increment, from the last byte leftwards; it wraps when every byte is 0xff. */
  function Increment(s: seq<Byte>): (r: seq<Byte>)
    ensures |r| == |s|
  {
    if s == [] then
      []
    else
      var n := |s| - 1;
      if s[n] + 1 != 0 then s[..n] + [s[n] + 1] else Increment(s[..n]) + [0]
  }

  function IncrementN(s: seq<Byte>, k: nat): (r: seq<Byte>)
    ensures |r| == |s|
  {
    if k == 0 then s else Increment(IncrementN(s, k - 1))
  }

  function Zeros(n: nat): (s: seq<Byte>)
    ensures |s| == n && forall i :: 0 <= i < n ==> s[i] == 0
  {
    seq(n, _ => 0)
  }

  // ----- big-endian values -----

  lemma {:induction false} BigEndianBound(s: seq<Byte>)
    ensures BigEndian(s) < Pow256(|s|)
  {
    if s != [] {
      BigEndianBound(s[..|s| - 1]);
    }
  }

  lemma {:induction false} BigEndianConcat(a: seq<Byte>, b: seq<Byte>)
    ensures BigEndian(a + b) == BigEndian(a) * Pow256(|b|) + BigEndian(b)
  {
    if b == [] {
      assert a + b == a;
    } else {
      var n := |b| - 1;
      assert (a + b)[..|a + b| - 1] == a + b[..n];
      BigEndianConcat(a, b[..n]);
      MulAssoc(BigEndian(a), Pow256(n), 256);
    }
  }

  lemma {:induction false} BigEndianInjective(a: seq<Byte>, b: seq<Byte>)
    requires |a| == |b|
    ensures BigEndian(a) == BigEndian(b) <==> a == b
  {
    if a != [] {
      var n := |a| - 1;
      BigEndianInjective(a[..n], b[..n]);
      if BigEndian(a) == BigEndian(b) {
        DivModUnique(BigEndian(a[..n]), a[n] as int, 256);
        DivModUnique(BigEndian(b[..n]), b[n] as int, 256);
        assert a == a[..n] + [a[n]] && b == b[..n] + [b[n]];
      }
    }
  }

  lemma {:induction false} BigEndianZeros(n: nat)
    ensures BigEndian(Zeros(n)) == 0
  {
    if n > 0 {
      assert Zeros(n)[..n - 1] == Zeros(n - 1);
      BigEndianZeros(n - 1);
    }
  }

  lemma ByteIncrement(b: Byte)
    ensures (b + 1) as int == if b + 1 == 0 then 0 else b as int + 1
    ensures b + 1 == 0 <==> b as int == 255
  {
  }

  /** The byte loop adds one to the big-endian value, and wraps at the number of values the buffer can hold. */
  lemma {:induction false} BigEndianIncrement(s: seq<Byte>)
    ensures BigEndian(Increment(s)) == if BigEndian(s) + 1 == Pow256(|s|) then 0 else BigEndian(s) + 1
  {
    if s != [] {
      var n := |s| - 1;
      ByteIncrement(s[n]);
      BigEndianBound(s[..n]);
      if s[n] + 1 != 0 {
        assert Increment(s)[..n] == s[..n];
      } else {
        assert Increment(s)[..n] == Increment(s[..n]);
        BigEndianIncrement(s[..n]);
      }
    }
  }

  lemma {:induction false} BigEndianCycle(s: seq<Byte>, k: nat)
    ensures BigEndian(s) < Pow256(|s|)
    ensures BigEndian(IncrementN(s, k)) == Cycle(BigEndian(s), k, Pow256(|s|))
  {
    BigEndianBound(s);
    if k > 0 {
      BigEndianCycle(s, k - 1);
      BigEndianIncrement(IncrementN(s, k - 1));
    }
  }

  /** k increments add k, modulo the number of values the buffer can hold. */
  lemma BigEndianIncrementN(s: seq<Byte>, k: nat)
    ensures BigEndian(IncrementN(s, k)) == (BigEndian(s) + k) % Pow256(|s|)
  {
    BigEndianCycle(s, k);
    CycleIsMod(BigEndian(s), k, Pow256(|s|));
  }

  // ----- divisibility by powers of two, byte by byte -----

  /** The byte whose lowest k bits are set. */
  function LowMask(k: nat): Byte
    requires k <= 8
  {
    if k == 0 then 0 else (LowMask(k - 1) << 1) | 1
  }

  lemma SplitByte(b: Byte, m: Byte)
    ensures b as int == (b >> 1) as int * 2 + (b & 1) as int
    ensures m < 128 ==> (b & ((m << 1) | 1) == 0 <==> b & 1 == 0 && (b >> 1) & m == 0)
  {
  }

  lemma LowMaskBound(k: nat)
    requires k <= 8
    ensures LowMask(k) as int == Pow2(k) - 1
  {
    assert Pow2(3) == 8 && Pow2(6) == 64 && Pow2(8) == 256;
  }

  /** Masking a byte with the low k bits is taking it modulo 2^k. */
  lemma {:induction false} MaskIsMod(b: Byte, k: nat)
    requires k <= 8
    ensures b & LowMask(k) == 0 <==> b as int % Pow2(k) == 0
  {
    if k == 0 {
      assert b & 0 == 0;
    } else {
      MaskIsMod(b >> 1, k - 1);
      LowMaskBound(k - 1);
      SplitByte(b, LowMask(k - 1));
      ModScale((b >> 1) as int, (b & 1) as int, 2, Pow2(k - 1));
    }
  }

  /** The last `bits` bits of the value are zero. */
  predicate TrailingZeros(s: seq<Byte>, bits: nat) {
    BigEndian(s) % Pow2(bits) == 0
  }

  /** The same, byte by byte. */
  predicate LowBitsClear(s: seq<Byte>, bits: nat) {
    if bits == 0 || s == [] then
      true
    else
      s[|s| - 1] & LowMask(if bits < 8 then bits else 8) == 0
      && LowBitsClear(s[..|s| - 1], if bits < 8 then 0 else bits - 8)
  }

  /** The byte-by-byte reading is divisibility by the power of two. */
  lemma {:induction false} LowBitsMeaning(s: seq<Byte>, bits: nat)
    ensures LowBitsClear(s, bits) <==> TrailingZeros(s, bits)
  {
    if s == [] || bits == 0 {
      NoBitsToClear(s, bits);
    } else {
      LowBitsMeaning(s[..|s| - 1], if bits < 8 then 0 else bits - 8);
      TrailingZerosStep(s, bits);
    }
  }

  lemma NoBitsToClear(s: seq<Byte>, bits: nat)
    requires s == [] || bits == 0
    ensures TrailingZeros(s, bits)
  {
    if s == [] {
      DivModUnique(0, 0, Pow2(bits));
    } else {
      DivModUnique(BigEndian(s), 0, 1);
    }
  }

  lemma TrailingZerosStep(s: seq<Byte>, bits: nat)
    requires s != []
    ensures TrailingZeros(s, bits) <==>
            s[|s| - 1] & LowMask(if bits < 8 then bits else 8) == 0
            && TrailingZeros(s[..|s| - 1], if bits < 8 then 0 else bits - 8)
  {
    MaskIsMod(s[|s| - 1], if bits < 8 then bits else 8);
    LastByteSplit(BigEndian(s[..|s| - 1]), s[|s| - 1] as int, bits);
  }

  lemma LastByteSplit(hi: int, lo: int, bits: nat)
    requires 0 <= lo < 256
    ensures (hi * 256 + lo) % Pow2(bits) == 0 <==>
            lo % Pow2(if bits < 8 then bits else 8) == 0 && hi % Pow2(if bits < 8 then 0 else bits - 8) == 0
  {
    Pow2Add8(0);
    if bits < 8 {
      var p, q := Pow2(bits), Pow2(8 - bits);
      Pow2Sum(8 - bits, bits);
      MulAssoc(hi, q, p);
      ModShift(hi * q, lo, p);
    } else {
      Pow2Add8(bits - 8);
      ModScale(hi, lo, 256, Pow2(bits - 8));
    }
  }
}
