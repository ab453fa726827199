/** The proof-of-work search of minipow.go and its verifier. The hash function is a parameter. */
module Minipow {
  import opened Arithmetic
  import opened Bytes

  /** What the masked comparison does with one digest. */
  datatype Verdict = Accept | Reject | IndexPanic

  /** How one run of the search ends: it sends a digest, it sends nil after a quit, or it indexes -1. */
  datatype Outcome = Found(hash: Digest) | Quit | Panicked

  /** Where the search is after a number of turns of its loop. */
  datatype Progress = StillMining | Ended(o: Outcome)

  function Min(a: int, b: int): int {
    if a < b then a else b
  }

  function Clamp8(x: int): nat {
    if x < 0 then 0 else if x > 8 then 8 else x
  }

  /** Go's integer division truncates towards zero. */
  function GoDiv8(x: int): int {
    if x >= 0 then x / 8 else -((-x) / 8)
  }

  /** Bits set in the mask: the counter never equals a difficulty outside 1..152, and byte 0 is never reached. */
  function MaskBits(difficulty: int): nat {
    if 1 <= difficulty <= 152 then difficulty else 152
  }

  function Threshold(difficulty: int): int {
    HASH_SIZE - 1 - GoDiv8(difficulty)
  }

  /** Byte i of an n-byte mask whose lowest `bits` bits are set. */
  function MaskByte(n: nat, bits: int, i: nat): Byte
    requires i < n
  {
    LowMask(Clamp8(bits - 8 * (n - 1 - i)))
  }

  function Mask(n: nat, bits: int): seq<Byte> {
    seq(n, i requires 0 <= i < n => MaskByte(n, bits, i))
  }

  /** Number of trailing zero bits that a digest needs to get through. */
  function RequiredBits(difficulty: int): nat {
    if difficulty <= -8 then 0
    else if difficulty <= 0 then 8
    else Min(difficulty, 152)
  }

  /** The verdict of the masked comparison, for every difficulty. */
  function Judge(difficulty: int, digest: Digest): Verdict {
    if !LowBitsClear(digest, RequiredBits(difficulty)) then Reject
    else if difficulty >= 160 then IndexPanic
    else Accept
  }

  /** The verifier: data does not include the nonce. */
  predicate Check(H: seq<Byte> -> Digest, hash: seq<Byte>, data: seq<Byte>, nonce: seq<Byte>) {
    hash == H(data + nonce)
  }

  // ----- the mask and the check as arithmetic -----

  /**
   * For every difficulty: a digest gets past the mask exactly when its value is divisible by 2^RequiredBits,
   * and a digest that gets past it is accepted below 160 and indexes out of range from 160 on.
   */
  lemma JudgeMeaning(difficulty: int, digest: Digest)
    ensures Judge(difficulty, digest) == Reject <==> BigEndian(digest) % Pow2(RequiredBits(difficulty)) != 0
    ensures Judge(difficulty, digest) == Accept <==>
            BigEndian(digest) % Pow2(RequiredBits(difficulty)) == 0 && difficulty < 160
  {
    LowBitsMeaning(digest, RequiredBits(difficulty));
  }

  /** The generated mask, read as a number, is 2^bits - 1. */
  lemma {:induction false} MaskValue(n: nat, bits: nat)
    requires bits <= 8 * n
    ensures BigEndian(Mask(n, bits)) == Pow2(bits) - 1
  {
    if n > 0 {
      var rest := if bits < 8 then 0 else bits - 8;
      assert Mask(n, bits)[..n - 1] == Mask(n - 1, rest);
      MaskValue(n - 1, rest);
      LowMaskBound(Clamp8(bits));
      if bits >= 8 {
        Pow2Add8(rest);
        Pow2Add8(0);
      }
    }
  }

  /** The last m bytes pass a mask with `bits` bits. */
  predicate TailPasses(s: seq<Byte>, bits: int, m: nat)
    requires m <= |s|
  {
    m == 0 || (s[|s| - 1] & LowMask(Clamp8(bits)) == 0 && TailPasses(s[..|s| - 1], bits - 8, m - 1))
  }

  lemma {:induction false} TailByByte(s: seq<Byte>, bits: int, from: nat)
    requires from <= |s|
    ensures (forall i :: from <= i < |s| ==> s[i] & MaskByte(|s|, bits, i) == 0) <==> TailPasses(s, bits, |s| - from)
  {
    if from < |s| {
      var n := |s| - 1;
      TailByByte(s[..n], bits - 8, from);
      forall i | from <= i < n
        ensures s[..n][i] & MaskByte(n, bits - 8, i) == s[i] & MaskByte(|s|, bits, i)
      {
        assert s[..n][i] == s[i] && MaskByte(n, bits - 8, i) == MaskByte(|s|, bits, i);
      }
      assert MaskByte(|s|, bits, n) == LowMask(Clamp8(bits));
    }
  }

  /** Bytes from..n-1 pass the mask exactly when the bits that those bytes can see are clear. */
  lemma TailClear(s: seq<Byte>, bits: int, from: nat)
    requires from <= |s|
    ensures (forall i :: from <= i < |s| ==> s[i] & MaskByte(|s|, bits, i) == 0) <==>
            LowBitsClear(s, SeenBits(bits, |s| - from))
  {
    TailByByte(s, bits, from);
    TailIsLowBits(s, bits, |s| - from);
  }

  lemma {:induction false} TailIsLowBits(s: seq<Byte>, bits: int, m: nat)
    requires m <= |s|
    ensures TailPasses(s, bits, m) <==> LowBitsClear(s, SeenBits(bits, m))
  {
    if m > 0 {
      TailIsLowBits(s[..|s| - 1], bits - 8, m - 1);
      if bits <= 0 {
        assert s[|s| - 1] & 0 == 0;
      }
    }
  }

  /** How many of the mask's bits fall into the last m bytes. */
  function SeenBits(bits: int, m: nat): nat {
    if bits < 0 then 0 else Min(bits, 8 * m)
  }

  /** Stopping at the threshold loses nothing: for 1..159 it is the check of all twenty bytes. */
  lemma EarlyStopIsFullCheck(difficulty: int, digest: Digest)
    requires 1 <= difficulty <= 159
    ensures var mask := Mask(HASH_SIZE, MaskBits(difficulty));
            var all := forall i :: 0 <= i < HASH_SIZE ==> digest[i] & mask[i] == 0;
            var some := forall i :: Threshold(difficulty) <= i < HASH_SIZE ==> digest[i] & mask[i] == 0;
            (some <==> all) && (all <==> TrailingZeros(digest, Min(difficulty, 152)))
            && (all <==> Judge(difficulty, digest) == Accept)
  {
    var bits := MaskBits(difficulty);
    TailClear(digest, bits, 0);
    TailClear(digest, bits, Threshold(difficulty));
    LowBitsMeaning(digest, bits);
    var mask := Mask(HASH_SIZE, bits);
    assert forall i :: 0 <= i < HASH_SIZE ==> mask[i] == MaskByte(HASH_SIZE, bits, i);
  }

  /** Outside 1..159 the code does something else: 0 acts like 8, and no digest is ever accepted from 160 on. */
  lemma DifficultyEdges(digest: Digest)
    ensures Judge(0, digest) == Judge(8, digest)
    ensures forall d :: 152 <= d < 160 ==> Judge(d, digest) == Judge(152, digest)
    ensures forall d :: d >= 160 ==> Judge(d, digest) != Accept
    ensures forall d :: d >= 160 ==> (Judge(d, digest) == IndexPanic <==> Judge(152, digest) == Accept)
    ensures forall d :: d <= -8 ==> Judge(d, digest) == Accept
  {
  }

  // ----- the search -----

  /**
   * The search over `start` ends after k increments: nothing ended it earlier, and `o` is what ended it now.
   * quit(j) says whether the poll made after j increments finds a quit message.
   */
  ghost predicate EndsAfter(
    H: seq<Byte> -> Digest, start: seq<Byte>, difficulty: int, quit: nat -> bool, k: nat, o: Outcome)
  {
    && (forall j: nat :: j < k ==> !quit(j))
    && (forall j: nat :: 1 <= j < k ==> Judge(difficulty, H(IncrementN(start, j))) == Reject)
    && match o {
         case Found(hash) =>
           k >= 1 && hash == H(IncrementN(start, k)) && Judge(difficulty, hash) == Accept
         case Quit =>
           quit(k) && (k >= 1 ==> Judge(difficulty, H(IncrementN(start, k))) == Reject)
         case Panicked =>
           k >= 1 && Judge(difficulty, H(IncrementN(start, k))) == IndexPanic
       }
  }

  /** At most one end exists, so the digest sent is the one of the least accepted increment count. */
  lemma SearchIsDeterministic(
    H: seq<Byte> -> Digest, start: seq<Byte>, difficulty: int, quit: nat -> bool,
    k: nat, o: Outcome, l: nat, p: Outcome)
    requires EndsAfter(H, start, difficulty, quit, k, o)
    requires EndsAfter(H, start, difficulty, quit, l, p)
    ensures k == l && o == p
  {
  }

  /** Some end exists exactly when some poll finds a quit or some digest is not rejected. */
  lemma SearchStops(H: seq<Byte> -> Digest, start: seq<Byte>, difficulty: int, quit: nat -> bool)
    ensures (exists k: nat, o :: EndsAfter(H, start, difficulty, quit, k, o)) <==>
            (exists j: nat :: StopsAt(H, start, difficulty, quit, j))
  {
    if k: nat, o :| EndsAfter(H, start, difficulty, quit, k, o) {
      assert StopsAt(H, start, difficulty, quit, if o.Quit? then k else k - 1);
    }
    if j: nat :| StopsAt(H, start, difficulty, quit, j) {
      var k, o := FirstEnd(H, start, difficulty, quit, 0, j);
    }
  }

  /** Iteration j sees a quit, or else hashes to something that is not rejected. */
  ghost predicate StopsAt(H: seq<Byte> -> Digest, start: seq<Byte>, difficulty: int, quit: nat -> bool, j: nat) {
    quit(j) || Judge(difficulty, H(IncrementN(start, j + 1))) != Reject
  }

  /** No turn before the last one stopped the search, and the last one, after k increments, stopped it with `o`. */
  ghost predicate StopsWith(
    H: seq<Byte> -> Digest, start: seq<Byte>, difficulty: int, quit: nat -> bool, k: nat, o: Outcome)
  {
    match o
    case Quit => quit(k) && NoStopBefore(H, start, difficulty, quit, k)
    case Found(hash) =>
      && k >= 1 && !quit(k - 1) && NoStopBefore(H, start, difficulty, quit, k - 1)
      && hash == H(IncrementN(start, k)) && Judge(difficulty, hash) == Accept
    case Panicked =>
      && k >= 1 && !quit(k - 1) && NoStopBefore(H, start, difficulty, quit, k - 1)
      && Judge(difficulty, H(IncrementN(start, k))) == IndexPanic
  }

  lemma FirstStop(H: seq<Byte> -> Digest, start: seq<Byte>, difficulty: int, quit: nat -> bool, k: nat, o: Outcome)
    requires StopsWith(H, start, difficulty, quit, k, o)
    ensures EndsAfter(H, start, difficulty, quit, k, o)
  {
    forall j: nat | j < k
      ensures !quit(j)
    {
      assert j < k - 1 || o.Quit? ==> !StopsAt(H, start, difficulty, quit, j);
    }
    forall j: nat | 1 <= j && (j < k || (o.Quit? && j == k))
      ensures Judge(difficulty, H(IncrementN(start, j))) == Reject
    {
      assert !StopsAt(H, start, difficulty, quit, j - 1);
    }
  }

  ghost predicate NoStopBefore(H: seq<Byte> -> Digest, start: seq<Byte>, difficulty: int, quit: nat -> bool, k: nat) {
    forall j: nat :: j < k ==> !StopsAt(H, start, difficulty, quit, j)
  }

  lemma FirstEnd(
    H: seq<Byte> -> Digest, start: seq<Byte>, difficulty: int, quit: nat -> bool, from: nat, bound: nat)
    returns (k: nat, o: Outcome)
    requires from <= bound && StopsAt(H, start, difficulty, quit, bound)
    requires NoStopBefore(H, start, difficulty, quit, from)
    ensures EndsAfter(H, start, difficulty, quit, k, o) && k <= bound + 1
    decreases bound - from
  {
    if quit(from) {
      k, o := from, Quit;
      FirstStop(H, start, difficulty, quit, k, o);
    } else {
      var digest := H(IncrementN(start, from + 1));
      if Judge(difficulty, digest) == Reject {
        k, o := FirstEnd(H, start, difficulty, quit, from + 1, bound);
      } else {
        k, o := from + 1, if Judge(difficulty, digest) == Accept then Found(digest) else Panicked;
        FirstStop(H, start, difficulty, quit, k, o);
      }
    }
  }

  method GenerateMask(difficulty: int) returns (diffbytes: array<Byte>)
    ensures fresh(diffbytes) && diffbytes[..] == Mask(HASH_SIZE, MaskBits(difficulty))
  {
    diffbytes := new Byte[HASH_SIZE](_ => 0);
    var c := 0;
    var i := HASH_SIZE - 1;
    label OuterOne:
    while i > 0
      invariant 0 <= i < HASH_SIZE && c == 8 * (HASH_SIZE - 1 - i)
      invariant 1 <= difficulty <= 152 ==> c < difficulty
      invariant fresh(diffbytes) && diffbytes.Length == HASH_SIZE
      invariant forall x :: i < x < HASH_SIZE ==> diffbytes[x] == LowMask(8)
      invariant forall x :: 0 <= x <= i ==> diffbytes[x] == 0
    {
      var register: Byte := 0x01;
      var j := 1;
      ghost var b := 0;
      while j < 256
        invariant 0 <= b <= 8 && j == Pow2(b) && c == 8 * (HASH_SIZE - 1 - i) + b
        invariant register == if b == 8 then 0 else LowMask(b) + 1
        invariant 1 <= difficulty <= 152 ==> c < difficulty
        invariant diffbytes[i] == LowMask(b)
        invariant forall x :: i < x < HASH_SIZE ==> diffbytes[x] == LowMask(8)
        invariant forall x :: 0 <= x < i ==> diffbytes[x] == 0
        decreases 8 - b
      {
        assert b < 8 by {
          Pow2Add8(0);
        }
        NextMaskBit(b);
        diffbytes[i] := diffbytes[i] | register;
        register := register << 1;
        c := c + 1;
        if c == difficulty {
          break OuterOne;
        }
        j := j * 2;
        b := b + 1;
      }
      assert b == 8 by {
        Pow2Add8(0);
        if b < 8 { Pow2Grows(b, 8); }
      }
      i := i - 1;
    }
    assert forall x :: 0 <= x < HASH_SIZE ==> diffbytes[x] == MaskByte(HASH_SIZE, MaskBits(difficulty), x);
  }

  lemma NextMaskBit(b: nat)
    requires b < 8
    ensures LowMask(b) | (LowMask(b) + 1) == LowMask(b + 1)
    ensures (LowMask(b) + 1) << 1 == if b == 7 then 0 else LowMask(b + 1) + 1
  {
  }

  /** The nonce increment, in place. */
  method IncrementNonce(data: array<Byte>)
    modifies data
    ensures data[..] == Increment(old(data[..]))
  {
    var i := data.Length - 1;
    ghost var was := data[..];
    assert was[..i + 1] == was;
    while i >= 0
      invariant -1 <= i < data.Length
      invariant data[..i + 1] == was[..i + 1]
      invariant Increment(was) == Increment(was[..i + 1]) + data[i + 1..]
    {
      ghost var t := was[..i + 1];
      assert t[..i] == was[..i] && t[i] == was[i];
      data[i] := data[i] + 1;
      if data[i] | 0x0 != 0 {
        assert Increment(t) == was[..i] + [data[i]];
        assert data[..] == was[..i] + [data[i]] + data[i + 1..];
        return;
      }
      assert data[i..] == [0] + data[i + 1..];
      i := i - 1;
    }
    assert data[..] == data[0..];
  }

  lemma RequiredIsSeen(difficulty: int)
    ensures var t := Threshold(difficulty);
            RequiredBits(difficulty) ==
            SeenBits(MaskBits(difficulty), if t < 0 then HASH_SIZE else if t > HASH_SIZE then 0 else HASH_SIZE - t)
  {
  }

  /** The lowest byte that is compared, if any. */
  function Lowest(threshold: int): nat {
    if threshold < 0 then 0 else if threshold > HASH_SIZE then HASH_SIZE else threshold
  }

  /** Bytes from..19 agree with the mask. */
  predicate Passes(digest: Digest, mask: Digest, from: nat) {
    forall x :: from <= x < HASH_SIZE ==> digest[x] & mask[x] == 0
  }

  /** What the comparison may conclude once it has passed every byte it looks at, or met one that fails. */
  lemma JudgeByMask(difficulty: int, digest: Digest, mask: Digest)
    requires mask == Mask(HASH_SIZE, MaskBits(difficulty))
    ensures Judge(difficulty, digest) != Reject <==> Passes(digest, mask, Lowest(Threshold(difficulty)))
    ensures Judge(difficulty, digest) == IndexPanic ==> Threshold(difficulty) < 0
    ensures Judge(difficulty, digest) == Accept ==> Threshold(difficulty) >= 0
  {
    var bits := MaskBits(difficulty);
    TailClear(digest, bits, Lowest(Threshold(difficulty)));
    RequiredIsSeen(difficulty);
    assert forall x :: 0 <= x < HASH_SIZE ==> mask[x] == MaskByte(HASH_SIZE, bits, x);
  }

  /** The byte-for-byte comparison from the last byte up to the threshold; it masks `sum` in place. */
  method CompareMask(sum: array<Byte>, diffbytes: array<Byte>, difficulty: int) returns (v: Verdict)
    requires sum.Length == HASH_SIZE && sum != diffbytes
    requires diffbytes[..] == Mask(HASH_SIZE, MaskBits(difficulty))
    modifies sum
    ensures v == Judge(difficulty, old(sum[..]))
  {
    ghost var was: Digest, mask: Digest := sum[..], diffbytes[..];
    JudgeByMask(difficulty, was, mask);
    v := CompareBytes(sum, diffbytes, Threshold(difficulty));
  }

  method CompareBytes(sum: array<Byte>, diffbytes: array<Byte>, diffthreshold: int) returns (v: Verdict)
    requires sum.Length == diffbytes.Length == HASH_SIZE && sum != diffbytes
    modifies sum
    ensures v == if !Passes(old(sum[..]), diffbytes[..], Lowest(diffthreshold)) then Reject
                 else if diffthreshold < 0 then IndexPanic
                 else Accept
  {
    ghost var was: Digest, mask: Digest := sum[..], diffbytes[..];
    var i := HASH_SIZE - 1;
    while i >= diffthreshold
      invariant -1 <= i < HASH_SIZE
      invariant i >= diffthreshold - 1 || i == HASH_SIZE - 1
      invariant forall x :: 0 <= x <= i ==> sum[x] == was[x]
      invariant Passes(was, mask, i + 1)
    {
      if i < 0 {
        return IndexPanic;
      }
      PassesDown(was, mask, i);
      sum[i] := sum[i] & diffbytes[i];
      if sum[i] != 0x0 {
        PassesUp(was, mask, Lowest(diffthreshold), i);
        return Reject;
      }
      i := i - 1;
    }
    v := Accept;
  }

  lemma PassesDown(digest: Digest, mask: Digest, i: nat)
    requires i < HASH_SIZE && Passes(digest, mask, i + 1)
    ensures Passes(digest, mask, i) <==> digest[i] & mask[i] == 0
  {
  }

  lemma PassesUp(digest: Digest, mask: Digest, from: nat, i: nat)
    requires from <= i < HASH_SIZE && !Passes(digest, mask, i)
    ensures !Passes(digest, mask, from)
  {
  }

  /** One turn of the loop after the poll: increment, hash, compare. `result` is copied before the masking. */
  method Attempt(H: seq<Byte> -> Digest, data: array<Byte>, diffbytes: array<Byte>, difficulty: int)
    returns (v: Verdict, result: Digest)
    requires data != diffbytes && diffbytes[..] == Mask(HASH_SIZE, MaskBits(difficulty))
    modifies data
    ensures data[..] == Increment(old(data[..]))
    ensures result == H(data[..]) && v == Judge(difficulty, result)
  {
    IncrementNonce(data);
    result := H(data[..]);
    var sum := new Byte[HASH_SIZE](i requires 0 <= i < HASH_SIZE => result[i]);
    assert sum[..] == result;
    v := CompareMask(sum, diffbytes, difficulty);
  }

  /**
   * The whole search, as far as `turns` turns of its loop take it: the loop itself has no bound, and a search that
   * never ends is one that is still mining after every number of turns.
   */
  method Mine(H: seq<Byte> -> Digest, data: array<Byte>, difficulty: int, quit: nat -> bool, turns: nat)
    returns (p: Progress, ghost k: nat)
    modifies data
    ensures p.StillMining? <==> NoStopBefore(H, old(data[..]), difficulty, quit, turns)
    ensures k <= turns && data[..] == IncrementN(old(data[..]), k)
    ensures p.StillMining? ==> k == turns
    ensures p.Ended? ==> EndsAfter(H, old(data[..]), difficulty, quit, k, p.o)
    ensures p.Ended? && p.o.Found? ==> p.o.hash == H(data[..])
  {
    var diffbytes := GenerateMask(difficulty);
    p, k := Search(H, data, diffbytes, difficulty, quit, turns);
    if p.Ended? {
      FirstStop(H, old(data[..]), difficulty, quit, k, p.o);
    }
  }

  /** The loop of the search, once the mask is there. */
  method Search(
    H: seq<Byte> -> Digest, data: array<Byte>, diffbytes: array<Byte>, difficulty: int, quit: nat -> bool, turns: nat)
    returns (p: Progress, ghost k: nat)
    requires data != diffbytes && diffbytes[..] == Mask(HASH_SIZE, MaskBits(difficulty))
    modifies data
    ensures k <= turns && data[..] == IncrementN(old(data[..]), k)
    ensures p.StillMining? ==> k == turns && NoStopBefore(H, old(data[..]), difficulty, quit, turns)
    ensures p.Ended? ==> StopsWith(H, old(data[..]), difficulty, quit, k, p.o)
    ensures p.Ended? ==> !NoStopBefore(H, old(data[..]), difficulty, quit, turns)
  {
    ghost var start := data[..];
    k := 0;
    var polls := 0;
    while polls < turns
      invariant k == polls <= turns
      invariant data[..] == IncrementN(start, k)
      invariant NoStopBefore(H, start, difficulty, quit, k)
    {
      if quit(polls) {
        assert StopsAt(H, start, difficulty, quit, polls);
        return Ended(Quit), k;
      }
      var v, result := Attempt(H, data, diffbytes, difficulty);
      k := k + 1;
      if v != Reject {
        assert StopsAt(H, start, difficulty, quit, polls);
        return Ended(if v == IndexPanic then Panicked else Found(result)), k;
      }
      assert !StopsAt(H, start, difficulty, quit, polls);
      polls := polls + 1;
    }
    p := StillMining;
  }
}
