/** One hashing job: work.go's doJob, in one piece with the search, and checkJob. */
module Work {
  import opened Arithmetic
  import opened Bytes
  import opened Minipow

  const NONCE_SIZE: nat := 8

  /** 2^64, the number of nonces before the carry runs into the data. */
  const NONCE_SPACE: nat := 0x1_0000_0000_0000_0000

  datatype Job = Job(data: Slice, hash: Slice, nonce: Slice)

  datatype JobResult = Working | Done(job: Job) | GaveUp | JobPanicked

  predicate CheckJob(H: seq<Byte> -> Digest, hash: Slice, data: Slice, nonce: Slice) {
    if hash == Nil || data == Nil || nonce == Nil then
      false
    else
      Check(H, hash.bytes, data.bytes, nonce.bytes)
  }

  /** The check passes exactly for three byte strings of which the first is the digest of the other two. */
  lemma CheckJobIff(H: seq<Byte> -> Digest, hash: Slice, data: Slice, nonce: Slice)
    ensures CheckJob(H, hash, data, nonce) <==>
            hash.Slice? && data.Slice? && nonce.Slice? && hash.bytes == H(data.bytes + nonce.bytes)
  {
  }

  /** The buffer handed to the search: the data, then a zero nonce. */
  function WorkData(raw: seq<Byte>): seq<Byte> {
    raw + Zeros(NONCE_SIZE)
  }

  function Buffer(raw: seq<Byte>, k: nat): (b: seq<Byte>)
    ensures |b| == |raw| + NONCE_SIZE
  {
    IncrementN(WorkData(raw), k)
  }

  function NonceAfter(raw: seq<Byte>, k: nat): seq<Byte> {
    Buffer(raw, k)[|raw|..]
  }

  /** k is the least number of increments, at least one, whose digest is not rejected, and that one is accepted. */
  ghost predicate Solves(H: seq<Byte> -> Digest, raw: seq<Byte>, difficulty: int, k: nat) {
    EndsAfter(H, WorkData(raw), difficulty, _ => false, k, Found(H(Buffer(raw, k))))
  }

  /** The first digest that is not rejected is the k-th, and it makes the comparison panic. */
  ghost predicate Panics(H: seq<Byte> -> Digest, raw: seq<Byte>, difficulty: int, k: nat) {
    EndsAfter(H, WorkData(raw), difficulty, _ => false, k, Panicked)
  }

  // ----- the nonce -----

  /** While fewer than 2^64 nonces were tried, the nonce is the number of tries and the data in front is untouched. */
  lemma NonceRoundTrip(raw: seq<Byte>, k: nat)
    requires k < NONCE_SPACE
    ensures BigEndian(NonceAfter(raw, k)) == k
    ensures Buffer(raw, k) == raw + NonceAfter(raw, k)
  {
    NonceSpace();
    CounterRoundTrip(raw, NONCE_SIZE, k);
    var b := Buffer(raw, k);
    assert b == b[..|raw|] + b[|raw|..];
  }

  lemma NonceSpace()
    ensures Pow256(NONCE_SIZE) == NONCE_SPACE
  {
  }

  lemma CounterRoundTrip(raw: seq<Byte>, m: nat, k: nat)
    requires k < Pow256(m)
    ensures var b := IncrementN(raw + Zeros(m), k); b[..|raw|] == raw && BigEndian(b[|raw|..]) == k
  {
    CounterValue(raw, m, k);
    CounterIntact(raw, m, k);
    DivModUnique(0, k, Pow256(m));
    DivModUnique(0, 0, Pow256(|raw|));
  }

  /**
   * With no bound on the tries, the data in front of an m-byte counter is untouched exactly when the carries
   * out of the counter have gone round the data a whole number of times.
   */
  lemma CounterIntact(raw: seq<Byte>, m: nat, k: nat)
    ensures IncrementN(raw + Zeros(m), k)[..|raw|] == raw <==> (k / Pow256(m)) % Pow256(|raw|) == 0
  {
    CounterValue(raw, m, k);
    BigEndianBound(raw);
    ModFixed(BigEndian(raw), k / Pow256(m), Pow256(|raw|));
    BigEndianInjective(IncrementN(raw + Zeros(m), k)[..|raw|], raw);
  }

  lemma CounterValue(raw: seq<Byte>, m: nat, k: nat)
    ensures var b, w := IncrementN(raw + Zeros(m), k), Pow256(m);
            && BigEndian(b[|raw|..]) == k % w
            && BigEndian(b[..|raw|]) == (BigEndian(raw) + k / w) % Pow256(|raw|)
  {
    var b := IncrementN(raw + Zeros(m), k);
    CounterSum(raw, m, k);
    BigEndianBound(b[|raw|..]);
    SplitSum(BigEndian(raw), k, Pow256(m), Pow256(|raw|), BigEndian(b[..|raw|]), BigEndian(b[|raw|..]));
  }

  lemma CounterSum(raw: seq<Byte>, m: nat, k: nat)
    ensures var b, w := IncrementN(raw + Zeros(m), k), Pow256(m);
            BigEndian(b[..|raw|]) * w + BigEndian(b[|raw|..]) == (BigEndian(raw) * w + k) % (Pow256(|raw|) * w)
  {
    var b := IncrementN(raw + Zeros(m), k);
    CounterStart(raw, m);
    BigEndianIncrementN(raw + Zeros(m), k);
    Pow256Sum(|raw|, m);
    HeadAndTail(b, |raw|);
  }

  lemma HeadAndTail(b: seq<Byte>, n: nat)
    requires n <= |b|
    ensures BigEndian(b) == BigEndian(b[..n]) * Pow256(|b| - n) + BigEndian(b[n..])
  {
    assert b == b[..n] + b[n..];
    BigEndianConcat(b[..n], b[n..]);
  }

  lemma CounterStart(raw: seq<Byte>, m: nat)
    ensures BigEndian(raw + Zeros(m)) == BigEndian(raw) * Pow256(m)
  {
    BigEndianConcat(raw, Zeros(m));
    BigEndianZeros(m);
  }

  lemma SplitSum(v: nat, k: nat, w: nat, p: nat, hi: nat, lo: nat)
    requires w > 0 && p > 0 && lo < w
    requires hi * w + lo == (v * w + k) % (p * w)
    ensures lo == k % w && hi == (v + k / w) % p
  {
    var q, r := k / w, k % w;
    assert v * w + k == (v + q) * w + r;
    ModHigh(v + q, r, w, p);
    DivModUnique(hi, lo, w);
    DivModUnique((v + q) % p, r, w);
  }

  lemma {:induction false} Pow256Sum(a: nat, b: nat)
    ensures Pow256(a + b) == Pow256(a) * Pow256(b)
  {
    if b > 0 {
      Pow256Sum(a, b - 1);
      MulAssoc(Pow256(a), Pow256(b - 1), 256);
    }
  }

  lemma ModHigh(v: int, r: int, w: int, p: int)
    requires 0 <= r < w && p > 0
    ensures (v * w + r) % (p * w) == (v % p) * w + r
  {
    var q, s := v / p, v % p;
    assert v * w == (q * p) * w + s * w;
    MulAssoc(q, p, w);
    MulSign(s, w);
    MulSign(p - 1 - s, w);
    assert s * w + r < p * w;
    DivModUnique(q, s * w + r, p * w);
  }

  lemma ModFixed(a: int, q: int, p: int)
    requires 0 <= a < p
    ensures (a + q) % p == a <==> q % p == 0
  {
    var x, y := q / p, q % p;
    assert q == x * p + y;
    if y + a < p {
      assert a + q == x * p + (y + a);
      DivModUnique(x, y + a, p);
    } else {
      assert a + q == (x + 1) * p + (y + a - p);
      DivModUnique(x + 1, y + a - p, p);
    }
  }

  /** What doJob returns is accepted by checkJob against the original data when fewer than 2^64 nonces were tried. */
  lemma CheckAcceptsFound(H: seq<Byte> -> Digest, raw: seq<Byte>, k: nat)
    requires k < NONCE_SPACE
    ensures CheckFound(H, raw, k)
  {
    NonceRoundTrip(raw, k);
  }

  /** checkJob's answer to the hash and nonce of a search that stopped after k increments, and the original data. */
  predicate CheckFound(H: seq<Byte> -> Digest, raw: seq<Byte>, k: nat) {
    CheckJob(H, Slice(H(Buffer(raw, k))), Slice(raw), Slice(NonceAfter(raw, k)))
  }

  /**
   * With no bound on the tries: checkJob accepts the result, whatever the hash function, exactly when the carries
   * out of the nonce have gone round the data a whole number of times.
   */
  lemma CheckAcceptsIff(raw: seq<Byte>, k: nat)
    ensures (forall H: seq<Byte> -> Digest :: CheckFound(H, raw, k)) <==>
            (k / Pow256(NONCE_SIZE)) % Pow256(|raw|) == 0
  {
    CounterIntact(raw, NONCE_SIZE, k);
    if Buffer(raw, k)[..|raw|] == raw {
      assert Buffer(raw, k) == raw + NonceAfter(raw, k);
    } else {
      var H := TellApart(raw, k);
      assert !CheckFound(H, raw, k);
    }
  }

  /** Where the data has changed, some hash function tells the mined bytes from the checked ones. */
  lemma TellApart(raw: seq<Byte>, k: nat) returns (H: seq<Byte> -> Digest)
    requires Buffer(raw, k)[..|raw|] != raw
    ensures !CheckFound(H, raw, k)
  {
    var mined, checked := Buffer(raw, k), raw + NonceAfter(raw, k);
    assert checked[..|raw|] == raw;
    H := s => if s == mined then Zeros(HASH_SIZE) else Zeros(HASH_SIZE)[0 := 1];
    assert H(mined)[0] == 0 && H(checked)[0] == 1;
  }

  /** What a job returns when its search ends after k increments. */
  ghost predicate JobEnds(
    H: seq<Byte> -> Digest, rawData: Slice, difficulty: int, quit: nat -> bool, k: nat, r: JobResult)
  {
    var raw := rawData.Content();
    match r
    case Working => false
    case GaveUp => EndsAfter(H, WorkData(raw), difficulty, quit, k, Quit)
    case JobPanicked => EndsAfter(H, WorkData(raw), difficulty, quit, k, Panicked)
    case Done(job) =>
      && EndsAfter(H, WorkData(raw), difficulty, quit, k, Found(H(Buffer(raw, k))))
      && job == Job(rawData, Slice(H(Buffer(raw, k))), Slice(NonceAfter(raw, k)))
      && (k < NONCE_SPACE ==>
            && BigEndian(job.nonce.bytes) == k
            && (rawData.Slice? ==> CheckJob(H, job.hash, rawData, job.nonce)))
  }

  /**
   * doJob with the timeout given as the poll at which the quit message is found, as far as `turns` turns of the
   * search take it.
   */
  method DoJob(H: seq<Byte> -> Digest, rawData: Slice, difficulty: Uint8, quit: nat -> bool, turns: nat)
    returns (r: JobResult)
    ensures r == Working <==> NoStopBefore(H, WorkData(rawData.Content()), difficulty, quit, turns)
    ensures r != Working ==> exists k: nat :: k <= turns && JobEnds(H, rawData, difficulty, quit, k, r)
    ensures r.Done? ==> r.job.data == rawData && r.job.hash.Slice? && |r.job.hash.bytes| == HASH_SIZE
                        && Judge(difficulty, r.job.hash.bytes) == Accept
  {
    var raw := rawData.Content();
    var workData := new Byte[|raw| + NONCE_SIZE](_ => 0);
    var i := 0;
    while i < |raw|
      invariant i <= |raw|
      invariant workData[..i] == raw[..i]
      invariant forall x :: i <= x < workData.Length ==> workData[x] == 0
    {
      workData[i] := raw[i];
      i := i + 1;
    }
    assert workData[..] == WorkData(raw);
    var p;
    ghost var k;
    p, k := Mine(H, workData, difficulty, quit, turns);
    if p.StillMining? {
      return Working;
    }
    if k < NONCE_SPACE {
      NonceRoundTrip(raw, k);
      CheckAcceptsFound(H, raw, k);
    }
    match p.o {
      case Quit => r := GaveUp;
      case Panicked => r := JobPanicked;
      case Found(hash) =>
        r := Done(Job(rawData, Slice(hash), Slice(workData[workData.Length - NONCE_SIZE..])));
    }
    assert JobEnds(H, rawData, difficulty, quit, k, r);
  }
}
