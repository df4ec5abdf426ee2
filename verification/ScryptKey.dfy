/** deriveKey of pkg/yescrypt/yescrypt.go for classic scrypt: parameter checks
    and the p lanes of section 6 of RFC 7914. */
module ScryptKey {
  import opened Machine
  import opened Bits
  import opened Words
  import opened ScryptSpec
  import opened Smix
  import opened ScryptSmix

  /** A key, an error, or the panic of the last slice. */
  datatype Result<+T> = Ok(value: T) | Err | Panic

  /** The parameters that deriveKey accepts for classic scrypt. */
  ghost predicate Supported(n: int, r: int, p: int) {
    n > 1 && IsPow2(n) && r > 0 && p > 0 && r * p < 0x4000_0000 && 128 * (n * r) <= MAX_INT64
  }

  /** The size checks of deriveKey, with the 64-bit product it computes. */
  predicate TooLarge(n: int, r: int, p: int)
    requires r > 0 && p > 0
  {
    || (r * p) % TWO64 >= 0x4000_0000
    || r > MAX_INT64 / 128 / p
    || r > MAX_INT64 / 256
    || n > MAX_INT64 / 128 / r
  }

  lemma QuotientBound(m: nat, d: nat, x: int)
    requires d > 0
    ensures x > m / d <==> x * d > m
  {
    if x > m / d {
      assert d * (x - m / d) == x * d - d * (m / d);
      MulAtLeast(d, x - m / d);
    } else {
      assert x * d <= (m / d) * d by {
        assert 0 <= (m / d - x) * d;
      }
    }
  }

  /** A wrapped product never lets an oversized pair through. */
  lemma TooLargeIff(n: int, r: int, p: int)
    requires n > 1 && r > 0 && p > 0
    ensures TooLarge(n, r, p) <==> r * p >= 0x4000_0000 || 128 * (n * r) > MAX_INT64
  {
    QuotientBound(MAX_INT64 / 128, p, r);
    QuotientBound(MAX_INT64 / 128, r, n);
    var q, m := r * p, n * r;
    MulAtLeast(r, p);
    assert q >= r;
    assert r > MAX_INT64 / 128 / p <==> q > MAX_INT64 / 128;
    assert n > MAX_INT64 / 128 / r <==> m > MAX_INT64 / 128;
    assert TooLarge(n, r, p) <==>
      q % TWO64 >= 0x4000_0000 || q > MAX_INT64 / 128 || r > MAX_INT64 / 256 || m > MAX_INT64 / 128;
  }

  /** Lane l of b is the mixed lane l of b0. */
  ghost predicate MixedLane(b0: seq<bv8>, b: seq<bv8>, r: nat, n: nat, l: nat) {
    && r >= 1 && n >= 1 && 128 * r * l + 128 * r <= |b0| && |b| == |b0|
    && BlocksAt(b, 128 * r * l, 2 * r) == CodeMix(BlocksAt(b0, 128 * r * l, 2 * r), r, n, n)
  }

  ghost predicate SameLane(b0: seq<bv8>, b: seq<bv8>, r: nat, l: nat) {
    && 128 * r * l + 128 * r <= |b0| && |b| == |b0|
    && BlocksAt(b, 128 * r * l, 2 * r) == BlocksAt(b0, 128 * r * l, 2 * r)
  }

  /** Every lane of b below m has been mixed, the others are as in b0. */
  ghost predicate LanesMixed(b0: seq<bv8>, b: seq<bv8>, r: nat, n: nat, m: nat, p: nat) {
    && |b0| == |b| == 128 * r * p
    && (forall l: nat :: l < m ==> MixedLane(b0, b, r, n, l))
    && (forall l: nat :: m <= l < p ==> SameLane(b0, b, r, l))
  }

  lemma LaneFits(r: nat, l: nat, p: nat)
    requires l < p
    ensures 128 * r * l + 128 * r <= 128 * r * p
  {
    MulAtLeast(128 * r, p - l);
    assert 128 * r * (p - l) == 128 * r * p - 128 * r * l;
  }

  lemma BlocksFrame(b: seq<bv8>, b': seq<bv8>, o: nat, n: nat, lo: nat, hi: nat)
    requires o + 64 * n <= |b| && SameBytes(b, b', lo, hi)
    requires o + 64 * n <= lo || hi <= o
    ensures BlocksAt(b', o, n) == BlocksAt(b, o, n)
  {
    hide Load32;
    forall k | 0 <= k < n
      ensures BlockAt(b', o + 64 * k) == BlockAt(b, o + 64 * k)
    {}
  }

  lemma LanesStart(b: seq<bv8>, r: nat, n: nat, p: nat)
    requires |b| == 128 * r * p
    ensures LanesMixed(b, b, r, n, 0, p)
  {
    forall l: nat | l < p
      ensures SameLane(b, b, r, l)
    {
      LaneFits(r, l, p);
    }
  }

  lemma LanesStep(b0: seq<bv8>, b: seq<bv8>, b': seq<bv8>, r: nat, n: nat, m: nat, p: nat)
    requires LanesMixed(b0, b, r, n, m, p) && m < p && r >= 1 && n >= 1 && |b'| == |b|
    requires 128 * r * m + 128 * r <= |b|
    requires BlocksAt(b', 128 * r * m, 2 * r) == CodeMix(BlocksAt(b, 128 * r * m, 2 * r), r, n, n)
    requires SameBytes(b, b', 128 * r * m, 128 * r * m + 128 * r)
    ensures LanesMixed(b0, b', r, n, m + 1, p)
  {
    hide BlocksAt, CodeMix, SameBytes;
    assert SameLane(b0, b, r, m);
    forall l: nat | l < m + 1
      ensures MixedLane(b0, b', r, n, l)
    {
      if l < m {
        assert MixedLane(b0, b, r, n, l);
        OtherLane(b, b', r, l, m);
      }
    }
    forall l: nat | m + 1 <= l < p
      ensures SameLane(b0, b', r, l)
    {
      assert SameLane(b0, b, r, l);
      OtherLane(b, b', r, l, m);
    }
  }

  /** A change of lane m leaves lane l alone. */
  lemma OtherLane(b: seq<bv8>, b': seq<bv8>, r: nat, l: nat, m: nat)
    requires l != m && 128 * r * l + 128 * r <= |b| && SameBytes(b, b', 128 * r * m, 128 * r * m + 128 * r)
    ensures |b'| == |b| && BlocksAt(b', 128 * r * l, 2 * r) == BlocksAt(b, 128 * r * l, 2 * r)
  {
    hide BlocksAt;
    if l < m {
      LaneFits(r, l, m);
    } else {
      LaneFits(r, m, l);
    }
    BlocksFrame(b, b', 128 * r * l, 2 * r, 128 * r * m, 128 * r * m + 128 * r);
  }

  method MixLanes(b: array<bv8>, r: nat, n: nat, p: nat)
    requires r >= 1 && n >= 2 && n % 2 == 0 && b.Length == 128 * r * p
    modifies b
    ensures LanesMixed(old(b[..]), b[..], r, n, p, p)
  {
    hide BlocksAt, CodeMix, LanesMixed, SameBytes, Filled;
    var v := new bv64[16 * r * n];
    var xy := new bv64[32 * r];
    ghost var b0 := b[..];
    LanesStart(b0, r, n, p);
    for i := 0 to p
      invariant LanesMixed(b0, b[..], r, n, i, p)
    {
      LaneFits(r, i, p);
      ghost var b1 := b[..];
      SmixPlain(b, 128 * r * i, r, n, n, v, xy);
      LanesStep(b0, b1, b[..], r, n, i, p);
    }
  }

  /** deriveKey for classic scrypt, with PBKDF2 as a parameter. */
  method ScryptKey(pbkdf2: (seq<bv8>, seq<bv8>, nat) -> seq<bv8>, password: seq<bv8>, salt: seq<bv8>,
                   n: int, r: int, p: int, keyLen: int)
    returns (res: Result<seq<bv8>>)
    requires forall pw, s, len :: |pbkdf2(pw, s, len)| == len
    ensures res.Err? <==> !Supported(n, r, p)
    ensures res.Panic? <==> Supported(n, r, p) && keyLen < 0
    ensures res.Ok? ==>
              exists b :: LanesMixed(pbkdf2(password, salt, 128 * r * p), b, r, n, p, p)
                       && res.value == pbkdf2(password, b, if keyLen < 32 then 32 else keyLen)[..keyLen]
  {
    hide LanesMixed, BitAnd;
    if n <= 1 {
      return Err;
    }
    PowerOfTwoTest(n);
    if BitAnd(n, n - 1) != 0 {
      return Err;
    }
    if r <= 0 || p <= 0 {
      return Err;
    }
    TooLargeIff(n, r, p);
    if TooLarge(n, r, p) {
      return Err;
    }
    EvenPower(n);
    var b0 := pbkdf2(password, salt, 128 * r * p);
    var b := new bv8[|b0|](i requires 0 <= i < |b0| => b0[i]);
    assert b[..] == b0;
    MixLanes(b, r, n, p);
    var key := pbkdf2(password, b[..], if keyLen < 32 then 32 else keyLen);
    res := if keyLen < 0 then Panic else Ok(key[..keyLen]);
  }

  lemma EvenPower(n: nat)
    requires n > 1 && IsPow2(n)
    ensures n % 2 == 0
  {
    var k: nat :| n == Pow2(k);
    assert n == 2 * Pow2(k - 1);
  }

  /** Up to N = 2^32 the mixed lanes are those of section 6 of RFC 7914. */
  lemma LanesAreROMix(b0: seq<bv8>, b: seq<bv8>, r: nat, n: nat, p: nat, l: nat)
    requires LanesMixed(b0, b, r, n, p, p) && IsPow2(n) && n <= 0x1_0000_0000 && l < p
    ensures r >= 1 && 128 * r * l + 128 * r <= |b0| == |b|
    ensures BlocksAt(b, 128 * r * l, 2 * r) == ROMix(BlocksAt(b0, 128 * r * l, 2 * r), r, n)
  {
    hide BlocksAt, CodeMix, Mix, Pow2;
    assert MixedLane(b0, b, r, n, l);
    var k: nat :| n == Pow2(k);
    Pow2Of32();
    if k > 32 {
      Pow2Monotone(32, k);
    }
    CodeMixIsMix(BlocksAt(b0, 128 * r * l, 2 * r), r, k, n);
  }

  /** The edges of what is supported. */
  lemma SupportedEdges(n: int, r: int, p: int)
    ensures Supported(2, 1, 1) && Supported(2, 0x3FFF_FFFF, 1) && Supported(2, 1, 0x3FFF_FFFF)
    ensures n <= 1 || r <= 0 || p <= 0 || r * p >= 0x4000_0000 ==> !Supported(n, r, p)
    ensures 0 < r && 0 < p && r * p < 0x4000_0000 ==> (Supported(0x4000_0000, r, p) <==> r <= 0x3FF_FFFF)
  {
    assert Pow2(1) == 2;
    assert IsPow2(2);
    Pow2Of32();
    assert Pow2(32) == 4 * Pow2(30);
    assert IsPow2(0x4000_0000);
  }
}
