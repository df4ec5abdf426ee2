/** smix of pkg/yescrypt/yescrypt.go from bytes to bytes, without a pwxform
    context, against scryptROMix. */
module ScryptSmix {
  import opened Bits
  import opened Words
  import opened ScryptSpec
  import opened Smix

  /** The 32-bit word at byte offset o. */
  function WordAt(b: seq<bv8>, o: nat): bv32
    requires o + 4 <= |b|
  {
    Load32(b[o], b[o + 1], b[o + 2], b[o + 3])
  }

  function BlockAt(b: seq<bv8>, o: nat): Block
    requires o + 64 <= |b|
  {
    Block(WordAt(b, o), WordAt(b, o + 4), WordAt(b, o + 8), WordAt(b, o + 12),
          WordAt(b, o + 16), WordAt(b, o + 20), WordAt(b, o + 24), WordAt(b, o + 28),
          WordAt(b, o + 32), WordAt(b, o + 36), WordAt(b, o + 40), WordAt(b, o + 44),
          WordAt(b, o + 48), WordAt(b, o + 52), WordAt(b, o + 56), WordAt(b, o + 60))
  }

  /** The n blocks of octets at byte offset o, each word little-endian. */
  function BlocksAt(b: seq<bv8>, o: nat, n: nat): (x: seq<Block>)
    requires o + 64 * n <= |b|
    ensures |x| == n
  {
    seq(n, k requires 0 <= k < n => BlockAt(b, o + 64 * k))
  }

  /** The word address that smix uses in place of j: (j & ^63) | ((j * 5) & 63). */
  function Shuffled(j: nat): nat { j / 64 * 64 + j * 5 % 64 }

  lemma ShuffledAt(k: nat, w: nat)
    requires w < 16
    ensures Shuffled(64 * k + 4 * w) == 64 * k + 4 * (5 * w % 16)
  {
    var j := 64 * k + 4 * w;
    assert j / 64 == k;
    DivModUnique(j * 5, 64, 5 * k + 5 * w / 16, 4 * (5 * w % 16));
  }

  /** Packed word i, as the load loop reads it. */
  ghost predicate LoadedAt(x: seq<bv64>, b: seq<bv8>, o: nat, r: nat, i: nat) {
    && i < 16 * r && i < |x| && o + 128 * r <= |b|
    && Shuffled(8 * i) + 4 <= 128 * r && Shuffled(8 * i + 4) + 4 <= 128 * r
    && x[i] == Pack(WordAt(b, o + Shuffled(8 * i)), WordAt(b, o + Shuffled(8 * i + 4)))
  }

  lemma ShuffledInBounds(r: nat, w: nat)
    requires w < 32 * r
    ensures Shuffled(4 * w) + 4 <= 128 * r
  {
    hide Shuffled;
    var k, t := w / 16, w % 16;
    assert k < 2 * r && 64 * k + 4 * t == 4 * w;
    ShuffledAt(k, t);
    assert 5 * t % 16 <= 15;
  }

  lemma PairAddress(k: nat, t: nat)
    requires t < 8
    ensures Shuffled(8 * (8 * k + t)) == 64 * k + 4 * (10 * t % 16)
    ensures Shuffled(8 * (8 * k + t) + 4) == 64 * k + 4 * ((10 * t + 5) % 16)
  {
    hide Shuffled;
    ShuffledAt(k, 2 * t);
    ShuffledAt(k, 2 * t + 1);
    assert 8 * (8 * k + t) == 64 * k + 4 * (2 * t);
    assert 8 * (8 * k + t) + 4 == 64 * k + 4 * (2 * t + 1);
  }

  lemma LoadedWord(x: seq<bv64>, b: seq<bv8>, o: nat, r: nat, k: nat, p: nat, c: nat, t: nat, lo: nat, hi: nat)
    requires t < 8 && p == 8 * k && c == o + 64 * k && LoadedAt(x, b, o, r, p + t)
    requires lo == 4 * (10 * t % 16) && hi == 4 * ((10 * t + 5) % 16)
    ensures c + 64 <= |b|
    ensures Lo(x[p + t]) == WordAt(b, c + lo)
    ensures Hi(x[p + t]) == WordAt(b, c + hi)
  {
    hide WordAt, Lo, Hi, Pack, Shuffled;
    PairAddress(k, t);
    PackHalves(WordAt(b, c + lo), WordAt(b, c + hi));
  }

  /** Loading unshuffles: the packed words stand for the blocks of the octets. */
  lemma LoadedBlock(x: seq<bv64>, b: seq<bv8>, o: nat, r: nat, k: nat)
    requires k < 2 * r && 16 * r <= |x| && o + 128 * r <= |b|
    requires forall i: nat :: i < 16 * r ==> LoadedAt(x, b, o, r, i)
    ensures Unpack(PackedAt(x, 8 * k)) == BlockAt(b, o + 64 * k)
  {
    hide WordAt, Lo, Hi, LoadedAt;
    var p, c := 8 * k, o + 64 * k;
    LoadedWord(x, b, o, r, k, p, c, 0, 0, 20);
    LoadedWord(x, b, o, r, k, p, c, 1, 40, 60);
    LoadedWord(x, b, o, r, k, p, c, 2, 16, 36);
    LoadedWord(x, b, o, r, k, p, c, 3, 56, 12);
    LoadedWord(x, b, o, r, k, p, c, 4, 32, 52);
    LoadedWord(x, b, o, r, k, p, c, 5, 8, 28);
    LoadedWord(x, b, o, r, k, p, c, 6, 48, 4);
    LoadedWord(x, b, o, r, k, p, c, 7, 24, 44);
  }

  method Load(b: array<bv8>, o: nat, r: nat, xy: array<bv64>)
    requires o + 128 * r <= b.Length && 16 * r <= xy.Length
    modifies xy
    ensures Holds(xy[..], 0, BlocksAt(b[..], o, 2 * r))
  {
    hide Shuffled, WordAt, Pack;
    for i := 0 to 16 * r
      invariant forall p: nat :: p < i ==> LoadedAt(xy[..], b[..], o, r, p)
    {
      ghost var s := xy[..];
      ShuffledInBounds(r, 2 * i);
      ShuffledInBounds(r, 2 * i + 1);
      var lo := WordAt(b[..], o + Shuffled(8 * i));
      var hi := WordAt(b[..], o + Shuffled(8 * i + 4));
      xy[i] := Pack(lo, hi);
      forall p: nat | p < i + 1
        ensures LoadedAt(xy[..], b[..], o, r, p)
      {
        assert p < i ==> LoadedAt(s, b[..], o, r, p);
      }
    }
    forall k: nat | k < 2 * r
      ensures Unpack(PackedAt(xy[..], 8 * k)) == BlocksAt(b[..], o, 2 * r)[k]
    {
      LoadedBlock(xy[..], b[..], o, r, k);
    }
  }

  lemma ShuffledApart(v: nat, w: nat)
    requires v != w
    ensures Shuffled(4 * v) + 4 <= Shuffled(4 * w) || Shuffled(4 * w) + 4 <= Shuffled(4 * v)
  {
    var k, t, m, u := v / 16, v % 16, w / 16, w % 16;
    assert 4 * v == 64 * k + 4 * t && 4 * w == 64 * m + 4 * u;
    hide Shuffled;
    ShuffledAt(k, t);
    ShuffledAt(m, u);
    if k == m {
      TimesFiveInjective(t, u);
    }
  }

  lemma TimesFiveInjective(t: nat, u: nat)
    requires t < 16 && u < 16 && t != u
    ensures 5 * t % 16 != 5 * u % 16
  {}

  /** Bytes of b and b' agree outside [lo, hi). */
  ghost predicate SameBytes(b: seq<bv8>, b': seq<bv8>, lo: nat, hi: nat) {
    |b| == |b'| && forall k :: 0 <= k < |b| && !(lo <= k < hi) ==> b'[k] == b[k]
  }

  method PutWord(b: array<bv8>, o: nat, w: bv32)
    requires o + 4 <= b.Length
    modifies b
    ensures WordAt(b[..], o) == w && SameBytes(old(b[..]), b[..], o, o + 4)
  {
    hide Byte, Load32;
    LoadStore(w);
    b[o] := Byte(w, 0);
    b[o + 1] := Byte(w, 1);
    b[o + 2] := Byte(w, 2);
    b[o + 3] := Byte(w, 3);
  }

  /** Word w of the packed words x, low halves first. */
  function HalfAt(x: seq<bv64>, w: nat): bv32
    requires w < 2 * |x|
  {
    if w % 2 == 0 then Lo(x[w / 2]) else Hi(x[w / 2])
  }

  /** The first m words are stored at their shuffled addresses. */
  ghost predicate StoredUpTo(x: seq<bv64>, b: seq<bv8>, o: nat, r: nat, m: nat) {
    && o + 128 * r <= |b| && m <= 32 * r <= 2 * |x|
    && forall w: nat :: w < m ==>
         Shuffled(4 * w) + 4 <= 128 * r && WordAt(b, o + Shuffled(4 * w)) == HalfAt(x, w)
  }

  method StoreWord(x: array<bv64>, b: array<bv8>, o: nat, r: nat, m: nat)
    requires StoredUpTo(x[..], b[..], o, r, m) && m < 32 * r
    modifies b
    ensures StoredUpTo(x[..], b[..], o, r, m + 1)
    ensures SameBytes(old(b[..]), b[..], o, o + 128 * r)
  {
    hide Shuffled, Lo, Hi, Load32;
    ghost var b0 := b[..];
    ShuffledInBounds(r, m);
    PutWord(b, o + Shuffled(4 * m), HalfAt(x[..], m));
    forall w: nat | w < m
      ensures Shuffled(4 * w) + 4 <= 128 * r
      ensures WordAt(b[..], o + Shuffled(4 * w)) == HalfAt(x[..], w)
    {
      ShuffledApart(w, m);
      assert WordAt(b0, o + Shuffled(4 * w)) == HalfAt(x[..], w);
    }
  }

  lemma StoredIsLoaded(x: seq<bv64>, b: seq<bv8>, o: nat, r: nat, i: nat)
    requires StoredUpTo(x, b, o, r, 32 * r) && i < 16 * r
    ensures LoadedAt(x, b, o, r, i)
  {
    hide Shuffled, Lo, Hi, Pack, WordAt;
    HalvesPack(x[i]);
    assert 4 * (2 * i) == 8 * i && 4 * (2 * i + 1) == 8 * i + 4;
    assert HalfAt(x, 2 * i) == Lo(x[i]) && HalfAt(x, 2 * i + 1) == Hi(x[i]);
  }

  method Store(x: array<bv64>, b: array<bv8>, o: nat, r: nat, ghost c: seq<Block>)
    requires o + 128 * r <= b.Length && |c| == 2 * r && Holds(x[..], 0, c)
    modifies b
    ensures BlocksAt(b[..], o, 2 * r) == c
    ensures SameBytes(old(b[..]), b[..], o, o + 128 * r)
  {
    hide Shuffled, Unpack, WordAt, BlockAt;
    for i := 0 to 16 * r
      invariant StoredUpTo(x[..], b[..], o, r, 2 * i)
      invariant SameBytes(old(b[..]), b[..], o, o + 128 * r)
    {
      StoreWord(x, b, o, r, 2 * i);
      StoreWord(x, b, o, r, 2 * i + 1);
    }
    forall i: nat | i < 16 * r
      ensures LoadedAt(x[..], b[..], o, r, i)
    {
      StoredIsLoaded(x[..], b[..], o, r, i);
    }
    forall k | 0 <= k < 2 * r
      ensures BlocksAt(b[..], o, 2 * r)[k] == c[k]
    {
      LoadedBlock(x[..], b[..], o, r, k);
      HoldsAt(x[..], 0, c, k);
    }
  }

  lemma WordInjective(b: seq<bv8>, b': seq<bv8>, o: nat)
    requires o + 4 <= |b| && o + 4 <= |b'| && WordAt(b, o) == WordAt(b', o)
    ensures forall i :: o <= i < o + 4 ==> b'[i] == b[i]
  {
    StoreLoad(b[o], b[o + 1], b[o + 2], b[o + 3]);
    StoreLoad(b'[o], b'[o + 1], b'[o + 2], b'[o + 3]);
  }

  lemma BlockInjective(b: seq<bv8>, b': seq<bv8>, o: nat, w: nat)
    requires o + 64 <= |b| && o + 64 <= |b'| && BlockAt(b, o) == BlockAt(b', o) && w < 16
    ensures WordAt(b, o + 4 * w) == WordAt(b', o + 4 * w)
  {
    hide WordAt;
  }

  /** The blocks determine the octets: a result stated on blocks fixes every byte. */
  lemma BlocksInjective(b: seq<bv8>, b': seq<bv8>, o: nat, n: nat)
    requires o + 64 * n <= |b| && SameBytes(b, b', o, o + 64 * n)
    requires BlocksAt(b, o, n) == BlocksAt(b', o, n)
    ensures b == b'
  {
    hide WordAt, BlockAt;
    forall i | 0 <= i < |b|
      ensures b'[i] == b[i]
    {
      if o <= i < o + 64 * n {
        var k := (i - o) / 64;
        var w := (i - o) % 64 / 4;
        assert BlocksAt(b, o, n)[k] == BlockAt(b, o + 64 * k) && BlocksAt(b', o, n)[k] == BlockAt(b', o + 64 * k);
        BlockInjective(b, b', o + 64 * k, w);
        WordInjective(b, b', o + 64 * k + 4 * w);
      }
    }
  }

  /** smix with a nil context. */
  method SmixPlain(b: array<bv8>, o: nat, r: nat, n: nat, nLoop: nat, v: array<bv64>, xy: array<bv64>)
    requires v != xy && r >= 1 && n >= 2 && n % 2 == 0 && nLoop % 2 == 0
    requires o + 128 * r <= b.Length && 32 * r <= xy.Length && Offset(r, n) <= v.Length
    modifies b, v, xy
    ensures BlocksAt(b[..], o, 2 * r) == CodeMix(old(BlocksAt(b[..], o, 2 * r)), r, n, nLoop)
    ensures Filled(v[..], old(BlocksAt(b[..], o, 2 * r)), r, n)
    ensures SameBytes(old(b[..]), b[..], o, o + 128 * r)
  {
    hide Holds, BlockAt, Filled, SameBytes;
    ghost var c := BlocksAt(b[..], o, 2 * r);
    Load(b, o, r, xy);
    ScryptLoops(xy, v, r, n, nLoop, c);
    Store(xy, b, o, r, CodeMix(c, r, n, nLoop));
  }

  lemma SplitHigh(w: nat, p: nat, q: nat, h: nat)
    requires p >= 1
    ensures (w + p * q * h) % p == w % p
  {
    assert p * (q * h + w / p) == p * (q * h) + p * (w / p);
    assert p * (q * h) == p * q * h;
    DivModUnique(w + p * q * h, p, q * h + w / p, w % p);
  }

  lemma LittleEndianMod(ws: seq<bv32>, k: nat)
    requires |ws| >= 1 && k <= 32
    ensures LittleEndian(ws) % Pow2(k) == ws[0] as nat % Pow2(k)
  {
    hide Pow2;
    Pow2Add(k, 32 - k);
    Pow2Of32();
    SplitHigh(ws[0] as nat, Pow2(k), Pow2(32 - k), LittleEndian(ws[1..]));
  }

  /** For every power of two up to 2^32 the masked low word is Integerify modulo N. */
  lemma IndexIsIntegerify(x: seq<Block>, k: nat)
    requires |x| >= 1 && k <= 32
    ensures Index(x, Pow2(k)) == Integerify(x) % Pow2(k)
  {
    hide LittleEndian, BitAnd, Pow2;
    var last := x[|x| - 1];
    Pow2Monotone(k, 32);
    Pow2Of32();
    assert (Pow2(k) - 1) % 0x1_0000_0000 == Pow2(k) - 1;
    BitAndMask(last.x0 as nat, k);
    LittleEndianMod(last.Words(), k);
  }

  const Two32: Block := Block(0, 1, 0, 0, 0, 0, 0, 0, 0, 0, 0, 0, 0, 0, 0, 0)

  lemma LittleEndianZero(ws: seq<bv32>)
    requires forall i :: 0 <= i < |ws| ==> ws[i] == 0
    ensures LittleEndian(ws) == 0
  {}

  lemma LittleEndianSecond(ws: seq<bv32>)
    requires |ws| >= 2 && ws[1] == 1 && forall i :: 0 <= i < |ws| && i != 1 ==> ws[i] == 0
    ensures LittleEndian(ws) == 0x1_0000_0000
  {
    var t := ws[1..];
    LittleEndianZero(t[1..]);
    assert LittleEndian(t) == 1;
  }

  lemma IndexDisagrees(k: nat, x: seq<Block>)
    requires k > 32 && |x| >= 1 && x[|x| - 1] == Two32
    ensures Index(x, Pow2(k)) != Integerify(x) % Pow2(k)
  {
    hide LittleEndian, Pow2;
    LittleEndianSecond(Two32.Words());
    Pow2Of32();
    Pow2Monotone(32, k);
    assert Integerify(x) % Pow2(k) == 0x1_0000_0000;
  }

  /** The 32-bit index is the one of section 5 for every X of 2r blocks exactly up
      to N = 2^32, whatever r is. */
  lemma IndexAgreesIff(r: nat, k: nat)
    requires r >= 1
    ensures (forall x: seq<Block> :: |x| == 2 * r ==> Index(x, Pow2(k)) == Integerify(x) % Pow2(k)) <==> k <= 32
  {
    hide Index, Integerify, Pow2;
    if k <= 32 {
      forall x: seq<Block> | |x| == 2 * r
        ensures Index(x, Pow2(k)) == Integerify(x) % Pow2(k)
      {
        IndexIsIntegerify(x, k);
      }
    } else {
      IndexDisagrees(k, seq(2 * r, _ => Two32));
    }
  }

  lemma {:induction false} CodeMixIsMix(b: seq<Block>, r: nat, k: nat, i: nat)
    requires r >= 1 && |b| == 2 * r && k <= 32
    ensures CodeMix(b, r, Pow2(k), i) == Mix(b, r, Pow2(k), i)
  {
    hide BlockMix, XorBlocks, Fill, Index, Integerify;
    if i > 0 {
      CodeMixIsMix(b, r, k, i - 1);
      IndexIsIntegerify(CodeMix(b, r, Pow2(k), i - 1), k);
    }
  }

  /** smix with a nil context and N = Nloop = 2^k computes scryptROMix. */
  method SmixIsROMix(b: array<bv8>, o: nat, r: nat, k: nat, v: array<bv64>, xy: array<bv64>)
    requires v != xy && r >= 1 && 1 <= k <= 32
    requires o + 128 * r <= b.Length && 32 * r <= xy.Length && Offset(r, Pow2(k)) <= v.Length
    modifies b, v, xy
    ensures BlocksAt(b[..], o, 2 * r) == ROMix(old(BlocksAt(b[..], o, 2 * r)), r, Pow2(k))
    ensures SameBytes(old(b[..]), b[..], o, o + 128 * r)
  {
    hide BlockAt, Filled, SameBytes, BlockMix, CodeMix, Mix;
    ghost var c := BlocksAt(b[..], o, 2 * r);
    SmixPlain(b, o, r, Pow2(k), Pow2(k), v, xy);
    CodeMixIsMix(c, r, k, Pow2(k));
  }
}
