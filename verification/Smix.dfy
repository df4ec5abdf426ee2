/** The memory-hard mixing of pkg/yescrypt/yescrypt.go on its own arrays:
    64-bit words that hold two 32-bit words of a shuffled block, and two
    half-buffers x and y of one array that take turns. */
module Smix {
  import opened Bits
  import opened Words
  import opened ScryptSpec

  /** Eight 64-bit words: one block in packed, shuffled form. */
  datatype Packed = Packed(d0: bv64, d1: bv64, d2: bv64, d3: bv64, d4: bv64, d5: bv64, d6: bv64, d7: bv64)

  /** The block that packed words stand for: shuffled word w is word 5w mod 16. */
  function Unpack(d: Packed): Block {
    Block(Lo(d.d0), Hi(d.d6), Lo(d.d5), Hi(d.d3), Lo(d.d2), Hi(d.d0), Lo(d.d7), Hi(d.d5),
          Lo(d.d4), Hi(d.d2), Lo(d.d1), Hi(d.d7), Lo(d.d6), Hi(d.d4), Lo(d.d3), Hi(d.d1))
  }

  function XorPacked(x: Packed, y: Packed): Packed {
    Packed(Xor64(x.d0, y.d0), Xor64(x.d1, y.d1), Xor64(x.d2, y.d2), Xor64(x.d3, y.d3),
           Xor64(x.d4, y.d4), Xor64(x.d5, y.d5), Xor64(x.d6, y.d6), Xor64(x.d7, y.d7))
  }

  lemma UnpackXor(x: Packed, y: Packed)
    ensures Unpack(XorPacked(x, y)) == XorWords(Unpack(x), Unpack(y))
  {
    HalvesXor(x.d0, y.d0);
    HalvesXor(x.d1, y.d1);
    HalvesXor(x.d2, y.d2);
    HalvesXor(x.d3, y.d3);
    HalvesXor(x.d4, y.d4);
    HalvesXor(x.d5, y.d5);
    HalvesXor(x.d6, y.d6);
    HalvesXor(x.d7, y.d7);
  }

  method SalsaDoubleRound(x: Block) returns (y: Block)
    ensures y == DoubleRound(x)
  {
    var x0, x1, x2, x3, x4, x5, x6, x7 := x.x0, x.x1, x.x2, x.x3, x.x4, x.x5, x.x6, x.x7;
    var x8, x9, x10, x11, x12, x13, x14, x15 := x.x8, x.x9, x.x10, x.x11, x.x12, x.x13, x.x14, x.x15;

    x4 := ArxStep(x4, x0, x12, 7);
    x8 := ArxStep(x8, x4, x0, 9);
    x12 := ArxStep(x12, x8, x4, 13);
    x0 := ArxStep(x0, x12, x8, 18);

    x9 := ArxStep(x9, x5, x1, 7);
    x13 := ArxStep(x13, x9, x5, 9);
    x1 := ArxStep(x1, x13, x9, 13);
    x5 := ArxStep(x5, x1, x13, 18);

    x14 := ArxStep(x14, x10, x6, 7);
    x2 := ArxStep(x2, x14, x10, 9);
    x6 := ArxStep(x6, x2, x14, 13);
    x10 := ArxStep(x10, x6, x2, 18);

    x3 := ArxStep(x3, x15, x11, 7);
    x7 := ArxStep(x7, x3, x15, 9);
    x11 := ArxStep(x11, x7, x3, 13);
    x15 := ArxStep(x15, x11, x7, 18);

    x1 := ArxStep(x1, x0, x3, 7);
    x2 := ArxStep(x2, x1, x0, 9);
    x3 := ArxStep(x3, x2, x1, 13);
    x0 := ArxStep(x0, x3, x2, 18);

    x6 := ArxStep(x6, x5, x4, 7);
    x7 := ArxStep(x7, x6, x5, 9);
    x4 := ArxStep(x4, x7, x6, 13);
    x5 := ArxStep(x5, x4, x7, 18);

    x11 := ArxStep(x11, x10, x9, 7);
    x8 := ArxStep(x8, x11, x10, 9);
    x9 := ArxStep(x9, x8, x11, 13);
    x10 := ArxStep(x10, x9, x8, 18);

    x12 := ArxStep(x12, x15, x14, 7);
    x13 := ArxStep(x13, x12, x15, 9);
    x14 := ArxStep(x14, x13, x12, 13);
    x15 := ArxStep(x15, x14, x13, 18);

    y := Block(x0, x1, x2, x3, x4, x5, x6, x7, x8, x9, x10, x11, x12, x13, x14, x15);
  }

  /** The packed feed-forward additions at the end of salsaXOR. */
  function PackedSum(d: Packed, z: Block): Packed {
    Packed(Pack(Add32(Lo(d.d0), z.x0), Add32(Hi(d.d0), z.x5)),
           Pack(Add32(Lo(d.d1), z.x10), Add32(Hi(d.d1), z.x15)),
           Pack(Add32(Lo(d.d2), z.x4), Add32(Hi(d.d2), z.x9)),
           Pack(Add32(Lo(d.d3), z.x14), Add32(Hi(d.d3), z.x3)),
           Pack(Add32(Lo(d.d4), z.x8), Add32(Hi(d.d4), z.x13)),
           Pack(Add32(Lo(d.d5), z.x2), Add32(Hi(d.d5), z.x7)),
           Pack(Add32(Lo(d.d6), z.x12), Add32(Hi(d.d6), z.x1)),
           Pack(Add32(Lo(d.d7), z.x6), Add32(Hi(d.d7), z.x11)))
  }

  lemma PackedSumAdds(d: Packed, z: Block)
    ensures Unpack(PackedSum(d, z)) == AddWords(Unpack(d), z)
  {
    PackHalves(Add32(Lo(d.d0), z.x0), Add32(Hi(d.d0), z.x5));
    PackHalves(Add32(Lo(d.d1), z.x10), Add32(Hi(d.d1), z.x15));
    PackHalves(Add32(Lo(d.d2), z.x4), Add32(Hi(d.d2), z.x9));
    PackHalves(Add32(Lo(d.d3), z.x14), Add32(Hi(d.d3), z.x3));
    PackHalves(Add32(Lo(d.d4), z.x8), Add32(Hi(d.d4), z.x13));
    PackHalves(Add32(Lo(d.d5), z.x2), Add32(Hi(d.d5), z.x7));
    PackHalves(Add32(Lo(d.d6), z.x12), Add32(Hi(d.d6), z.x1));
    PackHalves(Add32(Lo(d.d7), z.x6), Add32(Hi(d.d7), z.x11));
  }

  /** Salsa20 of a packed block. */
  function SalsaPacked(d: Packed, n: nat): Packed {
    PackedSum(d, Rounds(Unpack(d), n))
  }

  /** The shuffle commutes with Salsa20: absorbing s into t in packed form is
      absorbing the block of s into the block of t. */
  lemma AbsorbUnpacks(t: Packed, s: Packed, n: nat)
    ensures Unpack(SalsaPacked(XorPacked(t, s), n)) == Salsa(XorWords(Unpack(t), Unpack(s)), n)
  {
    var d := XorPacked(t, s);
    UnpackXor(t, s);
    PackedSumAdds(d, Rounds(Unpack(d), n));
  }

  /** The eight words of s at offset o. */
  function PackedAt(s: seq<bv64>, o: nat): Packed
    requires o + 8 <= |s|
  {
    Packed(s[o], s[o + 1], s[o + 2], s[o + 3], s[o + 4], s[o + 5], s[o + 6], s[o + 7])
  }

  /** s and s' differ at most in [lo, hi). */
  ghost predicate SameOutside(s: seq<bv64>, s': seq<bv64>, lo: nat, hi: nat) {
    |s| == |s'| && forall k :: 0 <= k < |s| && !(lo <= k < hi) ==> s'[k] == s[k]
  }

  method SalsaCore(d: Packed, rounds: nat) returns (e: Packed)
    requires rounds % 2 == 0
    ensures e == SalsaPacked(d, rounds / 2)
  {
    hide DoubleRound, PackedSum, Unpack;
    var x := Unpack(d);
    var z, i := x, 0;
    while i < rounds
      invariant 0 <= i <= rounds && i % 2 == 0
      invariant z == Rounds(x, i / 2)
    {
      z := SalsaDoubleRound(z);
      i := i + 2;
      assert i / 2 - 1 == (i - 2) / 2;
    }
    e := PackedSum(d, z);
  }

  method StorePacked(a: array<bv64>, o: nat, d: Packed)
    requires o + 8 <= a.Length
    modifies a
    ensures PackedAt(a[..], o) == d
    ensures SameOutside(old(a[..]), a[..], o, o + 8)
  {
    a[o] := d.d0;
    a[o + 1] := d.d1;
    a[o + 2] := d.d2;
    a[o + 3] := d.d3;
    a[o + 4] := d.d4;
    a[o + 5] := d.d5;
    a[o + 6] := d.d6;
    a[o + 7] := d.d7;
  }

  /** Salsa20 on the exclusive or of tmp and eight words of a, stored in both
      tmp and a; source and destination may overlap. */
  method SalsaXor(tmp: array<bv64>, a: array<bv64>, src: nat, dst: nat, rounds: nat)
    requires tmp.Length == 8 && tmp != a && rounds % 2 == 0
    requires src + 8 <= a.Length && dst + 8 <= a.Length
    modifies tmp, a
    ensures PackedAt(tmp[..], 0) ==
            SalsaPacked(XorPacked(old(PackedAt(tmp[..], 0)), old(PackedAt(a[..], src))), rounds / 2)
    ensures PackedAt(a[..], dst) == PackedAt(tmp[..], 0)
    ensures SameOutside(old(a[..]), a[..], dst, dst + 8)
  {
    var e := SalsaCore(XorPacked(PackedAt(tmp[..], 0), PackedAt(a[..], src)), rounds);
    StorePacked(a, dst, e);
    StorePacked(tmp, 0, e);
  }

  /** The words of s from offset o on stand for the block string b. */
  ghost predicate Holds(s: seq<bv64>, o: nat, b: seq<Block>) {
    && o + 8 * |b| <= |s|
    && forall k {:trigger b[k]} :: 0 <= k < |b| ==> Unpack(PackedAt(s, o + 8 * k)) == b[k]
  }

  lemma HoldsFrame(s: seq<bv64>, s': seq<bv64>, o: nat, b: seq<Block>, lo: nat, hi: nat)
    requires Holds(s, o, b) && SameOutside(s, s', lo, hi)
    requires o + 8 * |b| <= lo || hi <= o
    ensures Holds(s', o, b)
  {
    forall k | 0 <= k < |b|
      ensures Unpack(PackedAt(s', o + 8 * k)) == b[k]
    {
      assert PackedAt(s', o + 8 * k) == PackedAt(s, o + 8 * k);
    }
  }

  lemma HoldsAt(s: seq<bv64>, o: nat, b: seq<Block>, k: nat)
    requires Holds(s, o, b) && k < |b|
    ensures o + 8 * k + 8 <= |s| && Unpack(PackedAt(s, o + 8 * k)) == b[k]
  {
    hide Unpack;
    assert b[k] == b[k];
  }

  /** The first m blocks of each half of the output c are in place. */
  ghost predicate HalvesHold(s: seq<bv64>, o: nat, c: seq<Block>, r: nat, m: nat) {
    && |c| == 2 * r && o + 16 * r <= |s| && m <= r
    && forall k {:trigger c[k]} :: 0 <= k < m || r <= k < r + m ==> Unpack(PackedAt(s, o + 8 * k)) == c[k]
  }

  lemma HalvesStep(s0: seq<bv64>, s1: seq<bv64>, s2: seq<bv64>, o: nat, c: seq<Block>, r: nat, m: nat)
    requires HalvesHold(s0, o, c, r, m) && m < r
    requires SameOutside(s0, s1, o + 8 * m, o + 8 * m + 8)
    requires SameOutside(s1, s2, o + 8 * (r + m), o + 8 * (r + m) + 8)
    requires Unpack(PackedAt(s1, o + 8 * m)) == c[m]
    requires Unpack(PackedAt(s2, o + 8 * (r + m))) == c[r + m]
    ensures HalvesHold(s2, o, c, r, m + 1)
  {
    hide Unpack;
    forall k | 0 <= k < m + 1 || r <= k < r + m + 1
      ensures Unpack(PackedAt(s2, o + 8 * k)) == c[k]
    {
      if k == m {
        assert PackedAt(s2, o + 8 * k) == PackedAt(s1, o + 8 * k);
      } else if k != r + m {
        assert PackedAt(s2, o + 8 * k) == PackedAt(s0, o + 8 * k);
      }
    }
  }

  lemma BlockMixAt(b: seq<Block>, r: nat, m: nat)
    requires r >= 1 && |b| == 2 * r && m < r
    ensures BlockMix(b, r)[m] == Chain(b, 2 * m + 1)
    ensures BlockMix(b, r)[r + m] == Chain(b, 2 * m + 2)
  {
    hide Chain;
  }

  lemma HalvesStart(s: seq<bv64>, o: nat, c: seq<Block>, r: nat)
    requires |c| == 2 * r && o + 16 * r <= |s|
    ensures HalvesHold(s, o, c, r, 0)
  {}

  lemma HalvesDone(s: seq<bv64>, o: nat, c: seq<Block>, r: nat)
    requires HalvesHold(s, o, c, r, r)
    ensures Holds(s, o, c)
  {
    hide Unpack;
  }

  lemma SameOutsideRefl(s: seq<bv64>, lo: nat, hi: nat)
    ensures SameOutside(s, s, lo, hi)
  {}

  lemma SameOutsideTrans(s0: seq<bv64>, s1: seq<bv64>, s2: seq<bv64>, lo: nat, hi: nat)
    requires SameOutside(s0, s1, lo, hi) && SameOutside(s1, s2, lo, hi)
    ensures SameOutside(s0, s2, lo, hi)
  {}

  lemma ChainStart(s: seq<bv64>, o: nat, b: seq<Block>)
    requires Holds(s, o, b) && |b| >= 1
    ensures Unpack(PackedAt(s, o + 8 * (|b| - 1))) == Chain(b, 0)
  {
    hide Unpack, Salsa;
    assert Unpack(PackedAt(s, o + 8 * (|b| - 1))) == b[|b| - 1];
  }

  /** salsaXOR seen through the shuffle: absorbs block s into block t. */
  method AbsorbBlock(tmp: array<bv64>, a: array<bv64>, src: nat, dst: nat, ghost t: Block, ghost s: Block)
    requires tmp.Length == 8 && tmp != a && src + 8 <= a.Length && dst + 8 <= a.Length
    requires Unpack(PackedAt(tmp[..], 0)) == t && Unpack(PackedAt(a[..], src)) == s
    modifies tmp, a
    ensures Unpack(PackedAt(tmp[..], 0)) == Salsa(XorWords(t, s), 4)
    ensures Unpack(PackedAt(a[..], dst)) == Salsa(XorWords(t, s), 4)
    ensures SameOutside(old(a[..]), a[..], dst, dst + 8)
  {
    hide Unpack, Salsa, XorWords, SalsaPacked, XorPacked, SameOutside;
    AbsorbUnpacks(PackedAt(tmp[..], 0), PackedAt(a[..], src), 4);
    SalsaXor(tmp, a, src, dst, 8);
  }

  /** One iteration of blockMix, for source blocks 2m and 2m + 1. */
  method MixPair(tmp: array<bv64>, xy: array<bv64>, src: nat, dst: nat, r: nat, m: nat, ghost b: seq<Block>)
    requires tmp.Length == 8 && tmp != xy && m < r && |b| == 2 * r
    requires Holds(xy[..], src, b) && dst + 16 * r <= xy.Length
    requires src + 16 * r <= dst || dst + 16 * r <= src
    requires Unpack(PackedAt(tmp[..], 0)) == Chain(b, 2 * m)
    requires HalvesHold(xy[..], dst, BlockMix(b, r), r, m)
    modifies tmp, xy
    ensures Holds(xy[..], src, b)
    ensures Unpack(PackedAt(tmp[..], 0)) == Chain(b, 2 * m + 2)
    ensures HalvesHold(xy[..], dst, BlockMix(b, r), r, m + 1)
    ensures SameOutside(old(xy[..]), xy[..], dst, dst + 16 * r)
  {
    hide Unpack, Salsa, XorWords, BlockMix, HalvesHold, PackedAt, Holds;
    ghost var s0 := xy[..];
    HoldsAt(s0, src, b, 2 * m);
    AbsorbBlock(tmp, xy, src + 16 * m, dst + 8 * m, Chain(b, 2 * m), b[2 * m]);
    ghost var s1 := xy[..];
    HoldsFrame(s0, s1, src, b, dst, dst + 16 * r);
    HoldsAt(s1, src, b, 2 * m + 1);
    AbsorbBlock(tmp, xy, src + 16 * m + 8, dst + 8 * (r + m), Chain(b, 2 * m + 1), b[2 * m + 1]);
    ghost var s2 := xy[..];
    HoldsFrame(s1, s2, src, b, dst, dst + 16 * r);
    BlockMixAt(b, r, m);
    HalvesStep(s0, s1, s2, dst, BlockMix(b, r), r, m);
  }

  /** blockMix from xy[src..] into the disjoint xy[dst..]. */
  method BlockMixInto(tmp: array<bv64>, xy: array<bv64>, src: nat, dst: nat, r: nat, ghost b: seq<Block>)
    requires tmp.Length == 8 && tmp != xy && r >= 1 && |b| == 2 * r
    requires Holds(xy[..], src, b) && dst + 16 * r <= xy.Length
    requires src + 16 * r <= xy.Length && (src + 16 * r <= dst || dst + 16 * r <= src)
    modifies tmp, xy
    ensures Holds(xy[..], dst, BlockMix(b, r))
    ensures SameOutside(old(xy[..]), xy[..], dst, dst + 16 * r)
  {
    hide Unpack, Chain, BlockMix, HalvesHold, Holds, SameOutside, PackedAt;
    ghost var c, s0 := BlockMix(b, r), xy[..];
    ChainStart(s0, src, b);
    HalvesStart(s0, dst, c, r);
    SameOutsideRefl(s0, dst, dst + 16 * r);
    StorePacked(tmp, 0, PackedAt(xy[..], src + 8 * (2 * r - 1)));
    var i := 0;
    while i < 2 * r
      invariant 0 <= i <= 2 * r && i % 2 == 0
      invariant Holds(xy[..], src, b)
      invariant Unpack(PackedAt(tmp[..], 0)) == Chain(b, i)
      invariant HalvesHold(xy[..], dst, c, r, i / 2)
      invariant SameOutside(s0, xy[..], dst, dst + 16 * r)
    {
      ghost var s1 := xy[..];
      assert i == 2 * (i / 2);
      MixPair(tmp, xy, src, dst, r, i / 2, b);
      SameOutsideTrans(s0, s1, xy[..], dst, dst + 16 * r);
      i := i + 2;
    }
    HalvesDone(xy[..], dst, c, r);
  }

  /** dst[to..to + n] is a copy of src[from..from + n]. */
  ghost predicate Copied(dst: seq<bv64>, to: nat, src: seq<bv64>, from: nat, n: nat) {
    to + n <= |dst| && from + n <= |src| && forall q :: to <= q < to + n ==> dst[q] == src[from + (q - to)]
  }

  /** dst'[to..to + n] is dst[to..] with src[from..] exclusive-ored in. */
  ghost predicate Xored(dst: seq<bv64>, dst': seq<bv64>, to: nat, src: seq<bv64>, from: nat, n: nat) {
    && |dst'| == |dst| && to + n <= |dst| && from + n <= |src|
    && forall q :: to <= q < to + n ==> dst'[q] == Xor64(dst[q], src[from + (q - to)])
  }

  method BlockCopy(dst: array<bv64>, to: nat, src: array<bv64>, from: nat, n: nat)
    requires dst != src && to + n <= dst.Length && from + n <= src.Length
    modifies dst
    ensures Copied(dst[..], to, src[..], from, n)
    ensures SameOutside(old(dst[..]), dst[..], to, to + n)
  {
    forall k | 0 <= k < n {
      dst[to + k] := src[from + k];
    }
  }

  method BlockXor(dst: array<bv64>, to: nat, src: array<bv64>, from: nat, n: nat)
    requires dst != src && to + n <= dst.Length && from + n <= src.Length
    modifies dst
    ensures Xored(old(dst[..]), dst[..], to, src[..], from, n)
    ensures SameOutside(old(dst[..]), dst[..], to, to + n)
  {
    for i := 0 to n
      invariant forall k :: 0 <= k < dst.Length && !(to <= k < to + i) ==> dst[k] == old(dst[k])
      invariant forall q :: to <= q < to + i ==> dst[q] == Xor64(old(dst[q]), src[from + (q - to)])
    {
      dst[to + i] := Xor64(dst[to + i], src[from + i]);
    }
  }

  lemma HoldsCopied(dst: seq<bv64>, to: nat, src: seq<bv64>, from: nat, b: seq<Block>)
    requires Holds(src, from, b) && Copied(dst, to, src, from, 8 * |b|)
    ensures Holds(dst, to, b)
  {
    hide Unpack, PackedAt;
    forall k | 0 <= k < |b|
      ensures Unpack(PackedAt(dst, to + 8 * k)) == b[k]
    {
      HoldsAt(src, from, b, k);
      PackedCopied(dst, to, src, from, 8 * |b|, 8 * k);
    }
  }

  lemma PackedCopied(dst: seq<bv64>, to: nat, src: seq<bv64>, from: nat, n: nat, p: nat)
    requires Copied(dst, to, src, from, n) && p + 8 <= n
    ensures PackedAt(dst, to + p) == PackedAt(src, from + p)
  {}

  lemma PackedXored(dst: seq<bv64>, dst': seq<bv64>, to: nat, src: seq<bv64>, from: nat, n: nat, p: nat)
    requires Xored(dst, dst', to, src, from, n) && p + 8 <= n
    ensures PackedAt(dst', to + p) == XorPacked(PackedAt(dst, to + p), PackedAt(src, from + p))
  {}

  lemma HoldsXored(dst: seq<bv64>, dst': seq<bv64>, to: nat, src: seq<bv64>, from: nat,
                   b: seq<Block>, c: seq<Block>)
    requires |b| == |c| && Holds(dst, to, b) && Holds(src, from, c)
    requires Xored(dst, dst', to, src, from, 8 * |b|)
    ensures Holds(dst', to, XorBlocks(b, c))
  {
    hide Unpack, XorWords, XorPacked, PackedAt;
    var e := XorBlocks(b, c);
    forall k | 0 <= k < |e|
      ensures Unpack(PackedAt(dst', to + 8 * k)) == e[k]
    {
      HoldsAt(dst, to, b, k);
      HoldsAt(src, from, c, k);
      PackedXored(dst, dst', to, src, from, 8 * |b|, 8 * k);
      UnpackXor(PackedAt(dst, to + 8 * k), PackedAt(src, from + 8 * k));
    }
  }

  /** The block index that the code takes from X: the low word masked with the
      32-bit truncation of N - 1. */
  function Index(x: seq<Block>, n: nat): (j: nat)
    requires |x| >= 1 && n >= 1
    ensures j < n
  {
    BitAnd(x[|x| - 1].x0 as nat, (n - 1) % 0x1_0000_0000)
  }

  /** X after i steps of the code's second loop over an n-block memory. */
  function CodeMix(b: seq<Block>, r: nat, n: nat, i: nat): (x: seq<Block>)
    requires r >= 1 && |b| == 2 * r && n >= 1
    ensures |x| == |b|
  {
    if i == 0 then Fill(b, r, n)
    else
      var x := CodeMix(b, r, n, i - 1);
      BlockMix(XorBlocks(x, Fill(b, r, Index(x, n))), r)
  }

  /** Where block i of the memory starts. */
  function Offset(r: nat, i: nat): nat { 16 * r * i }

  /** The first m blocks of v are V[0], ..., V[m - 1]. */
  ghost predicate Filled(v: seq<bv64>, b: seq<Block>, r: nat, m: nat)
    requires r >= 1 && |b| == 2 * r
  {
    forall i: nat :: i < m ==> Holds(v, Offset(r, i), Fill(b, r, i))
  }

  lemma RegionsDisjoint(r: nat, i: nat, m: nat)
    requires i < m
    ensures Offset(r, i) + 16 * r <= Offset(r, m)
  {
    MulAtLeast(16 * r, m - i);
  }

  lemma FilledFrame(v: seq<bv64>, v': seq<bv64>, b: seq<Block>, r: nat, m: nat)
    requires r >= 1 && |b| == 2 * r && Filled(v, b, r, m)
    requires SameOutside(v, v', Offset(r, m), Offset(r, m) + 16 * r)
    requires Holds(v', Offset(r, m), Fill(b, r, m))
    ensures Filled(v', b, r, m + 1)
  {
    hide Holds, SameOutside, Fill, Offset;
    forall i: nat | i < m + 1
      ensures Holds(v', Offset(r, i), Fill(b, r, i))
    {
      if i < m {
        RegionsDisjoint(r, i, m);
        HoldsFrame(v, v', Offset(r, i), Fill(b, r, i), Offset(r, m), Offset(r, m) + 16 * r);
      }
    }
  }

  /** One step of the filling loop, from one half-buffer into the other. */
  method FillStep(tmp: array<bv64>, xy: array<bv64>, v: array<bv64>, src: nat, dst: nat, r: nat, i: nat,
                  ghost b: seq<Block>)
    requires tmp.Length == 8 && tmp != xy && tmp != v && xy != v && r >= 1 && |b| == 2 * r
    requires src + 16 * r <= xy.Length && dst + 16 * r <= xy.Length
    requires src + 16 * r <= dst || dst + 16 * r <= src
    requires Offset(r, i) + 16 * r <= v.Length
    requires Holds(xy[..], src, Fill(b, r, i)) && Filled(v[..], b, r, i)
    modifies tmp, xy, v
    ensures Holds(xy[..], dst, Fill(b, r, i + 1)) && Filled(v[..], b, r, i + 1)
  {
    hide Holds, Filled, SameOutside, Copied, BlockMix, Offset;
    ghost var v0 := v[..];
    BlockCopy(v, Offset(r, i), xy, src, 16 * r);
    HoldsCopied(v[..], Offset(r, i), xy[..], src, Fill(b, r, i));
    FilledFrame(v0, v[..], b, r, i);
    BlockMixInto(tmp, xy, src, dst, r, Fill(b, r, i));
  }

  /** One step of the mixing loop, from one half-buffer into the other. */
  method MixStep(tmp: array<bv64>, xy: array<bv64>, v: array<bv64>, src: nat, dst: nat, r: nat, n: nat, i: nat,
                 ghost b: seq<Block>)
    requires tmp.Length == 8 && tmp != xy && tmp != v && xy != v && r >= 1 && |b| == 2 * r && n >= 1
    requires src + 16 * r <= xy.Length && dst + 16 * r <= xy.Length
    requires src + 16 * r <= dst || dst + 16 * r <= src
    requires Offset(r, n) <= v.Length
    requires Holds(xy[..], src, CodeMix(b, r, n, i)) && Filled(v[..], b, r, n)
    modifies tmp, xy
    ensures Holds(xy[..], dst, CodeMix(b, r, n, i + 1))
  {
    hide Holds, SameOutside, Xored, BlockMix, XorBlocks, Fill, BitAnd, Offset;
    ghost var x, s := CodeMix(b, r, n, i), xy[..];
    var word := Integer(xy, src, r, x);
    var j := BitAnd(word, (n - 1) % 0x1_0000_0000);
    assert j == Index(x, n);
    RegionsDisjoint(r, j, n);
    BlockXor(xy, src, v, Offset(r, j), 16 * r);
    HoldsXored(s, xy[..], src, v[..], Offset(r, j), x, Fill(b, r, j));
    BlockMixInto(tmp, xy, src, dst, r, XorBlocks(x, Fill(b, r, j)));
  }

  /** The low 32-bit word of the last block, whichever half-buffer it is in. */
  method Integer(xy: array<bv64>, o: nat, r: nat, ghost x: seq<Block>) returns (w: nat)
    requires r >= 1 && |x| == 2 * r && Holds(xy[..], o, x)
    ensures w == x[2 * r - 1].x0 as nat
  {
    HoldsAt(xy[..], o, x, 2 * r - 1);
    w := Lo(xy[o + (2 * r - 1) * 8]) as nat;
  }

  /** Both loops of smix without a pwxform context. */
  method ScryptLoops(xy: array<bv64>, v: array<bv64>, r: nat, n: nat, nLoop: nat, ghost b: seq<Block>)
    requires xy != v && r >= 1 && |b| == 2 * r && n >= 2 && n % 2 == 0 && nLoop % 2 == 0
    requires 32 * r <= xy.Length && Offset(r, n) <= v.Length
    requires Holds(xy[..], 0, b)
    modifies xy, v
    ensures Holds(xy[..], 0, CodeMix(b, r, n, nLoop)) && Filled(v[..], b, r, n)
  {
    hide Holds, Filled, Index, BlockMix, Offset;
    var tmp := new bv64[8];
    FilledNone(v[..], b, r);
    var i := 0;
    while i < n
      invariant 0 <= i <= n && i % 2 == 0
      invariant Holds(xy[..], 0, Fill(b, r, i)) && Filled(v[..], b, r, i)
    {
      RegionsDisjoint(r, i, n);
      RegionsDisjoint(r, i + 1, n);
      FillStep(tmp, xy, v, 0, 16 * r, r, i, b);
      FillStep(tmp, xy, v, 16 * r, 0, r, i + 1, b);
      i := i + 2;
    }
    i := 0;
    while i < nLoop
      invariant 0 <= i <= nLoop && i % 2 == 0
      invariant Holds(xy[..], 0, CodeMix(b, r, n, i)) && Filled(v[..], b, r, n)
    {
      MixStep(tmp, xy, v, 0, 16 * r, r, n, i, b);
      MixStep(tmp, xy, v, 16 * r, 0, r, n, i + 1, b);
      i := i + 2;
    }
  }

  lemma FilledNone(v: seq<bv64>, b: seq<Block>, r: nat)
    requires r >= 1 && |b| == 2 * r
    ensures Filled(v, b, r, 0)
  {}
}
