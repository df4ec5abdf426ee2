/** The yescrypt path of smix in pkg/yescrypt/yescrypt.go: blockMixPwxform and
    the two loops that read and rewrite the memory v, in place on arrays,
    against functions on lists of blocks and separate S-boxes. */
module Yescrypt {
  import opened Bits
  import opened Words
  import opened ScryptSpec
  import opened Smix
  import opened ScryptSmix
  import opened Pwxform

  /** p2floor, by repeatedly clearing the lowest set bit. */
  method P2Floor(x0: nat) returns (x: nat)
    requires x0 < 0x1_0000_0000
    ensures x == Floor2(x0)
  {
    x := x0;
    while x != 0 && BitAnd(x, x - 1) != 0
      invariant 0 <= x <= x0 && Floor2(x) == Floor2(x0)
    {
      ClearLowest(x);
      x := BitAnd(x, x - 1);
    }
    if x != 0 {
      ClearLowest(x);
    }
  }

  /** One of the n numbers before u, n being the largest power of two up to u. */
  function Recent(x: nat, u: nat): (j: nat)
    requires u >= 1
    ensures u - Floor2(u) <= j < u
  {
    x % Floor2(u) + (u - Floor2(u))
  }

  /** The block that step i of the filling loop reads: always one below i. */
  function WrapIndex(x: nat, i: nat): (j: nat)
    requires i >= 1 && x < 0x1_0000_0000
    ensures j < i
  {
    var u := i % 0x1_0000_0000;
    if u == 0 then x else Recent(x, u)
  }

  /** wrap(x, uint32(i)). */
  method Wrap(x: nat, i: nat) returns (j: nat)
    requires i >= 1 && x < 0x1_0000_0000
    ensures j == WrapIndex(x, i)
  {
    hide BitAnd, Floor2;
    var u := i % 0x1_0000_0000;
    var n := P2Floor(u);
    if u == 0 {
      FullMask(x);
      j := BitAnd(x, 0xFFFF_FFFF);
    } else {
      MaskFloor2(x, u);
      j := BitAnd(x, n - 1) + (u - n);
    }
  }

  lemma FullMask(x: nat)
    requires x < 0x1_0000_0000
    ensures BitAnd(x, 0xFFFF_FFFF) == x
  {
    hide BitAnd, Pow2;
    BitAndMask(x, 32);
    Pow2Of32();
  }

  function ToSeq(p: Packed): (x: seq<bv64>)
    ensures |x| == 8
  {
    [p.d0, p.d1, p.d2, p.d3, p.d4, p.d5, p.d6, p.d7]
  }

  function PwxPacked(p: Packed, box: Boxes): (out: (Packed, Boxes))
    requires box.Valid()
    ensures out.1.Valid()
  {
    var (x, box') := Pwx(ToSeq(p), box);
    (PackedAt(x, 0), box')
  }

  datatype Chaining = Chaining(x: seq<Packed>, t: Packed, box: Boxes)

  /** Step i of blockMixPwxform. */
  function ChainStep(c: Chaining, i: nat): (c': Chaining)
    requires c.box.Valid() && i < |c.x|
    ensures c'.box.Valid() && |c'.x| == |c.x|
  {
    var (t, box) := PwxPacked(XorPacked(c.t, c.x[i]), c.box);
    Chaining(c.x[i := t], t, box)
  }

  function ChainSteps(x: seq<Packed>, box: Boxes, i: nat): (c: Chaining)
    requires box.Valid() && |x| >= 1 && i <= |x|
    ensures c.box.Valid() && |c.x| == |x|
  {
    if i == 0 then Chaining(x, x[|x| - 1], box) else ChainStep(ChainSteps(x, box, i - 1), i - 1)
  }

  function BlockMixPwx(x: seq<Packed>, box: Boxes): (out: (seq<Packed>, Boxes))
    requires box.Valid() && |x| >= 1
    ensures |out.0| == |x| && out.1.Valid()
  {
    var c := ChainSteps(x, box, |x|);
    (c.x[|x| - 1 := SalsaPacked(c.x[|x| - 1], 1)], c.box)
  }

  function XorLists(a: seq<Packed>, b: seq<Packed>): (c: seq<Packed>)
    requires |a| == |b|
    ensures |c| == |a|
  {
    seq(|a|, k requires 0 <= k < |a| => XorPacked(a[k], b[k]))
  }

  function LowWord(x: seq<Packed>): (w: nat)
    requires |x| >= 1
    ensures w < 0x1_0000_0000
  {
    Lo(x[|x| - 1].d0) as nat
  }

  /** The state of smix: the working blocks, the S-boxes, the memory so far. */
  datatype Memory = Memory(x: seq<Packed>, box: Boxes, v: seq<seq<Packed>>) {
    ghost predicate Valid(r: nat) {
      r >= 1 && |x| == 2 * r && box.Valid() && forall j :: 0 <= j < |v| ==> |v[j]| == 2 * r
    }
  }

  /** The working blocks with an earlier block of the memory absorbed. */
  function WithRecent(m: Memory, r: nat): (x: seq<Packed>)
    requires m.Valid(r)
    ensures |x| == 2 * r
  {
    var i := |m.v|;
    if i > 1 then XorLists(m.x, m.v[WrapIndex(LowWord(m.x), i)]) else m.x
  }

  /** Step i of the filling loop, i being the number of blocks written so far:
      it can only read one of those. */
  function FillOne(m: Memory, r: nat): (m': Memory)
    requires m.Valid(r)
    ensures m'.Valid(r) && |m'.v| == |m.v| + 1
  {
    var (x', box') := BlockMixPwx(WithRecent(m, r), m.box);
    Memory(x', box', m.v + [m.x])
  }

  function FillMany(m: Memory, r: nat, n: nat): (m': Memory)
    requires m.Valid(r)
    ensures m'.Valid(r) && |m'.v| == |m.v| + n
  {
    if n == 0 then m else FillOne(FillMany(m, r, n - 1), r)
  }

  /** One step of the mixing loop, which also rewrites the block it read. */
  function MixOne(m: Memory, r: nat): (m': Memory)
    requires m.Valid(r) && |m.v| >= 1
    ensures m'.Valid(r) && |m'.v| == |m.v|
  {
    var j := BitAnd(LowWord(m.x), (|m.v| - 1) % 0x1_0000_0000);
    var x := XorLists(m.x, m.v[j]);
    var (x', box') := BlockMixPwx(x, m.box);
    Memory(x', box', m.v[j := x])
  }

  function MixMany(m: Memory, r: nat, n: nat): (m': Memory)
    requires m.Valid(r) && |m.v| >= 1
    ensures m'.Valid(r) && |m'.v| == |m.v|
  {
    if n == 0 then m else MixOne(MixMany(m, r, n - 1), r)
  }

  /** The words of s from offset o on are the packed blocks x. */
  ghost predicate HoldsPacked(s: seq<bv64>, o: nat, x: seq<Packed>) {
    && o + 8 * |x| <= |s|
    && forall k {:trigger x[k]} :: 0 <= k < |x| ==> PackedAt(s, o + 8 * k) == x[k]
  }

  lemma HoldsPackedFrame(s: seq<bv64>, s': seq<bv64>, o: nat, x: seq<Packed>, lo: nat, hi: nat)
    requires HoldsPacked(s, o, x) && SameOutside(s, s', lo, hi)
    requires o + 8 * |x| <= lo || hi <= o
    ensures HoldsPacked(s', o, x)
  {
    forall k | 0 <= k < |x|
      ensures PackedAt(s', o + 8 * k) == x[k]
    {
      assert PackedAt(s', o + 8 * k) == PackedAt(s, o + 8 * k);
    }
  }

  lemma HoldsPackedPut(s: seq<bv64>, s': seq<bv64>, o: nat, x: seq<Packed>, i: nat, d: Packed)
    requires HoldsPacked(s, o, x) && i < |x| && SameOutside(s, s', o + 8 * i, o + 8 * i + 8)
    requires PackedAt(s', o + 8 * i) == d
    ensures HoldsPacked(s', o, x[i := d])
  {
    var y := x[i := d];
    forall k | 0 <= k < |y|
      ensures PackedAt(s', o + 8 * k) == y[k]
    {
      if k != i {
        assert PackedAt(s', o + 8 * k) == PackedAt(s, o + 8 * k);
        assert x[k] == y[k];
      }
    }
  }

  lemma HoldsPackedCopied(dst: seq<bv64>, to: nat, src: seq<bv64>, from: nat, x: seq<Packed>)
    requires HoldsPacked(src, from, x) && Copied(dst, to, src, from, 8 * |x|)
    ensures HoldsPacked(dst, to, x)
  {
    forall k | 0 <= k < |x|
      ensures PackedAt(dst, to + 8 * k) == x[k]
    {
      PackedCopied(dst, to, src, from, 8 * |x|, 8 * k);
    }
  }

  lemma HoldsPackedXored(dst: seq<bv64>, dst': seq<bv64>, to: nat, src: seq<bv64>, from: nat,
                         x: seq<Packed>, y: seq<Packed>)
    requires |x| == |y| && HoldsPacked(dst, to, x) && HoldsPacked(src, from, y)
    requires Xored(dst, dst', to, src, from, 8 * |x|)
    ensures HoldsPacked(dst', to, XorLists(x, y))
  {
    hide XorPacked, PackedAt;
    var z := XorLists(x, y);
    forall k | 0 <= k < |z|
      ensures PackedAt(dst', to + 8 * k) == z[k]
    {
      PackedXored(dst, dst', to, src, from, 8 * |x|, 8 * k);
      assert x[k] == PackedAt(dst, to + 8 * k) && y[k] == PackedAt(src, from + 8 * k);
    }
  }

  /** ctx and its array hold these S-boxes. */
  ghost predicate HoldsBoxes(ctx: PwxformCtx, box: Boxes)
    reads ctx, ctx.S
  {
    box.Valid() && Windows(ctx, box.s0, box.s1, box.s2) && ctx.w == box.w
  }

  method PwxformTmp(tmp: array<bv64>, ctx: PwxformCtx, ghost p: Packed, ghost box: Boxes)
    requires tmp.Length == 8 && tmp != ctx.S && PackedAt(tmp[..], 0) == p && box.Valid() && HoldsBoxes(ctx, box)
    modifies tmp, ctx, ctx.S
    ensures var (p', box') := PwxPacked(p, box);
            PackedAt(tmp[..], 0) == p' && HoldsBoxes(ctx, box')
  {
    hide Pwx;
    assert tmp[..] == ToSeq(p);
    PwxformInPlace(tmp, ctx, ToSeq(p), box);
  }

  lemma XorZero(d: Packed)
    ensures XorPacked(Packed(0, 0, 0, 0, 0, 0, 0, 0), d) == d
  {}

  method ChainStepInPlace(tmp: array<bv64>, xy: array<bv64>, ctx: PwxformCtx, i: nat, ghost c: Chaining)
    requires tmp.Length == 8 && tmp != ctx.S && tmp != xy && xy != ctx.S
    requires c.box.Valid() && HoldsBoxes(ctx, c.box) && i < |c.x| && HoldsPacked(xy[..], 0, c.x) && PackedAt(tmp[..], 0) == c.t
    modifies tmp, xy, ctx, ctx.S
    ensures var c' := ChainStep(c, i);
            HoldsBoxes(ctx, c'.box) && HoldsPacked(xy[..], 0, c'.x) && PackedAt(tmp[..], 0) == c'.t
  {
    hide HoldsBoxes, PwxPacked, XorPacked, PackedAt, SameOutside;
    ghost var s := xy[..];
    assert c.x[i] == PackedAt(xy[..], 8 * i);
    BlockXor(tmp, 0, xy, 8 * i, 8);
    PackedXored(old(tmp[..]), tmp[..], 0, xy[..], 8 * i, 8, 0);
    PwxformTmp(tmp, ctx, XorPacked(c.t, c.x[i]), c.box);
    BlockCopy(xy, 8 * i, tmp, 0, 8);
    PackedCopied(xy[..], 8 * i, tmp[..], 0, 8, 0);
    HoldsPackedPut(s, xy[..], 0, c.x, i, PackedAt(tmp[..], 0));
  }

  method BlockMixPwxInPlace(tmp: array<bv64>, xy: array<bv64>, ctx: PwxformCtx, r: nat,
                            ghost x: seq<Packed>, ghost box: Boxes)
    requires tmp.Length == 8 && tmp != ctx.S && tmp != xy && xy != ctx.S && r >= 1 && |x| == 2 * r
    requires box.Valid() && HoldsBoxes(ctx, box) && HoldsPacked(xy[..], 0, x)
    modifies tmp, xy, ctx, ctx.S
    ensures var (x', box') := BlockMixPwx(x, box);
            HoldsPacked(xy[..], 0, x') && HoldsBoxes(ctx, box')
  {
    hide HoldsBoxes, ChainStep, SalsaPacked, XorPacked, SameOutside, PackedAt;
    var last := 8 * (2 * r - 1);
    assert x[2 * r - 1] == PackedAt(xy[..], last);
    BlockCopy(tmp, 0, xy, last, 8);
    PackedCopied(tmp[..], 0, xy[..], last, 8, 0);
    for i := 0 to 2 * r
      invariant var c := ChainSteps(x, box, i);
                HoldsBoxes(ctx, c.box) && HoldsPacked(xy[..], 0, c.x) && PackedAt(tmp[..], 0) == c.t
    {
      ChainStepInPlace(tmp, xy, ctx, i, ChainSteps(x, box, i));
    }
    ghost var c, s := ChainSteps(x, box, 2 * r), xy[..];
    assert c.x[2 * r - 1] == PackedAt(s, last);
    StorePacked(tmp, 0, Packed(0, 0, 0, 0, 0, 0, 0, 0));
    XorZero(c.x[2 * r - 1]);
    SalsaXor(tmp, xy, last, last, 2);
    HoldsPackedPut(s, xy[..], 0, c.x, 2 * r - 1, SalsaPacked(c.x[2 * r - 1], 1));
  }

  /** The array v holds the blocks of memory w, each 2r packed blocks long. */
  ghost predicate HoldsMemory(v: seq<bv64>, r: nat, w: seq<seq<Packed>>) {
    forall j: nat :: j < |w| ==> |w[j]| == 2 * r && HoldsPacked(v, Offset(r, j), w[j])
  }

  lemma MemoryPut(v: seq<bv64>, v': seq<bv64>, r: nat, w: seq<seq<Packed>>, w': seq<seq<Packed>>, j: nat)
    requires HoldsMemory(v, r, w) && j < |w'| <= |w| + 1 && |w'| >= |w|
    requires forall i: nat :: i < |w'| && i != j ==> i < |w| && w'[i] == w[i]
    requires |w'[j]| == 2 * r && HoldsPacked(v', Offset(r, j), w'[j])
    requires SameOutside(v, v', Offset(r, j), Offset(r, j) + 16 * r)
    ensures HoldsMemory(v', r, w')
  {
    hide HoldsPacked, SameOutside, Offset;
    forall i: nat | i < |w'|
      ensures |w'[i]| == 2 * r && HoldsPacked(v', Offset(r, i), w'[i])
    {
      assert i != j ==> i < |w| && w'[i] == w[i];
      if i < j {
        RegionsDisjoint(r, i, j);
        HoldsPackedFrame(v, v', Offset(r, i), w[i], Offset(r, j), Offset(r, j) + 16 * r);
      } else if j < i {
        RegionsDisjoint(r, j, i);
        HoldsPackedFrame(v, v', Offset(r, i), w[i], Offset(r, j), Offset(r, j) + 16 * r);
      }
    }
  }

  /** The arrays of smix hold the state m. */
  ghost predicate Holding(xy: array<bv64>, v: array<bv64>, ctx: PwxformCtx, r: nat, m: Memory)
    reads xy, v, ctx, ctx.S
  {
    && m.Valid(r) && HoldsPacked(xy[..], 0, m.x) && HoldsBoxes(ctx, m.box) && HoldsMemory(v[..], r, m.v)
  }

  ghost predicate Distinct(tmp: array<bv64>, xy: array<bv64>, v: array<bv64>, ctx: PwxformCtx) {
    tmp.Length == 8 && tmp != xy && tmp != v && tmp != ctx.S && xy != v && xy != ctx.S && v != ctx.S
  }

  method LowWordOf(xy: array<bv64>, r: nat, ghost x: seq<Packed>) returns (w: nat)
    requires r >= 1 && |x| == 2 * r && HoldsPacked(xy[..], 0, x)
    ensures w == LowWord(x)
  {
    assert x[2 * r - 1] == PackedAt(xy[..], 8 * (2 * r - 1));
    w := Lo(xy[(2 * r - 1) * 8]) as nat;
  }

  /** xy := xy ^ v[j] for one block of memory. */
  method AbsorbMemory(xy: array<bv64>, v: array<bv64>, r: nat, j: nat, ghost x: seq<Packed>, ghost w: seq<seq<Packed>>)
    requires xy != v && r >= 1 && |x| == 2 * r && HoldsPacked(xy[..], 0, x)
    requires HoldsMemory(v[..], r, w) && j < |w|
    modifies xy
    ensures |w[j]| == 2 * r && HoldsPacked(xy[..], 0, XorLists(x, w[j]))
  {
    hide HoldsPacked, XorLists, Xored, SameOutside, Offset;
    ghost var s := xy[..];
    assert HoldsPacked(v[..], Offset(r, j), w[j]);
    HoldsPackedFits(v[..], Offset(r, j), w[j]);
    HoldsPackedFits(xy[..], 0, x);
    BlockXor(xy, 0, v, Offset(r, j), 16 * r);
    HoldsPackedXored(s, xy[..], 0, v[..], Offset(r, j), x, w[j]);
  }

  lemma HoldsPackedFits(s: seq<bv64>, o: nat, x: seq<Packed>)
    requires HoldsPacked(s, o, x)
    ensures o + 8 * |x| <= |s|
  {}

  /** v[j] := xy for one block of memory. */
  method SaveMemory(xy: array<bv64>, v: array<bv64>, r: nat, j: nat,
                    ghost x: seq<Packed>, ghost w: seq<seq<Packed>>, ghost w': seq<seq<Packed>>)
    requires xy != v && r >= 1 && |x| == 2 * r && HoldsPacked(xy[..], 0, x)
    requires HoldsMemory(v[..], r, w) && Offset(r, j) + 16 * r <= v.Length
    requires w' == (if j == |w| then w + [x] else if j < |w| then w[j := x] else []) && j <= |w|
    modifies v
    ensures HoldsMemory(v[..], r, w')
  {
    hide HoldsPacked, HoldsMemory, Copied, SameOutside, Offset;
    ghost var s := v[..];
    HoldsPackedFits(xy[..], 0, x);
    BlockCopy(v, Offset(r, j), xy, 0, 16 * r);
    HoldsPackedCopied(v[..], Offset(r, j), xy[..], 0, x);
    MemoryPut(s, v[..], r, w, w', j);
  }

  method FillOneInPlace(tmp: array<bv64>, xy: array<bv64>, v: array<bv64>, ctx: PwxformCtx, r: nat, i: nat,
                        ghost m: Memory)
    requires Distinct(tmp, xy, v, ctx) && m.Valid(r) && Holding(xy, v, ctx, r, m) && i == |m.v|
    requires Offset(r, i) + 16 * r <= v.Length
    modifies tmp, xy, v, ctx, ctx.S
    ensures Holding(xy, v, ctx, r, FillOne(m, r))
  {
    hide HoldsPacked, HoldsMemory, HoldsBoxes, LowWord, XorLists, BlockMixPwx, WrapIndex, Offset;
    SaveMemory(xy, v, r, i, m.x, m.v, m.v + [m.x]);
    ghost var x := m.x;
    if i > 1 {
      var w := LowWordOf(xy, r, m.x);
      var j := Wrap(w, i);
      AbsorbMemory(xy, v, r, j, m.x, m.v + [m.x]);
      x := XorLists(m.x, m.v[j]);
    }
    BlockMixPwxInPlace(tmp, xy, ctx, r, x, m.box);
  }

  method MixOneInPlace(tmp: array<bv64>, xy: array<bv64>, v: array<bv64>, ctx: PwxformCtx, r: nat, n: nat,
                       ghost m: Memory)
    requires Distinct(tmp, xy, v, ctx) && m.Valid(r) && Holding(xy, v, ctx, r, m) && n == |m.v| >= 1
    requires Offset(r, n) <= v.Length
    modifies tmp, xy, v, ctx, ctx.S
    ensures Holding(xy, v, ctx, r, MixOne(m, r))
  {
    hide HoldsPacked, HoldsMemory, HoldsBoxes, LowWord, XorLists, BlockMixPwx, BitAnd, Offset;
    var w := LowWordOf(xy, r, m.x);
    var j := BitAnd(w, (n - 1) % 0x1_0000_0000);
    AbsorbMemory(xy, v, r, j, m.x, m.v);
    ghost var x := XorLists(m.x, m.v[j]);
    RegionsDisjoint(r, j, n);
    SaveMemory(xy, v, r, j, x, m.v, m.v[j := x]);
    BlockMixPwxInPlace(tmp, xy, ctx, r, x, m.box);
  }

  /** Both loops of smix with a pwxform context. */
  method PwxLoops(xy: array<bv64>, v: array<bv64>, ctx: PwxformCtx, r: nat, n: nat, nLoop: nat,
                  ghost x: seq<Packed>, ghost box: Boxes)
    requires xy != v && xy != ctx.S && v != ctx.S && n >= 1
    requires Offset(r, n) <= v.Length
    requires Memory(x, box, []).Valid(r) && HoldsPacked(xy[..], 0, x) && HoldsBoxes(ctx, box)
    modifies xy, v, ctx, ctx.S
    ensures Holding(xy, v, ctx, r, MixMany(FillMany(Memory(x, box, []), r, n), r, nLoop))
  {
    hide HoldsPacked, HoldsBoxes, FillOne, MixOne, Offset;
    var tmp := new bv64[8];
    ghost var m := Memory(x, box, []);
    for i := 0 to n
      invariant Holding(xy, v, ctx, r, FillMany(m, r, i))
    {
      RegionsDisjoint(r, i, n);
      FillOneInPlace(tmp, xy, v, ctx, r, i, FillMany(m, r, i));
    }
    ghost var f := FillMany(m, r, n);
    for i := 0 to nLoop
      invariant Holding(xy, v, ctx, r, MixMany(f, r, i))
    {
      MixOneInPlace(tmp, xy, v, ctx, r, n, MixMany(f, r, i));
    }
  }

  /** The packed form of a block. */
  function PackBlock(b: Block): Packed {
    Packed(Pack(b.x0, b.x5), Pack(b.x10, b.x15), Pack(b.x4, b.x9), Pack(b.x14, b.x3),
           Pack(b.x8, b.x13), Pack(b.x2, b.x7), Pack(b.x12, b.x1), Pack(b.x6, b.x11))
  }

  lemma PackUnpack(d: Packed)
    ensures PackBlock(Unpack(d)) == d
  {
    hide Lo, Hi, Pack;
    HalvesPack(d.d0);
    HalvesPack(d.d1);
    HalvesPack(d.d2);
    HalvesPack(d.d3);
    HalvesPack(d.d4);
    HalvesPack(d.d5);
    HalvesPack(d.d6);
    HalvesPack(d.d7);
  }

  function PackAll(b: seq<Block>): (x: seq<Packed>)
    ensures |x| == |b|
  {
    seq(|b|, k requires 0 <= k < |b| => PackBlock(b[k]))
  }

  function UnpackAll(x: seq<Packed>): (b: seq<Block>)
    ensures |b| == |x|
  {
    seq(|x|, k requires 0 <= k < |x| => Unpack(x[k]))
  }

  lemma HoldsToPacked(s: seq<bv64>, o: nat, b: seq<Block>)
    requires Holds(s, o, b)
    ensures HoldsPacked(s, o, PackAll(b))
  {
    hide Unpack, PackBlock, PackedAt;
    var x := PackAll(b);
    forall k | 0 <= k < |x|
      ensures PackedAt(s, o + 8 * k) == x[k]
    {
      assert b[k] == Unpack(PackedAt(s, o + 8 * k));
      PackUnpack(PackedAt(s, o + 8 * k));
    }
  }

  lemma PackedToHolds(s: seq<bv64>, o: nat, x: seq<Packed>)
    requires HoldsPacked(s, o, x)
    ensures Holds(s, o, UnpackAll(x))
  {
    hide Unpack, PackedAt;
    var b := UnpackAll(x);
    forall k | 0 <= k < |b|
      ensures Unpack(PackedAt(s, o + 8 * k)) == b[k]
    {
      assert x[k] == PackedAt(s, o + 8 * k);
    }
  }

  /** smix with S-boxes, on blocks. */
  function SmixBlocks(b: seq<Block>, box: Boxes, r: nat, n: nat, nLoop: nat): (b': seq<Block>)
    requires r >= 1 && |b| == 2 * r && box.Valid() && n >= 1
    ensures |b'| == |b|
  {
    UnpackAll(MixMany(FillMany(Memory(PackAll(b), box, []), r, n), r, nLoop).x)
  }

  /** smix with a context, from bytes to bytes. */
  method SmixPwx(b: array<bv8>, r: nat, n: nat, nLoop: nat, v: array<bv64>, xy: array<bv64>, ctx: PwxformCtx,
                 ghost box: Boxes)
    requires xy != v && xy != ctx.S && v != ctx.S && r >= 1 && n >= 1
    requires 128 * r <= b.Length && 16 * r <= xy.Length && Offset(r, n) <= v.Length
    requires box.Valid() && HoldsBoxes(ctx, box)
    modifies b, xy, v, ctx, ctx.S
    ensures BlocksAt(b[..], 0, 2 * r) == SmixBlocks(old(BlocksAt(b[..], 0, 2 * r)), box, r, n, nLoop)
    ensures SameBytes(old(b[..]), b[..], 0, 128 * r)
  {
    hide Holds, HoldsPacked, HoldsBoxes, HoldsMemory, BlockAt, SameBytes, FillMany, MixMany, UnpackAll, PackAll;
    ghost var c := BlocksAt(b[..], 0, 2 * r);
    Load(b, 0, r, xy);
    HoldsToPacked(xy[..], 0, c);
    PwxLoops(xy, v, ctx, r, n, nLoop, PackAll(c), box);
    ghost var m := MixMany(FillMany(Memory(PackAll(c), box, []), r, n), r, nLoop);
    PackedToHolds(xy[..], 0, m.x);
    Store(xy, b, 0, r, UnpackAll(m.x));
  }

  /** The S-boxes and first bytes that the call with r = 1 and 96 blocks leaves. */
  ghost predicate Seeded(b0: seq<bv8>, s: seq<bv64>, b1: seq<bv8>) {
    && |b0| == |b1| && 128 <= |b0| && |s| == 3 * WINDOW
    && Filled(s, BlocksAt(b0, 0, 2), 1, 96)
    && BlocksAt(b1, 0, 2) == Fill(BlocksAt(b0, 0, 2), 1, 96)
    && SameBytes(b0, b1, 0, 128)
  }

  function BoxesOf(s: seq<bv64>): (box: Boxes)
    requires |s| == 3 * WINDOW
    ensures box.Valid()
  {
    Boxes(s[2 * WINDOW..], s[WINDOW..2 * WINDOW], s[..WINDOW], 0)
  }

  method NewCtx(S: array<bv64>) returns (ctx: PwxformCtx)
    requires S.Length == 3 * WINDOW
    ensures fresh(ctx) && ctx.S == S && HoldsBoxes(ctx, BoxesOf(S[..]))
  {
    ctx := new PwxformCtx(S);
  }

  /** ((N + 2) / 3 + 1) & ^1 */
  function LoopCount(n: nat): nat { ((n + 2) / 3 + 1) / 2 * 2 }

  /** A keyed hash of 32 bytes: key and message to digest. */
  type Mac = (seq<bv8>, seq<bv8>) -> seq<bv8>

  /** What smixYescrypt makes of the bytes b0 and the running password hash pw:
      seed the S-boxes, rehash pw with the last block, then mix on them. */
  ghost predicate Mixed(mac: Mac, b0: seq<bv8>, pw: seq<bv8>, r: nat, n: nat, b2: seq<bv8>, pw2: seq<bv8>)
    requires r >= 1 && n >= 1 && |b0| == 128 * r
  {
    exists s, b1 ::
      && Seeded(b0, s, b1) && pw2 == mac(b1[64 * (2 * r - 1)..], pw) && |b2| == |b0|
      && BlocksAt(b2, 0, 2 * r) == SmixBlocks(BlocksAt(b1, 0, 2 * r), BoxesOf(s), r, n, LoopCount(n))
  }

  /** smixYescrypt with the buffer sizes that deriveKey allocates: every access
      is in bounds, and the result is smix on separate S-boxes. */
  method SmixYescrypt(mac: Mac, b: array<bv8>, r: nat, n: nat, v: array<bv64>, xy: array<bv64>, pw: seq<bv8>)
    returns (pw2: seq<bv8>)
    requires xy != v && r >= 1 && n >= 1 && b.Length == 128 * r
    requires Offset(r, n) <= v.Length && xy.Length == 16 * (if r < 2 then 2 else r)
    modifies b, xy, v
    ensures Mixed(mac, old(b[..]), pw, r, n, b[..], pw2)
  {
    hide Filled, BlockAt, SameBytes, SmixBlocks, HoldsBoxes, BoxesOf, LoopCount, Offset;
    var S := new bv64[3 * WINDOW];
    SeedFits();
    SmixPlain(b, 0, 1, 96, 0, S, xy);
    ghost var s, b1 := S[..], b[..];
    assert Seeded(old(b[..]), s, b1);
    var ctx := NewCtx(S);
    pw2 := mac(b[64 * (2 * r - 1)..], pw);
    OffsetIs(r, n);
    SmixPwx(b, r, n, LoopCount(n), v, xy, ctx, BoxesOf(s));
  }

  lemma SeedFits()
    ensures Offset(1, 96) == 3 * WINDOW
  {}

  lemma OffsetIs(r: nat, n: nat)
    ensures Offset(r, n) == 16 * r * n
  {}
}
