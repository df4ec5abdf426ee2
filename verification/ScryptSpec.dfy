/** scrypt as RFC 7914 defines it: the Salsa20 core (section 3), scryptBlockMix
    (section 4) and scryptROMix (section 5), on strings of 64-octet blocks read
    as sixteen little-endian words. */
module ScryptSpec {
  import opened Words

  /** Sixteen words of a 64-octet block. */
  datatype Block = Block(
    x0: bv32, x1: bv32, x2: bv32, x3: bv32, x4: bv32, x5: bv32, x6: bv32, x7: bv32,
    x8: bv32, x9: bv32, x10: bv32, x11: bv32, x12: bv32, x13: bv32, x14: bv32, x15: bv32)
  {
    function Words(): (ws: seq<bv32>)
      ensures |ws| == 16
    {
      [x0, x1, x2, x3, x4, x5, x6, x7, x8, x9, x10, x11, x12, x13, x14, x15]
    }
  }

  function RotateLeft(w: bv32, k: bv6): bv32
    requires k <= 32
  {
    (w << k) | (w >> (32 - k))
  }

  function ArxStep(x: bv32, y: bv32, z: bv32, k: bv6): bv32
    requires k <= 32
  {
    x ^ RotateLeft(y + z, k)
  }

  function Quarter(a: bv32, b: bv32, c: bv32, d: bv32): (bv32, bv32, bv32, bv32) {
    var b' := ArxStep(b, a, d, 7);
    var c' := ArxStep(c, b', a, 9);
    var d' := ArxStep(d, c', b', 13);
    var a' := ArxStep(a, d', c', 18);
    (a', b', c', d')
  }

  /** A column round followed by a row round of the four-by-four word matrix. */
  function DoubleRound(x: Block): Block {
    var (c0, c4, c8, c12) := Quarter(x.x0, x.x4, x.x8, x.x12);
    var (c5, c9, c13, c1) := Quarter(x.x5, x.x9, x.x13, x.x1);
    var (c10, c14, c2, c6) := Quarter(x.x10, x.x14, x.x2, x.x6);
    var (c15, c3, c7, c11) := Quarter(x.x15, x.x3, x.x7, x.x11);
    var (r0, r1, r2, r3) := Quarter(c0, c1, c2, c3);
    var (r5, r6, r7, r4) := Quarter(c5, c6, c7, c4);
    var (r10, r11, r8, r9) := Quarter(c10, c11, c8, c9);
    var (r15, r12, r13, r14) := Quarter(c15, c12, c13, c14);
    Block(r0, r1, r2, r3, r4, r5, r6, r7, r8, r9, r10, r11, r12, r13, r14, r15)
  }

  function Rounds(x: Block, n: nat): Block {
    if n == 0 then x else DoubleRound(Rounds(x, n - 1))
  }

  function AddWords(x: Block, z: Block): Block {
    Block(Add32(x.x0, z.x0), Add32(x.x1, z.x1), Add32(x.x2, z.x2), Add32(x.x3, z.x3),
          Add32(x.x4, z.x4), Add32(x.x5, z.x5), Add32(x.x6, z.x6), Add32(x.x7, z.x7),
          Add32(x.x8, z.x8), Add32(x.x9, z.x9), Add32(x.x10, z.x10), Add32(x.x11, z.x11),
          Add32(x.x12, z.x12), Add32(x.x13, z.x13), Add32(x.x14, z.x14), Add32(x.x15, z.x15))
  }

  function XorWords(x: Block, z: Block): Block {
    Block(Xor32(x.x0, z.x0), Xor32(x.x1, z.x1), Xor32(x.x2, z.x2), Xor32(x.x3, z.x3),
          Xor32(x.x4, z.x4), Xor32(x.x5, z.x5), Xor32(x.x6, z.x6), Xor32(x.x7, z.x7),
          Xor32(x.x8, z.x8), Xor32(x.x9, z.x9), Xor32(x.x10, z.x10), Xor32(x.x11, z.x11),
          Xor32(x.x12, z.x12), Xor32(x.x13, z.x13), Xor32(x.x14, z.x14), Xor32(x.x15, z.x15))
  }

  /** The Salsa20 core with n double rounds. */
  function Salsa(x: Block, n: nat): Block { AddWords(x, Rounds(x, n)) }

  /** The running value X of scryptBlockMix before block i is absorbed. */
  function Chain(b: seq<Block>, i: nat): Block
    requires i <= |b| && |b| >= 1
  {
    if i == 0 then b[|b| - 1] else Salsa(XorWords(Chain(b, i - 1), b[i - 1]), 4)
  }

  /** Which Y lands in output block k: the even ones first, then the odd ones. */
  function Source(r: nat, k: nat): nat
    requires k < 2 * r
  {
    if k < r then 2 * k else 2 * (k - r) + 1
  }

  function BlockMix(b: seq<Block>, r: nat): (b': seq<Block>)
    requires r >= 1 && |b| == 2 * r
    ensures |b'| == |b|
  {
    seq(2 * r, k requires 0 <= k < 2 * r => Chain(b, Source(r, k) + 1))
  }

  function XorBlocks(a: seq<Block>, b: seq<Block>): (c: seq<Block>)
    requires |a| == |b|
    ensures |c| == |a|
  {
    seq(|a|, k requires 0 <= k < |a| => XorWords(a[k], b[k]))
  }

  function LittleEndian(ws: seq<bv32>): nat {
    if ws == [] then 0 else ws[0] as nat + 0x1_0000_0000 * LittleEndian(ws[1..])
  }

  /** The last block as one little-endian integer. */
  function Integerify(b: seq<Block>): nat
    requires |b| >= 1
  {
    LittleEndian(b[|b| - 1].Words())
  }

  /** V[i] of scryptROMix, which is also X after i steps of its first loop. */
  function Fill(b: seq<Block>, r: nat, i: nat): (x: seq<Block>)
    requires r >= 1 && |b| == 2 * r
    ensures |x| == |b|
  {
    if i == 0 then b else BlockMix(Fill(b, r, i - 1), r)
  }

  /** X after i steps of the second loop of scryptROMix. */
  function Mix(b: seq<Block>, r: nat, n: nat, i: nat): (x: seq<Block>)
    requires r >= 1 && |b| == 2 * r && n >= 1
    ensures |x| == |b|
  {
    if i == 0 then Fill(b, r, n)
    else
      var x := Mix(b, r, n, i - 1);
      BlockMix(XorBlocks(x, Fill(b, r, Integerify(x) % n)), r)
  }

  function ROMix(b: seq<Block>, r: nat, n: nat): (x: seq<Block>)
    requires r >= 1 && |b| == 2 * r && n >= 1
    ensures |x| == |b|
  {
    Mix(b, r, n, n)
  }
}
