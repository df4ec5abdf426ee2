/** The definitions behind the yescrypt path, said again in the words of
    pkg/yescrypt/yescrypt.go: what one gather step reads and writes, how the
    S-boxes change roles, the two loops step by step, and when there are two
    passes. */
module YescryptLaws {
  import opened Bits
  import opened Words
  import opened ScryptSpec
  import opened Smix
  import opened ScryptSmix
  import opened Pwxform
  import opened Yescrypt
  import opened YescryptKey
  import Crypt64

  // pwxform

  /** Bits 4 to 11 of a word, as the index of a pair of words. */
  function PairIndex(h: bv32): (k: nat)
    ensures k + 1 < 512
  {
    h as nat % 4096 / 16 * 2
  }

  lemma GatherIs(h: bv32)
    ensures Gather(h) == PairIndex(h)
  {
    MaskMiddle(h as nat);
  }

  lemma MaskMiddle(h: nat)
    ensures BitAnd(h, 4080) == 16 * (h % 4096 / 16)
  {
    hide BitAnd;
    var h1 := h / 2;
    var h2 := h1 / 2;
    var h3 := h2 / 2;
    MaskDouble(h, 2040);
    MaskDouble(h1, 1020);
    MaskDouble(h2, 510);
    MaskDouble(h3, 255);
    BitAndMask(h3 / 2, 8);
    assert Pow2(8) == 256;
    MiddlePart(h);
  }

  lemma MiddlePart(h: nat)
    ensures h / 2 / 2 / 2 / 2 % 256 == h % 4096 / 16
  {
    assert h / 2 / 2 / 2 / 2 == h / 16;
  }

  lemma MaskDouble(h: nat, m: nat)
    ensures BitAnd(h, 2 * m) == 2 * BitAnd(h / 2, m)
  {
    hide BitAnd;
    BitAndStep(h, 2 * m);
    assert 2 * m / 2 == m && 2 * m % 2 == 0;
  }

  /** The product of the halves, plus the word of S0, exclusive or that of S1. */
  lemma MulMixVectors()
    ensures MulMix(0x0000_0003_0000_0005, 7, 1) == 23
    ensures MulMix(0xFFFF_FFFF_FFFF_FFFF, 0x0000_0001_FFFF_FFFF, 2) == 2
    ensures MulMix(0x8000_0000_0000_0002, 0, 0xFF) == 0x0000_0001_0000_00FF
  {}

  /** Step t of a call works on lane t mod 4: the low half of its first word picks
      the pair of S0, the high half that of S1, and in the four middle rounds the
      new pair also goes to S2. */
  lemma GatherStep(t: nat, c: Round, s0: seq<bv64>, s1: seq<bv64>) returns (j: nat, lo: nat, hi: nat, x: bv64, y: bv64)
    requires t < 24 && |c.x| == 8 && |s0| == |s1| == |c.s2| == 512 && (4 <= t < 20 ==> c.w + 1 < 512)
    ensures j == 2 * (t % 4) && j + 1 < 8
    ensures lo == PairIndex(Lo(c.x[j])) && hi == PairIndex(Hi(c.x[j]))
    ensures x == MulMix(c.x[j], s0[lo], s1[hi]) && y == MulMix(c.x[j + 1], s0[lo + 1], s1[hi + 1])
    ensures PwxStep(t, c, s0, s1).x == c.x[j := x][j + 1 := y]
    ensures 4 <= t < 20 ==>
              PwxStep(t, c, s0, s1).s2 == c.s2[c.w := x][c.w + 1 := y] && PwxStep(t, c, s0, s1).w == c.w + 2
    ensures !(4 <= t < 20) ==> PwxStep(t, c, s0, s1).s2 == c.s2 && PwxStep(t, c, s0, s1).w == c.w
  {
    hide Gather, PairIndex, MulMix, Lo, Hi;
    j := 2 * (t % 4);
    lo, hi := PairIndex(Lo(c.x[j])), PairIndex(Hi(c.x[j]));
    x, y := MulMix(c.x[j], s0[lo], s1[hi]), MulMix(c.x[j + 1], s0[lo + 1], s1[hi + 1]);
    GatherIs(Lo(c.x[j]));
    GatherIs(Hi(c.x[j]));
  }

  lemma StepWrites(t: nat, c: Round, s0: seq<bv64>, s1: seq<bv64>, k: nat)
    requires t < 24 && |c.x| == 8 && |s0| == |s1| == |c.s2| == 512 && (4 <= t < 20 ==> c.w + 1 < 512)
    requires k < 512 && (4 <= t < 20 ==> k != c.w && k != c.w + 1)
    ensures PwxStep(t, c, s0, s1).s2[k] == c.s2[k]
  {
    hide Gather, MulMix, Lo, Hi;
  }

  lemma {:induction false} StepsWrite(t: nat, x: seq<bv64>, box: Boxes, k: nat)
    requires t <= 24 && |x| == 8 && box.Valid() && k < 512 && !(box.w <= k < box.w + 32)
    ensures PwxSteps(t, x, box).s2[k] == box.s2[k]
  {
    hide PwxStep;
    if t > 0 {
      StepsWrite(t - 1, x, box, k);
      StepWrites(t - 1, PwxSteps(t - 1, x, box), box.s0, box.s1, k);
    }
  }

  /** A call makes six rounds of four steps, writes 32 words of S2 from w on, and
      then S2 becomes S0, S0 becomes S1 and S1 becomes S2. */
  lemma CallRotates(x: seq<bv64>, box: Boxes, k: nat)
    requires |x| == 8 && box.Valid() && k < 512
    ensures var (x', box') := Pwx(x, box);
            && x' == PwxSteps(24, x, box).x && box'.w == (box.w + 32) % 512
            && box'.s1 == box.s0 && box'.s2 == box.s1
            && (!(box.w <= k < box.w + 32) ==> box'.s0[k] == box.s2[k])
  {
    hide PwxSteps;
    if !(box.w <= k < box.w + 32) {
      StepsWrite(24, x, box, k);
    }
  }

  // blockMixPwxform

  /** T runs over the blocks from the last one on; y[i] and box[i + 1] are the
      block and the S-boxes after step i. */
  ghost predicate ChainRun(x: seq<Packed>, y: seq<Packed>, box: seq<Boxes>) {
    && |y| == |x| >= 1 && |box| == |x| + 1 && (forall i :: 0 <= i < |box| ==> box[i].Valid())
    && PwxPacked(XorPacked(x[|x| - 1], x[0]), box[0]) == (y[0], box[1])
    && forall i :: 1 <= i < |x| ==> PwxPacked(XorPacked(y[i - 1], x[i]), box[i]) == (y[i], box[i + 1])
  }

  lemma {:induction false} ChainStepsAre(x: seq<Packed>, y: seq<Packed>, box: seq<Boxes>, i: nat)
    requires ChainRun(x, y, box) && 1 <= i <= |x|
    ensures ChainSteps(x, box[0], i) == Chaining(y[..i] + x[i..], y[i - 1], box[i])
  {
    hide PwxPacked, XorPacked;
    var b := box[0];
    assert ChainSteps(x, b, 0) == Chaining(x, x[|x| - 1], b);
    if i == 1 {
      assert ChainSteps(x, b, 1) == ChainStep(ChainSteps(x, b, 0), 0);
    } else {
      ChainStepsAre(x, y, box, i - 1);
      var c := ChainSteps(x, b, i - 1);
      assert c.x[i - 1] == x[i - 1];
      assert ChainSteps(x, b, i) == ChainStep(c, i - 1);
    }
    assert (y[..i] + x[i..]) == (if i == 1 then x else y[..i - 1] + x[i - 1..])[i - 1 := y[i - 1]];
  }

  /** The result is the chained blocks with one double round of Salsa20 on the last. */
  lemma BlockMixPwxSteps(x: seq<Packed>, y: seq<Packed>, box: seq<Boxes>)
    requires ChainRun(x, y, box)
    ensures BlockMixPwx(x, box[0]) == (y[|x| - 1 := SalsaPacked(y[|x| - 1], 1)], box[|x|])
  {
    hide PwxPacked, XorPacked, SalsaPacked, ChainSteps;
    ChainStepsAre(x, y, box, |x|);
    assert y[..|x|] + x[|x|..] == y;
  }

  // The two loops

  /** wrap keeps the low bits of x, as many as p2floor(i) allows, and counts from
      i - p2floor(i) on. */
  lemma WrapIs(x: nat, i: nat)
    requires 1 <= i < 0x1_0000_0000 && x < 0x1_0000_0000
    ensures WrapIndex(x, i) == BitAnd(x, Floor2(i) - 1) + (i - Floor2(i)) && IsPow2(Floor2(i))
  {
    hide BitAnd, Floor2;
    MaskFloor2(x, i);
    Floor2IsPow2(i);
  }

  /** Step i of the first loop: save X, absorb an earlier block from the third
      step on, mix. */
  ghost predicate FillsTo(m: Memory, m': Memory, r: nat)
    requires m.Valid(r)
  {
    var i := |m.v|;
    m'.v == m.v + [m.x]
    && BlockMixPwx(if i < 2 then m.x else XorLists(m.x, m.v[WrapIndex(LowWord(m.x), i)]), m.box) == (m'.x, m'.box)
  }

  /** A step of the second loop: absorb block j, write the result back, mix. */
  ghost predicate MixesTo(m: Memory, m': Memory, r: nat)
    requires m.Valid(r) && |m.v| >= 1
  {
    var j := Index(UnpackAll(m.x), |m.v|);
    var x := XorLists(m.x, m.v[j]);
    m'.v == m.v[j := x] && BlockMixPwx(x, m.box) == (m'.x, m'.box)
  }

  lemma LowWordIs(x: seq<Packed>)
    requires |x| >= 1
    ensures LowWord(x) == UnpackAll(x)[|x| - 1].x0 as nat
  {}

  lemma FillsOne(m: Memory, m': Memory, r: nat)
    requires m.Valid(r) && FillsTo(m, m', r)
    ensures FillOne(m, r) == m'
  {
    hide BlockMixPwx, XorLists, WrapIndex, LowWord;
  }

  lemma MixesOne(m: Memory, m': Memory, r: nat)
    requires m.Valid(r) && |m.v| >= 1 && MixesTo(m, m', r)
    ensures MixOne(m, r) == m'
  {
    hide BlockMixPwx, XorLists, LowWord, BitAnd, Unpack;
    LowWordIs(m.x);
  }

  ghost predicate LoopsRun(b: seq<Block>, box: Boxes, r: nat, n: nat, nLoop: nat, fill: seq<Memory>, mix: seq<Memory>)
    requires r >= 1 && |b| == 2 * r && box.Valid() && n >= 1
  {
    && |fill| == n + 1 && fill[0] == Memory(PackAll(b), box, [])
    && (forall i :: 0 <= i < n ==> fill[i].Valid(r) && FillsTo(fill[i], fill[i + 1], r))
    && |mix| == nLoop + 1 && mix[0] == fill[n]
    && (forall i :: 0 <= i < nLoop ==> mix[i].Valid(r) && |mix[i].v| >= 1 && MixesTo(mix[i], mix[i + 1], r))
  }

  lemma {:induction false} FillManyIs(b: seq<Block>, box: Boxes, r: nat, n: nat, nLoop: nat,
                                      fill: seq<Memory>, mix: seq<Memory>, i: nat)
    requires r >= 1 && |b| == 2 * r && box.Valid() && n >= 1 && LoopsRun(b, box, r, n, nLoop, fill, mix) && i <= n
    ensures FillMany(Memory(PackAll(b), box, []), r, i) == fill[i]
  {
    hide FillsTo, MixesTo, FillOne, PackAll;
    if i > 0 {
      FillManyIs(b, box, r, n, nLoop, fill, mix, i - 1);
      FillsOne(fill[i - 1], fill[i], r);
    }
  }

  lemma {:induction false} MixManyIs(b: seq<Block>, box: Boxes, r: nat, n: nat, nLoop: nat,
                                     fill: seq<Memory>, mix: seq<Memory>, i: nat)
    requires r >= 1 && |b| == 2 * r && box.Valid() && n >= 1 && LoopsRun(b, box, r, n, nLoop, fill, mix) && i <= nLoop
    ensures MixMany(FillMany(Memory(PackAll(b), box, []), r, n), r, i) == mix[i]
  {
    hide FillsTo, MixesTo, FillMany, MixOne, PackAll;
    FillManyIs(b, box, r, n, nLoop, fill, mix, n);
    if i > 0 {
      MixManyIs(b, box, r, n, nLoop, fill, mix, i - 1);
      MixesOne(mix[i - 1], mix[i], r);
    }
  }

  /** smix with a context is the working blocks after the last step. */
  lemma SmixSteps(b: seq<Block>, box: Boxes, r: nat, n: nat, nLoop: nat, fill: seq<Memory>, mix: seq<Memory>)
    requires r >= 1 && |b| == 2 * r && box.Valid() && n >= 1 && LoopsRun(b, box, r, n, nLoop, fill, mix)
    ensures SmixBlocks(b, box, r, n, nLoop) == UnpackAll(mix[nLoop].x)
  {
    hide FillsTo, MixesTo, FillMany, MixMany, PackAll, UnpackAll;
    MixManyIs(b, box, r, n, nLoop, fill, mix, nLoop);
  }

  /** The second loop runs for the least even number of steps that is at least a
      third of N. */
  lemma LoopCountIs(n: nat)
    ensures LoopCount(n) % 2 == 0 && 3 * LoopCount(n) >= n && 3 * (LoopCount(n) - 2) < n
  {}

  /** The first third of the filled memory is S2, the second S1, the last S0. */
  lemma SeedOrder(s: seq<bv64>)
    requires |s| == 1536
    ensures BoxesOf(s) == Boxes(s[1024..], s[512..1024], s[..512], 0)
  {}

  // deriveKey

  ghost predicate Spells(b: seq<bv8>, text: string) {
    |b| == |text| && forall i :: 0 <= i < |text| ==> b[i] as int == text[i] as int
  }

  lemma Texts()
    ensures Spells(PREHASH, "yescrypt-prehash") && Spells(PREHASH[..8], "yescrypt") && Spells(CLIENT_KEY, "Client Key")
  {}

  /** One pass from the bytes b0: they seed the S-boxes s, which changes them to
      b1; the last block of b1 rehashes the first 32 bytes of b0; mixing on the
      S-boxes gives b2; and PBKDF2 of both gives the key. */
  ghost predicate PassRun(h: Hashes, b0: seq<bv8>, s: seq<bv64>, b1: seq<bv8>, b2: seq<bv8>, r: nat, n: nat, len: nat,
                          key: seq<bv8>)
    requires r >= 1 && n >= 1
  {
    && |b0| == |b1| == |b2| == 128 * r && |s| == 1536 && Seeded(b0, s, b1)
    && BlocksAt(b2, 0, 2 * r) ==
       SmixBlocks(BlocksAt(b1, 0, 2 * r), Boxes(s[1024..], s[512..1024], s[..512], 0), r, n, LoopCount(n))
    && key == h.pbkdf2(h.mac(b1[128 * r - 64..], b0[..32]), b2, len)
  }

  lemma PassSteps(h: Hashes, prehash: seq<bv8>, password: seq<bv8>, salt: seq<bv8>, r: nat, n: nat, len: nat, key: seq<bv8>)
    requires h.Valid() && r >= 1 && n >= 1 && Pass(h, prehash, password, salt, r, n, len, key)
    ensures exists s, b1, b2 ::
              PassRun(h, h.pbkdf2(h.mac(prehash, password), salt, 128 * r), s, b1, b2, r, n, len, key)
  {
    hide Mixed;
    var b0 := FirstBytes(h, prehash, password, salt, r);
    var b2, pw :| Mixed(h.mac, b0, b0[..32], r, n, b2, pw) && key == h.pbkdf2(pw, b2, len);
    var s, b1 := MixedSteps(h, b0, r, n, len, b2, pw);
  }

  lemma MixedSteps(h: Hashes, b0: seq<bv8>, r: nat, n: nat, len: nat, b2: seq<bv8>, pw: seq<bv8>)
    returns (s: seq<bv64>, b1: seq<bv8>)
    requires r >= 1 && n >= 1 && |b0| == 128 * r && Mixed(h.mac, b0, b0[..32], r, n, b2, pw)
    ensures PassRun(h, b0, s, b1, b2, r, n, len, h.pbkdf2(pw, b2, len))
  {
    hide SmixBlocks, LoopCount, Filled, Fill, BlockAt, BoxesOf;
    s, b1 :|
      && Seeded(b0, s, b1) && pw == h.mac(b1[64 * (2 * r - 1)..], b0[..32]) && |b2| == |b0|
      && BlocksAt(b2, 0, 2 * r) == SmixBlocks(BlocksAt(b1, 0, 2 * r), BoxesOf(s), r, n, LoopCount(n));
    SeedOrder(s);
    assert 64 * (2 * r - 1) == 128 * r - 64;
  }

  /** There are two passes exactly if N is at least 256 and the memory, in bytes,
      at least 16 MiB. */
  lemma TwoPassesIff(n: nat, r: nat)
    ensures TwoPasses(n, r) <==> n >= 256 && 8 * Offset(r, n) >= 0x100_0000
  {
    assert 8 * Offset(r, n) == 128 * (n * r);
  }

  /** The derivation with enough memory: the last pass takes for its password the
      first 32 bytes of a pass over a sixty-fourth of the blocks. Otherwise the last
      pass is the only one. */
  lemma DerivesIff(h: Hashes, password: seq<bv8>, salt: seq<bv8>, r: nat, n: nat, len: nat, key: seq<bv8>)
    requires h.Valid() && r >= 1 && n >= 1 && len >= 32
    ensures n >= 256 && 8 * Offset(r, n) >= 0x100_0000 ==>
              (Derives(h, password, salt, r, n, len, key) <==>
               exists k0 :: Pass(h, PREHASH, password, salt, r, n / 64, len, k0) && |k0| == len
                         && LastPass(h, k0[..32], salt, r, n, len, key))
    ensures !(n >= 256 && 8 * Offset(r, n) >= 0x100_0000) ==>
              (Derives(h, password, salt, r, n, len, key) <==> LastPass(h, password, salt, r, n, len, key))
  {
    hide Pass, LastPass, Offset;
    TwoPassesIff(n, r);
  }

  /** The last pass uses the short prehash, and then replaces the first 32 bytes by
      the hash of a keyed hash of "Client Key". */
  lemma LastPassSteps(h: Hashes, password: seq<bv8>, salt: seq<bv8>, r: nat, n: nat, len: nat, key: seq<bv8>)
    requires h.Valid() && r >= 1 && n >= 1 && len >= 32 && LastPass(h, password, salt, r, n, len, key)
    ensures exists k :: Pass(h, PREHASH[..8], password, salt, r, n, len, k) && |k| == len
                     && key == h.sha(h.mac(k[..32], CLIENT_KEY)) + k[32..]
  {
    hide Pass;
  }

  /** The usual setting "$y$j9T$" asks for N = 4096 and r = 32. */
  lemma UsualSetting()
    ensures Pow2(Crypt64.Atoi64('9') + 1) == 4096 && Crypt64.Atoi64('T') + 1 == 32
  {
    Pow2Add(8, 4);
    assert Pow2(4) == 16;
  }

  /** There the key comes from two passes, the first over 64 blocks. */
  lemma UsualDerivation(h: Hashes, password: seq<bv8>, salt: seq<bv8>, key: seq<bv8>)
    requires h.Valid() && Derives(h, password, salt, 32, 4096, 32, key)
    ensures exists k0 :: Pass(h, PREHASH, password, salt, 32, 64, 32, k0) && |k0| == 32
                      && LastPass(h, k0[..32], salt, 32, 4096, 32, key)
  {
    hide Pass, LastPass, Derives;
    DerivesIff(h, password, salt, 32, 4096, 32, key);
  }
}
