/** pwxform of pkg/yescrypt/yescrypt.go: three S-box windows that rotate over
    one array, against S-boxes that are three separate vectors. */
module Pwxform {
  import opened Bits
  import opened Words

  const ROUNDS: nat := 6
  const GATHER: nat := 4
  const WINDOW: nat := 512
  const SMASK: nat := 4080

  /** The word index of a gather: (h & Smask) / 8. */
  function Gather(h: bv32): (k: nat)
    ensures k + 1 < WINDOW
  {
    BitAnd(h as nat, SMASK) / 8
  }

  /** ((x >> 32) * uint32(x) + a) ^ b in 64-bit arithmetic. */
  function MulMix(x: bv64, a: bv64, b: bv64): bv64 {
    ((Hi(x) as bv64) * (Lo(x) as bv64) + a) ^ b
  }

  /** Three separate S-boxes and the write position in the third. */
  datatype Boxes = Boxes(s0: seq<bv64>, s1: seq<bv64>, s2: seq<bv64>, w: nat) {
    predicate Valid() {
      |s0| == |s1| == |s2| == WINDOW && w < WINDOW && w % 32 == 0
    }
  }

  datatype Round = Round(x: seq<bv64>, s2: seq<bv64>, w: nat)

  /** How many of the first t steps have written to the third S-box. */
  function Writes(t: nat): nat {
    if t <= GATHER then 0 else if t <= 5 * GATHER then t - GATHER else 4 * GATHER
  }

  /** The t-th gather step: both words of lane t mod 4, and outside the first
      and last round a write of the pair to the third S-box. */
  function PwxStep(t: nat, c: Round, s0: seq<bv64>, s1: seq<bv64>): (c': Round)
    requires t < ROUNDS * GATHER && |c.x| == 8 && |s0| == |s1| == |c.s2| == WINDOW
    requires GATHER <= t < 5 * GATHER ==> c.w + 1 < WINDOW
    ensures |c'.x| == 8 && |c'.s2| == WINDOW
    ensures c'.w == c.w + 2 * (Writes(t + 1) - Writes(t))
  {
    var p := t % GATHER * 2;
    var lo, hi := Gather(Lo(c.x[p])), Gather(Hi(c.x[p]));
    var x := MulMix(c.x[p], s0[lo], s1[hi]);
    var y := MulMix(c.x[p + 1], s0[lo + 1], s1[hi + 1]);
    var out := c.x[p := x][p + 1 := y];
    if GATHER <= t < 5 * GATHER then Round(out, c.s2[c.w := x][c.w + 1 := y], c.w + 2)
    else Round(out, c.s2, c.w)
  }

  function PwxSteps(t: nat, x: seq<bv64>, box: Boxes): (c: Round)
    requires t <= ROUNDS * GATHER && |x| == 8 && box.Valid()
    ensures |c.x| == 8 && |c.s2| == WINDOW && c.w == box.w + 2 * Writes(t)
  {
    if t == 0 then Round(x, box.s2, box.w) else PwxStep(t - 1, PwxSteps(t - 1, x, box), box.s0, box.s1)
  }

  /** pwxform on separate S-boxes; the boxes change roles at the end. */
  function Pwx(x: seq<bv64>, box: Boxes): (out: (seq<bv64>, Boxes))
    requires |x| == 8 && box.Valid()
    ensures |out.0| == 8 && out.1.Valid()
  {
    var c := PwxSteps(ROUNDS * GATHER, x, box);
    MaskWindow(c.w);
    (c.x, Boxes(c.s2, box.s0, box.s1, c.w % WINDOW))
  }

  /** pwxformCtx: S0, S1 and S2 are the windows of S that start at these offsets. */
  class PwxformCtx {
    const S: array<bv64>
    var S0: nat
    var S1: nat
    var S2: nat
    var w: nat

    /** The live windows are the three disjoint thirds of S, in some order. */
    ghost predicate Valid()
      reads this
    {
      && S.Length == 3 * WINDOW
      && S0 in {0, WINDOW, 2 * WINDOW} && S1 in {0, WINDOW, 2 * WINDOW} && S2 in {0, WINDOW, 2 * WINDOW}
      && S0 != S1 && S1 != S2 && S0 != S2
      && w < WINDOW && w % 32 == 0
    }

    ghost function Contents(): (b: Boxes)
      requires Valid()
      reads this, S
      ensures b.Valid()
    {
      Boxes(S[S0..S0 + WINDOW], S[S1..S1 + WINDOW], S[S2..S2 + WINDOW], w)
    }

    constructor (s: array<bv64>)
      requires s.Length == 3 * WINDOW
      ensures S == s && Valid() && S0 == 2 * WINDOW && S1 == WINDOW && S2 == 0 && w == 0
    {
      S := s;
      S2, S1, S0 := 0, WINDOW, 2 * WINDOW;
      w := 0;
    }
  }

  /** s holds x from offset o on. */
  ghost predicate Region(s: seq<bv64>, o: nat, x: seq<bv64>) {
    o + |x| <= |s| && forall k {:trigger x[k]} :: 0 <= k < |x| ==> s[o + k] == x[k]
  }

  /** The windows of S hold these three S-boxes. */
  ghost predicate Windows(ctx: PwxformCtx, s0: seq<bv64>, s1: seq<bv64>, s2: seq<bv64>)
    reads ctx, ctx.S
  {
    && ctx.Valid() && |s0| == |s1| == |s2| == WINDOW
    && Region(ctx.S[..], ctx.S0, s0) && Region(ctx.S[..], ctx.S1, s1) && Region(ctx.S[..], ctx.S2, s2)
  }

  /** A pair written to the third window leaves the other two alone. */
  method WritePair(ctx: PwxformCtx, w: nat, x: bv64, y: bv64,
                   ghost s0: seq<bv64>, ghost s1: seq<bv64>, ghost s2: seq<bv64>)
    requires Windows(ctx, s0, s1, s2) && w + 1 < WINDOW
    modifies ctx.S
    ensures Windows(ctx, s0, s1, s2[w := x][w + 1 := y])
  {
    ctx.S[ctx.S2 + w] := x;
    ctx.S[ctx.S2 + w + 1] := y;
  }

  /** A gather reads two adjacent words of a window. */
  method ReadPair(ctx: PwxformCtx, o: nat, k: nat, ghost s: seq<bv64>) returns (a: bv64, b: bv64)
    requires Region(ctx.S[..], o, s) && |s| == WINDOW && k + 1 < WINDOW
    ensures a == s[k] && b == s[k + 1]
  {
    a := ctx.S[o + k];
    b := ctx.S[o + k + 1];
  }

  /** One gather step in place. */
  method StepInPlace(X: array<bv64>, ctx: PwxformCtx, w: nat, t: nat,
                     ghost c: Round, ghost s0: seq<bv64>, ghost s1: seq<bv64>)
    returns (w': nat)
    requires Windows(ctx, s0, s1, c.s2) && X.Length == 8 && X != ctx.S && X[..] == c.x && w == c.w
    requires t < ROUNDS * GATHER && (GATHER <= t < 5 * GATHER ==> c.w + 1 < WINDOW)
    modifies X, ctx.S
    ensures var c' := PwxStep(t, c, s0, s1);
            Windows(ctx, s0, s1, c'.s2) && X[..] == c'.x && w' == c'.w
  {
    hide MulMix, Gather, Lo, Hi, Region;
    var p := t % GATHER * 2;
    var lo, hi := Gather(Lo(X[p])), Gather(Hi(X[p]));
    var a0, a1 := ReadPair(ctx, ctx.S0, lo, s0);
    var b0, b1 := ReadPair(ctx, ctx.S1, hi, s1);
    var x := MulMix(X[p], a0, b0);
    X[p] := x;
    var y := MulMix(X[p + 1], a1, b1);
    X[p + 1] := y;
    w' := w;
    if t / GATHER != 0 && t / GATHER != ROUNDS - 1 {
      WritePair(ctx, w, x, y, s0, s1, c.s2);
      w' := w + 2;
    }
  }

  /** X, the write position and the windows are those after t steps. */
  ghost predicate AfterSteps(X: array<bv64>, ctx: PwxformCtx, w: nat, t: nat, x: seq<bv64>, box: Boxes)
    requires |x| == 8 && box.Valid() && t <= ROUNDS * GATHER
    reads X, ctx, ctx.S
  {
    var c := PwxSteps(t, x, box);
    X[..] == c.x && w == c.w && Windows(ctx, box.s0, box.s1, c.s2)
  }

  /** The windows change roles and the write position wraps. */
  method Rotate(ctx: PwxformCtx, w: nat, ghost s0: seq<bv64>, ghost s1: seq<bv64>, ghost s2: seq<bv64>)
    requires Windows(ctx, s0, s1, s2) && w % 32 == 0
    modifies ctx
    ensures Windows(ctx, s2, s0, s1) && ctx.w == w % WINDOW
  {
    hide Region, BitAnd;
    MaskWindow(w);
    ctx.S0, ctx.S1, ctx.S2 := ctx.S2, ctx.S0, ctx.S1;
    ctx.w := BitAnd(w, WINDOW - 1);
  }

  lemma MaskWindow(w: nat)
    requires w % 32 == 0
    ensures BitAnd(w, WINDOW - 1) == w % WINDOW && w % WINDOW % 32 == 0
  {
    hide BitAnd;
    assert w == 32 * (16 * (w / WINDOW)) + w % WINDOW;
    BitAndMask(w, 9);
    assert Pow2(9) == WINDOW;
  }

  /** pwxform in place refines pwxform on separate S-boxes, and keeps the
      windows a permutation of the three thirds of S. */
  method PwxformInPlace(X: array<bv64>, ctx: PwxformCtx, ghost x: seq<bv64>, ghost box: Boxes)
    requires X.Length == 8 && X != ctx.S && X[..] == x && box.Valid()
    requires Windows(ctx, box.s0, box.s1, box.s2) && ctx.w == box.w
    modifies X, ctx, ctx.S
    ensures var (x', box') := Pwx(x, box);
            X[..] == x' && Windows(ctx, box'.s0, box'.s1, box'.s2) && ctx.w == box'.w
  {
    hide PwxStep, Windows;
    var w := ctx.w;
    var t := 0;
    for i := 0 to ROUNDS
      invariant t == i * GATHER && AfterSteps(X, ctx, w, t, x, box)
    {
      for j := 0 to GATHER
        invariant t == i * GATHER + j && AfterSteps(X, ctx, w, t, x, box)
      {
        w := StepInPlace(X, ctx, w, t, PwxSteps(t, x, box), box.s0, box.s1);
        t := t + 1;
      }
    }
    Rotate(ctx, w, box.s0, box.s1, PwxSteps(t, x, box).s2);
  }
}
