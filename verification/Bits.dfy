/** Bitwise operations of the source on unsigned integers, as functions on
    natural numbers. */
module Bits {

  function Pow2(k: nat): (p: nat)
    ensures p >= 1
  {
    if k == 0 then 1 else 2 * Pow2(k - 1)
  }

  ghost predicate IsPow2(n: nat) { exists k: nat :: n == Pow2(k) }

  /** x & y, bit by bit from the least significant end. */
  function BitAnd(x: nat, y: nat): (z: nat)
    ensures z <= x && z <= y
  {
    if x == 0 || y == 0 then 0
    else 2 * BitAnd(x / 2, y / 2) + (if x % 2 == 1 && y % 2 == 1 then 1 else 0)
  }

  lemma Pow2Add(j: nat, k: nat)
    ensures Pow2(j + k) == Pow2(j) * Pow2(k)
  {
    if k > 0 {
      Pow2Add(j, k - 1);
    }
  }

  lemma Pow2Of32()
    ensures Pow2(32) == 0x1_0000_0000
  {
    assert Pow2(8) == 0x100;
    Pow2Add(8, 8);
    Pow2Add(16, 16);
  }

  lemma Pow2Monotone(j: nat, k: nat)
    requires j <= k
    ensures Pow2(j) <= Pow2(k)
    ensures j < k ==> 2 * Pow2(j) <= Pow2(k)
    decreases k
  {
    if j < k {
      Pow2Monotone(j, k - 1);
    }
  }

  lemma ModHalves(x: nat, p: nat)
    requires p >= 1
    ensures x % (2 * p) == 2 * ((x / 2) % p) + x % 2
  {
    var q, m := x / 2 / p, (x / 2) % p;
    assert x == (2 * p) * q + (2 * m + x % 2);
    DivModUnique(x, 2 * p, q, 2 * m + x % 2);
  }

  lemma MulAtLeast(n: nat, k: int)
    requires k >= 1
    ensures n * k >= n
  {}

  lemma DivModUnique(x: int, n: nat, q: int, m: nat)
    requires n >= 1 && m < n && x == n * q + m
    ensures x / n == q && x % n == m
  {
    var q', m' := x / n, x % n;
    assert x == n * q' + m';
    if q > q' {
      assert n * (q - q') == n * q - n * q';
      MulAtLeast(n, q - q');
    } else if q < q' {
      assert n * (q' - q) == n * q' - n * q;
      MulAtLeast(n, q' - q);
    }
  }

  lemma BitAndStep(x: nat, y: nat)
    ensures BitAnd(x, y) == 2 * BitAnd(x / 2, y / 2) + (if x % 2 == 1 && y % 2 == 1 then 1 else 0)
  {}

  lemma MaskStep(x: nat, p: nat)
    requires p >= 1
    ensures BitAnd(x, 2 * p - 1) == 2 * BitAnd(x / 2, p - 1) + x % 2
  {
    hide BitAnd;
    BitAndStep(x, 2 * p - 1);
    assert (2 * p - 1) / 2 == p - 1 && (2 * p - 1) % 2 == 1;
  }

  /** Masking with 2^k - 1 is the remainder modulo 2^k. */
  lemma {:induction false} BitAndMask(x: nat, k: nat)
    ensures BitAnd(x, Pow2(k) - 1) == x % Pow2(k)
  {
    if k > 0 {
      var p := Pow2(k - 1);
      BitAndMask(x / 2, k - 1);
      MaskStep(x, p);
      ModHalves(x, p);
    }
  }

  /** The test N & (N - 1) == 0 recognises exactly the powers of two. */
  lemma {:induction false} PowerOfTwoTest(n: nat)
    requires n >= 1
    ensures BitAnd(n, n - 1) == 0 <==> IsPow2(n)
  {
    if n == 1 {
      assert n == Pow2(0);
    } else if n % 2 == 1 {
      assert BitAnd(n, n - 1) == 2 * BitAnd(n / 2, n / 2);
      BitAndSelf(n / 2);
      forall k: nat
        ensures n != Pow2(k)
      {
        assert k > 0 ==> Pow2(k) == 2 * Pow2(k - 1);
      }
    } else {
      PowerOfTwoTest(n / 2);
      assert (n - 1) / 2 == n / 2 - 1;
      if IsPow2(n / 2) {
        var k: nat :| n / 2 == Pow2(k);
        assert n == Pow2(k + 1);
      }
      if IsPow2(n) {
        var k: nat :| n == Pow2(k);
        assert n / 2 == Pow2(k - 1);
      }
    }
  }

  lemma BitAndSelf(x: nat)
    ensures BitAnd(x, x) == x
  {}

  /** The largest power of two that is at most x, and zero for zero. */
  function Floor2(x: nat): (p: nat)
    ensures x >= 1 ==> 1 <= p <= x < 2 * p
    ensures x == 0 ==> p == 0
  {
    if x <= 1 then x else 2 * Floor2(x / 2)
  }

  lemma {:induction false} Floor2IsPow2(x: nat)
    requires x >= 1
    ensures IsPow2(Floor2(x))
  {
    if x == 1 {
      assert Floor2(x) == Pow2(0);
    } else {
      Floor2IsPow2(x / 2);
      var k: nat :| Floor2(x / 2) == Pow2(k);
      assert Floor2(x) == Pow2(k + 1);
    }
  }

  lemma Floor2Double(h: nat)
    requires h >= 1
    ensures Floor2(2 * h) == 2 * Floor2(h) && Floor2(2 * h + 1) == 2 * Floor2(h)
  {
    assert 2 * h / 2 == h && (2 * h + 1) / 2 == h;
  }

  lemma AndOdd(h: nat)
    ensures BitAnd(2 * h + 1, 2 * h) == 2 * h
  {
    hide BitAnd;
    BitAndStep(2 * h + 1, 2 * h);
    assert (2 * h + 1) / 2 == h && 2 * h / 2 == h && 2 * h % 2 == 0;
    BitAndSelf(h);
  }

  lemma AndEven(h: nat)
    requires h >= 1
    ensures BitAnd(2 * h, 2 * h - 1) == 2 * BitAnd(h, h - 1)
  {
    hide BitAnd;
    BitAndStep(2 * h, 2 * h - 1);
    assert 2 * h / 2 == h && (2 * h - 1) / 2 == h - 1 && 2 * h % 2 == 0;
  }

  /** x & (x - 1) clears the lowest set bit: a power of two gives zero, any
      other number keeps its highest bit. */
  lemma {:induction false} ClearLowest(x: nat)
    requires x >= 1
    ensures BitAnd(x, x - 1) < x
    ensures BitAnd(x, x - 1) == 0 ==> Floor2(x) == x
    ensures BitAnd(x, x - 1) != 0 ==> Floor2(BitAnd(x, x - 1)) == Floor2(x)
  {
    hide BitAnd, Floor2;
    var h := x / 2;
    if x == 1 {
      AndOne();
    } else if x % 2 == 1 {
      assert x == 2 * h + 1;
      AndOdd(h);
      Floor2Double(h);
    } else {
      assert x == 2 * h;
      ClearLowest(h);
      AndEven(h);
      Floor2Double(h);
      var c := BitAnd(h, h - 1);
      if c >= 1 {
        Floor2Double(c);
      }
    }
  }

  lemma AndOne()
    ensures BitAnd(1, 0) == 0 && Floor2(1) == 1
  {}

  /** x & mask for a mask 2^k - 1 written as n - 1 with n = Floor2(i). */
  lemma MaskFloor2(x: nat, i: nat)
    requires i >= 1
    ensures BitAnd(x, Floor2(i) - 1) == x % Floor2(i)
  {
    Floor2IsPow2(i);
    var k: nat :| Floor2(i) == Pow2(k);
    BitAndMask(x, k);
  }
}
