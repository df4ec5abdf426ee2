/** uint64 bit sets as natural numbers: shifts, complement, or, and bit tests. */
module BitSets {
  import opened Bits

  /** Bit k of x. */
  predicate Bit(x: nat, k: nat) {
    if k == 0 then x % 2 == 1 else Bit(x / 2, k - 1)
  }

  /** x | y, bit by bit. */
  function BitOr(x: nat, y: nat): nat {
    if x == 0 && y == 0 then 0
    else 2 * BitOr(x / 2, y / 2) + (if x % 2 == 1 || y % 2 == 1 then 1 else 0)
  }

  /** ^x for an n-bit word. */
  function Complement(n: nat, x: nat): nat
    requires x < Pow2(n)
  {
    Pow2(n) - 1 - x
  }

  /** x << s for an n-bit word. */
  function ShiftLeft(n: nat, x: nat, s: nat): (r: nat)
    ensures r < Pow2(n)
  {
    x * Pow2(s) % Pow2(n)
  }

  lemma {:induction false} BitOfZero(k: nat)
    ensures !Bit(0, k)
  {
    if k > 0 {
      BitOfZero(k - 1);
    }
  }

  lemma {:induction false} BitOfAnd(x: nat, y: nat, k: nat)
    ensures Bit(BitAnd(x, y), k) <==> Bit(x, k) && Bit(y, k)
  {
    if x == 0 || y == 0 {
      BitOfZero(k);
    } else if k > 0 {
      BitOfAnd(x / 2, y / 2, k - 1);
    }
  }

  lemma {:induction false} BitOfOr(x: nat, y: nat, k: nat)
    ensures Bit(BitOr(x, y), k) <==> Bit(x, k) || Bit(y, k)
  {
    if x == 0 && y == 0 {
      BitOfZero(k);
    } else if k > 0 {
      BitOfOr(x / 2, y / 2, k - 1);
    }
  }

  lemma {:induction false} BitOfPow2(i: nat, k: nat)
    ensures Bit(Pow2(i), k) <==> i == k
  {
    if i == 0 {
      if k > 0 {
        BitOfZero(k - 1);
      }
    } else if k > 0 {
      BitOfPow2(i - 1, k - 1);
    }
  }

  lemma {:induction false} BitOfComplement(n: nat, x: nat, k: nat)
    requires x < Pow2(n) && k < n
    ensures Bit(Complement(n, x), k) <==> !Bit(x, k)
  {
    assert Pow2(n) == 2 * Pow2(n - 1);
    if k > 0 {
      BitOfComplement(n - 1, x / 2, k - 1);
      assert Complement(n, x) / 2 == Complement(n - 1, x / 2);
    }
  }

  lemma HalfOfMod(x: nat, n: nat)
    requires n >= 1
    ensures x % Pow2(n) % 2 == x % 2 && x % Pow2(n) / 2 == x / 2 % Pow2(n - 1)
  {
    var p := Pow2(n - 1);
    ModHalves(x, p);
    var q := x / 2 % p;
    assert x % Pow2(n) == 2 * q + x % 2;
  }

  lemma {:induction false} BitOfMod(x: nat, n: nat, k: nat)
    requires k < n
    ensures Bit(x % Pow2(n), k) <==> Bit(x, k)
  {
    var m := x % Pow2(n);
    HalfOfMod(x, n);
    assert m % 2 == x % 2 && m / 2 == x / 2 % Pow2(n - 1);
    if k > 0 {
      BitOfMod(x / 2, n - 1, k - 1);
    }
  }

  lemma {:induction false} BitOfProduct(x: nat, s: nat, k: nat)
    ensures Bit(x * Pow2(s), k) <==> k >= s && Bit(x, k - s)
  {
    if s == 0 {
      assert x * Pow2(s) == x;
    } else {
      assert x * Pow2(s) == 2 * (x * Pow2(s - 1));
      if k > 0 {
        BitOfProduct(x, s - 1, k - 1);
      }
    }
  }

  lemma BitOfShift(n: nat, x: nat, s: nat, k: nat)
    requires k < n
    ensures Bit(ShiftLeft(n, x, s), k) <==> k >= s && Bit(x, k - s)
  {
    BitOfMod(x * Pow2(s), n, k);
    BitOfProduct(x, s, k);
  }

  lemma {:induction false} SomeBit(x: nat) returns (k: nat)
    requires x != 0
    ensures Bit(x, k)
  {
    if x % 2 == 1 {
      k := 0;
    } else {
      var j := SomeBit(x / 2);
      k := j + 1;
    }
  }

  /** The test 1 << k & x != 0 reads bit k. */
  lemma TestIsBit(x: nat, k: nat)
    ensures BitAnd(Pow2(k), x) != 0 <==> Bit(x, k)
  {
    BitOfAnd(Pow2(k), x, k);
    BitOfPow2(k, k);
    BitOfZero(k);
    if BitAnd(Pow2(k), x) != 0 {
      var j := SomeBit(BitAnd(Pow2(k), x));
      BitOfAnd(Pow2(k), x, j);
      BitOfPow2(k, j);
    }
  }

  /** Or-ing a value in above the bits in use is adding it. */
  lemma {:induction false} BitOrDisjoint(v: nat, x: nat, k: nat)
    requires v < Pow2(k)
    ensures BitOr(v, x * Pow2(k)) == v + x * Pow2(k)
  {
    if k == 0 {
      assert x * Pow2(0) == x;
      BitOrZero(x);
    } else {
      assert x * Pow2(k) == 2 * (x * Pow2(k - 1));
      BitOrDisjoint(v / 2, x, k - 1);
    }
  }

  lemma {:induction false} BitOrZero(x: nat)
    ensures BitOr(0, x) == x
  {
    if x > 0 {
      BitOrZero(x / 2);
    }
  }
}
