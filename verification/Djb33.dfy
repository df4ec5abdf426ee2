/** The key hash of pkg/cache/sharded.go. */
module Djb33 {

  type Key = seq<bv8>

  /** One round: d * 33 ^ byte in 32-bit arithmetic. */
  function Mix(d: bv32, b: bv8): bv32 { (d * 33) ^ (b as bv32) }

  /** The rounds over the first n bytes, one at a time. */
  function Fold(d: bv32, k: Key, n: nat): bv32
    requires n <= |k|
  {
    if n == 0 then d else Mix(Fold(d, k, n - 1), k[n - 1])
  }

  function Finish(d: bv32): bv32 { d ^ (d >> 16) }

  /** uint32(len(k)) */
  function Length32(k: Key): nat { |k| % 0x1_0000_0000 }

  function Start(seed: bv32, k: Key): bv32 { 5381 + seed + (Length32(k) as bv32) }

  /** The hash as a plain loop over all bytes but the last of the length. */
  function Hash(seed: bv32, k: Key): bv32 {
    var l := Length32(k);
    Finish(Fold(Start(seed, k), k, if l == 0 then 0 else l - 1))
  }

  /** The four-way unrolled loop and the tail switch compute the plain loop. */
  method Unrolled(seed: bv32, k: Key) returns (d: bv32)
    ensures d == Hash(seed, k)
  {
    hide Mix, Finish, Start;
    var l := Length32(k);
    d := Start(seed, k);
    ghost var d0 := d;
    var i := 0;
    if l >= 4 {
      while i < l - 4
        invariant 0 <= i < l <= |k| && d == Fold(d0, k, i)
      {
        d := Mix(d, k[i]);
        assert d == Fold(d0, k, i + 1);
        d := Mix(d, k[i + 1]);
        assert d == Fold(d0, k, i + 2);
        d := Mix(d, k[i + 2]);
        assert d == Fold(d0, k, i + 3);
        d := Mix(d, k[i + 3]);
        assert d == Fold(d0, k, i + 4);
        i := i + 4;
      }
    }
    if l - i == 2 {
      d := Mix(d, k[i]);
      assert d == Fold(d0, k, i + 1);
    } else if l - i == 3 {
      d := Mix(d, k[i]);
      assert d == Fold(d0, k, i + 1);
      d := Mix(d, k[i + 1]);
      assert d == Fold(d0, k, i + 2);
    } else if l - i == 4 {
      d := Mix(d, k[i]);
      assert d == Fold(d0, k, i + 1);
      d := Mix(d, k[i + 1]);
      assert d == Fold(d0, k, i + 2);
      d := Mix(d, k[i + 2]);
      assert d == Fold(d0, k, i + 3);
    }
    assert d == Fold(d0, k, if l == 0 then 0 else l - 1);
    d := Finish(d);
  }
}
