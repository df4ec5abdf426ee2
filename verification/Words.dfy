/** Machine words of the key-derivation code: the two halves of a 64-bit word
    and the little-endian bytes of a 32-bit word. */
module Words {

  function Lo(d: bv64): bv32 { (d & 0xFFFF_FFFF) as bv32 }

  function Hi(d: bv64): bv32 { (d >> 32) as bv32 }

  function Pack(lo: bv32, hi: bv32): bv64 { (lo as bv64) | ((hi as bv64) << 32) }

  lemma PackHalves(lo: bv32, hi: bv32)
    ensures Lo(Pack(lo, hi)) == lo && Hi(Pack(lo, hi)) == hi
  {}

  lemma HalvesPack(d: bv64)
    ensures Pack(Lo(d), Hi(d)) == d
  {}

  /** Exclusive or and wrap-around sum of words, named so that proofs can use
      them without looking at bits. */
  function Xor32(a: bv32, b: bv32): bv32 { a ^ b }

  function Add32(a: bv32, b: bv32): bv32 { a + b }

  function Xor64(a: bv64, b: bv64): bv64 { a ^ b }

  lemma HalvesXor(a: bv64, b: bv64)
    ensures Lo(Xor64(a, b)) == Xor32(Lo(a), Lo(b)) && Hi(Xor64(a, b)) == Xor32(Hi(a), Hi(b))
  {}

  /** The little-endian 32-bit load of encoding/binary. */
  function Load32(b0: bv8, b1: bv8, b2: bv8, b3: bv8): bv32 {
    (b0 as bv32) | ((b1 as bv32) << 8) | ((b2 as bv32) << 16) | ((b3 as bv32) << 24)
  }

  /** Byte k of the little-endian store of w. */
  function Byte(w: bv32, k: nat): bv8
    requires k < 4
  {
    if k == 0 then (w & 0xFF) as bv8
    else if k == 1 then ((w >> 8) & 0xFF) as bv8
    else if k == 2 then ((w >> 16) & 0xFF) as bv8
    else (w >> 24) as bv8
  }

  lemma LoadStore(w: bv32)
    ensures Load32(Byte(w, 0), Byte(w, 1), Byte(w, 2), Byte(w, 3)) == w
  {}

  lemma StoreLoad(b0: bv8, b1: bv8, b2: bv8, b3: bv8)
    ensures var w := Load32(b0, b1, b2, b3);
            Byte(w, 0) == b0 && Byte(w, 1) == b1 && Byte(w, 2) == b2 && Byte(w, 3) == b3
  {}
}
