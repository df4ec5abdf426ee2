/** The base-64 codec and password hash string of
    pkg/yescrypt/yescrypt_wrapper.go. */
module Crypt64 {
  import opened Bits
  import opened BitSets
  import opened Strings

  type byte = b: int | 0 <= b < 256

  /** The digit alphabet itoa64, run by run: . / 0-9 A-Z a-z. */
  function Itoa64(v: nat): char
    requires v < 64
  {
    if v < 12 then (v + '.' as int) as char
    else if v < 38 then (v - 12 + 'A' as int) as char
    else (v - 38 + 'a' as int) as char
  }

  /** The table atoi64Partial, run by run; 64 marks a character outside the alphabet. */
  function Atoi64(c: char): nat {
    if '.' <= c <= '9' then c as int - '.' as int
    else if 'A' <= c <= 'Z' then c as int - 'A' as int + 12
    else if 'a' <= c <= 'z' then c as int - 'a' as int + 38
    else 64
  }

  lemma AtoiItoa(v: nat)
    requires v < 64
    ensures Atoi64(Itoa64(v)) == v && Itoa64(v) != '$'
  {}

  lemma ItoaAtoi(c: char)
    requires Atoi64(c) < 64
    ensures Itoa64(Atoi64(c)) == c
  {}

  /** The little-endian value of bytes, and back. */
  function Value(g: seq<byte>): nat { if g == [] then 0 else g[0] + 256 * Value(g[1..]) }

  function Bytes(v: nat, n: nat): (g: seq<byte>)
    ensures |g| == n
  {
    if n == 0 then [] else [v % 256] + Bytes(v / 256, n - 1)
  }

  /** The little-endian value of alphabet characters, and back. */
  function Value64(s: string): nat
    requires InAlphabet(s)
  {
    if s == [] then 0 else Atoi64(s[0]) + 64 * Value64(s[1..])
  }

  function Digits(v: nat, n: nat): (s: string)
    ensures |s| == n
  {
    if n == 0 then [] else [Itoa64(v % 64)] + Digits(v / 64, n - 1)
  }

  predicate InAlphabet(s: string) { forall i :: 0 <= i < |s| ==> Atoi64(s[i]) < 64 }

  function Power(b: nat, n: nat): (p: nat)
    requires b >= 1
    ensures p >= 1
  {
    if n == 0 then 1 else b * Power(b, n - 1)
  }

  lemma {:induction false} ValueBytes(v: nat, n: nat)
    requires v < Power(256, n)
    ensures Value(Bytes(v, n)) == v
  {
    if n > 0 {
      ValueBytes(v / 256, n - 1);
      assert Bytes(v, n)[1..] == Bytes(v / 256, n - 1);
    }
  }

  lemma {:induction false} BytesValue(g: seq<byte>)
    ensures Bytes(Value(g), |g|) == g && Value(g) < Power(256, |g|)
  {
    if g != [] {
      BytesValue(g[1..]);
      assert Value(g) % 256 == g[0] && Value(g) / 256 == Value(g[1..]);
    }
  }

  lemma {:induction false} ValueDigits(v: nat, n: nat)
    requires v < Power(64, n)
    ensures InAlphabet(Digits(v, n)) && Value64(Digits(v, n)) == v
  {
    if n > 0 {
      ValueDigits(v / 64, n - 1);
      AtoiItoa(v % 64);
      assert Digits(v, n)[1..] == Digits(v / 64, n - 1);
    }
  }

  lemma {:induction false} DigitsValue64(s: string)
    requires InAlphabet(s)
    ensures Digits(Value64(s), |s|) == s && Value64(s) < Power(64, |s|)
  {
    if s != [] {
      DigitsValue64(s[1..]);
      ItoaAtoi(s[0]);
      assert Value64(s) % 64 == Atoi64(s[0]) && Value64(s) / 64 == Value64(s[1..]);
    }
  }

  function Min(a: nat, b: nat): nat { if a < b then a else b }

  /** Groups of three bytes become four digits; a last group of one or two
      becomes two or three. */
  function Encode(src: seq<byte>): string {
    if src == [] then []
    else
      var n := Min(3, |src|);
      Digits(Value(src[..n]), n + 1) + Encode(src[n..])
  }

  /** Groups of four digits become three bytes; a last group of two or three
      becomes one or two, and its spare bits must be zero. */
  function Decode(s: string): Option<seq<byte>> {
    if s == [] then Some([])
    else
      var n := Min(4, |s|);
      var g := s[..n];
      if !InAlphabet(g) || n == 1 || Value64(g) / Power(256, n - 1) != 0 then None
      else
        var rest := Decode(s[n..]);
        if rest.None? then None else Some(Bytes(Value64(g), n - 1) + rest.value)
  }

  lemma GroupFits(n: nat)
    requires 1 <= n <= 3
    ensures Power(256, n) <= Power(64, n + 1)
  {
    assert Power(256, 1) == 256 && Power(256, 2) == 65536 && Power(256, 3) == 16777216;
    assert Power(64, 2) == 4096 && Power(64, 3) == 262144 && Power(64, 4) == 16777216;
  }

  /** Decoding strips one full group, or one last partial group. */
  lemma DecodeGroup(d: string, tail: string)
    requires 2 <= |d| <= 4 && InAlphabet(d) && (|d| < 4 ==> tail == [])
    requires Value64(d) < Power(256, |d| - 1) && Decode(tail).Some?
    ensures Decode(d + tail) == Some(Bytes(Value64(d), |d| - 1) + Decode(tail).value)
  {
    hide Value64, InAlphabet, Bytes, Power;
    var s := d + tail;
    assert Min(4, |s|) == |d| && s[..|d|] == d && s[|d|..] == tail;
    assert Value64(d) / Power(256, |d| - 1) == 0;
  }

  /** decode64(encode64(b)) = b */
  lemma {:induction false} DecodeEncode(src: seq<byte>)
    ensures Decode(Encode(src)) == Some(src)
  {
    hide Value64, InAlphabet, Bytes, Power, Digits, Value, Decode;
    if src == [] {
      assert Decode([]) == Some([]) by { DecodeNothing(); }
    } else {
      var n := Min(3, |src|);
      var g, rest := src[..n], src[n..];
      var d := Digits(Value(g), n + 1);
      DecodeEncode(rest);
      BytesValue(g);
      GroupFits(n);
      ValueDigits(Value(g), n + 1);
      DecodeGroup(d, Encode(rest));
      assert src == g + rest;
    }
  }

  lemma DecodeNothing()
    ensures Decode([]) == Some([])
  {}

  /** Whenever decode64(s) is not nil, encode64(decode64(s)) = s. */
  lemma {:induction false} EncodeDecode(s: string)
    requires Decode(s).Some?
    ensures Encode(Decode(s).value) == s
  {
    if s != [] {
      var n := Min(4, |s|);
      var g, rest := s[..n], s[n..];
      EncodeDecode(rest);
      DigitsValue64(g);
      var v := Value64(g);
      assert v < Power(256, n - 1);
      ValueBytes(v, n - 1);
      var b := Bytes(v, n - 1);
      var t := Decode(rest).value;
      assert n < 4 ==> rest == [] && t == [];
      assert (b + t)[..n - 1] == b && (b + t)[n - 1..] == t;
      assert Min(3, |b + t|) == n - 1;
      assert s == g + rest;
    }
  }

  /** The encoded length is the number of bits over six, rounded up. */
  lemma {:induction false} EncodedLength(src: seq<byte>)
    ensures |Encode(src)| == (8 * |src| + 5) / 6
  {
    if src != [] {
      EncodedLength(src[Min(3, |src|)..]);
    }
  }

  lemma {:induction false} NoDollarDigits(v: nat, n: nat)
    ensures '$' !in Digits(v, n)
  {
    if n > 0 {
      NoDollarDigits(v / 64, n - 1);
      AtoiItoa(v % 64);
    }
  }

  lemma {:induction false} NoDollar(src: seq<byte>)
    ensures '$' !in Encode(src)
  {
    if src != [] {
      var n := Min(3, |src|);
      NoDollarDigits(Value(src[..n]), n + 1);
      NoDollar(src[n..]);
    }
  }

  lemma Pow2Step(n: nat)
    ensures Pow2(8 * (n + 1)) == 256 * Pow2(8 * n)
    ensures Pow2(6 * (n + 1)) == 64 * Pow2(6 * n)
  {
    Pow2Add(8, 8 * n);
    Pow2Add(6, 6 * n);
    assert Pow2(8) == 256 && Pow2(6) == 64;
  }

  lemma {:induction false} ValueSnoc(g: seq<byte>, b: byte)
    ensures Value(g + [b]) == Value(g) + b * Pow2(8 * |g|)
    ensures Value(g) < Pow2(8 * |g|)
  {
    if g == [] {
      assert g + [b] == [b] && Value([b]) == b;
      assert b * Pow2(0) == b;
    } else {
      hide Pow2;
      var t := g[1..];
      var p := Pow2(8 * |t|);
      ValueSnoc(t, b);
      assert (g + [b])[1..] == t + [b];
      Pow2Step(|t|);
      assert b * (256 * p) == 256 * (b * p);
    }
  }

  /** Appending character c at the high end of a group. */
  lemma {:induction false} Value64Snoc(s: string, c: char)
    requires InAlphabet(s) && Atoi64(c) < 64
    ensures InAlphabet(s + [c]) && Value64(s + [c]) == Value64(s) + Atoi64(c) * Pow2(6 * |s|)
    ensures Value64(s) < Pow2(6 * |s|)
  {
    hide Atoi64;
    if s == [] {
      assert s + [c] == [c] && Value64([c]) == Atoi64(c);
      assert Atoi64(c) * Pow2(0) == Atoi64(c);
    } else {
      hide Pow2;
      var t := s[1..];
      var p := Pow2(6 * |t|);
      Value64Snoc(t, c);
      assert (s + [c])[1..] == t + [c];
      Pow2Step(|t|);
      assert Atoi64(c) * (64 * p) == 64 * (Atoi64(c) * p);
    }
  }

  /** How many digits are still to come for this many bits. */
  function DigitsLeft(bits: int): nat { if bits <= 0 then 0 else (bits + 5) / 6 }

  /** The first inner loop of encode64: up to three bytes into one value. */
  method Gather(src: seq<byte>, start: nat) returns (i: nat, value: nat, bits: nat)
    requires start < |src|
    ensures i == start + Min(3, |src| - start) && bits == 8 * (i - start)
    ensures value == Value(src[start..i])
  {
    hide Value, BitOr, Pow2;
    i, value, bits := start, 0, 0;
    assert src[start..start] == [];
    ValueNothing();
    while bits < 24 && i < |src|
      invariant start <= i <= |src| && bits == 8 * (i - start) && i - start <= 3
      invariant value == Value(src[start..i])
    {
      ValueSnoc(src[start..i], src[i]);
      assert src[start..i + 1] == src[start..i] + [src[i]];
      BitOrDisjoint(value, src[i], bits);
      value := BitOr(value, src[i] * Pow2(bits));
      i := i + 1;
      bits := bits + 8;
    }
  }

  lemma ValueNothing()
    ensures Value([]) == 0
  {}

  /** encode64 */
  method Encode64(src: seq<byte>) returns (dst: string)
    ensures dst == Encode(src)
  {
    hide Value, Digits, BitAnd, Encode;
    dst := [];
    EncodeNothing();
    var i := 0;
    assert src[0..] == src;
    while i < |src|
      invariant 0 <= i <= |src| && dst + Encode(src[i..]) == Encode(src)
      decreases |src| - i
    {
      ghost var start, done := i, dst;
      var value, bits;
      i, value, bits := Gather(src, i);
      ghost var group := Digits(value, DigitsLeft(bits));
      var left: int := bits;
      assert src[start..][..i - start] == src[start..i] && src[start..][i - start..] == src[i..];
      while left > 0
        invariant dst + Digits(value, DigitsLeft(left)) == done + group
        decreases left
      {
        BitAndMask(value, 6);
        assert Pow2(6) == 64;
        DigitsHead(value, DigitsLeft(left));
        dst := dst + [Itoa64(BitAnd(value, 0x3f))];
        value := value / 64;
        left := left - 6;
      }
      DigitsHead(value, 0);
      EncodeStep(src[start..], i - start);
      assert dst == done + group;
      assert done + (group + Encode(src[i..])) == dst + Encode(src[i..]);
    }
    assert src[i..] == [] && dst + [] == dst;
  }

  lemma EncodeNothing()
    ensures Encode([]) == []
  {}

  lemma EncodeStep(s: seq<byte>, n: nat)
    requires s != [] && n == Min(3, |s|)
    ensures Encode(s) == Digits(Value(s[..n]), DigitsLeft(8 * n)) + Encode(s[n..])
  {}

  lemma DigitsHead(v: nat, n: nat)
    ensures n == 0 ==> Digits(v, n) == []
    ensures n > 0 ==> Digits(v, n) == [Itoa64(v % 64)] + Digits(v / 64, n - 1)
  {}

  /** The first inner loop of decode64: up to four digits into one value. */
  method Collect(src: string, start: nat) returns (i: nat, value: nat, bits: nat, ok: bool)
    requires start < |src|
    ensures start <= i <= |src|
    ensures ok <==> InAlphabet(src[start..start + Min(4, |src| - start)])
    ensures ok ==> i == start + Min(4, |src| - start) && bits == 6 * (i - start)
    ensures ok ==> value == Value64(src[start..i])
  {
    hide BitOr, Pow2, Value64, Atoi64;
    i, value, bits, ok := start, 0, 0, true;
    assert src[start..start] == [];
    Value64Nothing();
    while bits < 24 && i < |src|
      invariant start <= i <= |src| && bits == 6 * (i - start) && i - start <= 4
      invariant InAlphabet(src[start..i]) && value == Value64(src[start..i])
    {
      var c := Atoi64(src[i]);
      if c > 63 {
        assert src[start..start + Min(4, |src| - start)][i - start] == src[i];
        return i, value, bits, false;
      }
      Value64Snoc(src[start..i], src[i]);
      assert src[start..i + 1] == src[start..i] + [src[i]];
      BitOrDisjoint(value, c, bits);
      value := BitOr(value, c * Pow2(bits));
      i := i + 1;
      bits := bits + 6;
    }
  }

  lemma Value64Nothing()
    ensures Value64([]) == 0
  {}

  lemma BytesHead(v: nat, n: nat)
    requires n > 0
    ensures Bytes(v, n) == [v % 256] + Bytes(v / 256, n - 1)
    ensures v / Power(256, n) == v / 256 / Power(256, n - 1)
  {
    var p := Power(256, n - 1);
    assert v / 256 == p * (v / 256 / p) + v / 256 % p;
    assert v == (256 * p) * (v / 256 / p) + (256 * (v / 256 % p) + v % 256);
    DivModUnique(v, 256 * p, v / 256 / p, 256 * (v / 256 % p) + v % 256);
  }

  lemma DecodeStep(s: string, n: nat)
    requires s != [] && n == Min(4, |s|) && InAlphabet(s[..n]) && n >= 2
    requires Value64(s[..n]) / Power(256, n - 1) == 0
    ensures Decode(s) == if Decode(s[n..]).None? then None
                         else Some(Bytes(Value64(s[..n]), n - 1) + Decode(s[n..]).value)
  {}

  lemma DecodeFails(s: string, n: nat)
    requires s != [] && n == Min(4, |s|)
    requires !InAlphabet(s[..n]) || n == 1 || Value64(s[..n]) / Power(256, n - 1) != 0
    ensures Decode(s).None?
  {}

  /** What is still to be decoded, after the bytes in dst. */
  function Resume(dst: seq<byte>, rest: string): Option<seq<byte>> {
    if Decode(rest).None? then None else Some(dst + Decode(rest).value)
  }

  /** decode64 */
  method Decode64(src: string) returns (r: Option<seq<byte>>)
    ensures r == Decode(src)
  {
    hide Value64, Bytes, Decode, InAlphabet, Power;
    var dst: seq<byte> := [];
    var i := 0;
    assert src[0..] == src;
    assert Decode(src).Some? ==> [] + Decode(src).value == Decode(src).value;
    while i < |src|
      invariant 0 <= i <= |src| && Resume(dst, src[i..]) == Decode(src)
      decreases |src| - i
    {
      ghost var start, done := i, dst;
      ghost var n := Min(4, |src| - i);
      assert src[start..][..n] == src[start..start + n] && src[start..][n..] == src[start + n..];
      var value, bits, ok;
      i, value, bits, ok := Collect(src, i);
      if !ok || bits < 12 {
        DecodeFails(src[start..], n);
        return None;
      }
      ghost var v := value;
      value, dst := Emit(value, bits, dst);
      if value != 0 {
        DecodeFails(src[start..], n);
        return None;
      }
      DecodeStep(src[start..], n);
      ghost var b := Bytes(v, n - 1);
      assert dst == done + b;
      assert Decode(src[i..]).Some? ==> dst + Decode(src[i..]).value == done + (b + Decode(src[i..]).value);
    }
    DecodeNothing();
    assert src[i..] == [] && dst + [] == dst;
    r := Some(dst);
  }

  /** The second inner loop of decode64: whole bytes out of the value. */
  method Emit(value0: nat, bits0: nat, dst0: seq<byte>) returns (value: nat, dst: seq<byte>)
    requires bits0 in {12, 18, 24}
    ensures dst == dst0 + Bytes(value0, bits0 / 6 - 1)
    ensures value == value0 / Power(256, bits0 / 6 - 1)
  {
    hide Bytes, Power;
    value, dst := value0, dst0;
    var bits := bits0;
    while bits >= 8
      invariant bits in {0, 2, 4, 8, 10, 12, 16, 18, 24}
      invariant dst + Bytes(value, bits / 8) == dst0 + Bytes(value0, bits0 / 8)
      invariant value / Power(256, bits / 8) == value0 / Power(256, bits0 / 8)
      decreases bits
    {
      BytesHead(value, bits / 8);
      dst := dst + [value % 256];
      value := value / 256;
      bits := bits - 8;
    }
    BytesNone(value);
    assert bits0 / 8 == bits0 / 6 - 1;
  }

  lemma BytesNone(v: nat)
    ensures Bytes(v, 0) == [] && v / Power(256, 0) == v
  {}
}
