/** The codec and the hash string of pkg/yescrypt/yescrypt_wrapper.go in terms of
    their texts: the alphabet, what an encoding stands for, which settings are
    supported and what Hash makes of each part. */
module HashLaws {
  import opened Bits
  import opened Strings
  import opened Crypt64
  import opened HashString

  const UPPER: string := "ABCDEFGHIJKLMNOPQRSTUVWXYZ"
  const LOWER: string := "abcdefghijklmnopqrstuvwxyz"

  /** The constant itoa64. */
  const ALPHABET: string := "./0123456789" + UPPER + LOWER

  lemma DigitRun(v: nat)
    requires v < 12
    ensures "./0123456789"[v] == (v + '.' as int) as char
  {}

  lemma UpperRun(v: nat)
    requires v < 26
    ensures UPPER[v] == (v + 'A' as int) as char
  {}

  lemma LowerRun(v: nat)
    requires v < 26
    ensures LOWER[v] == (v + 'a' as int) as char
  {}

  lemma Alphabet(v: nat)
    requires v < 64
    ensures Itoa64(v) == ALPHABET[v]
  {
    if v < 12 {
      DigitRun(v);
    } else if v < 38 {
      UpperRun(v - 12);
    } else {
      LowerRun(v - 38);
    }
  }

  /** A character is worth its place in the alphabet, and 64 outside of it. */
  lemma AlphabetValue(c: char)
    ensures if c in ALPHABET then Atoi64(c) < 64 && ALPHABET[Atoi64(c)] == c else Atoi64(c) == 64
  {
    if Atoi64(c) < 64 {
      ItoaAtoi(c);
      Alphabet(Atoi64(c));
    } else if c in ALPHABET {
      var v :| 0 <= v < 64 && ALPHABET[v] == c;
      Alphabet(v);
      AtoiItoa(v);
    }
  }

  lemma {:induction false} ValueConcat(a: seq<byte>, b: seq<byte>)
    ensures Value(a + b) == Value(a) + Power(256, |a|) * Value(b)
  {
    if a == [] {
      assert a + b == b;
    } else {
      ValueConcat(a[1..], b);
      assert (a + b)[1..] == a[1..] + b;
      assert Power(256, |a|) == 256 * Power(256, |a| - 1);
      Regroup(256, a[0], Value(a[1..]), Power(256, |a| - 1), Value(b));
    }
  }

  lemma {:induction false} Value64Concat(a: string, b: string)
    requires InAlphabet(a) && InAlphabet(b)
    ensures InAlphabet(a + b) && Value64(a + b) == Value64(a) + Power(64, |a|) * Value64(b)
  {
    if a == [] {
      assert a + b == b;
    } else {
      Value64Concat(a[1..], b);
      assert (a + b)[1..] == a[1..] + b;
      assert Power(64, |a|) == 64 * Power(64, |a| - 1);
      Regroup(64, Atoi64(a[0]), Value64(a[1..]), Power(64, |a| - 1), Value64(b));
    }
  }

  lemma Regroup(base: nat, x: nat, y: nat, p: nat, z: nat)
    ensures x + base * (y + p * z) == x + base * y + base * p * z
  {}

  /** An encoding is the same number as its bytes, both read little-endian. */
  lemma {:induction false} EncodedValue(src: seq<byte>)
    ensures InAlphabet(Encode(src)) && Value64(Encode(src)) == Value(src)
  {
    hide Value, Value64, Digits, InAlphabet;
    if src == [] {
      EmptyValues();
    } else {
      var n := Min(3, |src|);
      var g, rest := src[..n], src[n..];
      var d := Digits(Value(g), n + 1);
      EncodedValue(rest);
      BytesValue(g);
      GroupFits(n);
      ValueDigits(Value(g), n + 1);
      Value64Concat(d, Encode(rest));
      ValueConcat(g, rest);
      assert src == g + rest;
      if n == 3 {
        assert Power(64, 4) == Power(256, 3) by {
          FullGroup();
        }
      } else {
        assert rest == [];
        EmptyValues();
      }
    }
  }

  lemma EmptyValues()
    ensures InAlphabet([]) && Value64([]) == 0 && Value([]) == 0
  {}

  lemma FullGroup()
    ensures Power(64, 4) == 16777216 == Power(256, 3)
  {
    assert Power(64, 2) == 64 * Power(64, 1) && Power(64, 3) == 64 * Power(64, 2);
    assert Power(256, 2) == 256 * Power(256, 1);
  }

  lemma EncodeOne()
    ensures Encode([1]) == "/."
  {
    assert Value([1]) == 1 && [1][..1] == [1];
    assert Digits(1, 2) == "/.";
  }

  lemma EncodeTwo()
    ensures Encode([0, 1]) == ".2."
  {
    assert [0, 1][1..] == [1] && Value([1]) == 1 && Value([0, 1]) == 256;
    assert [0, 1][..2] == [0, 1];
    assert Digits(4, 2) == "2." && Digits(256, 3) == ".2.";
  }

  lemma EncodeThree()
    ensures Encode([0, 0, 1]) == "..E."
  {
    assert [0, 0, 1][1..] == [0, 1] && [0, 1][1..] == [1];
    assert Value([1]) == 1 && Value([0, 1]) == 256 && Value([0, 0, 1]) == 65536;
    assert [0, 0, 1][..3] == [0, 0, 1];
    assert Digits(16, 2) == "E." && Digits(1024, 3) == ".E." && Digits(65536, 4) == "..E.";
  }

  /** The low bits come first. */
  lemma EncodeVectors()
    ensures Encode([1]) == "/." && Encode([0, 1]) == ".2." && Encode([0, 0, 1]) == "..E."
  {
    hide Encode;
    EncodeOne();
    EncodeTwo();
    EncodeThree();
  }

  /** A supported setting is "$y$j", one of nine characters for N, one of thirty-two
      for r, and a '$'. */
  lemma SupportedIff(setting: string)
    ensures Supported(setting) <==>
              |setting| >= 7 && setting[..4] == "$y$j" && setting[6] == '$'
              && setting[4] in "789ABCDEF" && setting[5] in "./0123456789ABCDEFGHIJKLMNOPQRST"
  {}

  /** The setting and the hash, part by part. */
  function Setting(n: char, r: char, salt: string): string { "$y$j" + [n, r] + "$" + salt }

  lemma SettingParts(n: char, r: char, salt: string, tail: string)
    requires '$' !in salt && (tail == "" || (tail[0] == '$' && '$' !in tail[1..]))
    ensures var s := Setting(n, r, salt) + tail;
            && |s| >= 7 && s[..4] == "$y$j" && s[4] == n && s[5] == r && s[6] == '$'
            && SaltEnd(s) == 7 + |salt| && s[7..7 + |salt|] == salt && s[..7 + |salt|] == Setting(n, r, salt)
  {
    var s := Setting(n, r, salt) + tail;
    assert s[7..7 + |salt|] == salt && s[..7 + |salt|] == Setting(n, r, salt);
    if tail == "" {
      assert forall j :: 6 < j < |s| ==> s[j] == salt[j - 7];
      LastIndexUnique(s, '$', 6);
    } else {
      var e := 7 + |salt|;
      assert s[e] == '$' && forall j :: e < j < |s| ==> s[j] == tail[1..][j - e - 1];
      LastIndexUnique(s, '$', e);
    }
  }

  /** Hash of a setting, with or without an old hash after it: the setting, a '$'
      and the encoded key of that salt with N = 2^(n + 1) and r + 1, n and r being
      the places of the two characters in the alphabet. */
  lemma HashParts(key: KeyFunction, password: seq<byte>, n: char, r: char, salt: string, tail: string)
    requires '$' !in salt && (tail == "" || (tail[0] == '$' && '$' !in tail[1..]))
    requires n in "789ABCDEF" && r in "./0123456789ABCDEFGHIJKLMNOPQRST"
    ensures Hash(key, password, Setting(n, r, salt) + tail) ==
            if Decode(salt).None? then None
            else
              var k := key(password, Decode(salt).value, Pow2(Atoi64(n) + 1), Atoi64(r) + 1);
              if k.None? then None else Some(Setting(n, r, salt) + "$" + Encode(k.value))
  {
    hide Decode, Encode, Atoi64, Setting, SaltEnd, Supported;
    SettingParts(n, r, salt, tail);
    SupportedIff(Setting(n, r, salt) + tail);
  }
}
