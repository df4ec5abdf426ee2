/** Hash and VerifyYescrypt: the setting string, its salt and its fixpoint. */
module HashString {
  import opened Bits
  import opened Strings
  import opened Crypt64

  /** The key derivation: password, salt, N and r to a key, or an error. */
  type KeyFunction = (seq<byte>, seq<byte>, nat, nat) -> Option<seq<byte>>

  ghost predicate IsKeyFunction(key: KeyFunction) {
    forall pw, salt, n, r :: key(pw, salt, n, r).Some? ==> |key(pw, salt, n, r).value| == 32
  }

  /** bytes.LastIndexByte, -1 if there is none. */
  function LastIndex(s: string, c: char): (i: int)
    ensures -1 <= i < |s|
    ensures i >= 0 ==> s[i] == c
    ensures forall j :: i < j < |s| ==> s[j] != c
  {
    if s == [] then -1
    else if s[|s| - 1] == c then |s| - 1
    else LastIndex(s[..|s| - 1], c)
  }

  predicate Supported(setting: string) {
    && |setting| >= 7 && setting[..4] == "$y$j" && setting[6] == '$'
    && 10 <= Atoi64(setting[4]) + 1 <= 18
    && 1 <= Atoi64(setting[5]) + 1 <= 32
  }

  /** Where the salt ends: at the last '$' after the parameters, or at the end. */
  function SaltEnd(setting: string): (e: nat)
    requires |setting| >= 7
    ensures 7 <= e <= |setting|
  {
    var i := LastIndex(setting, '$');
    if i < 7 then |setting| else i
  }

  /** Hash, with None for its errors. */
  function Hash(key: KeyFunction, password: seq<byte>, setting: string): Option<string> {
    if !Supported(setting) then None
    else
      var e := SaltEnd(setting);
      var salt := Decode(setting[7..e]);
      if salt.None? then None
      else
        var k := key(password, salt.value, Pow2(Atoi64(setting[4]) + 1), Atoi64(setting[5]) + 1);
        if k.None? then None else Some(setting[..e] + "$" + Encode(k.value))
  }

  lemma LastIndexUnique(s: string, c: char, i: nat)
    requires i < |s| && s[i] == c && forall j :: i < j < |s| ==> s[j] != c
    ensures LastIndex(s, c) == i
  {}

  /** The hash ends its salt where the setting did. */
  lemma SaltEndKept(setting: string, e: nat, enc: string)
    requires |setting| >= 7 && 7 <= e <= |setting| && '$' !in enc
    ensures SaltEnd(setting[..e] + "$" + enc) == e
  {
    var h := setting[..e] + "$" + enc;
    assert h[e] == '$' && forall j :: e < j < |h| ==> h[j] == enc[j - e - 1];
    LastIndexUnique(h, '$', e);
  }

  /** Hash(pw, s) = h implies Hash(pw, h) = h. */
  lemma HashFixpoint(key: KeyFunction, password: seq<byte>, setting: string)
    requires Hash(key, password, setting).Some?
    ensures Hash(key, password, Hash(key, password, setting).value) == Hash(key, password, setting)
  {
    hide Decode, Encode, Atoi64;
    var e := SaltEnd(setting);
    var salt := Decode(setting[7..e]).value;
    var k := key(password, salt, Pow2(Atoi64(setting[4]) + 1), Atoi64(setting[5]) + 1).value;
    var enc := Encode(k);
    var h := setting[..e] + "$" + enc;
    NoDollar(k);
    SaltEndKept(setting, e, enc);
    assert h[..e] == setting[..e] && h[7..e] == setting[7..e];
    assert h[..4] == setting[..4] && h[4] == setting[4] && h[5] == setting[5] && h[6] == setting[6];
  }

  /** VerifyYescrypt: None for an error, otherwise whether the password is right. */
  function Verify(key: KeyFunction, password: seq<byte>, hash: string): Option<bool> {
    var hashed := Hash(key, password, hash);
    if hashed.None? then None else Some(hash == hashed.value)
  }

  /** A password verifies against every hash made from it. */
  lemma VerifyAccepts(key: KeyFunction, password: seq<byte>, setting: string)
    requires Hash(key, password, setting).Some?
    ensures Verify(key, password, Hash(key, password, setting).value) == Some(true)
  {
    HashFixpoint(key, password, setting);
  }

  /** Another password verifies exactly if it derives the same key: the hash
      string fixes salt, parameters and key. */
  lemma VerifyIffSameKey(key: KeyFunction, password: seq<byte>, other: seq<byte>, setting: string)
    requires Hash(key, password, setting).Some?
    ensures var salt := Decode(setting[7..SaltEnd(setting)]).value;
            var n, r := Pow2(Atoi64(setting[4]) + 1), Atoi64(setting[5]) + 1;
            Verify(key, other, Hash(key, password, setting).value) ==
            if key(other, salt, n, r).None? then None
            else Some(key(other, salt, n, r) == key(password, salt, n, r))
  {
    hide Decode, Encode, Atoi64;
    var e := SaltEnd(setting);
    var salt := Decode(setting[7..e]).value;
    var k := key(password, salt, Pow2(Atoi64(setting[4]) + 1), Atoi64(setting[5]) + 1).value;
    var h := setting[..e] + "$" + Encode(k);
    NoDollar(k);
    SaltEndKept(setting, e, Encode(k));
    assert h[..e] == setting[..e] && h[7..e] == setting[7..e];
    assert h[..4] == setting[..4] && h[4] == setting[4] && h[5] == setting[5] && h[6] == setting[6];
    var k' := key(other, salt, Pow2(Atoi64(setting[4]) + 1), Atoi64(setting[5]) + 1);
    if k'.Some? {
      DecodeEncode(k);
      DecodeEncode(k'.value);
      var h' := setting[..e] + "$" + Encode(k'.value);
      assert h[e + 1..] == Encode(k) && h'[e + 1..] == Encode(k'.value);
      assert Hash(key, other, h) == Some(h');
    }
  }

  /** The hash is the setting up to its salt, a '$' and 43 characters. */
  lemma HashLength(key: KeyFunction, password: seq<byte>, setting: string)
    requires IsKeyFunction(key) && Hash(key, password, setting).Some?
    ensures |Hash(key, password, setting).value| == SaltEnd(setting) + 44
  {
    var k := key(password, Decode(setting[7..SaltEnd(setting)]).value,
                 Pow2(Atoi64(setting[4]) + 1), Atoi64(setting[5]) + 1).value;
    EncodedLength(k);
  }
}
