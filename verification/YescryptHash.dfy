/** Hash of pkg/yescrypt/yescrypt_wrapper.go on the real key derivation: the
    relations of YescryptKey determine the key, so it is a function that the
    laws of the hash string apply to. */
module YescryptHash {
  import opened Bits
  import opened Strings
  import opened ScryptSpec
  import opened Smix
  import opened ScryptSmix
  import opened ScryptKey
  import opened Yescrypt
  import opened YescryptKey
  import opened Crypt64
  import HashString

  // The derivation determines the key

  /** Packed words are determined by the blocks they stand for. */
  lemma HoldsInjective(s: seq<bv64>, s': seq<bv64>, o: nat, b: seq<Block>, p: nat)
    requires Holds(s, o, b) && Holds(s', o, b) && o <= p < o + 8 * |b|
    ensures s[p] == s'[p]
  {
    hide Unpack, PackBlock;
    var k, t := (p - o) / 8, (p - o) % 8;
    assert p == o + 8 * k + t && k < |b|;
    HoldsAt(s, o, b, k);
    HoldsAt(s', o, b, k);
    PackUnpack(PackedAt(s, o + 8 * k));
    PackUnpack(PackedAt(s', o + 8 * k));
    SamePacked(s, s', o + 8 * k, t);
  }

  lemma SamePacked(s: seq<bv64>, s': seq<bv64>, o: nat, t: nat)
    requires o + 8 <= |s| && o + 8 <= |s'| && PackedAt(s, o) == PackedAt(s', o) && t < 8
    ensures s[o + t] == s'[o + t]
  {}

  /** A filled memory is determined by its first block. */
  lemma FilledInjective(s: seq<bv64>, s': seq<bv64>, b: seq<Block>, r: nat, m: nat)
    requires r >= 1 && |b| == 2 * r && Filled(s, b, r, m) && Filled(s', b, r, m)
    requires |s| == |s'| == Offset(r, m)
    ensures s == s'
  {
    hide Holds, Fill;
    forall p | 0 <= p < |s|
      ensures s[p] == s'[p]
    {
      var i := p / (16 * r);
      BlockOf(r, m, p);
      assert Holds(s, Offset(r, i), Fill(b, r, i)) && Holds(s', Offset(r, i), Fill(b, r, i));
      HoldsInjective(s, s', Offset(r, i), Fill(b, r, i), p);
    }
  }

  lemma BlockOf(r: nat, m: nat, p: nat)
    requires r >= 1 && p < Offset(r, m)
    ensures var i := p / (16 * r); i < m && Offset(r, i) <= p < Offset(r, i) + 16 * r
  {
    var i := p / (16 * r);
    assert p == 16 * r * i + p % (16 * r);
    if i >= m {
      MulMonotone(16 * r, m, i);
    }
  }

  lemma MulMonotone(a: nat, m: nat, i: nat)
    requires m <= i
    ensures a * m <= a * i
  {
    assert a * (i - m) == a * i - a * m;
  }

  lemma SeededUnique(b0: seq<bv8>, s: seq<bv64>, b1: seq<bv8>, s': seq<bv64>, b1': seq<bv8>)
    requires Seeded(b0, s, b1) && Seeded(b0, s', b1')
    ensures s == s' && b1 == b1'
  {
    hide Filled, Fill, BlockAt;
    SeedFits();
    FilledInjective(s, s', BlocksAt(b0, 0, 2), 1, 96);
    BlocksInjective(b1, b1', 0, 2);
  }

  lemma MixedUnique(mac: Mac, b0: seq<bv8>, pw: seq<bv8>, r: nat, n: nat,
                    b: seq<bv8>, p: seq<bv8>, b': seq<bv8>, p': seq<bv8>)
    requires r >= 1 && n >= 1 && |b0| == 128 * r
    requires Mixed(mac, b0, pw, r, n, b, p) && Mixed(mac, b0, pw, r, n, b', p')
    ensures b == b' && p == p'
  {
    hide Filled, Fill, SmixBlocks, BlockAt, BoxesOf, LoopCount;
    var s, b1 :|
      && Seeded(b0, s, b1) && p == mac(b1[64 * (2 * r - 1)..], pw) && |b| == |b0|
      && BlocksAt(b, 0, 2 * r) == SmixBlocks(BlocksAt(b1, 0, 2 * r), BoxesOf(s), r, n, LoopCount(n));
    var s', b1' :|
      && Seeded(b0, s', b1') && p' == mac(b1'[64 * (2 * r - 1)..], pw) && |b'| == |b0|
      && BlocksAt(b', 0, 2 * r) == SmixBlocks(BlocksAt(b1', 0, 2 * r), BoxesOf(s'), r, n, LoopCount(n));
    SeededUnique(b0, s, b1, s', b1');
    BlocksInjective(b, b', 0, 2 * r);
  }

  lemma PassUnique(h: Hashes, prehash: seq<bv8>, password: seq<bv8>, salt: seq<bv8>, r: nat, n: nat, len: nat,
                   k: seq<bv8>, k': seq<bv8>)
    requires h.Valid() && r >= 1 && n >= 1
    requires Pass(h, prehash, password, salt, r, n, len, k) && Pass(h, prehash, password, salt, r, n, len, k')
    ensures k == k'
  {
    hide Mixed;
    var b0 := FirstBytes(h, prehash, password, salt, r);
    var b, pw :| Mixed(h.mac, b0, b0[..32], r, n, b, pw) && k == h.pbkdf2(pw, b, len);
    var b', pw' :| Mixed(h.mac, b0, b0[..32], r, n, b', pw') && k' == h.pbkdf2(pw', b', len);
    MixedUnique(h.mac, b0, b0[..32], r, n, b, pw, b', pw');
  }

  lemma LastPassUnique(h: Hashes, password: seq<bv8>, salt: seq<bv8>, r: nat, n: nat, len: nat,
                       k: seq<bv8>, k': seq<bv8>)
    requires h.Valid() && r >= 1 && n >= 1 && len >= 32
    requires LastPass(h, password, salt, r, n, len, k) && LastPass(h, password, salt, r, n, len, k')
    ensures k == k' && |k| == len
  {
    hide Pass;
    var q :| Pass(h, PREHASH[..8], password, salt, r, n, len, q) && |q| == len && k == Seal(h, q);
    var q' :| Pass(h, PREHASH[..8], password, salt, r, n, len, q') && |q'| == len && k' == Seal(h, q');
    PassUnique(h, PREHASH[..8], password, salt, r, n, len, q, q');
  }

  /** Password, salt and parameters determine the derived key. */
  lemma DerivesUnique(h: Hashes, password: seq<bv8>, salt: seq<bv8>, r: nat, n: nat, len: nat,
                      k: seq<bv8>, k': seq<bv8>)
    requires h.Valid() && r >= 1 && n >= 1 && len >= 32
    requires Derives(h, password, salt, r, n, len, k) && Derives(h, password, salt, r, n, len, k')
    ensures k == k' && |k| == len
  {
    hide Pass, LastPass;
    if TwoPasses(n, r) {
      var q :| Pass(h, PREHASH, password, salt, r, n / 64, len, q) && |q| == len
            && LastPass(h, q[..32], salt, r, n, len, k);
      var q' :| Pass(h, PREHASH, password, salt, r, n / 64, len, q') && |q'| == len
             && LastPass(h, q'[..32], salt, r, n, len, k');
      PassUnique(h, PREHASH, password, salt, r, n / 64, len, q, q');
      LastPassUnique(h, q[..32], salt, r, n, len, k, k');
    } else {
      LastPassUnique(h, password, salt, r, n, len, k, k');
    }
  }

  // The key as a function, and the hash string on it

  function ToWords(b: seq<byte>): (w: seq<bv8>)
    ensures |w| == |b|
  {
    seq(|b|, i requires 0 <= i < |b| => b[i] as bv8)
  }

  function ToBytes(w: seq<bv8>): (b: seq<byte>)
    ensures |b| == |w|
  {
    seq(|w|, i requires 0 <= i < |w| => w[i] as int)
  }

  /** Both are the same bytes. */
  lemma Conversions(b: seq<byte>, w: seq<bv8>, i: nat)
    ensures i < |b| ==> ToWords(b)[i] == b[i] as bv8
    ensures i < |w| ==> ToBytes(w)[i] == w[i] as int
    ensures i < |w| ==> ToWords(ToBytes(w))[i] == w[i]
  {}

  /** The key of 32 bytes, if there is one. */
  ghost function DerivedKey(h: Hashes, password: seq<byte>, salt: seq<byte>, n: nat, r: nat): (k: Option<seq<byte>>)
    requires h.Valid()
    ensures k.Some? ==> |k.value| == 32
  {
    if Supported(n, r, 1) && exists key :: Derives(h, ToWords(password), ToWords(salt), r, n, 32, key) then
      var key :| Derives(h, ToWords(password), ToWords(salt), r, n, 32, key);
      DerivesUnique(h, ToWords(password), ToWords(salt), r, n, 32, key, key);
      Some(ToBytes(key))
    else None
  }

  /** Key(password, salt, N, r, 1, 32) as the hash string uses it. */
  ghost function KeyFunctionOf(h: Hashes): HashString.KeyFunction
    requires h.Valid()
  {
    (password: seq<byte>, salt: seq<byte>, n: nat, r: nat) => DerivedKey(h, password, salt, n, r)
  }

  lemma IsKeyFunction(h: Hashes)
    requires h.Valid()
    ensures HashString.IsKeyFunction(KeyFunctionOf(h))
  {
    hide DerivedKey;
  }

  /** The derivation computes DerivedKey and fails only on unsupported parameters. */
  method DeriveKey(h: Hashes, password: seq<byte>, salt: seq<byte>, n: nat, r: nat) returns (k: Option<seq<byte>>)
    requires h.Valid()
    ensures k == DerivedKey(h, password, salt, n, r)
    ensures k.Some? <==> Supported(n, r, 1)
  {
    hide Derives, ToWords, ToBytes;
    var res := Key(h, ToWords(password), ToWords(salt), n, r, 1, 32);
    if !res.Ok? {
      return None;
    }
    ghost var key :| Derives(h, ToWords(password), ToWords(salt), r, n, 32, key)
                  && |key| >= 32 && res.value == key[..32];
    SameKey(h, password, salt, n, r, key);
    assert key[..32] == key;
    k := Some(ToBytes(res.value));
  }

  lemma SameKey(h: Hashes, password: seq<byte>, salt: seq<byte>, n: nat, r: nat, key: seq<bv8>)
    requires h.Valid() && Supported(n, r, 1) && Derives(h, ToWords(password), ToWords(salt), r, n, 32, key)
    ensures |key| == 32 && DerivedKey(h, password, salt, n, r) == Some(ToBytes(key))
  {
    hide Derives, ToWords, ToBytes;
    forall key' | Derives(h, ToWords(password), ToWords(salt), r, n, 32, key')
      ensures key' == key && |key| == 32
    {
      DerivesUnique(h, ToWords(password), ToWords(salt), r, n, 32, key, key');
    }
  }

  /** The parameters that a setting can ask for are all supported. */
  lemma SettingSupported(nlog2: nat, r: nat)
    requires 10 <= nlog2 <= 18 && 1 <= r <= 32
    ensures Supported(Pow2(nlog2), r, 1)
  {
    hide Pow2;
    var n := Pow2(nlog2);
    Pow2Monotone(10, nlog2);
    Pow2Monotone(nlog2, 18);
    PowersAt();
    assert n * r <= n * 32 by {
      assert n * (32 - r) == n * 32 - n * r;
    }
    assert IsPow2(n);
  }

  lemma PowersAt()
    ensures Pow2(10) == 1024 && Pow2(18) == 262144
  {
    assert Pow2(8) == 256;
    Pow2Add(8, 2);
    Pow2Add(8, 8);
    Pow2Add(16, 2);
  }

  /** Hash: it fails exactly on an unsupported setting or a badly encoded salt,
      never in the key derivation. */
  method Hash(h: Hashes, password: seq<byte>, setting: string) returns (out: Option<string>)
    requires h.Valid()
    ensures out == HashString.Hash(KeyFunctionOf(h), password, setting)
    ensures out.Some? <==>
              HashString.Supported(setting) && Decode(setting[7..HashString.SaltEnd(setting)]).Some?
  {
    hide Decode, Encode, DerivedKey, Supported, Atoi64;
    if !HashString.Supported(setting) {
      return None;
    }
    var nlog2, r := Atoi64(setting[4]) + 1, Atoi64(setting[5]) + 1;
    var e := HashString.SaltEnd(setting);
    var salt := Decode64(setting[7..e]);
    if salt.None? {
      return None;
    }
    SettingSupported(nlog2, r);
    var key := DeriveKey(h, password, salt.value, Pow2(nlog2), r);
    var hash := Encode64(key.value);
    out := Some(setting[..e] + "$" + hash);
  }

  /** VerifyYescrypt: a fresh hash of the password against the stored one. */
  method Verify(h: Hashes, password: seq<byte>, hash: string) returns (out: Option<bool>)
    requires h.Valid()
    ensures out == HashString.Verify(KeyFunctionOf(h), password, hash)
  {
    hide HashString.Hash;
    var hashed := Hash(h, password, hash);
    if hashed.None? {
      return None;
    }
    out := Some(hash == hashed.value);
  }

  /** What a login relies on: the hash of a password under any usable setting has
      43 characters after the salt and accepts that password. */
  method HashThenVerify(h: Hashes, password: seq<byte>, setting: string) returns (hash: string, accepted: Option<bool>)
    requires h.Valid()
    requires HashString.Supported(setting) && Decode(setting[7..HashString.SaltEnd(setting)]).Some?
    ensures accepted == Some(true) && |hash| == HashString.SaltEnd(setting) + 44
  {
    hide HashString.Hash, HashString.Verify, DerivedKey, Decode;
    var out := Hash(h, password, setting);
    hash := out.value;
    IsKeyFunction(h);
    HashString.HashLength(KeyFunctionOf(h), password, setting);
    HashString.VerifyAccepts(KeyFunctionOf(h), password, setting);
    accepted := Verify(h, password, hash);
  }
}
