/** deriveKey of pkg/yescrypt/yescrypt.go for yescrypt: parameter checks, buffer
    sizes and the optional first pass with a sixty-fourth of the memory. */
module YescryptKey {
  import opened Bits
  import opened Smix
  import opened ScryptKey
  import opened Yescrypt

  /** HMAC-SHA256, SHA-256 and PBKDF2-HMAC-SHA256 with one iteration. */
  datatype Hashes = Hashes(mac: Mac, sha: seq<bv8> -> seq<bv8>, pbkdf2: (seq<bv8>, seq<bv8>, nat) -> seq<bv8>) {
    ghost predicate Valid() {
      && (forall k, m :: |mac(k, m)| == 32) && (forall m :: |sha(m)| == 32)
      && (forall pw, salt, len :: |pbkdf2(pw, salt, len)| == len)
    }
  }

  /** One pass over the memory: from a password to a key of len bytes. */
  ghost predicate Pass(h: Hashes, prehash: seq<bv8>, password: seq<bv8>, salt: seq<bv8>, r: nat, n: nat, len: nat,
                       key: seq<bv8>)
    requires h.Valid() && r >= 1 && n >= 1
  {
    exists b, pw ::
      && Mixed(h.mac, FirstBytes(h, prehash, password, salt, r), FirstBytes(h, prehash, password, salt, r)[..32], r, n, b, pw)
      && key == h.pbkdf2(pw, b, len)
  }

  function FirstBytes(h: Hashes, prehash: seq<bv8>, password: seq<bv8>, salt: seq<bv8>, r: nat): (b: seq<bv8>)
    requires h.Valid() && r >= 1
    ensures |b| == 128 * r
  {
    h.pbkdf2(h.mac(prehash, password), salt, 128 * r)
  }

  method RunPass(h: Hashes, prehash: seq<bv8>, password: seq<bv8>, salt: seq<bv8>, r: nat, n: nat, len: nat,
                 v: array<bv64>, xy: array<bv64>)
    returns (key: seq<bv8>)
    requires h.Valid() && xy != v && r >= 1 && n >= 1
    requires Offset(r, n) <= v.Length && xy.Length == 16 * (if r < 2 then 2 else r)
    modifies v, xy
    ensures Pass(h, prehash, password, salt, r, n, len, key) && |key| == len
  {
    hide Mixed, Offset;
    var b0 := FirstBytes(h, prehash, password, salt, r);
    var b := new bv8[|b0|](i requires 0 <= i < |b0| => b0[i]);
    assert b[..] == b0;
    var pw := SmixYescrypt(h.mac, b, r, n, v, xy, b0[..32]);
    key := h.pbkdf2(pw, b[..], len);
  }

  /** The test for a first pass with N / 64. */
  predicate TwoPasses(n: nat, r: nat) { n >= 0x100 && n * r >= 0x20000 }

  const PREHASH: seq<bv8> :=
    [0x79, 0x65, 0x73, 0x63, 0x72, 0x79, 0x70, 0x74, 0x2d, 0x70, 0x72, 0x65, 0x68, 0x61, 0x73, 0x68]
  const CLIENT_KEY: seq<bv8> := [0x43, 0x6c, 0x69, 0x65, 0x6e, 0x74, 0x20, 0x4b, 0x65, 0x79]

  /** The final key: its first 32 bytes are hashed once more. */
  function Seal(h: Hashes, key: seq<bv8>): (k: seq<bv8>)
    requires h.Valid() && |key| >= 32
    ensures |k| == |key|
  {
    h.sha(h.mac(key[..32], CLIENT_KEY)) + key[32..]
  }

  /** The key that yescrypt derives with the memory size n. */
  ghost predicate Derives(h: Hashes, password: seq<bv8>, salt: seq<bv8>, r: nat, n: nat, len: nat, key: seq<bv8>)
    requires h.Valid() && r >= 1 && n >= 1 && len >= 32
  {
    if TwoPasses(n, r) then
      exists k0 :: Pass(h, PREHASH, password, salt, r, n / 64, len, k0) && |k0| == len
                && LastPass(h, k0[..32], salt, r, n, len, key)
    else LastPass(h, password, salt, r, n, len, key)
  }

  ghost predicate LastPass(h: Hashes, password: seq<bv8>, salt: seq<bv8>, r: nat, n: nat, len: nat, key: seq<bv8>)
    requires h.Valid() && r >= 1 && n >= 1 && len >= 32
  {
    exists k :: Pass(h, PREHASH[..8], password, salt, r, n, len, k) && |k| == len && key == Seal(h, k)
  }

  lemma SmallerFits(r: nat, n: nat)
    ensures Offset(r, n / 64) <= Offset(r, n)
  {
    assert 16 * r * (n - n / 64) >= 0;
  }

  /** Key: succeeds exactly on the supported parameters with p = 1. */
  method Key(h: Hashes, password: seq<bv8>, salt: seq<bv8>, n: int, r: int, p: int, keyLen: int)
    returns (res: Result<seq<bv8>>)
    requires h.Valid()
    ensures res.Err? <==> !(Supported(n, r, p) && p == 1)
    ensures res.Panic? <==> Supported(n, r, p) && p == 1 && keyLen < 0
    ensures res.Ok? ==>
              exists key :: Derives(h, password, salt, r, n, if keyLen < 32 then 32 else keyLen, key)
                         && |key| >= keyLen && res.value == key[..keyLen]
  {
    hide Pass, BitAnd, Offset, Seal;
    if n <= 1 {
      return Err;
    }
    PowerOfTwoTest(n);
    if BitAnd(n, n - 1) != 0 {
      return Err;
    }
    if r <= 0 || p != 1 {
      return Err;
    }
    TooLargeIff(n, r, p);
    if TooLarge(n, r, p) {
      return Err;
    }
    var len := if keyLen < 32 then 32 else keyLen;
    OffsetIs(r, n);
    var v := new bv64[16 * r * n];
    var xy := new bv64[16 * (if r < 2 then 2 else r)];
    var pw := password;
    if TwoPasses(n, r) {
      SmallerFits(r, n);
      var k0 := RunPass(h, PREHASH, password, salt, r, n / 64, len, v, xy);
      pw := k0[..32];
    }
    var key := RunPass(h, PREHASH[..8], pw, salt, r, n, len, v, xy);
    assert LastPass(h, pw, salt, r, n, len, Seal(h, key));
    key := Seal(h, key);
    assert Derives(h, password, salt, r, n, len, key);
    res := if keyLen < 0 then Panic else Ok(key[..keyLen]);
  }
}
