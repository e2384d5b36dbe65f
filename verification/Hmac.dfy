/** Message authentication with SHA-256 (RFC 2104). */
module Hmac {
  import opened Sha

  function XorAll(bytes: seq<bv8>, mask: bv8): (r: seq<bv8>)
    ensures |r| == |bytes|
  {
    seq(|bytes|, i requires 0 <= i < |bytes| => bytes[i] ^ mask)
  }

  /** A key of the length of a block: a longer one is hashed, then zeros are appended. */
  function BlockKey(key: seq<bv8>): (k: seq<bv8>)
    ensures |k| == 64
  {
    var short := if |key| <= 64 then key else Digest(key);
    short + Zeros(64 - |short|)
  }

  function Hmac256(key: seq<bv8>, contents: seq<bv8>): (mac: seq<bv8>)
    ensures |mac| == 32
  {
    var k := BlockKey(key);
    Digest(XorAll(k, 0x5c) + Digest(XorAll(k, 0x36) + contents))
  }

  lemma XorZero(x: bv8)
    ensures 0 ^ x == x
  {
  }

  lemma XorComm(x: bv8, y: bv8)
    ensures x ^ y == y ^ x
  {
  }

  /** Adds a key to both pads in place. */
  method XorPads(ipad: array<bv8>, opad: array<bv8>, key: seq<bv8>)
    requires ipad != opad && ipad.Length == 64 && opad.Length == 64 && |key| <= 64
    requires (forall i :: 0 <= i < 64 ==> ipad[i] == 0x36) && (forall i :: 0 <= i < 64 ==> opad[i] == 0x5c)
    modifies ipad, opad
    ensures ipad[..] == XorAll(key + Zeros(64 - |key|), 0x36) && opad[..] == XorAll(key + Zeros(64 - |key|), 0x5c)
  {
    ghost var k := key + Zeros(64 - |key|);
    for i := 0 to |key|
      invariant forall j :: 0 <= j < i ==> ipad[j] == k[j] ^ 0x36 && opad[j] == k[j] ^ 0x5c
      invariant forall j :: i <= j < 64 ==> ipad[j] == 0x36 && opad[j] == 0x5c
    {
      XorComm(0x36, key[i]);
      XorComm(0x5c, key[i]);
      ipad[i] := ipad[i] ^ key[i];
      opad[i] := opad[i] ^ key[i];
    }
    XorZero(0x36);
    XorZero(0x5c);
  }

  /** Computes the authentication code of a message. */
  method Authenticate(key: seq<bv8>, contents: seq<bv8>) returns (mac: seq<bv8>)
    ensures mac == Hmac256(key, contents)
  {
    hide Digest, XorAll, Zeros;
    var ipad := new bv8[64](_ => 0x36);
    var opad := new bv8[64](_ => 0x5c);
    if |key| <= 64 {
      XorPads(ipad, opad, key);
    } else {
      var hashed := Hash(key);
      XorPads(ipad, opad, hashed);
    }
    var ihash := HashTwo(ipad[..], contents);
    mac := HashTwo(opad[..], ihash);
  }

  /** Hashes a message in two parts. */
  method HashTwo(first: seq<bv8>, second: seq<bv8>) returns (digest: seq<bv8>)
    ensures digest == Digest(first + second)
  {
    hide Digest, Compressed, HashBlock, Whole, Rest;
    var hasher := new Sha256();
    hasher.Update(first);
    hasher.Update(second);
    assert hasher.message == first + second;
    digest := hasher.Finalize();
  }

  /** Whether a message has an authentication code. */
  method Verify(key: seq<bv8>, contents: seq<bv8>, mac: seq<bv8>) returns (ok: bool)
    ensures ok <==> mac == Hmac256(key, contents)
  {
    hide Hmac256;
    var expected := Authenticate(key, contents);
    ok := expected == mac;
  }

  /** Whether a message has an authentication code that starts with 16 given bytes. */
  method VerifyFirst(key: seq<bv8>, contents: seq<bv8>, pin: seq<bv8>) returns (ok: bool)
    requires |pin| == 16
    ensures ok <==> pin <= Hmac256(key, contents)
  {
    hide Hmac256;
    var expected := Authenticate(key, contents);
    ok := expected[..16] == pin;
  }
}
