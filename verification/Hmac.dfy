/** Keyed hashing with MD5, SHA-1 or SHA-256: section 2 of RFC 2104, and the code that computes it with three hashers
    and one key buffer that is masked in place, twice. */
module Hmac {
  import opened Bytes
  import opened HexText
  import opened MerkleDamgard
  import opened Hashers

  // ----- RFC 2104 -----

  function Masked(key: seq<byte>, mask: byte): (bytes: seq<byte>)
    ensures |bytes| == |key|
    ensures forall i :: 0 <= i < |key| ==> bytes[i] == key[i] ^ mask
  {
    seq(|key|, i requires 0 <= i < |key| => key[i] ^ mask)
  }

  /** The key, or the digest of a key that is too long, filled up with zeros to the size of a block. */
  function BlockKey(m: HashMethod, key: seq<byte>): (block: seq<byte>)
    ensures |block| == 64
  {
    var k := if |key| <= 64 then key else Digest(m, key);
    k + Zeros(64 - |k|)
  }

  function Code(m: HashMethod, key: seq<byte>, text: seq<byte>): seq<byte> {
    var k := BlockKey(m, key);
    Digest(m, Masked(k, 0x5C) + Digest(m, Masked(k, 0x36) + text))
  }

  // ----- the code -----

  lemma Remask(x: byte)
    ensures (x ^ 0x36) ^ (0x5C ^ 0x36) == x ^ 0x5C
  {
  }

  method PrepareKey(m: HashMethod, key: seq<byte>) returns (usedKey: array<byte>)
    ensures fresh(usedKey) && usedKey[..] == BlockKey(m, key)
  {
    hide Digest;
    var used := key;
    if |key| > 64 {
      var keyHasher := new Hasher(m);
      keyHasher.Add(key);
      used := keyHasher.GetDigest();
      assert [] + key == key;
    }
    usedKey := new byte[64](_ => 0);
    for i := 0 to |used|
      invariant forall j :: 0 <= j < i ==> usedKey[j] == used[j]
      invariant forall j :: i <= j < 64 ==> usedKey[j] == 0
    {
      usedKey[i] := used[i];
    }
    assert usedKey[..] == used + Zeros(64 - |used|);
  }

  method XorAll(usedKey: array<byte>, mask: byte)
    modifies usedKey
    ensures usedKey[..] == Masked(old(usedKey[..]), mask)
  {
    for i := 0 to usedKey.Length
      invariant forall j :: 0 <= j < i ==> usedKey[j] == old(usedKey[j]) ^ mask
      invariant forall j :: i <= j < usedKey.Length ==> usedKey[j] == old(usedKey[j])
    {
      usedKey[i] := usedKey[i] ^ mask;
    }
  }

  /** A new hasher that has been given two pieces. */
  method Begin(m: HashMethod, a: seq<byte>, b: seq<byte>) returns (hasher: Hasher)
    ensures fresh(hasher) && fresh(hasher.hash) && fresh(hasher.buffer)
    ensures hasher.Valid() && hasher.algorithm == m && hasher.Message() == a + b
  {
    hide Hasher.Message, Hasher.Consistent;
    hasher := new Hasher(m);
    hasher.Add(a);
    hasher.Add(b);
    assert [] + a + b == a + b;
  }

  method Compute(m: HashMethod, data: seq<byte>, key: seq<byte>) returns (text: string)
    ensures text == Hex(Code(m, key, data))
  {
    ghost var k := BlockKey(m, key);
    hide Digest, Hex, Masked, BlockKey;
    var usedKey := PrepareKey(m, key);
    XorAll(usedKey, 0x36);
    var insideHasher := Begin(m, usedKey[..], data);
    var inside := insideHasher.GetDigest();

    // undo the first mask and apply the second
    assert usedKey[..] == Masked(k, 0x36);
    XorAll(usedKey, 0x5C ^ 0x36);
    MaskTwice(k);
    var finalHasher := Begin(m, usedKey[..], inside);
    text := finalHasher.GetHash();
  }

  lemma MaskTwice(k: seq<byte>)
    ensures Masked(Masked(k, 0x36), 0x5C ^ 0x36) == Masked(k, 0x5C)
  {
    forall i | 0 <= i < |k| {
      Remask(k[i]);
    }
  }

  // ----- equivalent keys -----

  /** Two keys that fit into a block give the same block key exactly when the longer one is the shorter one with
      zeros appended. */
  lemma ZeroExtendedKeys(m: HashMethod, a: seq<byte>, b: seq<byte>)
    requires |a| <= |b| <= 64
    ensures BlockKey(m, a) == BlockKey(m, b) <==> b == a + Zeros(|b| - |a|)
  {
    var p, q := BlockKey(m, a), BlockKey(m, b);
    if p == q {
      assert b == q[..|b|] == p[..|b|];
    }
  }

  /** Appending zeros to a key, up to the size of a block, does not change the code of any text. */
  lemma ZeroExtensionKeepsCode(m: HashMethod, key: seq<byte>, n: nat, text: seq<byte>)
    requires |key| + n <= 64
    ensures Code(m, key + Zeros(n), text) == Code(m, key, text)
  {
    ZeroExtendedKeys(m, key, key + Zeros(n));
  }

  /** A key longer than a block and its digest give the same code for any text. */
  lemma LongKeyIsItsDigest(m: HashMethod, key: seq<byte>, text: seq<byte>)
    requires |key| > 64
    ensures Code(m, Digest(m, key), text) == Code(m, key, text)
  {
    hide Digest;
  }
}
