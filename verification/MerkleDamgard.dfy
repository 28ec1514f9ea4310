/** What MD5, SHA-1 and SHA-256 have in common: the padding of a message, the fold of the compression
    function over its blocks, and the digest. */
module MerkleDamgard {
  import opened Bytes
  import opened Sequences
  import opened Words
  import Md5
  import Sha1
  import Sha256

  datatype HashMethod = MD5 | SHA1 | SHA256 {
    /** The number of words of the chaining value. */
    function Values(): nat {
      match this
      case MD5 => 4
      case SHA1 => 5
      case SHA256 => 8
    }

    function DigestBytes(): nat {
      4 * Values()
    }

    function Initial(): (hash: seq<word>)
      ensures |hash| == Values()
    {
      match this
      case MD5 => [0x67452301, 0xefcdab89, 0x98badcfe, 0x10325476]
      case SHA1 => [0x67452301, 0xefcdab89, 0x98badcfe, 0x10325476, 0xc3d2e1f0]
      case SHA256 => [0x6a09e667, 0xbb67ae85, 0x3c6ef372, 0xa54ff53a, 0x510e527f, 0x9b05688c, 0x1f83d9ab, 0x5be0cd19]
    }

    function Compress(hash: seq<word>, block: seq<byte>): (next: seq<word>)
      requires |hash| == Values() && |block| == 64
      ensures |next| == Values()
    {
      match this
      case MD5 => Md5.Compress(hash, block)
      case SHA1 => Sha1.Compress(hash, block)
      case SHA256 => Sha256.Compress(hash, block)
    }

    /** Words leave the digest, and the length enters the padding, in the byte order of the method. */
    function StoreWord(x: word): (bytes: seq<byte>)
      ensures |bytes| == 4
    {
      if MD5? then StoreLittle(x) else StoreBig(x)
    }
  }

  // ----- the fold over the blocks -----

  /** Compress all full blocks of data, in order. */
  function Blocks(m: HashMethod, hash: seq<word>, data: seq<byte>): (next: seq<word>)
    requires |hash| == m.Values()
    ensures |next| == m.Values()
    decreases |data|
  {
    if |data| < 64 then hash
    else Blocks(m, m.Compress(hash, data[..64]), data[64..])
  }

  lemma {:induction false} BlocksAppend(m: HashMethod, hash: seq<word>, a: seq<byte>, b: seq<byte>)
    requires |hash| == m.Values() && |a| % 64 == 0
    ensures Blocks(m, hash, a + b) == Blocks(m, Blocks(m, hash, a), b)
    decreases |a|
  {
    hide HashMethod.Compress;
    if a == [] {
      assert a + b == b;
    } else {
      assert (a + b)[..64] == a[..64];
      assert (a + b)[64..] == a[64..] + b;
      BlocksAppend(m, m.Compress(hash, a[..64]), a[64..], b);
    }
  }

  lemma OneBlock(m: HashMethod, hash: seq<word>, block: seq<byte>)
    requires |hash| == m.Values() && |block| == 64
    ensures Blocks(m, hash, block) == m.Compress(hash, block)
  {
    hide HashMethod.Compress;
    assert block[..64] == block;
  }

  lemma BlocksGrow(m: HashMethod, hash: seq<word>, data: seq<byte>, block: seq<byte>)
    requires |hash| == m.Values() && |data| % 64 == 0 && |block| == 64
    ensures Blocks(m, hash, data + block) == m.Compress(Blocks(m, hash, data), block)
  {
    hide Blocks, HashMethod.Compress;
    BlocksAppend(m, hash, data, block);
    OneBlock(m, Blocks(m, hash, data), block);
  }

  lemma OneBlockMore(n: nat, k: nat)
    requires n % 64 == 0 && k == n + 64
    ensures k % 64 == 0
  {
  }

  lemma BlocksGrowTwice(m: HashMethod, hash: seq<word>, data: seq<byte>, first: seq<byte>, second: seq<byte>)
    requires |hash| == m.Values() && |data| % 64 == 0 && |first| == |second| == 64
    ensures Blocks(m, hash, data + (first + second)) == m.Compress(m.Compress(Blocks(m, hash, data), first), second)
  {
    hide *;
    var longer := data + first;
    OneBlockMore(|data|, |longer|);
    BlocksGrow(m, hash, longer, second);
    BlocksGrow(m, hash, data, first);
    Regroup(data, first, second);
  }

  function StoreWords(m: HashMethod, hash: seq<word>): (bytes: seq<byte>)
    ensures |bytes| == 4 * |hash|
  {
    if hash == [] then [] else m.StoreWord(hash[0]) + StoreWords(m, hash[1..])
  }

  lemma StoreWordsAppend(m: HashMethod, a: seq<word>, x: word)
    ensures StoreWords(m, a + [x]) == StoreWords(m, a) + m.StoreWord(x)
  {
    if a == [] {
      assert a + [x] == [x];
    } else {
      assert (a + [x])[1..] == a[1..] + [x];
      StoreWordsAppend(m, a[1..], x);
    }
  }

  /** The digest of a message: the fold over the padded message, from the initial value. */
  function Digest(m: HashMethod, message: seq<byte>): (digest: seq<byte>)
    ensures |digest| == m.DigestBytes()
  {
    StoreWords(m, Blocks(m, m.Initial(), Padded(m, message)))
  }

  // ----- padding -----

  function ZeroCount(length: nat): (n: nat)
    ensures n < 64 && (length + 1 + n) % 64 == 56
  {
    (119 - length % 64) % 64
  }

  /** n shifted right by i bytes. */
  function Shifted(n: nat, i: nat): nat {
    if i == 0 then n else Shifted(n, i - 1) / 256
  }

  /** The eight bytes of a 64-bit number: least significant first for MD5, most significant first otherwise. */
  function LengthBytes(m: HashMethod, n: nat): (bytes: seq<byte>)
    ensures |bytes| == 8
  {
    var b0, b1, b2, b3 := NumberByte(n, 0), NumberByte(n, 1), NumberByte(n, 2), NumberByte(n, 3);
    var b4, b5, b6, b7 := NumberByte(n, 4), NumberByte(n, 5), NumberByte(n, 6), NumberByte(n, 7);
    if m.MD5? then [b0, b1, b2, b3, b4, b5, b6, b7] else [b7, b6, b5, b4, b3, b2, b1, b0]
  }

  function NumberByte(n: nat, i: nat): byte {
    ToByte(Shifted(n, i) % 256)
  }

  /** The number that bytes i and up of an eight-byte number stand for. */
  function LengthValue(m: HashMethod, bytes: seq<byte>, i: nat): int
    requires |bytes| == 8 && i <= 8
    decreases 8 - i
  {
    if i == 8 then 0
    else FromByte(bytes[if m.MD5? then i else 7 - i]) + 256 * LengthValue(m, bytes, i + 1)
  }

  /** What follows a message of the given length: a single one bit, zeros, and the number of bits modulo 2^64. */
  function Padding(m: HashMethod, length: nat): (bytes: seq<byte>)
    ensures |bytes| == ZeroCount(length) + 9
  {
    [0x80] + Zeros(ZeroCount(length)) + LengthBytes(m, BitLength(length))
  }

  /** A 64-bit counter keeps a number modulo 2^64. */
  function Wrap64(n: nat): (w: nat)
    ensures w < 0x1_0000_0000_0000_0000
  {
    n % 0x1_0000_0000_0000_0000
  }

  function BitLength(length: nat): nat {
    Wrap64(8 * length)
  }

  lemma WrapIgnoresMultiples(n: nat, k: nat)
    ensures Wrap64(n + 0x1_0000_0000_0000_0000 * k) == Wrap64(n)
  {
  }

  /** Wrapping a counter before adding to it, or before counting in bits, makes no difference. */
  lemma WrappedSums(p: nat, r: nat)
    ensures Wrap64(Wrap64(p) + r) == Wrap64(p + r)
    ensures Wrap64(8 * (Wrap64(p) + r)) == BitLength(p + r)
  {
    var k := p / 0x1_0000_0000_0000_0000;
    assert p == Wrap64(p) + 0x1_0000_0000_0000_0000 * k;
    hide Wrap64;
    WrapIgnoresMultiples(Wrap64(p) + r, k);
    WrapIgnoresMultiples(8 * (Wrap64(p) + r), 8 * k);
  }

  function Padded(m: HashMethod, message: seq<byte>): (bytes: seq<byte>)
    ensures |bytes| % 64 == 0
  {
    hide ZeroCount, Padding;
    FullBlocks(|message|, ZeroCount(|message|));
    message + Padding(m, |message|)
  }

  lemma FullBlocks(length: nat, n: nat)
    requires (length + 1 + n) % 64 == 56
    ensures (length + n + 9) % 64 == 0
  {
  }

  lemma RestLength(full: nat, rest: nat)
    requires full % 64 == 0 && rest < 64
    ensures ZeroCount(full + rest) == (if rest < 56 then 55 - rest else 119 - rest)
  {
    assert (full + rest) % 64 == rest;
  }

  /** The rest of a message with the one bit appended and filled up with zeros. */
  function Filled(rest: seq<byte>): (block: seq<byte>)
    requires |rest| < 64
    ensures |block| == 64 && block[..|rest|] == rest
  {
    rest + [0x80] + Zeros(63 - |rest|)
  }

  /** How the rest of a message and its padding lie in one or two blocks. */
  lemma PaddingLayout(m: HashMethod, full: nat, rest: seq<byte>)
    requires full % 64 == 0 && |rest| < 64
    ensures var length := LengthBytes(m, BitLength(full + |rest|));
            rest + Padding(m, full + |rest|)
            == if |rest| < 56 then Filled(rest)[..56] + length else Filled(rest) + (Zeros(56) + length)
  {
    hide LengthBytes, BitLength, ZeroCount;
    RestLength(full, |rest|);
  }

  /** The blocks hold the rest of a message of the given length and its padding; the second one is used only when
      the length does not fit into the first. */
  ghost predicate HoldsPadding(m: HashMethod, length: nat, rest: seq<byte>, first: seq<byte>, second: seq<byte>) {
    && |rest| < 64
    && var bits := LengthBytes(m, BitLength(length));
       if |rest| < 56 then first == Filled(rest)[..56] + bits
       else first == Filled(rest) && second == Zeros(56) + bits
  }

  lemma ShortPadding(m: HashMethod, length: nat, rest: seq<byte>, first: seq<byte>, second: seq<byte>)
    requires |rest| < 56 && |first| == 64
    requires first[..56] == Filled(rest)[..56] && first[56..] == LengthBytes(m, BitLength(length))
    ensures HoldsPadding(m, length, rest, first, second)
    ensures first[..|rest|] == rest
  {
    hide Filled, LengthBytes;
    assert first == first[..56] + first[56..];
    assert first[..|rest|] == Filled(rest)[..|rest|];
  }

  lemma LongPadding(m: HashMethod, length: nat, rest: seq<byte>, first: seq<byte>, second: seq<byte>)
    requires 56 <= |rest| < 64 && first == Filled(rest) && |second| == 64
    requires second[..56] == Zeros(56) && second[56..] == LengthBytes(m, BitLength(length))
    ensures HoldsPadding(m, length, rest, first, second)
    ensures first[..|rest|] == rest
  {
    hide Filled, LengthBytes;
    assert second == second[..56] + second[56..];
  }

  /** The unprocessed rest of a message and its padding fill exactly one or two blocks. */
  lemma LastBlocks(m: HashMethod, full: seq<byte>, rest: seq<byte>, first: seq<byte>, second: seq<byte>)
    requires |full| % 64 == 0 && HoldsPadding(m, |full| + |rest|, rest, first, second)
    ensures |first| == 64 && (|rest| >= 56 ==> |second| == 64)
    ensures var hash := m.Compress(Blocks(m, m.Initial(), full), first);
            Blocks(m, m.Initial(), Padded(m, full + rest))
            == if |rest| < 56 then hash else m.Compress(hash, second)
  {
    hide Blocks, Padding, Padded, Filled, LengthBytes, BitLength, HashMethod.Compress, HashMethod.Initial;
    PaddedSplit(m, full, rest);
    PaddingLayout(m, |full|, rest);
    if |rest| < 56 {
      BlocksGrow(m, m.Initial(), full, first);
    } else {
      BlocksGrowTwice(m, m.Initial(), full, first, second);
    }
  }

  lemma PaddedSplit(m: HashMethod, full: seq<byte>, rest: seq<byte>)
    ensures Padded(m, full + rest) == full + (rest + Padding(m, |full| + |rest|))
  {
    hide Padding;
  }

  lemma LengthByteAt(m: HashMethod, n: nat, i: nat)
    requires i < 8
    ensures LengthBytes(m, n)[if m.MD5? then i else 7 - i] == NumberByte(n, i)
  {
    hide NumberByte;
  }

  lemma {:induction false} LengthRoundTrip(m: HashMethod, n: nat, i: nat)
    requires n < 0x1_0000_0000_0000_0000 && i <= 8
    ensures LengthValue(m, LengthBytes(m, n), i) == Shifted(n, i)
    decreases 8 - i
  {
    if i == 8 {
      hide LengthBytes;
      ShiftedToNothing(n);
    } else {
      hide ToByte, FromByte, LengthBytes, LengthValue, NumberByte, Shifted;
      LengthRoundTrip(m, n, i + 1);
      LengthByteAt(m, n, i);
      ByteOfNumber(n, i);
      LengthValueStep(m, LengthBytes(m, n), i);
    }
  }

  /** A byte of a number and the bytes above it are the number from that byte on. */
  lemma ByteOfNumber(n: nat, i: nat)
    ensures Shifted(n, i) == FromByte(NumberByte(n, i)) + 256 * Shifted(n, i + 1)
  {
    hide ToByte, FromByte;
    ByteRoundTrip(Shifted(n, i) % 256);
  }

  lemma LengthValueStep(m: HashMethod, bytes: seq<byte>, i: nat)
    requires |bytes| == 8 && i < 8
    ensures LengthValue(m, bytes, i)
         == FromByte(bytes[if m.MD5? then i else 7 - i]) + 256 * LengthValue(m, bytes, i + 1)
  {
  }

  lemma ShiftedToNothing(n: nat)
    requires n < 0x1_0000_0000_0000_0000
    ensures Shifted(n, 8) == 0
  {
    assert Shifted(n, 1) < 0x100_0000_0000_0000;
    assert Shifted(n, 2) < 0x1_0000_0000_0000;
    assert Shifted(n, 3) < 0x100_0000_0000;
    assert Shifted(n, 4) < 0x1_0000_0000;
    assert Shifted(n, 5) < 0x100_0000;
    assert Shifted(n, 6) < 0x1_0000;
    assert Shifted(n, 7) < 0x100;
  }

  /** Equal lengths modulo 2^64 bits and nearly equal lengths are equal lengths. */
  lemma SameLength(p: nat, q: nat)
    requires p <= q < p + 64
    requires BitLength(p) == BitLength(q)
    ensures p == q
  {
  }

  /** Padding can be undone: a padded message determines the message, whatever its length. */
  lemma PaddingIsInjective(m: HashMethod, a: seq<byte>, b: seq<byte>)
    requires Padded(m, a) == Padded(m, b)
    ensures a == b
  {
    if |a| <= |b| {
      PaddingIsInjectiveOrdered(m, a, b);
    } else {
      PaddingIsInjectiveOrdered(m, b, a);
    }
  }

  lemma PaddingIsInjectiveOrdered(m: HashMethod, a: seq<byte>, b: seq<byte>)
    requires Padded(m, a) == Padded(m, b) && |a| <= |b|
    ensures a == b
  {
    hide LengthBytes, LengthValue, ZeroCount;
    var p, m1, m2 := Padded(m, a), BitLength(|a|), BitLength(|b|);
    assert LengthBytes(m, m1) == p[|p| - 8..] == LengthBytes(m, m2);
    LengthRoundTrip(m, m1, 0);
    LengthRoundTrip(m, m2, 0);
    assert |b| < |a| + 64;
    SameLength(|a|, |b|);
    assert a == p[..|a|] == b;
  }
}
