/** The sponge of section 4 of FIPS 202 with Keccak-f[1600], at the four rates and with the two domain suffixes that the
    hash classes use, and the padding of section 5.1. */
module Sponge {
  import opened Bytes
  import opened Keccak
  import opened Sequences

  datatype Width = Bits224 | Bits256 | Bits384 | Bits512 {
    /** The number of bytes of the digest. */
    function DigestBytes(): nat {
      match this
      case Bits224 => 28
      case Bits256 => 32
      case Bits384 => 48
      case Bits512 => 64
    }

    /** The number of bytes of a block. */
    function Rate(): (rate: nat)
      ensures 72 <= rate <= 144 && rate % 8 == 0
    {
      200 - 2 * DigestBytes()
    }

    /** How many bytes are left over when n bytes are cut into blocks. */
    function Rest(n: nat): (r: nat)
      ensures r < Rate()
    {
      match this
      case Bits224 => n % 144
      case Bits256 => n % 136
      case Bits384 => n % 104
      case Bits512 => n % 72
    }
  }

  datatype Family = Original | Standard {
    /** The byte that follows the message: the domain bits, if any, and the first one bit of the padding. */
    function Suffix(): byte {
      if Original? then 0x01 else 0x06
    }
  }

  // ----- the state as bytes -----

  function ByteAt(x: lane, shift: nat): byte
    requires shift < 64
  {
    ((x >> shift) & 0xFF) as byte
  }

  function XorByte(a: byte, b: byte): byte {
    a ^ b
  }

  /** Byte k of the state. */
  function StateByte(a: State, k: nat): byte
    requires k < 200
  {
    ByteAt(a[k / 8], 8 * (k % 8))
  }

  function LittleEndian(b0: byte, b1: byte, b2: byte, b3: byte, b4: byte, b5: byte, b6: byte, b7: byte): lane {
    (b0 as lane) | ((b1 as lane) << 8) | ((b2 as lane) << 16) | ((b3 as lane) << 24)
    | ((b4 as lane) << 32) | ((b5 as lane) << 40) | ((b6 as lane) << 48) | ((b7 as lane) << 56)
  }

  /** What a little-endian machine reads as word i of the data. */
  function LoadLane(data: seq<byte>, i: nat): lane
    requires 8 * i + 8 <= |data|
  {
    var d := data[8 * i..8 * i + 8];
    LittleEndian(d[0], d[1], d[2], d[3], d[4], d[5], d[6], d[7])
  }

  /** The state with a block mixed into its first lanes. */
  function Mix(a: State, block: seq<byte>): State
    requires |block| % 8 == 0 && |block| <= 200
  {
    seq(25, i requires 0 <= i < 25 => if 8 * i < |block| then Xor(a[i], LoadLane(block, i)) else a[i])
  }

  lemma BytesOfSum(b0: byte, b1: byte, b2: byte, b3: byte, b4: byte, b5: byte, b6: byte, b7: byte)
    ensures var x := (b0 as lane) | ((b1 as lane) << 8) | ((b2 as lane) << 16) | ((b3 as lane) << 24)
                    | ((b4 as lane) << 32) | ((b5 as lane) << 40) | ((b6 as lane) << 48) | ((b7 as lane) << 56);
            && ByteAt(x, 0) == b0 && ByteAt(x, 8) == b1 && ByteAt(x, 16) == b2 && ByteAt(x, 24) == b3
            && ByteAt(x, 32) == b4 && ByteAt(x, 40) == b5 && ByteAt(x, 48) == b6 && ByteAt(x, 56) == b7
  {
  }

  lemma LittleEndianUnfold(b0: byte, b1: byte, b2: byte, b3: byte, b4: byte, b5: byte, b6: byte, b7: byte)
    ensures LittleEndian(b0, b1, b2, b3, b4, b5, b6, b7)
         == (b0 as lane) | ((b1 as lane) << 8) | ((b2 as lane) << 16) | ((b3 as lane) << 24)
            | ((b4 as lane) << 32) | ((b5 as lane) << 40) | ((b6 as lane) << 48) | ((b7 as lane) << 56)
  {
  }

  lemma BytesOfXor(x: lane, y: lane)
    ensures ByteAt(x ^ y, 0) == XorByte(ByteAt(x, 0), ByteAt(y, 0))
    ensures ByteAt(x ^ y, 8) == XorByte(ByteAt(x, 8), ByteAt(y, 8))
    ensures ByteAt(x ^ y, 16) == XorByte(ByteAt(x, 16), ByteAt(y, 16))
    ensures ByteAt(x ^ y, 24) == XorByte(ByteAt(x, 24), ByteAt(y, 24))
    ensures ByteAt(x ^ y, 32) == XorByte(ByteAt(x, 32), ByteAt(y, 32))
    ensures ByteAt(x ^ y, 40) == XorByte(ByteAt(x, 40), ByteAt(y, 40))
    ensures ByteAt(x ^ y, 48) == XorByte(ByteAt(x, 48), ByteAt(y, 48))
    ensures ByteAt(x ^ y, 56) == XorByte(ByteAt(x, 56), ByteAt(y, 56))
  {
  }

  lemma XorUnfold(x: lane, y: lane)
    ensures Xor(x, y) == x ^ y
  {
  }

  lemma BytesOfMixedLane(x: lane, b0: byte, b1: byte, b2: byte, b3: byte, b4: byte, b5: byte, b6: byte, b7: byte)
    ensures var y := Xor(x, LittleEndian(b0, b1, b2, b3, b4, b5, b6, b7));
            && ByteAt(y, 0) == XorByte(ByteAt(x, 0), b0) && ByteAt(y, 8) == XorByte(ByteAt(x, 8), b1)
            && ByteAt(y, 16) == XorByte(ByteAt(x, 16), b2) && ByteAt(y, 24) == XorByte(ByteAt(x, 24), b3)
            && ByteAt(y, 32) == XorByte(ByteAt(x, 32), b4) && ByteAt(y, 40) == XorByte(ByteAt(x, 40), b5)
            && ByteAt(y, 48) == XorByte(ByteAt(x, 48), b6) && ByteAt(y, 56) == XorByte(ByteAt(x, 56), b7)
  {
    hide *;
    XorUnfold(x, LittleEndian(b0, b1, b2, b3, b4, b5, b6, b7));
    BytesOfXor(x, LittleEndian(b0, b1, b2, b3, b4, b5, b6, b7));
    LittleEndianUnfold(b0, b1, b2, b3, b4, b5, b6, b7);
    BytesOfSum(b0, b1, b2, b3, b4, b5, b6, b7);
  }

  lemma ByteOfMixedLane(x: lane, d: seq<byte>, j: nat)
    requires |d| == 8 && j < 8
    ensures var y := LittleEndian(d[0], d[1], d[2], d[3], d[4], d[5], d[6], d[7]);
            ByteAt(Xor(x, y), 8 * j) == XorByte(ByteAt(x, 8 * j), d[j])
  {
    hide *;
    BytesOfMixedLane(x, d[0], d[1], d[2], d[3], d[4], d[5], d[6], d[7]);
  }

  /** Mixing lane by lane is the exclusive or of the state with the block and zeros, byte by byte. */
  lemma MixIsBytewise(a: State, block: seq<byte>, k: nat)
    requires |block| % 8 == 0 && |block| <= 200 && k < 200
    ensures StateByte(Mix(a, block), k) == if k < |block| then XorByte(StateByte(a, k), block[k]) else StateByte(a, k)
  {
    hide ByteAt, LittleEndian, Xor, XorByte;
    var i, j := k / 8, k % 8;
    if k < |block| {
      var d := block[8 * i..8 * i + 8];
      ByteOfMixedLane(a[i], d, j);
    }
  }

  // ----- absorbing -----

  function AbsorbBlock(a: State, block: seq<byte>): State
    requires |block| % 8 == 0 && |block| <= 200
  {
    Permutation(Mix(a, block))
  }

  /** Absorb all full blocks of data, in order. */
  function Absorb(w: Width, a: State, data: seq<byte>): State
    decreases |data|
  {
    var rate := w.Rate();
    if |data| < rate then a else Absorb(w, AbsorbBlock(a, data[..rate]), data[rate..])
  }

  lemma {:induction false} AbsorbAppend(w: Width, a: State, p: seq<byte>, q: seq<byte>)
    requires w.Rest(|p|) == 0
    ensures Absorb(w, a, p + q) == Absorb(w, Absorb(w, a, p), q)
    decreases |p|
  {
    hide AbsorbBlock, Width.Rate, Width.Rest;
    var rate := w.Rate();
    if p == [] {
      assert p + q == q;
    } else {
      WholeBlocks(w, p);
      assert (p + q)[..rate] == p[..rate];
      assert (p + q)[rate..] == p[rate..] + q;
      AbsorbAppend(w, AbsorbBlock(a, p[..rate]), p[rate..], q);
    }
  }

  lemma Multiple144(n: nat)
    requires n > 0 && n % 144 == 0
    ensures n >= 144 && (n - 144) % 144 == 0
  {
  }

  lemma Multiple136(n: nat)
    requires n > 0 && n % 136 == 0
    ensures n >= 136 && (n - 136) % 136 == 0
  {
  }

  lemma Multiple104(n: nat)
    requires n > 0 && n % 104 == 0
    ensures n >= 104 && (n - 104) % 104 == 0
  {
  }

  lemma Multiple72(n: nat)
    requires n > 0 && n % 72 == 0
    ensures n >= 72 && (n - 72) % 72 == 0
  {
  }

  /** A nonempty whole number of blocks has a first block and a whole number of others. */
  lemma WholeBlocks(w: Width, p: seq<byte>)
    requires p != [] && w.Rest(|p|) == 0
    ensures |p| >= w.Rate() && w.Rest(|p[w.Rate()..]|) == 0
  {
    match w
    case Bits224 => Multiple144(|p|);
    case Bits256 => Multiple136(|p|);
    case Bits384 => Multiple104(|p|);
    case Bits512 => Multiple72(|p|);
  }

  lemma OneBlock(w: Width, a: State, block: seq<byte>)
    requires |block| == w.Rate()
    ensures Absorb(w, a, block) == AbsorbBlock(a, block)
  {
    hide AbsorbBlock, Width.Rate, Width.Rest;
    assert block[..w.Rate()] == block;
  }

  lemma AbsorbGrows(w: Width, a: State, p: seq<byte>, block: seq<byte>)
    requires w.Rest(|p|) == 0 && |block| == w.Rate()
    ensures Absorb(w, a, p + block) == AbsorbBlock(Absorb(w, a, p), block)
  {
    hide Absorb, AbsorbBlock, Width.Rate, Width.Rest;
    AbsorbAppend(w, a, p, block);
    OneBlock(w, Absorb(w, a, p), block);
  }

  // ----- padding -----

  /** The last q bytes of the last block. */
  function Padding(suffix: byte, q: nat): (bytes: seq<byte>)
    requires q > 0
    ensures |bytes| == q
  {
    if q == 1 then [suffix | 0x80] else [suffix] + Zeros(q - 2) + [0x80]
  }

  /** How many bytes a message of the given length is from the end of its last block. */
  function Missing(w: Width, length: nat): (q: nat)
    ensures 0 < q <= w.Rate()
  {
    w.Rate() - w.Rest(length)
  }

  function Padded(f: Family, w: Width, message: seq<byte>): (bytes: seq<byte>)
    ensures w.Rest(|bytes|) == 0
  {
    hide Missing, Padding;
    MissingFills(w, |message|);
    message + Padding(f.Suffix(), Missing(w, |message|))
  }

  lemma Fill144(n: nat)
    ensures (n + (144 - n % 144)) % 144 == 0
  {
  }

  lemma Fill136(n: nat)
    ensures (n + (136 - n % 136)) % 136 == 0
  {
  }

  lemma Fill104(n: nat)
    ensures (n + (104 - n % 104)) % 104 == 0
  {
  }

  lemma Fill72(n: nat)
    ensures (n + (72 - n % 72)) % 72 == 0
  {
  }

  lemma MissingFills(w: Width, length: nat)
    ensures w.Rest(length + Missing(w, length)) == 0
  {
    match w
    case Bits224 => Fill144(length);
    case Bits256 => Fill136(length);
    case Bits384 => Fill104(length);
    case Bits512 => Fill72(length);
  }

  /** The first bytes of the state. */
  function Squeezed(a: State, n: nat): (bytes: seq<byte>)
    requires n <= 200
    ensures |bytes| == n
  {
    seq(n, k requires 0 <= k < n => StateByte(a, k))
  }

  /** The state before the first block. */
  function Blank(): State {
    seq(25, _ => 0)
  }

  /** The digest of a message: the sponge over the padded message, cut to the width. */
  function Digest(f: Family, w: Width, message: seq<byte>): (digest: seq<byte>)
    ensures |digest| == w.DigestBytes()
  {
    Squeezed(Absorb(w, Blank(), Padded(f, w, message)), w.DigestBytes())
  }

  // ----- padding can be undone -----

  lemma SuffixBits(s: byte, t: byte)
    requires s == 1 || s == 6
    requires t == 1 || t == 6
    ensures s != 0 && s != 0x80 && s | 0x80 != 0 && s | 0x80 != 0x80
    ensures s == t | 0x80 ==> false
    ensures s | 0x80 == t | 0x80 ==> s == t
  {
  }

  lemma PaddingsDiffer(m: seq<byte>, s: byte, p: nat, n: seq<byte>, t: byte, q: nat)
    requires p > 0 && q > 0 && |m| < |n|
    requires s == 1 || s == 6
    requires t == 1 || t == 6
    ensures m + Padding(s, p) != n + Padding(t, q)
  {
    SuffixBits(s, t);
    SuffixBits(t, s);
    var a, b := m + Padding(s, p), n + Padding(t, q);
    if |a| == |b| {
      assert a[|n|] == Padding(s, p)[|n| - |m|];
      assert b[|n|] == Padding(t, q)[0];
    }
  }

  /** The padded message determines the message and the family: no message padded for Keccak is a message padded for
      SHA-3 at the same rate. */
  lemma PaddingIsInjective(f: Family, m: seq<byte>, g: Family, n: seq<byte>, w: Width)
    requires Padded(f, w, m) == Padded(g, w, n)
    ensures f == g && m == n
  {
    hide Padding, Missing;
    var s, t := f.Suffix(), g.Suffix();
    if |m| < |n| {
      PaddingsDiffer(m, s, Missing(w, |m|), n, t, Missing(w, |n|));
    } else if |n| < |m| {
      PaddingsDiffer(n, t, Missing(w, |n|), m, s, Missing(w, |m|));
    } else {
      assert m == Padded(f, w, m)[..|m|] == n;
      assert Padding(s, Missing(w, |m|)) == Padded(f, w, m)[|m|..] == Padding(t, Missing(w, |m|));
      SameSuffix(s, t, Missing(w, |m|));
    }
  }

  lemma SameSuffix(s: byte, t: byte, q: nat)
    requires q > 0 && Padding(s, q) == Padding(t, q)
    requires s == 1 || s == 6
    requires t == 1 || t == 6
    ensures s == t
  {
    SuffixBits(s, t);
    assert Padding(s, q)[0] == Padding(t, q)[0];
  }

  // ----- padding as a string of bits -----

  /** The bits of a byte, the lowest first (appendix B.1 of FIPS 202). */
  function ByteBits(b: byte): (bits: seq<bool>)
    ensures |bits| == 8
  {
    [b & 1 != 0, b & 2 != 0, b & 4 != 0, b & 8 != 0, b & 16 != 0, b & 32 != 0, b & 64 != 0, b & 128 != 0]
  }

  function BitsOf(bytes: seq<byte>): (bits: seq<bool>)
    ensures |bits| == 8 * |bytes|
  {
    if bytes == [] then [] else ByteBits(bytes[0]) + BitsOf(bytes[1..])
  }

  function ZeroBits(n: nat): (bits: seq<bool>)
    ensures |bits| == n
  {
    seq(n, _ => false)
  }

  /** -m - 2 modulo the number of bits of a block. */
  function ZeroBitCount(w: Width, m: int): (n: int)
    ensures n >= 0
  {
    match w
    case Bits224 => (-m - 2) % 1152
    case Bits256 => (-m - 2) % 1088
    case Bits384 => (-m - 2) % 832
    case Bits512 => (-m - 2) % 576
  }

  function TenStarOne(zeros: nat): seq<bool> {
    [true] + ZeroBits(zeros) + [true]
  }

  /** pad10*1 of section 5.1 for a string of m bits. */
  function PadBits(w: Width, m: nat): seq<bool> {
    TenStarOne(ZeroBitCount(w, m))
  }

  /** The bits that tell the families apart: none, or the two of section 6.1. */
  function DomainBits(f: Family): seq<bool> {
    if f.Original? then [] else [false, true]
  }

  lemma BitsAppend(a: seq<byte>, b: seq<byte>)
    ensures BitsOf(a + b) == BitsOf(a) + BitsOf(b)
  {
    hide ByteBits;
    if a == [] {
      assert a + b == b;
    } else {
      assert (a + b)[1..] == a[1..] + b;
      BitsAppend(a[1..], b);
    }
  }

  lemma BitsOfZeros(n: nat)
    ensures BitsOf(Zeros(n)) == ZeroBits(8 * n)
  {
    if n != 0 {
      assert Zeros(n)[1..] == Zeros(n - 1);
      BitsOfZeros(n - 1);
    }
  }

  lemma BitsOfOne(b: byte)
    ensures BitsOf([b]) == ByteBits(b)
  {
    assert [b][1..] == [];
  }

  lemma SuffixAsBits(f: Family)
    ensures ByteBits(f.Suffix()) == DomainBits(f) + [true] + ZeroBits(7 - |DomainBits(f)|)
    ensures ByteBits(f.Suffix() | 0x80) == DomainBits(f) + [true] + ZeroBits(6 - |DomainBits(f)|) + [true]
    ensures ByteBits(0x80) == ZeroBits(7) + [true]
  {
  }

  lemma JoinOne(d: seq<bool>)
    requires |d| <= 6
    ensures d + [true] + ZeroBits(6 - |d|) + [true] == d + TenStarOne(6 - |d|)
  {
  }

  lemma JoinZeros(d: seq<bool>, q: nat)
    requires |d| <= 6 && q > 1
    ensures d + [true] + ZeroBits(7 - |d|) + ZeroBits(8 * (q - 2)) + (ZeroBits(7) + [true])
         == d + TenStarOne(8 * q - 2 - |d|)
  {
  }

  lemma BitsOfPadding(f: Family, q: nat)
    requires q > 0
    ensures BitsOf(Padding(f.Suffix(), q)) == DomainBits(f) + TenStarOne(8 * q - 2 - |DomainBits(f)|)
  {
    hide ByteBits, BitsOf, DomainBits, Family.Suffix, Zeros, TenStarOne, ZeroBits;
    SuffixAsBits(f);
    SmallDomain(f);
    var s := f.Suffix();
    if q == 1 {
      BitsOfOne(s | 0x80);
      JoinOne(DomainBits(f));
    } else {
      BitsAppend([s] + Zeros(q - 2), [0x80]);
      BitsAppend([s], Zeros(q - 2));
      BitsOfZeros(q - 2);
      BitsOfOne(s);
      BitsOfOne(0x80);
      JoinZeros(DomainBits(f), q);
    }
  }

  lemma SmallDomain(f: Family)
    ensures |DomainBits(f)| == 0 || |DomainBits(f)| == 2
  {
  }

  lemma Bits144(n: nat, d: nat)
    requires d <= 6
    ensures (-(8 * n + d) - 2) % 1152 == 8 * (144 - n % 144) - 2 - d
  {
    assert -(8 * n + d) - 2 == 1152 * (-(n / 144) - 1) + (8 * (144 - n % 144) - 2 - d);
  }

  lemma Bits136(n: nat, d: nat)
    requires d <= 6
    ensures (-(8 * n + d) - 2) % 1088 == 8 * (136 - n % 136) - 2 - d
  {
    assert -(8 * n + d) - 2 == 1088 * (-(n / 136) - 1) + (8 * (136 - n % 136) - 2 - d);
  }

  lemma Bits104(n: nat, d: nat)
    requires d <= 6
    ensures (-(8 * n + d) - 2) % 832 == 8 * (104 - n % 104) - 2 - d
  {
    assert -(8 * n + d) - 2 == 832 * (-(n / 104) - 1) + (8 * (104 - n % 104) - 2 - d);
  }

  lemma Bits72(n: nat, d: nat)
    requires d <= 6
    ensures (-(8 * n + d) - 2) % 576 == 8 * (72 - n % 72) - 2 - d
  {
    assert -(8 * n + d) - 2 == 576 * (-(n / 72) - 1) + (8 * (72 - n % 72) - 2 - d);
  }

  lemma MissingBits(w: Width, n: nat, d: nat)
    requires d <= 6
    ensures ZeroBitCount(w, 8 * n + d) == 8 * Missing(w, n) - 2 - d
  {
    match w
    case Bits224 => Bits144(n, d);
    case Bits256 => Bits136(n, d);
    case Bits384 => Bits104(n, d);
    case Bits512 => Bits72(n, d);
  }

  lemma PaddedUnfold(f: Family, w: Width, message: seq<byte>)
    ensures Padded(f, w, message) == message + Padding(f.Suffix(), Missing(w, |message|))
  {
  }

  /** Read as bits, the padded message is the message, the domain bits and pad10*1. */
  lemma PaddingIsTenStarOne(f: Family, w: Width, message: seq<byte>)
    ensures BitsOf(Padded(f, w, message))
         == BitsOf(message) + DomainBits(f) + PadBits(w, 8 * |message| + |DomainBits(f)|)
  {
    hide BitsOf, Padded, Padding, Missing, ZeroBitCount, TenStarOne, DomainBits;
    var q, d := Missing(w, |message|), DomainBits(f);
    var pad := Padding(f.Suffix(), q);
    SmallDomain(f);
    PaddedUnfold(f, w, message);
    BitsAppend(message, pad);
    BitsOfPadding(f, q);
    MissingBits(w, |message|, |d|);
    Regroup(BitsOf(message), d, TenStarOne(8 * q - 2 - |d|));
  }
}
