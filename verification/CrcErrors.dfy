/** Which errors a CRC always finds: every burst of at most 32 bits. */
module CrcErrors {
  import opened Bytes
  import opened Words
  import opened Crc32

  // ----- the register can be run backwards -----

  lemma ParityIsTopBit(r: word)
    ensures Odd(r) == (Shift(r) & 0x80000000 != 0)
  {
  }

  lemma HalfAndParity(a: word, b: word)
    requires Half(a) == Half(b) && Odd(a) == Odd(b)
    ensures a == b
  {
  }

  /** Shifting loses nothing: the bit that leaves the register decides whether its top bit is set. */
  lemma ShiftIsInjective(a: word, b: word)
    requires Shift(a) == Shift(b)
    ensures a == b
  {
    ParityIsTopBit(a);
    ParityIsTopBit(b);
    hide Odd, Half, Xor, Polynomial;
    XorTwice(Half(a), Polynomial());
    XorTwice(Half(b), Polynomial());
    HalfAndParity(a, b);
  }

  lemma {:induction false} AdvanceIsInjective(a: word, b: word, n: nat)
    requires Advance(a, n) == Advance(b, n)
    ensures a == b
    decreases n
  {
    hide Shift;
    if n == 0 {
    } else {
      AdvanceIsInjective(Shift(a), Shift(b), n - 1);
      ShiftIsInjective(a, b);
    }
  }

  lemma {:induction false} FeedIsInjective(a: word, b: word, bits: seq<bool>)
    requires Feed(a, bits) == Feed(b, bits)
    ensures a == b
    decreases |bits|
  {
    hide Shift, Xor, BitWord;
    if bits == [] {
    } else {
      var w := BitWord(bits[0]);
      FeedIsInjective(Shift(Xor(a, w)), Shift(Xor(b, w)), bits[1..]);
      ShiftIsInjective(Xor(a, w), Xor(b, w));
      XorTwice(a, w);
      XorTwice(b, w);
    }
  }

  // ----- up to 32 bits are a word -----

  lemma {:induction false} HalvesAdd(x: word, m: nat, n: nat)
    ensures Halves(x, m + n) == Halves(Halves(x, m), n)
    decreases m
  {
    hide Half;
    if m == 0 {
    } else {
      HalvesAdd(Half(x), m - 1, n);
    }
  }

  lemma FewHalves(x: word)
    ensures Halves(x, 2) == Quarter(x)
    ensures Halves(x, 4) == Quarter(Quarter(x))
    ensures Halves(x, 8) == Quarter(Quarter(Quarter(Quarter(x))))
  {
    hide Half, Quarter;
    HalvesTwice(x);
    HalvesTwice(Quarter(x));
    HalvesTwice(Quarter(Quarter(x)));
    HalvesTwice(Quarter(Quarter(Quarter(x))));
    HalvesAdd(x, 2, 2);
    HalvesAdd(x, 4, 4);
  }

  lemma QuartersOfWord(x: word)
    ensures Quarter(Quarter(Quarter(Quarter(x)))) == Down8(x)
    ensures Half(Quarter(Quarter(Quarter(Down8(Down8(Down8(x))))))) == 0 ==> x & 0x80000000 == 0
  {
  }

  /** A word of 31 bits has no top bit, so it can be doubled and halved again. */
  lemma HalvesOf31(x: word)
    requires Halves(x, 31) == 0
    ensures x & 0x80000000 == 0
  {
    QuartersOfWord(x);
    hide Half, Quarter, Down8;
    var y := Down8(x);
    var z := Down8(y);
    var u := Down8(z);
    HalvesAdd(x, 8, 23);
    HalvesAdd(y, 8, 15);
    HalvesAdd(z, 8, 7);
    HalvesAdd(u, 4, 3);
    HalvesAdd(Quarter(Quarter(u)), 2, 1);
    FewHalves(x);
    FewHalves(y);
    FewHalves(z);
    FewHalves(u);
    QuartersOfWord(y);
    QuartersOfWord(z);
    FewHalves(Quarter(Quarter(u)));
  }

  lemma {:induction false} FitsHalves(x: word, n: nat)
    requires Fits(x, n)
    ensures Halves(x, n) == 0
    decreases n
  {
    if n == 0 {
    } else {
      FitsHalves(Half(x), n - 1);
    }
  }

  lemma {:induction false} HalvesOfZero(n: nat)
    ensures Halves(0, n) == 0
  {
    if n == 0 {
    } else {
      HalvesOfZero(n - 1);
    }
  }

  function Double(x: word, bit: bool): word {
    (x << 1) | BitWord(bit)
  }

  lemma HalfOfDouble(x: word, bit: bool)
    requires x & 0x80000000 == 0
    ensures Half(Double(x, bit)) == x && Odd(Double(x, bit)) == bit
  {
  }

  /** Any sequence of at most 32 bits is the low bits of a word. */
  lemma {:induction false} Pack(bits: seq<bool>) returns (x: word)
    requires |bits| <= 32
    ensures Fits(x, |bits|) && Bits(x, |bits|) == bits
    decreases |bits|
  {
    if bits == [] {
      x := 0;
    } else {
      var y := Pack(bits[1..]);
      var n := |bits| - 1;
      FitsHalves(y, n);
      HalvesAdd(y, n, 31 - n);
      HalvesOfZero(31 - n);
      HalvesOf31(y);
      HalfOfDouble(y, bits[0]);
      hide Half, Odd, Double;
      x := Double(y, bits[0]);
    }
  }

  /** Up to 32 bits reach the register without loss. */
  lemma WindowIsInjective(r: word, u: seq<bool>, v: seq<bool>)
    requires |u| == |v| <= 32 && Feed(r, u) == Feed(r, v)
    ensures u == v
  {
    var x := Pack(u);
    var y := Pack(v);
    FeedIsAdvance(r, x, |u|);
    FeedIsAdvance(r, y, |v|);
    hide Xor, Advance, Fits, Feed, Bits;
    AdvanceIsInjective(Xor(r, x), Xor(r, y), |u|);
    XorCommutes(r, x);
    XorCommutes(r, y);
    XorTwice(x, r);
    XorTwice(y, r);
  }

  /** Two bit sequences that differ only inside a window of at most 32 bits leave different registers. */
  lemma BurstsAreDetected(r: word, before: seq<bool>, u: seq<bool>, v: seq<bool>, after: seq<bool>)
    requires |u| == |v| <= 32 && u != v
    ensures Feed(r, before + u + after) != Feed(r, before + v + after)
  {
    hide Feed;
    FeedAppends(r, before + u, after);
    FeedAppends(r, before + v, after);
    FeedAppends(r, before, u);
    FeedAppends(r, before, v);
    if Feed(r, before + u + after) == Feed(r, before + v + after) {
      FeedIsInjective(Feed(r, before + u), Feed(r, before + v), after);
      WindowIsInjective(Feed(r, before), u, v);
    }
  }

  // ----- messages -----

  lemma {:induction false} BitsAreInjective(x: word, y: word, n: nat)
    requires Fits(x, n) && Fits(y, n) && Bits(x, n) == Bits(y, n)
    ensures x == y
    decreases n
  {
    if n == 0 {
    } else {
      hide Half, Odd;
      assert Odd(x) == Bits(x, n)[0] == Bits(y, n)[0] == Odd(y);
      assert Bits(Half(x), n - 1) == Bits(x, n)[1..] == Bits(y, n)[1..] == Bits(Half(y), n - 1);
      BitsAreInjective(Half(x), Half(y), n - 1);
      HalfAndParity(x, y);
    }
  }

  lemma ByteBitsAreInjective(a: byte, b: byte)
    requires Bits(Wide(a), 8) == Bits(Wide(b), 8)
    ensures a == b
  {
    ByteFits(a);
    ByteFits(b);
    BitsAreInjective(Wide(a), Wide(b), 8);
  }

  lemma {:induction false} MessageBitsAreInjective(a: seq<byte>, b: seq<byte>)
    requires |a| == |b| && MessageBits(a) == MessageBits(b)
    ensures a == b
  {
    hide Bits;
    if a == [] {
    } else {
      var p, q := MessageBits(a), MessageBits(b);
      assert Bits(Wide(a[0]), 8) == p[..8] == q[..8] == Bits(Wide(b[0]), 8);
      assert MessageBits(a[1..]) == p[8..] == q[8..] == MessageBits(b[1..]);
      ByteBitsAreInjective(a[0], b[0]);
      MessageBitsAreInjective(a[1..], b[1..]);
    }
  }

  /** Two messages of equal length that differ only inside a window of at most four bytes have different checksums. */
  lemma FourByteErrorsAreDetected(before: seq<byte>, u: seq<byte>, v: seq<byte>, after: seq<byte>)
    requires |u| == |v| <= 4 && u != v
    ensures Checksum(before + u + after) != Checksum(before + v + after)
  {
    hide Feed, MessageBits;
    MessageBitsAppend(before + u, after);
    MessageBitsAppend(before + v, after);
    MessageBitsAppend(before, u);
    MessageBitsAppend(before, v);
    if MessageBits(u) == MessageBits(v) {
      MessageBitsAreInjective(u, v);
    }
    BurstsAreDetected(0xFFFFFFFF, MessageBits(before), MessageBits(u), MessageBits(v), MessageBits(after));
    InvertTwice(Register(0xFFFFFFFF, before + u + after));
    InvertTwice(Register(0xFFFFFFFF, before + v + after));
  }
}
