/** CRC-32: the bit-serial shift register, and the class that eats eight bytes per step through eight tables. */
module Crc32 {
  import opened Bytes
  import opened HexText
  import opened Words

  // ----- the shift register -----

  /** The reflected polynomial; it is entry 128 of the first table. */
  function Polynomial(): word {
    0xEDB88320
  }

  function Xor(x: word, y: word): word {
    x ^ y
  }

  function Half(x: word): word {
    x >> 1
  }

  predicate Odd(x: word) {
    x & 1 == 1
  }

  /** Shift the register by one zero bit. */
  function Shift(r: word): word {
    if Odd(r) then Xor(Half(r), Polynomial()) else Half(r)
  }

  /** Shift the register by n zero bits. */
  function Advance(r: word, n: nat): word
    decreases n
  {
    if n == 0 then r else Advance(Shift(r), n - 1)
  }

  function BitWord(bit: bool): word {
    if bit then 1 else 0
  }

  /** Divide bit by bit: every bit of the message enters at the low end of the register. */
  function Feed(r: word, bits: seq<bool>): word
    decreases |bits|
  {
    if bits == [] then r else Feed(Shift(Xor(r, BitWord(bits[0]))), bits[1..])
  }

  /** The n low bits of a word, least significant first. */
  function Bits(x: word, n: nat): (bits: seq<bool>)
    ensures |bits| == n
  {
    if n == 0 then [] else [Odd(x)] + Bits(Half(x), n - 1)
  }

  /** A message as the bits that enter the register, least significant bit of every byte first. */
  function MessageBits(data: seq<byte>): (bits: seq<bool>)
    ensures |bits| == 8 * |data|
  {
    if data == [] then [] else Bits(data[0] as word, 8) + MessageBits(data[1..])
  }

  /** The register after a message. */
  function Register(r: word, data: seq<byte>): word {
    Feed(r, MessageBits(data))
  }

  /** The CRC of a message: register preset to ones, result inverted. */
  function Checksum(data: seq<byte>): word {
    Invert(Register(0xFFFFFFFF, data))
  }

  function Invert(x: word): word {
    !x
  }

  // ----- laws of the register -----

  lemma HalfAndOdd(x: word, y: word)
    ensures Half(Xor(x, y)) == Xor(Half(x), Half(y))
    ensures Odd(Xor(x, y)) == (Odd(x) != Odd(y))
  {
  }

  lemma XorAssociates(x: word, y: word, z: word)
    ensures Xor(x, Xor(y, z)) == Xor(Xor(x, y), z)
  {
  }

  lemma XorCommutes(x: word, y: word)
    ensures Xor(x, y) == Xor(y, x)
  {
  }

  lemma XorTwice(x: word, y: word)
    ensures Xor(Xor(x, y), y) == x
  {
  }

  lemma InvertTwice(x: word)
    ensures Invert(Invert(x)) == x
  {
  }

  lemma ShiftIsLinear(x: word, y: word)
    ensures Shift(Xor(x, y)) == Xor(Shift(x), Shift(y))
  {
    hide Xor, Half, Odd, Polynomial;
    var p, q, c := Half(x), Half(y), Polynomial();
    HalfAndOdd(x, y);
    XorAssociates(p, q, c);
    XorAssociates(p, c, q);
    XorCommutes(c, q);
    XorAssociates(Xor(p, c), q, c);
    XorTwice(Xor(p, q), c);
  }

  lemma {:induction false} AdvanceIsLinear(x: word, y: word, n: nat)
    ensures Advance(Xor(x, y), n) == Xor(Advance(x, n), Advance(y, n))
    decreases n
  {
    hide Shift, Xor;
    if n == 0 {
    } else {
      ShiftIsLinear(x, y);
      AdvanceIsLinear(Shift(x), Shift(y), n - 1);
    }
  }

  lemma {:induction false} AdvanceAdds(r: word, m: nat, n: nat)
    ensures Advance(Advance(r, m), n) == Advance(r, m + n)
    decreases m
  {
    hide Shift;
    if m == 0 {
    } else {
      AdvanceAdds(Shift(r), m - 1, n);
    }
  }

  lemma {:induction false} FeedAppends(r: word, a: seq<bool>, b: seq<bool>)
    ensures Feed(r, a + b) == Feed(Feed(r, a), b)
    decreases |a|
  {
    hide Shift, Xor, BitWord;
    if a == [] {
      assert a + b == b;
    } else {
      assert (a + b)[1..] == a[1..] + b;
      FeedAppends(Shift(Xor(r, BitWord(a[0]))), a[1..], b);
    }
  }

  lemma {:induction false} MessageBitsAppend(a: seq<byte>, b: seq<byte>)
    ensures MessageBits(a + b) == MessageBits(a) + MessageBits(b)
  {
    hide Bits;
    if a == [] {
      assert a + b == b;
    } else {
      assert (a + b)[1..] == a[1..] + b;
      MessageBitsAppend(a[1..], b);
    }
  }

  /** The register after a message in two parts, however it is split. */
  lemma RegisterAppends(r: word, a: seq<byte>, b: seq<byte>)
    ensures Register(r, a + b) == Register(Register(r, a), b)
  {
    MessageBitsAppend(a, b);
    FeedAppends(r, MessageBits(a), MessageBits(b));
  }

  /** x has no bits but the n low ones. */
  predicate Fits(x: word, n: nat) {
    if n == 0 then x == 0 else Fits(Half(x), n - 1)
  }

  /** Bits can be given to the register all at once before it is shifted. */
  lemma {:induction false} FeedIsAdvance(r: word, x: word, n: nat)
    requires Fits(x, n)
    ensures Feed(r, Bits(x, n)) == Advance(Xor(r, x), n)
    decreases n
  {
    if n == 0 {
      assert Xor(r, x) == r;
    } else {
      hide Xor, Half, Odd, BitWord, Polynomial, Shift;
      assert Bits(x, n)[1..] == Bits(Half(x), n - 1);
      FeedIsAdvance(Shift(Xor(r, BitWord(Odd(x)))), Half(x), n - 1);
      ShiftAfterBit(r, x);
    }
  }

  lemma ShiftAfterBit(r: word, x: word)
    ensures Shift(Xor(r, x)) == Xor(Shift(Xor(r, BitWord(Odd(x)))), Half(x))
  {
    hide Xor, Half, Odd, Polynomial;
    var b := BitWord(Odd(x));
    BitWordIsSmall(Odd(x), Half(r));
    HalfAndOdd(r, x);
    HalfAndOdd(r, b);
    XorAssociates(Half(r), Polynomial(), Half(x));
    XorAssociates(Half(r), Half(x), Polynomial());
    XorCommutes(Half(x), Polynomial());
  }

  lemma BitWordIsSmall(bit: bool, x: word)
    ensures Odd(BitWord(bit)) == bit && Xor(x, Half(BitWord(bit))) == x
  {
  }

  /** The register is affine: what it held before and what enters it can be shifted separately. */
  lemma {:induction false} FeedIsAffine(r: word, bits: seq<bool>)
    ensures Feed(r, bits) == Xor(Advance(r, |bits|), Feed(0, bits))
    decreases |bits|
  {
    if bits == [] {
    } else {
      hide Xor, Shift, BitWord;
      var b := BitWord(bits[0]);
      ShiftIsLinear(r, b);
      XorWithZero(b);
      FeedIsAffine(Shift(Xor(r, b)), bits[1..]);
      FeedIsAffine(Shift(b), bits[1..]);
      AdvanceIsLinear(Shift(r), Shift(b), |bits| - 1);
      XorAssociates(Advance(Shift(r), |bits| - 1), Advance(Shift(b), |bits| - 1), Feed(0, bits[1..]));
    }
  }

  lemma XorWithZero(x: word)
    ensures Xor(0, x) == Xor(x, 0) == x
  {
  }

  // ----- the tables -----

  function Down8(x: word): word {
    x >> 8
  }

  function LowByte(x: word): byte {
    (x & 0xFF) as byte
  }

  function Wide(b: byte): word {
    b as word
  }

  /** Entry i of table k, by the recurrence that generated the tables. */
  function Lookup(k: nat, i: byte): word
    decreases k
  {
    if k == 0 then Advance(Wide(i), 8)
    else
      var previous := Lookup(k - 1, i);
      Xor(Down8(previous), Lookup(0, LowByte(previous)))
  }

  /** The n low bits of x are zero. */
  predicate Clear(x: word, n: nat) {
    n == 0 || (!Odd(x) && Clear(Half(x), n - 1))
  }

  function Halves(x: word, n: nat): word
    decreases n
  {
    if n == 0 then x else Halves(Half(x), n - 1)
  }

  lemma {:induction false} AdvanceClear(x: word, n: nat)
    requires Clear(x, n)
    ensures Advance(x, n) == Halves(x, n)
    decreases n
  {
    hide Half, Odd, Polynomial;
    if n == 0 {
    } else {
      AdvanceClear(Half(x), n - 1);
    }
  }

  function Quarter(x: word): word {
    x >> 2
  }

  predicate Multiple4(x: word) {
    x & 3 == 0
  }

  function Upper(x: word): word {
    x & 0xFFFFFF00
  }

  lemma QuartersOfUpper(x: word)
    ensures var y := Upper(x);
            && Multiple4(y) && Multiple4(Quarter(y)) && Multiple4(Quarter(Quarter(y)))
            && Multiple4(Quarter(Quarter(Quarter(y))))
            && Quarter(Quarter(Quarter(Quarter(y)))) == Down8(x)
  {
  }

  lemma TwoClear(x: word, n: nat)
    requires Multiple4(x) && Clear(Quarter(x), n)
    ensures Clear(x, n + 2) && Halves(x, n + 2) == Halves(Quarter(x), n)
  {
    HalvesTwice(x);
    assert !Odd(x) && !Odd(Half(x));
    hide Odd, Half, Quarter;
    assert Clear(Half(x), n + 1) && Halves(Half(x), n + 1) == Halves(Quarter(x), n);
  }

  lemma UpperIsClear(x: word)
    ensures Clear(Upper(x), 8) && Halves(Upper(x), 8) == Down8(x)
  {
    QuartersOfUpper(x);
    hide Upper, Quarter, Multiple4, Odd, Half;
    var y := Upper(x);
    TwoClear(Quarter(Quarter(Quarter(y))), 0);
    TwoClear(Quarter(Quarter(y)), 2);
    TwoClear(Quarter(y), 4);
    TwoClear(y, 6);
  }

  lemma SplitLowByte(x: word)
    ensures x == Xor(Upper(x), Wide(LowByte(x)))
  {
  }

  lemma HalvesTwice(x: word)
    ensures Half(Half(x)) == Quarter(x)
  {
  }

  /** Shifting by a whole byte is one table lookup. */
  lemma AdvanceByte(r: word)
    ensures Advance(r, 8) == Xor(Down8(r), Lookup(0, LowByte(r)))
  {
    hide Xor, Shift, Clear, Halves, Wide, LowByte;
    UpperIsClear(r);
    AdvanceClear(Upper(r), 8);
    SplitLowByte(r);
    AdvanceIsLinear(Upper(r), Wide(LowByte(r)), 8);
  }

  lemma NextEntry(k: nat, i: byte)
    ensures Lookup(k + 1, i) == Advance(Lookup(k, i), 8)
  {
    AdvanceByte(Lookup(k, i));
  }

  /** Entry i of table k is i shifted by k + 1 zero bytes. */
  lemma {:induction false} LookupIsAdvance(k: nat, i: byte)
    ensures Lookup(k, i) == Advance(Wide(i), 8 * k + 8)
  {
    if k == 0 {
    } else {
      hide Lookup, Shift, Wide;
      NextEntry(k - 1, i);
      LookupIsAdvance(k - 1, i);
      AdvanceAdds(Wide(i), 8 * k, 8);
    }
  }

  /** Entry 128 of the first table is the polynomial itself. */
  lemma PolynomialIsEntry128()
    ensures Lookup(0, 128) == Polynomial()
  {
    assert Advance(Wide(128), 2) == 32;
    assert Advance(32, 2) == 8;
    assert Advance(8, 2) == 2;
    assert Advance(2, 2) == Polynomial();
    hide Shift;
    AdvanceAdds(Wide(128), 2, 6);
    AdvanceAdds(32, 2, 4);
    AdvanceAdds(8, 2, 2);
  }

  /** The tail loop's step is eight steps of the bit-serial register. */
  lemma TailStep(crc: word, b: byte)
    ensures Xor(Down8(crc), Lookup(0, LowByte(crc) ^ b)) == Register(crc, [b])
  {
    RegisterOfByte(crc, b);
    AdvanceByte(Xor(crc, Wide(b)));
    ByteOfXor(crc, b);
  }

  lemma ByteOfXor(x: word, b: byte)
    ensures LowByte(Xor(x, Wide(b))) == LowByte(x) ^ b
    ensures Down8(Xor(x, Wide(b))) == Down8(x)
  {
  }

  lemma RegisterOfByte(r: word, b: byte)
    ensures Register(r, [b]) == Advance(Xor(r, Wide(b)), 8)
  {
    hide Xor, Feed, Bits, Advance;
    assert MessageBits([b]) == Bits(Wide(b), 8);
    ByteFits(b);
    FeedIsAdvance(r, Wide(b), 8);
  }

  lemma ByteFits(b: byte)
    ensures Fits(Wide(b), 8)
  {
    QuartersOfByte(b);
    hide Quarter, Half;
    var x := Wide(b);
    HalvesTwice(Quarter(Quarter(Quarter(x))));
    HalvesTwice(Quarter(Quarter(x)));
    HalvesTwice(Quarter(x));
    HalvesTwice(x);
    assert Fits(Quarter(Quarter(Quarter(Quarter(x)))), 0);
    assert Fits(Half(Quarter(Quarter(Quarter(x)))), 1);
    assert Fits(Quarter(Quarter(Quarter(x))), 2);
    assert Fits(Quarter(Quarter(x)), 4);
    assert Fits(Quarter(x), 6);
  }

  lemma QuartersOfByte(b: byte)
    ensures Quarter(Quarter(Quarter(Quarter(Wide(b))))) == 0
  {
  }

  // ----- eight bytes at a time -----

  /** What bytes contribute to the register by the time the last of them has entered. */
  function Terms(data: seq<byte>): word {
    if data == [] then 0 else Xor(Advance(Wide(data[0]), 8 * |data|), Terms(data[1..]))
  }

  lemma {:induction false} RegisterIsTerms(data: seq<byte>)
    ensures Register(0, data) == Terms(data)
  {
    if data == [] {
    } else {
      hide Xor, Shift, Wide, Bits, Advance;
      var b, rest := data[0], data[1..];
      assert data == [b] + rest;
      RegisterAppends(0, [b], rest);
      RegisterOfByte(0, b);
      XorWithZero(Wide(b));
      FeedIsAffine(Advance(Wide(b), 8), MessageBits(rest));
      AdvanceAdds(Wide(b), 8, 8 * |rest|);
      RegisterIsTerms(rest);
    }
  }

  function Mix(x: byte, y: byte): byte {
    x ^ y
  }

  function XorBytes(a: seq<byte>, b: seq<byte>): (c: seq<byte>)
    requires |a| == |b|
    ensures |c| == |a|
  {
    if a == [] then [] else [Mix(a[0], b[0])] + XorBytes(a[1..], b[1..])
  }

  lemma {:induction false} TermsAreLinear(a: seq<byte>, b: seq<byte>)
    requires |a| == |b|
    ensures Terms(XorBytes(a, b)) == Xor(Terms(a), Terms(b))
  {
    if a == [] {
      XorWithZero(0);
    } else {
      WideOfXor(a[0], b[0]);
      assert XorBytes(a, b)[1..] == XorBytes(a[1..], b[1..]);
      hide Xor, Wide, Advance;
      AdvanceIsLinear(Wide(a[0]), Wide(b[0]), 8 * |a|);
      TermsAreLinear(a[1..], b[1..]);
      XorSwap(Advance(Wide(a[0]), 8 * |a|), Advance(Wide(b[0]), 8 * |a|), Terms(a[1..]), Terms(b[1..]));
    }
  }

  lemma WideOfXor(a: byte, b: byte)
    ensures Wide(Mix(a, b)) == Xor(Wide(a), Wide(b))
  {
  }

  lemma XorSwap(a: word, b: word, c: word, d: word)
    ensures Xor(Xor(a, b), Xor(c, d)) == Xor(Xor(a, c), Xor(b, d))
  {
    hide Xor;
    XorAssociates(a, b, Xor(c, d));
    XorAssociates(b, c, d);
    XorCommutes(b, c);
    XorAssociates(c, b, d);
    XorAssociates(a, c, Xor(b, d));
  }

  /** The n low bytes of a word, least significant first. */
  function BytesOf(x: word, n: nat): (bytes: seq<byte>)
    ensures |bytes| == n
    decreases n
  {
    if n == 0 then [] else [LowByte(x)] + BytesOf(Down8(x), n - 1)
  }

  predicate FitsBytes(x: word, n: nat)
    decreases n
  {
    if n == 0 then x == 0 else FitsBytes(Down8(x), n - 1)
  }

  /** The bytes of a word can be shifted separately. */
  lemma {:induction false} AdvanceIsTerms(r: word, n: nat)
    requires FitsBytes(r, n)
    ensures Advance(r, 8 * n) == Terms(BytesOf(r, n))
    decreases n
  {
    if n == 0 {
    } else {
      hide Xor, Shift, Wide, LowByte, Lookup;
      var low := Wide(LowByte(r));
      assert BytesOf(r, n)[1..] == BytesOf(Down8(r), n - 1);
      AdvanceIsTerms(Down8(r), n - 1);
      AdvanceByte(r);
      AdvanceAdds(r, 8, 8 * n - 8);
      AdvanceIsLinear(Down8(r), Advance(low, 8), 8 * n - 8);
      AdvanceAdds(low, 8, 8 * n - 8);
      XorCommutes(Advance(Down8(r), 8 * n - 8), Advance(low, 8 * n));
    }
  }

  /** Byte j of a word, counted from the least significant one. */
  function ByteAt(x: word, j: nat): byte
    decreases j
  {
    if j == 0 then LowByte(x) else ByteAt(Down8(x), j - 1)
  }

  /** The eight lookups of one step of the fast loop; the register is already mixed into the first word. */
  function EightLookups(one: word, two: word): word {
    Xor(Lookup(7, ByteAt(one, 0)),
    Xor(Lookup(6, ByteAt(one, 1)),
    Xor(Lookup(5, ByteAt(one, 2)),
    Xor(Lookup(4, ByteAt(one, 3)),
    Xor(Lookup(3, ByteAt(two, 0)),
    Xor(Lookup(2, ByteAt(two, 1)),
    Xor(Lookup(1, ByteAt(two, 2)),
        Lookup(0, ByteAt(two, 3)))))))))
  }

  lemma LowByteOfXor(x: word, y: word)
    ensures LowByte(Xor(x, y)) == Mix(LowByte(x), LowByte(y))
  {
  }

  lemma ShiftedXor(x: word, y: word)
    ensures (x ^ y) >> 8 == (x >> 8) ^ (y >> 8)
  {
  }

  lemma Unfold(x: word, y: word)
    ensures Xor(x, y) == x ^ y
    ensures Down8(x) == x >> 8
  {
  }

  lemma Down8OfXor(x: word, y: word)
    ensures Down8(Xor(x, y)) == Xor(Down8(x), Down8(y))
  {
    hide Xor, Down8;
    ShiftedXor(x, y);
    Unfold(x, y);
    Unfold(y, x);
    Unfold(x ^ y, y);
    Unfold(x >> 8, y >> 8);
  }

  lemma {:induction false} ByteOfMixed(x: word, y: word, j: nat)
    ensures ByteAt(Xor(x, y), j) == Mix(ByteAt(x, j), ByteAt(y, j))
    decreases j
  {
    hide Xor, LowByte, Mix, Down8;
    if j == 0 {
      LowByteOfXor(x, y);
    } else {
      Down8OfXor(x, y);
      ByteOfMixed(Down8(x), Down8(y), j - 1);
    }
  }

  lemma BytesOfLoaded(d0: byte, d1: byte, d2: byte, d3: byte)
    ensures var w := LittleEndian(d0, d1, d2, d3);
            ByteAt(w, 0) == d0 && ByteAt(w, 1) == d1 && ByteAt(w, 2) == d2 && ByteAt(w, 3) == d3
  {
  }

  lemma FourDowns(r: word)
    ensures Down8(Down8(Down8(Down8(r)))) == 0
    ensures Down8(0) == 0 && LowByte(0) == 0
  {
  }

  lemma FirstByte(x: word, n: nat)
    ensures BytesOf(x, n + 1) == [LowByte(x)] + BytesOf(Down8(x), n)
    ensures FitsBytes(x, n + 1) == FitsBytes(Down8(x), n)
    ensures ByteAt(x, 0) == LowByte(x) && ByteAt(x, n + 1) == ByteAt(Down8(x), n)
  {
    hide Down8, LowByte;
  }

  lemma {:induction false} BytesOfNothing(n: nat)
    ensures FitsBytes(0, n) && forall i :: 0 <= i < n ==> BytesOf(0, n)[i] == 0
  {
    FourDowns(0);
    hide Down8, LowByte;
    if n == 0 {
    } else {
      BytesOfNothing(n - 1);
    }
  }

  lemma BytesOfRegister(r: word)
    ensures FitsBytes(r, 8)
    ensures BytesOf(r, 8) == [ByteAt(r, 0), ByteAt(r, 1), ByteAt(r, 2), ByteAt(r, 3), 0, 0, 0, 0]
  {
    hide *;
    FourDowns(r);
    var r2 := Down8(Down8(r));
    LastTwoBytes(r2);
    FirstByte(r, 7);
    FirstByte(Down8(r), 6);
    NextBytes(r);
  }

  /** The bytes of a register whose upper half is empty. */
  lemma LastTwoBytes(x: word)
    requires Down8(Down8(x)) == 0
    ensures FitsBytes(x, 6) && BytesOf(x, 6) == [ByteAt(x, 0), ByteAt(x, 1), 0, 0, 0, 0]
  {
    hide *;
    BytesOfNothing(4);
    FirstByte(x, 5);
    FirstByte(Down8(x), 4);
    NextBytes(x);
  }

  lemma NextBytes(x: word)
    ensures ByteAt(x, 0) == LowByte(x) && ByteAt(x, 1) == LowByte(Down8(x))
    ensures ByteAt(x, 2) == ByteAt(Down8(Down8(x)), 0) && ByteAt(x, 3) == ByteAt(Down8(Down8(x)), 1)
  {
    hide Down8, LowByte;
  }

  /** One term after the other, each is a table lookup. */
  lemma TermsStep(e: seq<byte>, i: nat)
    requires i < |e|
    ensures Terms(e[i..]) == Xor(Lookup(|e| - 1 - i, e[i]), Terms(e[i + 1..]))
  {
    hide Xor, Lookup, Advance;
    LookupIsAdvance(|e| - 1 - i, e[i]);
    assert e[i..][1..] == e[i + 1..];
  }

  lemma FourLookups(e: seq<byte>, i: nat)
    requires |e| == 8 && i <= 4
    ensures Terms(e[i..]) == Xor(Lookup(7 - i, e[i]), Xor(Lookup(6 - i, e[i + 1]), Xor(Lookup(5 - i, e[i + 2]),
                             Xor(Lookup(4 - i, e[i + 3]), Terms(e[i + 4..])))))
  {
    hide *;
    TermsStep(e, i);
    TermsStep(e, i + 1);
    TermsStep(e, i + 2);
    TermsStep(e, i + 3);
  }

  lemma LookupsAreTerms(e: seq<byte>)
    requires |e| == 8
    ensures Terms(e) == Xor(Lookup(7, e[0]), Xor(Lookup(6, e[1]), Xor(Lookup(5, e[2]), Xor(Lookup(4, e[3]),
                        Xor(Lookup(3, e[4]), Xor(Lookup(2, e[5]), Xor(Lookup(1, e[6]), Lookup(0, e[7]))))))))
  {
    hide *;
    FourLookups(e, 0);
    FourLookups(e, 4);
    NoTerms(Lookup(0, e[7]));
    assert e[0..] == e && e[8..] == [];
  }

  lemma NoTerms(x: word)
    ensures Xor(x, Terms([])) == x
  {
  }

  /** One step of the fast loop is 64 steps of the bit-serial register. */
  lemma EightByteStep(crc: word, data: seq<byte>)
    requires |data| == 8
    ensures EightLookups(Xor(LoadLittle(data, 0), crc), LoadLittle(data, 1)) == Register(crc, data)
  {
    hide Xor, Lookup, Terms, ByteAt, XorBytes, Advance, Feed, BytesOf, LittleEndian;
    BytesOfRegister(crc);
    var e := XorBytes(data, BytesOf(crc, 8));
    MixedBytes(crc, data);
    LookupsAreTerms(e);
    AdvanceIsTerms(crc, 8);
    TermsAreLinear(data, BytesOf(crc, 8));
    RegisterIsTerms(data);
    FeedIsAffine(crc, MessageBits(data));
    XorCommutes(Terms(data), Advance(crc, 64));
  }

  lemma MixedBytes(crc: word, data: seq<byte>)
    requires |data| == 8
    ensures var one, two := Xor(LoadLittle(data, 0), crc), LoadLittle(data, 1);
            XorBytes(data, BytesOf(crc, 8))
            == [ByteAt(one, 0), ByteAt(one, 1), ByteAt(one, 2), ByteAt(one, 3),
                ByteAt(two, 0), ByteAt(two, 1), ByteAt(two, 2), ByteAt(two, 3)]
  {
    BytesOfRegister(crc);
    hide Xor, ByteAt, LittleEndian, BytesOf, Mix, XorBytes;
    var one := LoadLittle(data, 0);
    ByteOfMixed(one, crc, 0);
    ByteOfMixed(one, crc, 1);
    ByteOfMixed(one, crc, 2);
    ByteOfMixed(one, crc, 3);
    BytesOfLoaded(data[0], data[1], data[2], data[3]);
    BytesOfLoaded(data[4], data[5], data[6], data[7]);
    MixZero(data[4]);
    MixZero(data[5]);
    MixZero(data[6]);
    MixZero(data[7]);
    XorBytesAt(data, BytesOf(crc, 8));
  }

  lemma MixZero(x: byte)
    ensures Mix(x, 0) == x
  {
  }

  lemma {:induction false} XorBytesAt(a: seq<byte>, b: seq<byte>)
    requires |a| == |b|
    ensures forall i :: 0 <= i < |a| ==> XorBytes(a, b)[i] == Mix(a[i], b[i])
  {
    hide Mix;
    if a == [] {
    } else {
      XorBytesAt(a[1..], b[1..]);
    }
  }

  lemma Grow(r: word, message: seq<byte>, data: seq<byte>, i: nat, n: nat)
    requires i + n <= |data|
    ensures Register(r, message + data[..i + n]) == Register(Register(r, message + data[..i]), data[i..i + n])
    ensures n == 1 ==> data[i..i + n] == [data[i]]
  {
    hide Register;
    assert message + data[..i + n] == message + data[..i] + data[i..i + n];
    RegisterAppends(r, message + data[..i], data[i..i + n]);
  }

  function Digit(x: word): char
    requires x < 16
  {
    HexDigit(x as byte)
  }

  lemma Nibbles(x: word)
    ensures Hex(StoreBig(x))
         == [Digit(x >> 28), Digit((x >> 24) & 15), Digit((x >> 20) & 15), Digit((x >> 16) & 15),
             Digit((x >> 12) & 15), Digit((x >> 8) & 15), Digit((x >> 4) & 15), Digit(x & 15)]
  {
    NibblesOfBytes(x);
    hide StoreBig, HexByte, Digit;
    var b := StoreBig(x);
    assert b[1..][1..] == b[2..] && b[2..][1..] == b[3..] && b[3..][1..] == [];
    assert Hex(b[3..]) == HexByte(b[3]);
    assert Hex(b[2..]) == HexByte(b[2]) + Hex(b[3..]);
    assert Hex(b[1..]) == HexByte(b[1]) + Hex(b[2..]);
  }

  lemma NibblesOfBytes(x: word)
    ensures var b := StoreBig(x);
            && HexByte(b[0]) == [Digit(x >> 28), Digit((x >> 24) & 15)]
            && HexByte(b[1]) == [Digit((x >> 20) & 15), Digit((x >> 16) & 15)]
            && HexByte(b[2]) == [Digit((x >> 12) & 15), Digit((x >> 8) & 15)]
            && HexByte(b[3]) == [Digit((x >> 4) & 15), Digit(x & 15)]
  {
    hide HexDigit, StoreBig;
    NibbleBits(x);
  }

  lemma NibbleBits(x: word)
    ensures var b := StoreBig(x);
            && (b[0] >> 4) & 15 == (x >> 28) as byte && b[0] & 15 == ((x >> 24) & 15) as byte
            && (b[1] >> 4) & 15 == ((x >> 20) & 15) as byte && b[1] & 15 == ((x >> 16) & 15) as byte
            && (b[2] >> 4) & 15 == ((x >> 12) & 15) as byte && b[2] & 15 == ((x >> 8) & 15) as byte
            && (b[3] >> 4) & 15 == ((x >> 4) & 15) as byte && b[3] & 15 == (x & 15) as byte
  {
  }

  // ----- the class -----

  class Crc {
    var hash: word

    /** Every byte added since the last reset. */
    ghost var message: seq<byte>

    ghost predicate Valid()
      reads this
    {
      hash == Checksum(message)
    }

    constructor ()
      ensures Valid() && message == []
    {
      hash := 0;
      message := [];
    }

    method Reset()
      modifies this
      ensures Valid() && message == []
    {
      hash := 0;
      message := [];
    }

    /** Add any number of bytes, eight at a time while there are that many. */
    method Add(data: seq<byte>)
      requires Valid()
      modifies this
      ensures Valid() && message == old(message) + data
    {
      hide Register, EightLookups, Lookup, Xor, LowByte, Invert;
      ghost var preset: word := 0xFFFFFFFF;
      var crc := Invert(hash);
      InvertTwice(Register(preset, message));
      var current, count: nat := 0, |data|;
      assert message + data[..0] == message;

      while count >= 8
        invariant current + count == |data| && message == old(message)
        invariant crc == Register(preset, message + data[..current])
      {
        var one := Xor(LoadLittle(data[current..current + 8], 0), crc);
        var two := LoadLittle(data[current..current + 8], 1);
        EightByteStep(crc, data[current..current + 8]);
        Grow(preset, message, data, current, 8);
        crc := EightLookups(one, two);
        current := current + 8;
        count := count - 8;
      }

      while count > 0
        invariant current + count == |data| && message == old(message)
        invariant crc == Register(preset, message + data[..current])
      {
        TailStep(crc, data[current]);
        Grow(preset, message, data, current, 1);
        crc := Xor(Down8(crc), Lookup(0, LowByte(crc) ^ data[current]));
        current := current + 1;
        count := count - 1;
      }

      hash := Invert(crc);
      assert data[..current] == data;
      message := message + data;
    }

    /** The checksum as bytes, most significant first. */
    method GetBytes() returns (bytes: seq<byte>)
      requires Valid()
      ensures bytes == StoreBig(Checksum(message))
    {
      bytes := [((hash >> 24) & 0xFF) as byte, ((hash >> 16) & 0xFF) as byte, ((hash >> 8) & 0xFF) as byte,
                (hash & 0xFF) as byte];
    }

    /** The checksum as eight hexadecimal digits. */
    method GetHash() returns (text: string)
      requires Valid()
      ensures text == Hex(StoreBig(Checksum(message)))
    {
      text := [Digit(hash >> 28), Digit((hash >> 24) & 15), Digit((hash >> 20) & 15), Digit((hash >> 16) & 15),
               Digit((hash >> 12) & 15), Digit((hash >> 8) & 15), Digit((hash >> 4) & 15), Digit(hash & 15)];
      Nibbles(hash);
    }
  }
}
