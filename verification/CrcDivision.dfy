/** The shift register divides: what it holds is the remainder of the message, as a polynomial over the field with two
    elements, modulo the polynomial of CRC-32. */
module CrcDivision {
  import opened Words
  import opened Crc32
  import opened CrcErrors

  // A polynomial is given by its coefficients; exclusive or, written !=, is their addition.

  /** Coefficient d of the polynomial that the register holds in reflected order. */
  predicate RegisterAt(r: word, d: int) {
    0 <= d < 32 && Odd(Halves(r, 31 - d))
  }

  /** Coefficient d of the divisor, of degree 32. */
  predicate DivisorAt(d: int) {
    d == 32 || RegisterAt(Polynomial(), d)
  }

  /** Coefficient d of the dividend: the bits times x^32, the first bit having the highest degree, plus what the
      register held before times x^n. */
  predicate DividendAt(r: word, bits: seq<bool>, d: int) {
    var n := |bits|;
    (32 <= d < 32 + n && bits[n - 1 - (d - 32)]) != RegisterAt(r, d - n)
  }

  /** Coefficient d of the product of q, highest coefficient first, and the divisor. */
  predicate ProductAt(q: seq<bool>, d: int) {
    if q == [] then false
    else
      var k := |q| - 1;
      ProductAt(q[..k], d - 1) != (q[k] && DivisorAt(d))
  }

  /** The bits that leave the register. */
  function Quotient(r: word, bits: seq<bool>): (q: seq<bool>)
    ensures |q| == |bits|
  {
    if bits == [] then []
    else
      var k := |bits| - 1;
      Quotient(r, bits[..k]) + [Odd(Xor(Feed(r, bits[..k]), BitWord(bits[k])))]
  }

  lemma {:induction false} HalvesOfXor(x: word, y: word, n: nat)
    ensures Halves(Xor(x, y), n) == Xor(Halves(x, n), Halves(y, n))
    decreases n
  {
    hide Half, Xor;
    if n == 0 {
    } else {
      HalfAndOdd(x, y);
      HalvesOfXor(Half(x), Half(y), n - 1);
    }
  }

  lemma EightHalves(x: word, n: nat)
    ensures Halves(x, 8 + n) == Halves(Down8(x), n)
  {
    hide Quarter, Down8, Half;
    HalvesAdd(x, 8, n);
    FewHalves(x);
    QuartersOfWord(x);
  }

  lemma HalvesOf32(x: word)
    ensures Halves(x, 32) == 0
  {
    var y := Down8(x);
    var z := Down8(y);
    FourDowns(x);
    hide Down8, Half, Odd, LowByte;
    EightHalves(x, 24);
    EightHalves(y, 16);
    EightHalves(z, 8);
    EightHalves(Down8(z), 0);
  }

  lemma ZeroIsEven()
    ensures !Odd(0)
  {
  }

  lemma MixedBit(r: word, bit: bool)
    ensures var s := Xor(r, BitWord(bit)); Half(s) == Half(r) && Odd(s) == (Odd(r) != bit)
  {
    BitWordIsSmall(bit, Half(r));
    HalfAndOdd(r, BitWord(bit));
    hide Xor, Half, Odd, BitWord;
  }

  /** A coefficient in the middle comes from the next one of the register and one of the divisor. */
  lemma MiddleDivides(r: word, n: nat)
    ensures Odd(Halves(Xor(Half(r), Polynomial()), n)) == (Odd(Halves(r, n + 1)) != Odd(Halves(Polynomial(), n)))
  {
    hide Xor, Half, Odd, Polynomial;
    HalvesOfXor(Half(r), Polynomial(), n);
    hide Halves;
    HalfAndOdd(Halves(Half(r), n), Halves(Polynomial(), n));
    assert Halves(Half(r), n) == Halves(r, n + 1) by {
      HalvesNext(r, n);
    }
  }

  lemma HalvesNext(r: word, n: nat)
    ensures Halves(r, n + 1) == Halves(Half(r), n) && Halves(r, 0) == r
  {
    hide Half;
  }

  /** One step: x times the old register plus the new bit times x^32 is the new register, plus the divisor if the bit
      that left is set. */
  lemma StepDivides(r: word, bit: bool, d: int)
    ensures (RegisterAt(r, d - 1) != (d == 32 && bit))
         == (RegisterAt(Shift(Xor(r, BitWord(bit))), d) != (Odd(Xor(r, BitWord(bit))) && DivisorAt(d)))
  {
    hide Xor, Half, Odd, Polynomial, BitWord, Halves;
    var s := Xor(r, BitWord(bit));
    MixedBit(r, bit);
    if d == 32 {
      HalvesNext(r, 0);
    } else if 0 <= d < 32 {
      MiddleDivides(r, 31 - d);
      HalvesNext(r, 31 - d);
      HalvesOf32(r);
      ZeroIsEven();
    }
  }

  lemma FeedOne(r: word, bit: bool)
    ensures Feed(r, [bit]) == Shift(Xor(r, BitWord(bit)))
  {
    hide Shift, Xor, BitWord;
    assert [bit][1..] == [];
  }

  /** The dividend with one more bit: all degrees go up by one, and the bit comes in at degree 32. */
  lemma DividendGrows(r: word, before: seq<bool>, bit: bool, d: int)
    ensures DividendAt(r, before + [bit], d) == (DividendAt(r, before, d - 1) != (d == 32 && bit))
  {
    hide RegisterAt;
  }

  lemma ProductGrows(q: seq<bool>, bit: bool, d: int)
    ensures ProductAt(q + [bit], d) == (ProductAt(q, d - 1) != (bit && DivisorAt(d)))
  {
    hide DivisorAt;
    assert (q + [bit])[..|q|] == q;
  }

  lemma QuotientGrows(r: word, before: seq<bool>, bit: bool)
    ensures Quotient(r, before + [bit]) == Quotient(r, before) + [Odd(Xor(Feed(r, before), BitWord(bit)))]
  {
    hide Feed, Xor, BitWord, Odd;
    assert (before + [bit])[..|before|] == before;
  }

  /** The division equation, coefficient by coefficient: the dividend is the quotient times the divisor plus the
      register, whose degree is below that of the divisor. */
  lemma {:induction false} RegisterIsRemainder(r: word, bits: seq<bool>, d: int)
    ensures DividendAt(r, bits, d) == (ProductAt(Quotient(r, bits), d) != RegisterAt(Feed(r, bits), d))
    decreases |bits|
  {
    if bits == [] {
      hide RegisterAt;
    } else {
      var k := |bits| - 1;
      var before, bit := bits[..k], bits[k];
      assert bits == before + [bit];
      hide *;
      FeedAppends(r, before, [bit]);
      FeedOne(Feed(r, before), bit);
      RegisterIsRemainder(r, before, d - 1);
      StepDivides(Feed(r, before), bit, d);
      DividendGrows(r, before, bit, d);
      QuotientGrows(r, before, bit);
      ProductGrows(Quotient(r, before), Odd(Xor(Feed(r, before), BitWord(bit))), d);
    }
  }
}
