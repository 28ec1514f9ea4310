/** Keccak-f[1600] can be run backwards: an inverse of every step mapping, and so of the whole permutation. */
module KeccakBijective {
  import opened Keccak

  // ----- laws of the lane operations -----

  lemma XorLaws(x: lane, y: lane)
    ensures Xor(Xor(x, y), y) == x && Xor(Xor(x, y), x) == y && Xor(x, Xor(y, x)) == y && Xor(x, Xor(x, y)) == y
    ensures Xor(x, y) == Xor(y, x)
  {
  }

  lemma XorUnfold(x: lane, y: lane)
    ensures Xor(x, y) == x ^ y
  {
  }

  lemma XorInner(x: lane, y: lane, z: lane)
    ensures Xor(x, y ^ z) == Xor(x ^ y, z)
  {
  }

  lemma XorAssociates(x: lane, y: lane, z: lane)
    ensures Xor(Xor(x, y), z) == Xor(x, Xor(y, z))
  {
    hide Xor;
    XorUnfold(x, y);
    XorUnfold(y, z);
    XorInner(x, y, z);
  }

  lemma Telescope(x: lane, y: lane, z: lane)
    ensures Xor(Xor(x, y), Xor(y, z)) == Xor(x, z)
  {
    hide Xor;
    XorAssociates(Xor(x, y), y, z);
    XorLaws(x, y);
  }

  lemma Exchange(x: lane, u: lane, y: lane, v: lane)
    ensures Xor(Xor(x, u), Xor(y, v)) == Xor(Xor(x, y), Xor(u, v))
  {
    hide Xor;
    XorAssociates(Xor(x, u), y, v);
    XorAssociates(x, u, y);
    XorLaws(u, y);
    XorAssociates(x, y, u);
    XorAssociates(Xor(x, y), u, v);
  }

  // A law of rotations is proved for each amount that occurs. The first form of it has the inner rotation written
  // out, so that the shifts are all there is to it; the unfoldings carry it over to the named operations.

  /** The rotations by a power of two. */
  predicate Power(n: bv8) {
    n == 1 || n == 2 || n == 4 || n == 8 || n == 16 || n == 32
  }

  function Double(n: bv8): (m: bv8)
    ensures m < 64
  {
    2 * n % 64
  }

  lemma PowerUnfold(x: lane)
    ensures RotateLeft(x, 1) == (x << 1) | (x >> 63)
    ensures RotateLeft(x, 2) == (x << 2) | (x >> 62)
    ensures RotateLeft(x, 4) == (x << 4) | (x >> 60)
    ensures RotateLeft(x, 8) == (x << 8) | (x >> 56)
    ensures RotateLeft(x, 16) == (x << 16) | (x >> 48)
    ensures RotateLeft(x, 32) == (x << 32) | (x >> 32)
  {
  }

  lemma PowerOfXor(x: lane, y: lane)
    ensures RotateLeft(x ^ y, 1) == Xor((x << 1) | (x >> 63), (y << 1) | (y >> 63))
    ensures RotateLeft(x ^ y, 2) == Xor((x << 2) | (x >> 62), (y << 2) | (y >> 62))
    ensures RotateLeft(x ^ y, 4) == Xor((x << 4) | (x >> 60), (y << 4) | (y >> 60))
    ensures RotateLeft(x ^ y, 8) == Xor((x << 8) | (x >> 56), (y << 8) | (y >> 56))
    ensures RotateLeft(x ^ y, 16) == Xor((x << 16) | (x >> 48), (y << 16) | (y >> 48))
    ensures RotateLeft(x ^ y, 32) == Xor((x << 32) | (x >> 32), (y << 32) | (y >> 32))
  {
  }

  lemma PowerTwice(x: lane)
    ensures RotateLeft((x << 1) | (x >> 63), 1) == (x << 2) | (x >> 62)
    ensures RotateLeft((x << 2) | (x >> 62), 2) == (x << 4) | (x >> 60)
    ensures RotateLeft((x << 4) | (x >> 60), 4) == (x << 8) | (x >> 56)
    ensures RotateLeft((x << 8) | (x >> 56), 8) == (x << 16) | (x >> 48)
    ensures RotateLeft((x << 16) | (x >> 48), 16) == (x << 32) | (x >> 32)
    ensures RotateLeft((x << 32) | (x >> 32), 32) == x
  {
  }

  lemma PowerLaws(x: lane, y: lane)
    ensures RotateLeft(Xor(x, y), 1) == Xor(RotateLeft(x, 1), RotateLeft(y, 1))
    ensures RotateLeft(Xor(x, y), 2) == Xor(RotateLeft(x, 2), RotateLeft(y, 2))
    ensures RotateLeft(Xor(x, y), 4) == Xor(RotateLeft(x, 4), RotateLeft(y, 4))
    ensures RotateLeft(Xor(x, y), 8) == Xor(RotateLeft(x, 8), RotateLeft(y, 8))
    ensures RotateLeft(Xor(x, y), 16) == Xor(RotateLeft(x, 16), RotateLeft(y, 16))
    ensures RotateLeft(Xor(x, y), 32) == Xor(RotateLeft(x, 32), RotateLeft(y, 32))
    ensures RotateLeft(RotateLeft(x, 1), 1) == RotateLeft(x, 2)
    ensures RotateLeft(RotateLeft(x, 2), 2) == RotateLeft(x, 4)
    ensures RotateLeft(RotateLeft(x, 4), 4) == RotateLeft(x, 8)
    ensures RotateLeft(RotateLeft(x, 8), 8) == RotateLeft(x, 16)
    ensures RotateLeft(RotateLeft(x, 16), 16) == RotateLeft(x, 32)
    ensures RotateLeft(RotateLeft(x, 32), 32) == RotateLeft(x, 0)
  {
    hide *;
    NoRotation(x);
    PowerUnfold(x);
    PowerUnfold(y);
    XorUnfold(x, y);
    PowerOfXor(x, y);
    PowerTwice(x);
  }

  /** A rotation by a power of two respects exclusive or, and done twice it is the rotation by the double. */
  lemma RotateLaws(x: lane, y: lane, n: bv8)
    requires Power(n)
    ensures RotateLeft(Xor(x, y), n) == Xor(RotateLeft(x, n), RotateLeft(y, n))
    ensures RotateLeft(RotateLeft(x, n), n) == RotateLeft(x, Double(n))
  {
    hide RotateLeft, Xor;
    PowerLaws(x, y);
  }

  // ----- theta -----

  /** One lane for every sheet. */
  type Sheets = c: seq<lane> | |c| == 5 witness seq(5, _ => 0)

  /** The sheet d places after, or before, sheet x, counting modulo 5. */
  function After(x: nat, d: nat): (r: nat)
    requires x < 5 && d < 5
    ensures r < 5
  {
    if x + d < 5 then x + d else x + d - 5
  }

  function Before(x: nat, d: nat): (r: nat)
    requires x < 5 && d < 5
    ensures r < 5
  {
    if d <= x then x - d else x + 5 - d
  }

  /** Each lane with the one d places before and the rotated one d places after it mixed in. */
  function Mixed(c: Sheets, d: nat, n: bv8): Sheets
    requires d < 5 && n < 64
  {
    seq(5, x requires 0 <= x < 5 => Xor(c[x], Xor(c[Before(x, d)], RotateLeft(c[After(x, d)], n))))
  }

  lemma SumOfNine(a: lane, b: lane, c: lane, d: lane, e: lane, f: lane)
    ensures Xor(Xor(a, Xor(b, c)), Xor(Xor(b, Xor(d, e)), Xor(c, Xor(e, f)))) == Xor(a, Xor(d, f))
  {
    hide Xor;
    Exchange(b, Xor(d, e), c, Xor(e, f));
    Telescope(d, e, f);
    Telescope(a, Xor(b, c), Xor(d, f));
  }

  lemma MixedAt(c: Sheets, d: nat, n: bv8, x: nat)
    requires d < 5 && x < 5 && n < 64
    ensures Mixed(c, d, n)[x] == Xor(c[x], Xor(c[Before(x, d)], RotateLeft(c[After(x, d)], n)))
  {
    hide Xor, RotateLeft, Before, After;
  }

  lemma Distances(x: nat, d: nat)
    requires x < 5 && d < 5
    ensures Before(After(x, d), d) == x && After(Before(x, d), d) == x
    ensures Before(Before(x, d), d) == Before(x, After(d, d)) && After(After(x, d), d) == After(x, After(d, d))
  {
  }

  lemma MixedTwiceAt(c: Sheets, d: nat, n: bv8, x: nat)
    requires d < 5 && Power(n) && x < 5
    ensures n < 64 && Mixed(Mixed(c, d, n), d, n)[x] == Mixed(c, After(d, d), Double(n))[x]
  {
    hide Xor, RotateLeft, Double, Mixed, Before, After;
    var b, f := Before(x, d), After(x, d);
    var bb, ff := Before(b, d), After(f, d);
    Distances(x, d);
    MixedAt(Mixed(c, d, n), d, n, x);
    MixedAt(c, d, n, x);
    MixedAt(c, d, n, b);
    MixedAt(c, d, n, f);
    MixedAt(c, After(d, d), Double(n), x);
    RotateLaws(c[f], Xor(c[x], RotateLeft(c[ff], n)), n);
    RotateLaws(c[x], RotateLeft(c[ff], n), n);
    RotateLaws(c[ff], c[x], n);
    SumOfNine(c[x], c[b], RotateLeft(c[f], n), c[bb], RotateLeft(c[x], n), RotateLeft(c[ff], Double(n)));
  }

  /** Mixing twice is mixing once at twice the distance and with twice the rotation. */
  lemma MixedTwice(c: Sheets, d: nat, n: bv8)
    requires d < 5 && Power(n)
    ensures Mixed(Mixed(c, d, n), d, n) == Mixed(c, After(d, d), Double(n))
  {
    hide Mixed, Double;
    forall x | 0 <= x < 5
      ensures Mixed(Mixed(c, d, n), d, n)[x] == Mixed(c, After(d, d), Double(n))[x]
    {
      MixedTwiceAt(c, d, n, x);
    }
  }

  /** Six doublings turn a distance of one and a rotation by one into a distance of four and no rotation. */
  lemma SixDoublings(c: Sheets, u32: Sheets, u16: Sheets, u8: Sheets, u4: Sheets, u2: Sheets)
    requires u32 == Mixed(c, 2, 32) && u16 == Mixed(u32, 1, 16) && u8 == Mixed(u16, 3, 8)
    requires u4 == Mixed(u8, 4, 4) && u2 == Mixed(u4, 2, 2)
    ensures Mixed(Mixed(u2, 1, 1), 1, 1) == Mixed(c, 4, 0)
  {
    hide Mixed;
    MixedTwice(u2, 1, 1);
    MixedTwice(u4, 2, 2);
    MixedTwice(u8, 4, 4);
    MixedTwice(u16, 3, 8);
    MixedTwice(u32, 1, 16);
    MixedTwice(c, 2, 32);
  }

  lemma ClosingSum(x: lane, y: lane, z: lane, w: lane)
    ensures Xor(Xor(x, Xor(y, z)), Xor(y, Xor(w, x))) == Xor(z, w)
  {
    hide Xor;
    XorLaws(y, z);
    XorAssociates(x, z, y);
    XorLaws(w, x);
    XorLaws(x, z);
    Telescope(Xor(x, z), y, Xor(w, x));
    Telescope(z, x, w);
  }

  /** The inverse of mixing at distance four without rotation. */
  function Settled(c: Sheets): Sheets {
    seq(5, x requires 0 <= x < 5 => Xor(c[x], Xor(c[After(x, 2)], c[After(x, 3)])))
  }

  lemma SettledIsInverse(c: Sheets)
    ensures Settled(Mixed(c, 4, 0)) == c
    ensures Mixed(Settled(c), 4, 0) == c
  {
    hide Xor, RotateLeft;
    forall x | 0 <= x < 5
      ensures Settled(Mixed(c, 4, 0))[x] == c[x] && Mixed(Settled(c), 4, 0)[x] == c[x]
    {
      SettledAt(c, x);
    }
  }

  lemma NeighbourSum(c: Sheets, x: nat)
    requires x < 5
    ensures Mixed(c, 4, 0)[x] == Xor(c[x], Xor(c[After(x, 1)], c[After(x, 4)]))
  {
    hide Xor, RotateLeft;
    NoRotation(c[After(x, 4)]);
  }

  lemma AfterAfter(x: nat)
    requires x < 5
    ensures After(After(x, 2), 1) == After(x, 3) && After(After(x, 2), 4) == After(x, 1)
    ensures After(After(x, 3), 1) == After(x, 4) && After(After(x, 3), 4) == After(x, 2)
    ensures After(After(x, 1), 2) == After(x, 3) && After(After(x, 1), 3) == After(x, 4)
    ensures After(After(x, 4), 2) == After(x, 1) && After(After(x, 4), 3) == After(x, 2)
  {
  }

  lemma SettledAt(c: Sheets, x: nat)
    requires x < 5
    ensures Settled(Mixed(c, 4, 0))[x] == c[x]
    ensures Mixed(Settled(c), 4, 0)[x] == c[x]
  {
    hide Xor, Mixed, After;
    AfterAfter(x);
    // around x, the sheets are s, c[x], p, q, r
    var p, q, r, s := c[After(x, 1)], c[After(x, 2)], c[After(x, 3)], c[After(x, 4)];
    NeighbourSum(c, x);
    NeighbourSum(c, After(x, 2));
    NeighbourSum(c, After(x, 3));
    ClosingSum(q, r, p, s);
    XorLaws(c[x], Xor(p, s));
    NeighbourSum(Settled(c), x);
    XorLaws(r, s);
    XorLaws(p, q);
    XorLaws(q, r);
    ClosingSum(p, s, r, q);
    XorLaws(c[x], Xor(q, r));
  }

  /** The inverse of Mixed at distance one: all the smaller powers of it, after the inverse of the largest. */
  function Unmixed(c: Sheets): Sheets {
    Mixed(Mixed(Mixed(Mixed(Mixed(Mixed(Settled(c), 2, 32), 1, 16), 3, 8), 4, 4), 2, 2), 1, 1)
  }

  lemma MixedOfUnmixed(c: Sheets)
    ensures Mixed(Unmixed(c), 1, 1) == c
  {
    hide Mixed, Settled;
    var c64 := Settled(c);
    var u32 := Mixed(c64, 2, 32);
    var u16 := Mixed(u32, 1, 16);
    var u8 := Mixed(u16, 3, 8);
    var u4 := Mixed(u8, 4, 4);
    SixDoublings(c64, u32, u16, u8, u4, Mixed(u4, 2, 2));
    SettledIsInverse(c);
  }

  /** Mixing at distance one loses nothing: mixing on up to distance four shows it. */
  lemma MixedIsInjective(c: Sheets, d: Sheets)
    requires Mixed(c, 1, 1) == Mixed(d, 1, 1)
    ensures c == d
  {
    hide Mixed, Settled;
    MixedTwice(c, 1, 1);
    MixedTwice(d, 1, 1);
    MixedTwice(c, 2, 2);
    MixedTwice(d, 2, 2);
    MixedTwice(c, 4, 4);
    MixedTwice(d, 4, 4);
    MixedTwice(c, 3, 8);
    MixedTwice(d, 3, 8);
    MixedTwice(c, 1, 16);
    MixedTwice(d, 1, 16);
    MixedTwice(c, 2, 32);
    MixedTwice(d, 2, 32);
    SettledIsInverse(c);
    SettledIsInverse(d);
  }

  lemma UnmixedOfMixed(c: Sheets)
    ensures Unmixed(Mixed(c, 1, 1)) == c
  {
    hide Mixed, Unmixed;
    MixedOfUnmixed(Mixed(c, 1, 1));
    MixedIsInjective(Unmixed(Mixed(c, 1, 1)), c);
  }

  function Parities(a: State): Sheets {
    seq(5, x requires 0 <= x < 5 => Parity(a, x))
  }

  function XorSheets(c: Sheets, d: Sheets): Sheets {
    seq(5, x requires 0 <= x < 5 => Xor(c[x], d[x]))
  }

  /** Mix one lane into all lanes of each sheet. */
  function Spread(a: State, d: Sheets): State {
    seq(25, i requires 0 <= i < 25 => Xor(a[i], d[i % 5]))
  }

  function UnTheta(b: State): State {
    var c := Parities(b);
    Spread(b, XorSheets(Unmixed(c), c))
  }

  lemma ThetaIsSpread(a: State)
    ensures var c := Parities(a); Theta(a) == Spread(a, XorSheets(Mixed(c, 1, 1), c))
  {
    hide Xor, RotateLeft, Parity;
    var c := Parities(a);
    forall i | 0 <= i < 25
      ensures Xor(a[i], Effect(a, i % 5)) == Xor(a[i], Xor(Mixed(c, 1, 1)[i % 5], c[i % 5]))
    {
      EffectIsMixed(a, i % 5);
    }
  }

  lemma EffectIsMixed(a: State, x: nat)
    requires x < 5
    ensures var c := Parities(a); Effect(a, x) == Xor(Mixed(c, 1, 1)[x], c[x])
  {
    hide Xor, RotateLeft, Parity;
    var c := Parities(a);
    assert (x + 4) % 5 == Before(x, 1) && (x + 1) % 5 == After(x, 1);
    XorLaws(c[x], Effect(a, x));
  }

  lemma SpreadTwice(a: State, d: Sheets)
    ensures Spread(Spread(a, d), d) == a
  {
    hide Xor;
    forall i | 0 <= i < 25
      ensures Spread(Spread(a, d), d)[i] == a[i]
    {
      XorLaws(a[i], d[i % 5]);
    }
  }

  /** Five lanes of a sheet are an odd number. */
  lemma ParityOfSpread(a: State, d: Sheets)
    ensures Parities(Spread(a, d)) == XorSheets(Parities(a), d)
  {
    hide Xor;
    forall x | 0 <= x < 5
      ensures Parity(Spread(a, d), x) == Xor(Parity(a, x), d[x])
    {
      SpreadAt(a, d, x);
      SumOfFive(a[x], a[x + 5], a[x + 10], a[x + 15], a[x + 20], d[x]);
    }
  }

  lemma SpreadAt(a: State, d: Sheets, x: nat)
    requires x < 5
    ensures Spread(a, d)[x] == Xor(a[x], d[x]) && Spread(a, d)[x + 5] == Xor(a[x + 5], d[x])
    ensures Spread(a, d)[x + 10] == Xor(a[x + 10], d[x]) && Spread(a, d)[x + 15] == Xor(a[x + 15], d[x])
    ensures Spread(a, d)[x + 20] == Xor(a[x + 20], d[x])
  {
    hide Xor;
  }

  lemma SumOfFive(a: lane, b: lane, c: lane, e: lane, f: lane, d: lane)
    ensures Xor(Xor(Xor(Xor(Xor(a, d), Xor(b, d)), Xor(c, d)), Xor(e, d)), Xor(f, d))
         == Xor(Xor(Xor(Xor(Xor(a, b), c), e), f), d)
  {
    hide Xor;
    XorLaws(b, d);
    Telescope(a, d, b);
    Exchange(Xor(a, b), e, c, f);
    XorAssociates(Xor(a, b), c, d);
    var s := Xor(Xor(a, b), Xor(c, d));
    XorLaws(e, d);
    Telescope(Xor(Xor(a, b), c), d, e);
    XorAssociates(Xor(Xor(Xor(a, b), c), e), f, d);
  }

  lemma UnThetaInverts(a: State)
    ensures UnTheta(Theta(a)) == a
    ensures Theta(UnTheta(a)) == a
  {
    var c := Parities(a);
    var m, u := Mixed(c, 1, 1), Unmixed(c);
    ThetaIsSpread(a);
    ParityOfSpread(a, XorSheets(m, c));
    XorSheetsBack(m, c);
    UnmixedOfMixed(c);
    SpreadTwice(a, XorSheets(c, m));

    var b := UnTheta(a);
    ParityOfSpread(a, XorSheets(u, c));
    XorSheetsBack(u, c);
    ThetaIsSpread(b);
    MixedOfUnmixed(c);
    SpreadTwice(a, XorSheets(u, c));
    hide *;
  }

  lemma XorSheetsBack(c: Sheets, d: Sheets)
    ensures XorSheets(d, XorSheets(c, d)) == c
    ensures XorSheets(c, d) == XorSheets(d, c)
  {
    hide Xor;
    forall x | 0 <= x < 5
      ensures XorSheets(d, XorSheets(c, d))[x] == c[x] && XorSheets(c, d)[x] == XorSheets(d, c)[x]
    {
      XorLaws(c[x], d[x]);
      XorLaws(d[x], c[x]);
    }
  }

  // ----- rho -----

  function RotateRight(x: lane, n: bv8): lane
    requires n < 64
  {
    (x >> n) | (x << (64 - n))
  }

  lemma LeftUnfold(x: lane)
    ensures RotateLeft(x, 1) == (x << 1) | (x >> 63)
    ensures RotateLeft(x, 62) == (x << 62) | (x >> 2)
    ensures RotateLeft(x, 28) == (x << 28) | (x >> 36)
    ensures RotateLeft(x, 27) == (x << 27) | (x >> 37)
    ensures RotateLeft(x, 36) == (x << 36) | (x >> 28)
    ensures RotateLeft(x, 44) == (x << 44) | (x >> 20)
    ensures RotateLeft(x, 6) == (x << 6) | (x >> 58)
    ensures RotateLeft(x, 55) == (x << 55) | (x >> 9)
    ensures RotateLeft(x, 20) == (x << 20) | (x >> 44)
    ensures RotateLeft(x, 3) == (x << 3) | (x >> 61)
    ensures RotateLeft(x, 10) == (x << 10) | (x >> 54)
    ensures RotateLeft(x, 43) == (x << 43) | (x >> 21)
    ensures RotateLeft(x, 25) == (x << 25) | (x >> 39)
    ensures RotateLeft(x, 39) == (x << 39) | (x >> 25)
    ensures RotateLeft(x, 41) == (x << 41) | (x >> 23)
    ensures RotateLeft(x, 45) == (x << 45) | (x >> 19)
    ensures RotateLeft(x, 15) == (x << 15) | (x >> 49)
    ensures RotateLeft(x, 21) == (x << 21) | (x >> 43)
    ensures RotateLeft(x, 8) == (x << 8) | (x >> 56)
    ensures RotateLeft(x, 18) == (x << 18) | (x >> 46)
    ensures RotateLeft(x, 2) == (x << 2) | (x >> 62)
    ensures RotateLeft(x, 61) == (x << 61) | (x >> 3)
    ensures RotateLeft(x, 56) == (x << 56) | (x >> 8)
    ensures RotateLeft(x, 14) == (x << 14) | (x >> 50)
  {
  }

  lemma RightUnfold(x: lane)
    ensures RotateRight(x, 1) == (x >> 1) | (x << 63)
    ensures RotateRight(x, 62) == (x >> 62) | (x << 2)
    ensures RotateRight(x, 28) == (x >> 28) | (x << 36)
    ensures RotateRight(x, 27) == (x >> 27) | (x << 37)
    ensures RotateRight(x, 36) == (x >> 36) | (x << 28)
    ensures RotateRight(x, 44) == (x >> 44) | (x << 20)
    ensures RotateRight(x, 6) == (x >> 6) | (x << 58)
    ensures RotateRight(x, 55) == (x >> 55) | (x << 9)
    ensures RotateRight(x, 20) == (x >> 20) | (x << 44)
    ensures RotateRight(x, 3) == (x >> 3) | (x << 61)
    ensures RotateRight(x, 10) == (x >> 10) | (x << 54)
    ensures RotateRight(x, 43) == (x >> 43) | (x << 21)
    ensures RotateRight(x, 25) == (x >> 25) | (x << 39)
    ensures RotateRight(x, 39) == (x >> 39) | (x << 25)
    ensures RotateRight(x, 41) == (x >> 41) | (x << 23)
    ensures RotateRight(x, 45) == (x >> 45) | (x << 19)
    ensures RotateRight(x, 15) == (x >> 15) | (x << 49)
    ensures RotateRight(x, 21) == (x >> 21) | (x << 43)
    ensures RotateRight(x, 8) == (x >> 8) | (x << 56)
    ensures RotateRight(x, 18) == (x >> 18) | (x << 46)
    ensures RotateRight(x, 2) == (x >> 2) | (x << 62)
    ensures RotateRight(x, 61) == (x >> 61) | (x << 3)
    ensures RotateRight(x, 56) == (x >> 56) | (x << 8)
    ensures RotateRight(x, 14) == (x >> 14) | (x << 50)
  {
  }

  lemma RightOfLeft(x: lane)
    ensures RotateRight((x << 1) | (x >> 63), 1) == x
    ensures RotateRight((x << 62) | (x >> 2), 62) == x
    ensures RotateRight((x << 28) | (x >> 36), 28) == x
    ensures RotateRight((x << 27) | (x >> 37), 27) == x
    ensures RotateRight((x << 36) | (x >> 28), 36) == x
    ensures RotateRight((x << 44) | (x >> 20), 44) == x
    ensures RotateRight((x << 6) | (x >> 58), 6) == x
    ensures RotateRight((x << 55) | (x >> 9), 55) == x
    ensures RotateRight((x << 20) | (x >> 44), 20) == x
    ensures RotateRight((x << 3) | (x >> 61), 3) == x
    ensures RotateRight((x << 10) | (x >> 54), 10) == x
    ensures RotateRight((x << 43) | (x >> 21), 43) == x
    ensures RotateRight((x << 25) | (x >> 39), 25) == x
    ensures RotateRight((x << 39) | (x >> 25), 39) == x
    ensures RotateRight((x << 41) | (x >> 23), 41) == x
    ensures RotateRight((x << 45) | (x >> 19), 45) == x
    ensures RotateRight((x << 15) | (x >> 49), 15) == x
    ensures RotateRight((x << 21) | (x >> 43), 21) == x
    ensures RotateRight((x << 8) | (x >> 56), 8) == x
    ensures RotateRight((x << 18) | (x >> 46), 18) == x
    ensures RotateRight((x << 2) | (x >> 62), 2) == x
    ensures RotateRight((x << 61) | (x >> 3), 61) == x
    ensures RotateRight((x << 56) | (x >> 8), 56) == x
    ensures RotateRight((x << 14) | (x >> 50), 14) == x
  {
  }

  lemma LeftOfRight(x: lane)
    ensures RotateLeft((x >> 1) | (x << 63), 1) == x
    ensures RotateLeft((x >> 62) | (x << 2), 62) == x
    ensures RotateLeft((x >> 28) | (x << 36), 28) == x
    ensures RotateLeft((x >> 27) | (x << 37), 27) == x
    ensures RotateLeft((x >> 36) | (x << 28), 36) == x
    ensures RotateLeft((x >> 44) | (x << 20), 44) == x
    ensures RotateLeft((x >> 6) | (x << 58), 6) == x
    ensures RotateLeft((x >> 55) | (x << 9), 55) == x
    ensures RotateLeft((x >> 20) | (x << 44), 20) == x
    ensures RotateLeft((x >> 3) | (x << 61), 3) == x
    ensures RotateLeft((x >> 10) | (x << 54), 10) == x
    ensures RotateLeft((x >> 43) | (x << 21), 43) == x
    ensures RotateLeft((x >> 25) | (x << 39), 25) == x
    ensures RotateLeft((x >> 39) | (x << 25), 39) == x
    ensures RotateLeft((x >> 41) | (x << 23), 41) == x
    ensures RotateLeft((x >> 45) | (x << 19), 45) == x
    ensures RotateLeft((x >> 15) | (x << 49), 15) == x
    ensures RotateLeft((x >> 21) | (x << 43), 21) == x
    ensures RotateLeft((x >> 8) | (x << 56), 8) == x
    ensures RotateLeft((x >> 18) | (x << 46), 18) == x
    ensures RotateLeft((x >> 2) | (x << 62), 2) == x
    ensures RotateLeft((x >> 61) | (x << 3), 61) == x
    ensures RotateLeft((x >> 56) | (x << 8), 56) == x
    ensures RotateLeft((x >> 14) | (x << 50), 14) == x
  {
  }

  lemma NoRotations(x: lane)
    ensures RotateLeft(x, 0) == x && RotateRight(x, 0) == x
  {
  }

  /** Every lane can be rotated back. */
  lemma OffsetRotations(x: lane, i: nat)
    requires i < 25
    ensures RotateRight(RotateLeft(x, Offset(i)), Offset(i)) == x
    ensures RotateLeft(RotateRight(x, Offset(i)), Offset(i)) == x
  {
    hide RotateLeft, RotateRight;
    NoRotations(x);
    LeftUnfold(x);
    RightUnfold(x);
    RightOfLeft(x);
    LeftOfRight(x);
  }

  function UnRho(b: State): State {
    seq(25, i requires 0 <= i < 25 => RotateRight(b[i], Offset(i)))
  }

  lemma UnRhoInverts(a: State)
    ensures UnRho(Rho(a)) == a
    ensures Rho(UnRho(a)) == a
  {
    hide RotateLeft, RotateRight, Offset;
    forall i | 0 <= i < 25
      ensures UnRho(Rho(a))[i] == a[i] && Rho(UnRho(a))[i] == a[i]
    {
      OffsetRotations(a[i], i);
    }
  }

  // ----- pi -----

  /** Where pi moves lane j: lane (x, y) goes to lane (y, 2 * x + 3 * y), counting modulo 5. */
  function PiTarget(j: nat): (i: nat)
    requires j < 25
    ensures i < 25
  {
    var x, y := j % 5, j / 5;
    y + 5 * ((2 * x + 3 * y) % 5)
  }

  lemma PiTargetInverts(i: nat)
    requires i < 25
    ensures PiTarget(PiSource(i)) == i
    ensures PiSource(PiTarget(i)) == i
  {
    PiSources();
    PiTargets();
    hide PiSource, PiTarget;
  }

  lemma PiTargets()
    ensures PiTarget(0) == 0 && PiTarget(1) == 10 && PiTarget(2) == 20 && PiTarget(3) == 5 && PiTarget(4) == 15
    ensures PiTarget(5) == 16 && PiTarget(6) == 1 && PiTarget(7) == 11 && PiTarget(8) == 21 && PiTarget(9) == 6
    ensures PiTarget(10) == 7 && PiTarget(11) == 17 && PiTarget(12) == 2 && PiTarget(13) == 12 && PiTarget(14) == 22
    ensures PiTarget(15) == 23 && PiTarget(16) == 8 && PiTarget(17) == 18 && PiTarget(18) == 3 && PiTarget(19) == 13
    ensures PiTarget(20) == 14 && PiTarget(21) == 24 && PiTarget(22) == 9 && PiTarget(23) == 19 && PiTarget(24) == 4
  {
  }

  function UnPi(b: State): State {
    seq(25, j requires 0 <= j < 25 => b[PiTarget(j)])
  }

  lemma UnPiInverts(a: State)
    ensures UnPi(Pi(a)) == a
    ensures Pi(UnPi(a)) == a
  {
    hide PiSource, PiTarget;
    forall i | 0 <= i < 25
      ensures UnPi(Pi(a))[i] == a[i] && Pi(UnPi(a))[i] == a[i]
    {
      PiTargetInverts(i);
    }
  }

  // ----- chi -----

  /** A lane of a plane after chi, from it and the next two. */
  function ChiLane(a: lane, b: lane, c: lane): lane {
    Xor(a, AndNot(c, b))
  }

  /** The lane before chi, from it and the next four after chi. */
  /** What was mixed into the first lane, found from the four others. */
  function Mixin(b: lane, c: lane, d: lane, e: lane): lane {
    (c ^ (e & !d)) & !b
  }

  function UnChiLane(a: lane, b: lane, c: lane, d: lane, e: lane): lane {
    Xor(a, Mixin(b, c, d, e))
  }

  lemma ChiUnfold(a: lane, b: lane, c: lane)
    ensures ChiLane(a, b, c) == a ^ (c & !b)
  {
  }

  lemma UnChiUnfold(a: lane, b: lane, c: lane, d: lane, e: lane)
    ensures UnChiLane(a, b, c, d, e) == a ^ ((c ^ (e & !d)) & !b)
  {
  }

  lemma MixinOfChiWords(a: lane, b: lane, c: lane, d: lane, e: lane)
    ensures ((c ^ (e & !d)) ^ ((e ^ (b & !a)) & !(d ^ (a & !e)))) & !(b ^ (d & !c)) == c & !b
  {
  }

  lemma MixinUnfold(b: lane, c: lane, d: lane, e: lane)
    ensures Mixin(b, c, d, e) == (c ^ (e & !d)) & !b
  {
  }

  lemma MixinOfChi(a: lane, b: lane, c: lane, d: lane, e: lane)
    ensures Mixin(b ^ (d & !c), c ^ (e & !d), d ^ (a & !e), e ^ (b & !a)) == c & !b
  {
    hide *;
    MixinUnfold(b ^ (d & !c), c ^ (e & !d), d ^ (a & !e), e ^ (b & !a));
    MixinOfChiWords(a, b, c, d, e);
  }

  lemma MixinOfUnChi(a: lane, b: lane, c: lane, d: lane, e: lane)
    ensures (c ^ ((e ^ (b & !a)) & !d)) & !(b ^ ((d ^ (a & !e)) & !c)) == Mixin(b, c, d, e)
  {
  }

  lemma AndNotUnfold(x: lane, y: lane)
    ensures AndNot(x, y) == x & !y
  {
  }

  lemma UnChiOfChi(a: lane, b: lane, c: lane, d: lane, e: lane)
    ensures UnChiLane(ChiLane(a, b, c), ChiLane(b, c, d), ChiLane(c, d, e), ChiLane(d, e, a), ChiLane(e, a, b)) == a
  {
    hide Xor, AndNot, Mixin;
    ChiUnfold(b, c, d);
    ChiUnfold(c, d, e);
    ChiUnfold(d, e, a);
    ChiUnfold(e, a, b);
    MixinOfChi(a, b, c, d, e);
    AndNotUnfold(c, b);
    XorLaws(a, AndNot(c, b));
  }

  lemma ChiOfUnChi(a: lane, b: lane, c: lane, d: lane, e: lane)
    ensures ChiLane(UnChiLane(a, b, c, d, e), UnChiLane(b, c, d, e, a), UnChiLane(c, d, e, a, b)) == a
  {
    hide Xor, AndNot, Mixin;
    UnChiUnfold(b, c, d, e, a);
    UnChiUnfold(c, d, e, a, b);
    MixinOfUnChi(a, b, c, d, e);
    AndNotUnfold(c ^ ((e ^ (b & !a)) & !d), b ^ ((d ^ (a & !e)) & !c));
    XorLaws(a, Mixin(b, c, d, e));
  }

  lemma UnChiLaneInverts(a: lane, b: lane, c: lane, d: lane, e: lane)
    ensures UnChiLane(ChiLane(a, b, c), ChiLane(b, c, d), ChiLane(c, d, e), ChiLane(d, e, a), ChiLane(e, a, b)) == a
    ensures ChiLane(UnChiLane(a, b, c, d, e), UnChiLane(b, c, d, e, a), UnChiLane(c, d, e, a, b)) == a
  {
    hide *;
    UnChiOfChi(a, b, c, d, e);
    ChiOfUnChi(a, b, c, d, e);
  }

  function UnChi(b: State): State {
    seq(25, i requires 0 <= i < 25 =>
      UnChiLane(b[i], b[Along(i, 1)], b[Along(i, 2)], b[Along(i, 3)], b[Along(i, 4)]))
  }

  lemma AlongAlong(i: nat, d: nat, e: nat)
    requires i < 25 && d < 5 && e < 5
    ensures Along(Along(i, d), e) == Along(i, After(d, e))
    ensures Along(i, 0) == i
  {
  }

  lemma PlaneIndices(i: nat)
    requires i < 25
    ensures var p, q, r, s := Along(i, 1), Along(i, 2), Along(i, 3), Along(i, 4);
            && Along(p, 1) == q && Along(p, 2) == r && Along(p, 3) == s && Along(p, 4) == i
            && Along(q, 1) == r && Along(q, 2) == s && Along(q, 3) == i && Along(q, 4) == p
            && Along(r, 1) == s && Along(r, 2) == i && Along(r, 3) == p && Along(r, 4) == q
            && Along(s, 1) == i && Along(s, 2) == p && Along(s, 3) == q && Along(s, 4) == r
  {
    hide Along;
    forall d, e | 0 <= d < 5 && 0 <= e < 5
      ensures Along(Along(i, d), e) == Along(i, After(d, e)) && Along(i, 0) == i
    {
      AlongAlong(i, d, e);
    }
  }

  lemma ChiAt(a: State, i: nat)
    requires i < 25
    ensures Chi(a)[i] == ChiLane(a[i], a[Along(i, 1)], a[Along(i, 2)])
    ensures UnChi(a)[i] == UnChiLane(a[i], a[Along(i, 1)], a[Along(i, 2)], a[Along(i, 3)], a[Along(i, 4)])
  {
    hide Xor, AndNot, Along;
  }

  /** All five lanes of the plane of lane i, starting with it, after each of the two maps. */
  lemma UnChiAt(a: State, i: nat)
    requires i < 25
    ensures UnChi(Chi(a))[i] == a[i]
    ensures Chi(UnChi(a))[i] == a[i]
  {
    hide Along, Chi, UnChi, ChiLane, UnChiLane;
    var b := Chi(a);
    var c := UnChi(a);
    var p, q, r, s := Along(i, 1), Along(i, 2), Along(i, 3), Along(i, 4);
    PlaneIndices(i);
    ChiAt(a, i);
    ChiAt(a, p);
    ChiAt(a, q);
    ChiAt(a, r);
    ChiAt(a, s);
    ChiAt(b, i);
    ChiAt(c, i);
    UnChiLaneInverts(a[i], a[p], a[q], a[r], a[s]);
  }

  lemma UnChiInverts(a: State)
    ensures UnChi(Chi(a)) == a
    ensures Chi(UnChi(a)) == a
  {
    forall i | 0 <= i < 25
      ensures UnChi(Chi(a))[i] == a[i] && Chi(UnChi(a))[i] == a[i]
    {
      UnChiAt(a, i);
    }
  }

  // ----- the permutation -----

  function UnRound(b: State, round: nat): State
    requires round < 24
  {
    UnTheta(UnRho(UnPi(UnChi(Iota(b, round)))))
  }

  lemma IotaInverts(a: State, round: nat)
    requires round < 24
    ensures Iota(Iota(a, round), round) == a
  {
    hide Xor, RoundConstant;
    XorLaws(a[0], RoundConstant(round));
  }

  lemma UnRoundInverts(a: State, round: nat)
    requires round < 24
    ensures UnRound(Round(a, round), round) == a
    ensures Round(UnRound(a, round), round) == a
  {
    hide Theta, UnTheta, Rho, UnRho, Pi, UnPi, Chi, UnChi, Iota;
    var b := Pi(Rho(Theta(a)));
    IotaInverts(Chi(b), round);
    UnChiInverts(b);
    UnPiInverts(Rho(Theta(a)));
    UnRhoInverts(Theta(a));
    UnThetaInverts(a);

    var c := Iota(a, round);
    UnThetaInverts(UnRho(UnPi(UnChi(c))));
    UnRhoInverts(UnPi(UnChi(c)));
    UnPiInverts(UnChi(c));
    UnChiInverts(c);
    IotaInverts(a, round);
  }

  function UnRounds(b: State, n: nat): State
    requires n <= 24
    decreases n
  {
    if n == 0 then b else UnRounds(UnRound(b, n - 1), n - 1)
  }

  lemma {:induction false} RoundsAreBijective(a: State, n: nat)
    requires n <= 24
    ensures UnRounds(Rounds(a, n), n) == a
    ensures Rounds(UnRounds(a, n), n) == a
    decreases n
  {
    hide Round, UnRound;
    if n == 0 {
    } else {
      UnRoundInverts(Rounds(a, n - 1), n - 1);
      RoundsAreBijective(a, n - 1);
      UnRoundInverts(a, n - 1);
      RoundsAreBijective(UnRound(a, n - 1), n - 1);
    }
  }

  function UnPermutation(b: State): State {
    UnRounds(b, 24)
  }

  /** The permutation is one: it has an inverse on all states. */
  lemma PermutationIsBijective(a: State)
    ensures UnPermutation(Permutation(a)) == a
    ensures Permutation(UnPermutation(a)) == a
  {
    hide Rounds, UnRounds;
    RoundsAreBijective(a, 24);
  }
}
