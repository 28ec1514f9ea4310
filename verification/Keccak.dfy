/** The Keccak-f[1600] permutation: the five step mappings of section 3.2 of FIPS 202 on a state of 25 lanes, and the
    code that applies them to an array in place. */
module Keccak {
  type lane = bv64

  // ----- operations on lanes -----

  function Xor(a: lane, b: lane): lane {
    a ^ b
  }

  function AndNot(a: lane, b: lane): lane {
    a & !b
  }

  function RotateLeft(x: lane, n: bv8): lane
    requires n < 64
  {
    (x << n) | (x >> (64 - n))
  }

  // ----- FIPS 202 -----

  /** Lane (x, y) of the state is element x + 5 * y. */
  type State = a: seq<lane> | |a| == 25 witness seq(25, _ => 0)

  function Parity(a: State, x: nat): lane
    requires x < 5
  {
    Xor(Xor(Xor(Xor(a[x], a[x + 5]), a[x + 10]), a[x + 15]), a[x + 20])
  }

  /** What theta mixes into the lanes of sheet x. */
  function Effect(a: State, x: nat): lane
    requires x < 5
  {
    Xor(Parity(a, (x + 4) % 5), RotateLeft(Parity(a, (x + 1) % 5), 1))
  }

  function Theta(a: State): State {
    seq(25, i requires 0 <= i < 25 => Xor(a[i], Effect(a, i % 5)))
  }

  /** The rotation offset of lane i. */
  function Offset(i: nat): (n: bv8)
    requires i < 25
    ensures n < 64
  {
    [0, 1, 62, 28, 27, 36, 44, 6, 55, 20, 3, 10, 43, 25, 39, 41, 45, 15, 21, 8, 18, 2, 61, 56, 14][i]
  }

  function Rho(a: State): State {
    seq(25, i requires 0 <= i < 25 => RotateLeft(a[i], Offset(i)))
  }

  /** The lane that pi moves to lane i: lane (x + 3 * y, x) goes to lane (x, y). */
  function PiSource(i: nat): (j: nat)
    requires i < 25
    ensures j < 25
  {
    var x, y := i % 5, i / 5;
    (x + 3 * y) % 5 + 5 * x
  }

  function Pi(a: State): State {
    seq(25, i requires 0 <= i < 25 => a[PiSource(i)])
  }

  /** Lane (x + d, y), counting x modulo 5, where i is lane (x, y). */
  function Along(i: nat, d: nat): (j: nat)
    requires i < 25 && d < 5
    ensures j < 25
  {
    if i % 5 + d < 5 then i + d else i + d - 5
  }

  function Chi(a: State): State {
    seq(25, i requires 0 <= i < 25 => Xor(a[i], AndNot(a[Along(i, 2)], a[Along(i, 1)])))
  }

  function RoundConstant(round: nat): lane
    requires round < 24
  {
    if round < 6 then
      [0x0000000000000001, 0x0000000000008082, 0x800000000000808a,
       0x8000000080008000, 0x000000000000808b, 0x0000000080000001][round]
    else if round < 12 then
      [0x8000000080008081, 0x8000000000008009, 0x000000000000008a,
       0x0000000000000088, 0x0000000080008009, 0x000000008000000a][round - 6]
    else if round < 18 then
      [0x000000008000808b, 0x800000000000008b, 0x8000000000008089,
       0x8000000000008003, 0x8000000000008002, 0x8000000000000080][round - 12]
    else
      [0x000000000000800a, 0x800000008000000a, 0x8000000080008081,
       0x8000000000008080, 0x0000000080000001, 0x8000000080008008][round - 18]
  }

  function Iota(a: State, round: nat): State
    requires round < 24
  {
    a[0 := Xor(a[0], RoundConstant(round))]
  }

  function Round(a: State, round: nat): State
    requires round < 24
  {
    Iota(Chi(Pi(Rho(Theta(a)))), round)
  }

  function Rounds(a: State, n: nat): State
    requires n <= 24
  {
    if n == 0 then a else Round(Rounds(a, n - 1), n - 1)
  }

  function Permutation(a: State): State {
    Rounds(a, 24)
  }

  // ----- the code -----

  function Mod5(x: nat): nat {
    if x < 5 then x else x - 5
  }

  lemma Mod5IsRemainder(x: nat)
    requires x < 10
    ensures Mod5(x) == x % 5
  {
  }

  /** Mix one word into the five lanes of sheet x. */
  function MixSheet(a: State, x: nat, one: lane): State {
    seq(25, i requires 0 <= i < 25 => if i % 5 == x then Xor(a[i], one) else a[i])
  }

  /** Theta done for the first n sheets. */
  function ThetaSheets(a: State, n: nat): State {
    seq(25, i requires 0 <= i < 25 => if i % 5 < n then Xor(a[i], Effect(a, i % 5)) else a[i])
  }

  lemma ThetaGrows(a: State, x: nat)
    requires x < 5
    ensures MixSheet(ThetaSheets(a, x), x, Effect(a, x)) == ThetaSheets(a, x + 1)
  {
    hide Xor, Effect;
  }

  lemma LanesOfSheet(i: nat, x: nat)
    requires i < 25 && x < 5
    ensures i % 5 == x <==> i == x || i == x + 5 || i == x + 10 || i == x + 15 || i == x + 20
  {
  }

  lemma SheetIsMixed(a: State, x: nat, one: lane, b: State)
    requires x < 5
    requires b[x] == Xor(a[x], one) && b[x + 5] == Xor(a[x + 5], one) && b[x + 10] == Xor(a[x + 10], one)
    requires b[x + 15] == Xor(a[x + 15], one) && b[x + 20] == Xor(a[x + 20], one)
    requires forall i :: 0 <= i < 25 && i != x && i != x + 5 && i != x + 10 && i != x + 15 && i != x + 20
               ==> b[i] == a[i]
    ensures b == MixSheet(a, x, one)
  {
    hide Xor;
    forall i | 0 <= i < 25
      ensures b[i] == MixSheet(a, x, one)[i]
    {
      LanesOfSheet(i, x);
    }
  }

  method MixSheetInPlace(h: array<lane>, x: nat, one: lane)
    requires h.Length == 25 && x < 5
    modifies h
    ensures h[..] == MixSheet(old(h[..]), x, one)
  {
    hide *;
    ghost var a: State := h[..];
    h[x] := Xor(h[x], one);
    h[x + 5] := Xor(h[x + 5], one);
    h[x + 10] := Xor(h[x + 10], one);
    h[x + 15] := Xor(h[x + 15], one);
    h[x + 20] := Xor(h[x + 20], one);
    SheetIsMixed(a, x, one, h[..]);
  }

  lemma ThetaEnds(a: State)
    ensures ThetaSheets(a, 0) == a && ThetaSheets(a, 5) == Theta(a)
  {
    hide Xor, Effect;
  }

  lemma EffectUnfold(a: State, x: nat)
    requires x < 5
    ensures Effect(a, x) == Xor(Parity(a, (x + 4) % 5), RotateLeft(Parity(a, (x + 1) % 5), 1))
  {
  }

  /** The parities of the five sheets. */
  method Coefficients(h: array<lane>) returns (coefficients: array<lane>)
    requires h.Length == 25
    ensures coefficients.Length == 5 && fresh(coefficients)
    ensures forall k :: 0 <= k < 5 ==> coefficients[k] == Parity(h[..], k)
  {
    hide Xor;
    ghost var a: State := h[..];
    coefficients := new lane[5];
    for i := 0 to 5
      invariant h[..] == a
      invariant forall k :: 0 <= k < i ==> coefficients[k] == Parity(a, k)
    {
      coefficients[i] := Xor(Xor(Xor(Xor(h[i], h[i + 5]), h[i + 10]), h[i + 15]), h[i + 20]);
    }
  }

  method ThetaSheetInPlace(h: array<lane>, coefficients: array<lane>, ghost a: State, i: nat)
    requires h.Length == 25 && coefficients.Length == 5 && h != coefficients && i < 5
    requires forall k :: 0 <= k < 5 ==> coefficients[k] == Parity(a, k)
    requires h[..] == ThetaSheets(a, i)
    modifies h
    ensures h[..] == ThetaSheets(a, i + 1)
  {
    hide *;
    Mod5IsRemainder(i + 4);
    Mod5IsRemainder(i + 1);
    var one := Xor(coefficients[Mod5(i + 4)], RotateLeft(coefficients[Mod5(i + 1)], 1));
    EffectUnfold(a, i);
    ThetaGrows(a, i);
    MixSheetInPlace(h, i, one);
  }

  method ThetaInPlace(h: array<lane>)
    requires h.Length == 25
    modifies h
    ensures h[..] == Theta(old(h[..]))
  {
    ghost var a: State := h[..];
    ThetaEnds(a);
    hide *;
    var coefficients := Coefficients(h);
    for i := 0 to 5
      invariant forall k :: 0 <= k < 5 ==> coefficients[k] == Parity(a, k)
      invariant h[..] == ThetaSheets(a, i)
    {
      ThetaSheetInPlace(h, coefficients, a, i);
    }
  }

  /** Chi done for the first n planes. */
  function ChiPlanes(a: State, n: nat): State {
    seq(25, i requires 0 <= i < 25 => if i < 5 * n then Xor(a[i], AndNot(a[Along(i, 2)], a[Along(i, 1)])) else a[i])
  }

  lemma AlongPlane(y: nat)
    requires y < 5
    ensures Along(5 * y, 1) == 5 * y + 1 && Along(5 * y, 2) == 5 * y + 2
    ensures Along(5 * y + 1, 1) == 5 * y + 2 && Along(5 * y + 1, 2) == 5 * y + 3
    ensures Along(5 * y + 2, 1) == 5 * y + 3 && Along(5 * y + 2, 2) == 5 * y + 4
    ensures Along(5 * y + 3, 1) == 5 * y + 4 && Along(5 * y + 3, 2) == 5 * y
    ensures Along(5 * y + 4, 1) == 5 * y && Along(5 * y + 4, 2) == 5 * y + 1
  {
  }

  /** Five lanes of one plane, all computed from the old ones. */
  function ChiPlane(a: State, j: nat): State
    requires j + 5 <= 25
  {
    hide Xor, AndNot;
    a[j := Xor(a[j], AndNot(a[j + 2], a[j + 1]))]
     [j + 1 := Xor(a[j + 1], AndNot(a[j + 3], a[j + 2]))]
     [j + 2 := Xor(a[j + 2], AndNot(a[j + 4], a[j + 3]))]
     [j + 3 := Xor(a[j + 3], AndNot(a[j], a[j + 4]))]
     [j + 4 := Xor(a[j + 4], AndNot(a[j + 1], a[j]))]
  }

  method ChiPlaneInPlace(h: array<lane>, j: nat)
    requires h.Length == 25 && j + 5 <= 25
    modifies h
    ensures h[..] == ChiPlane(old(h[..]), j)
  {
    hide Xor, AndNot;
    var one := h[j];
    var two := h[j + 1];
    h[j] := Xor(h[j], AndNot(h[j + 2], two));
    h[j + 1] := Xor(h[j + 1], AndNot(h[j + 3], h[j + 2]));
    h[j + 2] := Xor(h[j + 2], AndNot(h[j + 4], h[j + 3]));
    h[j + 3] := Xor(h[j + 3], AndNot(one, h[j + 4]));
    h[j + 4] := Xor(h[j + 4], AndNot(two, one));
  }

  lemma ChiPlaneAt(a: State, j: nat)
    requires j + 5 <= 25
    ensures forall i :: 0 <= i < j || j + 5 <= i < 25 ==> ChiPlane(a, j)[i] == a[i]
    ensures ChiPlane(a, j)[j] == Xor(a[j], AndNot(a[j + 2], a[j + 1]))
    ensures ChiPlane(a, j)[j + 1] == Xor(a[j + 1], AndNot(a[j + 3], a[j + 2]))
    ensures ChiPlane(a, j)[j + 2] == Xor(a[j + 2], AndNot(a[j + 4], a[j + 3]))
    ensures ChiPlane(a, j)[j + 3] == Xor(a[j + 3], AndNot(a[j], a[j + 4]))
    ensures ChiPlane(a, j)[j + 4] == Xor(a[j + 4], AndNot(a[j + 1], a[j]))
  {
    hide Xor, AndNot;
  }

  function ChiOf(a: State, i: nat): lane
    requires i < 25
  {
    Xor(a[i], AndNot(a[Along(i, 2)], a[Along(i, 1)]))
  }

  lemma ChiPlanesAt(a: State, n: nat, i: nat)
    requires i < 25
    ensures ChiPlanes(a, n)[i] == if i < 5 * n then ChiOf(a, i) else a[i]
  {
    hide Xor, AndNot, Along;
  }

  lemma ChiLaneIs(a: State, i: nat, j: nat, k: nat)
    requires i < 25 && j < 25 && k < 25 && Along(i, 1) == j && Along(i, 2) == k
    ensures ChiOf(a, i) == Xor(a[i], AndNot(a[k], a[j]))
  {
    hide Xor, AndNot, Along;
  }

  /** Lane i of the next plane, which the code computes from that plane. */
  lemma ChiOfPlane(a: State, y: nat, i: nat)
    requires y < 5 && 5 * y <= i < 5 * y + 5
    ensures ChiPlane(ChiPlanes(a, y), 5 * y)[i] == ChiOf(a, i)
  {
    hide *;
    var b, j := ChiPlanes(a, y), 5 * y;
    ChiPlaneAt(b, j);
    AlongPlane(y);
    ChiPlanesAt(a, y, j);
    ChiPlanesAt(a, y, j + 1);
    ChiPlanesAt(a, y, j + 2);
    ChiPlanesAt(a, y, j + 3);
    ChiPlanesAt(a, y, j + 4);
    if i == j {
      ChiLaneIs(a, j, j + 1, j + 2);
    } else if i == j + 1 {
      ChiLaneIs(a, j + 1, j + 2, j + 3);
    } else if i == j + 2 {
      ChiLaneIs(a, j + 2, j + 3, j + 4);
    } else if i == j + 3 {
      ChiLaneIs(a, j + 3, j + 4, j);
    } else {
      ChiLaneIs(a, j + 4, j, j + 1);
    }
  }

  lemma ChiGrows(a: State, y: nat)
    requires y < 5
    ensures ChiPlane(ChiPlanes(a, y), 5 * y) == ChiPlanes(a, y + 1)
  {
    hide *;
    var b, j := ChiPlanes(a, y), 5 * y;
    forall i | 0 <= i < 25
      ensures ChiPlane(b, j)[i] == ChiPlanes(a, y + 1)[i]
    {
      ChiPlanesAt(a, y, i);
      ChiPlanesAt(a, y + 1, i);
      if j <= i < j + 5 {
        ChiOfPlane(a, y, i);
      } else {
        ChiPlaneAt(b, j);
      }
    }
  }

  method ChiInPlace(h: array<lane>)
    requires h.Length == 25
    modifies h
    ensures h[..] == Chi(old(h[..]))
  {
    ghost var a: State := h[..];
    assert ChiPlanes(a, 0) == a;
    assert ChiPlanes(a, 5) == Chi(a);
    hide *;
    ghost var y := 0;
    var j := 0;
    while j < 25
      invariant j == 5 * y && y <= 5 && h[..] == ChiPlanes(a, y)
    {
      ChiGrows(a, y);
      ChiPlaneInPlace(h, j);
      y := y + 1;
      j := j + 5;
    }
  }

  lemma PiSources()
    ensures PiSource(0) == 0 && PiSource(1) == 6 && PiSource(2) == 12 && PiSource(3) == 18 && PiSource(4) == 24
    ensures PiSource(5) == 3 && PiSource(6) == 9 && PiSource(7) == 10 && PiSource(8) == 16 && PiSource(9) == 22
    ensures PiSource(10) == 1 && PiSource(11) == 7 && PiSource(12) == 13 && PiSource(13) == 19 && PiSource(14) == 20
    ensures PiSource(15) == 4 && PiSource(16) == 5 && PiSource(17) == 11 && PiSource(18) == 17 && PiSource(19) == 23
    ensures PiSource(20) == 2 && PiSource(21) == 8 && PiSource(22) == 14 && PiSource(23) == 15 && PiSource(24) == 21
  {
  }

  lemma PiOfRho(a: State, i: nat)
    requires i < 25
    ensures Pi(Rho(a))[i] == RotateLeft(a[PiSource(i)], Offset(PiSource(i)))
  {
    hide RotateLeft, Offset, PiSource;
  }

  // The 24 moves of the chain: each lane is rotated into the place of the next one, whose old value is handed on in a
  // temporary.

  /** The lanes in the order in which the code hands their values on. */
  function ChainLane(t: nat): (i: nat)
    requires t < 24
    ensures 0 < i < 25
  {
    if t < 6 then [1, 10, 7, 11, 17, 18][t]
    else if t < 12 then [3, 5, 16, 8, 21, 24][t - 6]
    else if t < 18 then [4, 15, 23, 19, 13, 12][t - 12]
    else [2, 20, 14, 22, 9, 6][t - 18]
  }

  /** The place of a lane in the chain. */
  function Position(i: nat): (t: nat)
    requires 0 < i < 25
    ensures t < 24
  {
    if i < 7 then [0, 18, 6, 12, 7, 23][i - 1]
    else if i < 13 then [2, 9, 22, 1, 3, 17][i - 7]
    else if i < 19 then [16, 20, 13, 8, 4, 5][i - 13]
    else [15, 19, 10, 21, 14, 11][i - 19]
  }

  lemma Chain1()
    ensures ChainLane(0) == 1 && ChainLane(1) == 10 && ChainLane(2) == 7
    ensures ChainLane(3) == 11 && ChainLane(4) == 17 && ChainLane(5) == 18
  {
  }

  lemma Chain2()
    ensures ChainLane(6) == 3 && ChainLane(7) == 5 && ChainLane(8) == 16
    ensures ChainLane(9) == 8 && ChainLane(10) == 21 && ChainLane(11) == 24
  {
  }

  lemma Chain3()
    ensures ChainLane(12) == 4 && ChainLane(13) == 15 && ChainLane(14) == 23
    ensures ChainLane(15) == 19 && ChainLane(16) == 13 && ChainLane(17) == 12
  {
  }

  lemma Chain4()
    ensures ChainLane(18) == 2 && ChainLane(19) == 20 && ChainLane(20) == 14
    ensures ChainLane(21) == 22 && ChainLane(22) == 9 && ChainLane(23) == 6
  {
  }

  lemma Positions1()
    ensures Position(1) == 0 && Position(2) == 18 && Position(3) == 6
    ensures Position(4) == 12 && Position(5) == 7 && Position(6) == 23
  {
  }

  lemma Positions2()
    ensures Position(7) == 2 && Position(8) == 9 && Position(9) == 22
    ensures Position(10) == 1 && Position(11) == 3 && Position(12) == 17
  {
  }

  lemma Positions3()
    ensures Position(13) == 16 && Position(14) == 20 && Position(15) == 13
    ensures Position(16) == 8 && Position(17) == 4 && Position(18) == 5
  {
  }

  lemma Positions4()
    ensures Position(19) == 15 && Position(20) == 19 && Position(21) == 10
    ensures Position(22) == 21 && Position(23) == 14 && Position(24) == 11
  {
  }

  /** The chain goes through every lane but lane 0, and through no lane twice. */
  lemma ChainIsSingleCycle(i: nat, t: nat)
    requires 0 < i < 25 && t < 24
    ensures ChainLane(Position(i)) == i
    ensures Position(ChainLane(t)) == t
  {
    hide *;
    Chain1(); Chain2(); Chain3(); Chain4();
    Positions1(); Positions2(); Positions3(); Positions4();
  }

  /** The lane that move t writes. */
  function Target(t: nat): (i: nat)
    requires t < 24
    ensures 0 < i < 25
  {
    ChainLane(if t == 23 then 0 else t + 1)
  }

  /** Pi takes each lane of the chain to the next one. */
  lemma PiFollowsChain(t: nat)
    requires t < 24
    ensures PiSource(Target(t)) == ChainLane(t)
  {
    hide ChainLane, PiSource;
    Chain1(); Chain2(); Chain3(); Chain4();
    PiSources();
  }

  /** Whether one of the first t moves has written lane i. */
  predicate Written(i: nat, t: nat)
    requires i < 25 && t <= 24
  {
    i != 0 && if Position(i) == 0 then t == 24 else Position(i) <= t
  }

  lemma WrittenNext(i: nat, t: nat)
    requires i < 25 && t < 24
    ensures Written(i, t + 1) <==> Written(i, t) || i == Target(t)
    ensures i == Target(t) ==> !Written(i, t)
  {
    hide ChainLane, Position;
    ChainIsSingleCycle(if i == 0 then 1 else i, if t == 23 then 0 else t + 1);
  }

  lemma WrittenEnds(i: nat)
    requires i < 25
    ensures !Written(i, 0)
    ensures Written(i, 24) <==> i != 0
  {
    hide Position;
  }

  /** Rho and pi done by the first t moves. */
  function MovedUpto(a: State, t: nat): State
    requires t <= 24
  {
    seq(25, i requires 0 <= i < 25 => if Written(i, t) then Pi(Rho(a))[i] else a[i])
  }

  lemma MoveGrows(a: State, t: nat)
    requires t < 24
    ensures MovedUpto(a, t)[Target(t)] == a[Target(t)]
    ensures MovedUpto(a, t)[Target(t) := RotateLeft(a[ChainLane(t)], Offset(ChainLane(t)))] == MovedUpto(a, t + 1)
  {
    hide RotateLeft, Offset, Pi, Rho, PiSource, Written, ChainLane, Target;
    PiOfRho(a, Target(t));
    PiFollowsChain(t);
    forall i | 0 <= i < 25
      ensures Written(i, t + 1) <==> Written(i, t) || i == Target(t)
      ensures i == Target(t) ==> !Written(i, t)
    {
      WrittenNext(i, t);
    }
  }

  lemma MovesEnd(a: State)
    ensures MovedUpto(a, 0) == a && MovedUpto(a, 24) == Pi(Rho(a))
  {
    hide RotateLeft, Offset, Pi, Rho, PiSource, Written;
    PiOfRho(a, 0);
    FirstLaneStays(a);
    forall i | 0 <= i < 25
      ensures !Written(i, 0) && (Written(i, 24) <==> i != 0)
    {
      WrittenEnds(i);
    }
  }

  lemma FirstLaneStays(a: State)
    ensures Pi(Rho(a))[0] == a[0]
  {
    hide RotateLeft, Pi, Rho;
    PiOfRho(a, 0);
    NoRotation(a[0]);
  }

  lemma NoRotation(x: lane)
    ensures RotateLeft(x, 0) == x
  {
  }

  /** One line of the chain: lane i is handed on, and the last lane is rotated into its place. */
  method Move(h: array<lane>, i: nat, last: lane, n: bv8, ghost a: State, ghost t: nat) returns (one: lane)
    requires h.Length == 25 && t < 24
    requires i == Target(t) && n == Offset(ChainLane(t)) && last == a[ChainLane(t)]
    requires h[..] == MovedUpto(a, t)
    modifies h
    ensures h[..] == MovedUpto(a, t + 1) && one == a[i]
  {
    MoveGrows(a, t);
    hide *;
    one := h[i];
    h[i] := RotateLeft(last, n);
  }

  lemma ChainOffsets1()
    ensures Offset(1) == 1 && Offset(10) == 3 && Offset(7) == 6
    ensures Offset(11) == 10 && Offset(17) == 15 && Offset(18) == 21
  {
  }

  lemma ChainOffsets2()
    ensures Offset(3) == 28 && Offset(5) == 36 && Offset(16) == 45
    ensures Offset(8) == 55 && Offset(21) == 2 && Offset(24) == 14
  {
  }

  lemma ChainOffsets3()
    ensures Offset(4) == 27 && Offset(15) == 41 && Offset(23) == 56
    ensures Offset(19) == 8 && Offset(13) == 25 && Offset(12) == 43
  {
  }

  lemma ChainOffsets4()
    ensures Offset(2) == 62 && Offset(20) == 18 && Offset(14) == 39
    ensures Offset(22) == 61 && Offset(9) == 20 && Offset(6) == 44
  {
  }

  method Moves1(h: array<lane>, last: lane, ghost a: State) returns (one: lane)
    requires h.Length == 25 && last == a[ChainLane(0)] && h[..] == MovedUpto(a, 0)
    modifies h
    ensures one == a[ChainLane(6)] && h[..] == MovedUpto(a, 6)
  {
    hide ChainLane, Offset, MovedUpto;
    Chain1(); Chain2(); ChainOffsets1();
    one := last;
    one := Move(h, 10, one, 1, a, 0);
    one := Move(h, 7, one, 3, a, 1);
    one := Move(h, 11, one, 6, a, 2);
    one := Move(h, 17, one, 10, a, 3);
    one := Move(h, 18, one, 15, a, 4);
    one := Move(h, 3, one, 21, a, 5);
  }

  method Moves2(h: array<lane>, last: lane, ghost a: State) returns (one: lane)
    requires h.Length == 25 && last == a[ChainLane(6)] && h[..] == MovedUpto(a, 6)
    modifies h
    ensures one == a[ChainLane(12)] && h[..] == MovedUpto(a, 12)
  {
    hide ChainLane, Offset, MovedUpto;
    Chain2(); Chain3(); ChainOffsets2();
    one := last;
    one := Move(h, 5, one, 28, a, 6);
    one := Move(h, 16, one, 36, a, 7);
    one := Move(h, 8, one, 45, a, 8);
    one := Move(h, 21, one, 55, a, 9);
    one := Move(h, 24, one, 2, a, 10);
    one := Move(h, 4, one, 14, a, 11);
  }

  method Moves3(h: array<lane>, last: lane, ghost a: State) returns (one: lane)
    requires h.Length == 25 && last == a[ChainLane(12)] && h[..] == MovedUpto(a, 12)
    modifies h
    ensures one == a[ChainLane(18)] && h[..] == MovedUpto(a, 18)
  {
    hide ChainLane, Offset, MovedUpto;
    Chain3(); Chain4(); ChainOffsets3();
    one := last;
    one := Move(h, 15, one, 27, a, 12);
    one := Move(h, 23, one, 41, a, 13);
    one := Move(h, 19, one, 56, a, 14);
    one := Move(h, 13, one, 8, a, 15);
    one := Move(h, 12, one, 25, a, 16);
    one := Move(h, 2, one, 43, a, 17);
  }

  method Moves4(h: array<lane>, last: lane, ghost a: State) returns (one: lane)
    requires h.Length == 25 && last == a[ChainLane(18)] && h[..] == MovedUpto(a, 18)
    modifies h
    ensures one == a[ChainLane(0)] && h[..] == MovedUpto(a, 24)
  {
    hide ChainLane, Offset, MovedUpto;
    Chain4(); Chain1(); ChainOffsets4();
    one := last;
    one := Move(h, 20, one, 62, a, 18);
    one := Move(h, 14, one, 18, a, 19);
    one := Move(h, 22, one, 39, a, 20);
    one := Move(h, 9, one, 61, a, 21);
    one := Move(h, 6, one, 20, a, 22);
    one := Move(h, 1, one, 44, a, 23);
  }

  method RhoPiInPlace(h: array<lane>)
    requires h.Length == 25
    modifies h
    ensures h[..] == Pi(Rho(old(h[..])))
  {
    ghost var a: State := h[..];
    MovesEnd(a);
    Chain1();
    hide *;
    var last := Moves1(h, h[1], a);
    last := Moves2(h, last, a);
    last := Moves3(h, last, a);
    last := Moves4(h, last, a);
  }

  method RoundInPlace(h: array<lane>, round: nat)
    requires h.Length == 25 && round < 24
    modifies h
    ensures h[..] == Round(old(h[..]), round)
  {
    hide Theta, Rho, Pi, Chi, Xor, RoundConstant;
    ThetaInPlace(h);
    RhoPiInPlace(h);
    ChiInPlace(h);
    h[0] := Xor(h[0], RoundConstant(round));
  }

  /** The 24 rounds of the code are the permutation. */
  method PermuteInPlace(h: array<lane>)
    requires h.Length == 25
    modifies h
    ensures h[..] == Permutation(old(h[..]))
  {
    hide Round;
    for round := 0 to 24
      invariant h[..] == Rounds(old(h[..]), round)
    {
      RoundInPlace(h, round);
    }
  }
}
