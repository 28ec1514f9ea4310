/** Where the numbers in the Keccak permutation come from: the walk through the lanes of section 3.2.2 of FIPS 202,
    which is the order of the chain in the code, and the shift register of section 3.2.5 behind its round constants. */
module KeccakTables {
  import opened Keccak
  import opened KeccakBijective

  // ----- the walk -----

  /** The lane after t steps from lane (1, 0), each of which goes from (x, y) to (y, 2 * x + 3 * y). */
  function Walk(t: nat): (i: nat)
    ensures i < 25
  {
    if t == 0 then 1 else PiTarget(Walk(t - 1))
  }

  lemma StepOnChain(t: nat)
    requires t < 24
    ensures PiTarget(ChainLane(t)) == Target(t)
  {
    hide PiTarget, ChainLane;
    Chain1(); Chain2(); Chain3(); Chain4();
    PiTargets();
  }

  /** The walk of the standard is the order of the chain, and comes back to where it started. */
  lemma {:induction false} WalkIsChain(t: nat)
    requires t <= 24
    ensures Walk(t) == ChainLane(if t == 24 then 0 else t)
  {
    hide PiTarget, ChainLane;
    if t == 0 {
      Chain1();
    } else {
      WalkIsChain(t - 1);
      StepOnChain(t - 1);
    }
  }

  function Triangle(t: nat): nat {
    (t + 1) * (t + 2) / 2
  }

  lemma Triangles()
    ensures Triangle(0) % 64 == 1 && Triangle(1) % 64 == 3 && Triangle(2) % 64 == 6 && Triangle(3) % 64 == 10
    ensures Triangle(4) % 64 == 15 && Triangle(5) % 64 == 21 && Triangle(6) % 64 == 28 && Triangle(7) % 64 == 36
    ensures Triangle(8) % 64 == 45 && Triangle(9) % 64 == 55 && Triangle(10) % 64 == 2 && Triangle(11) % 64 == 14
    ensures Triangle(12) % 64 == 27 && Triangle(13) % 64 == 41 && Triangle(14) % 64 == 56 && Triangle(15) % 64 == 8
    ensures Triangle(16) % 64 == 25 && Triangle(17) % 64 == 43 && Triangle(18) % 64 == 62 && Triangle(19) % 64 == 18
    ensures Triangle(20) % 64 == 39 && Triangle(21) % 64 == 61 && Triangle(22) % 64 == 20 && Triangle(23) % 64 == 44
  {
  }

  lemma OffsetsOnChain(t: nat)
    requires t < 24
    ensures Offset(ChainLane(t)) as int == Triangle(t) % 64
  {
    hide Offset, Triangle, ChainLane;
    Chain1(); Chain2(); Chain3(); Chain4();
    ChainOffsets1(); ChainOffsets2(); ChainOffsets3(); ChainOffsets4();
    Triangles();
  }

  /** The lane after t steps of the walk is rotated by (t + 1) * (t + 2) / 2 places. */
  lemma OffsetsFollowWalk(t: nat)
    requires t < 24
    ensures Offset(Walk(t)) as int == Triangle(t) % 64
  {
    WalkIsChain(t);
    OffsetsOnChain(t);
    hide *;
  }

  // ----- the round constants -----

  /** One step of the 8-bit register, whose first bit is the lowest one here. */
  function Clock(s: bv8): bv8 {
    if s & 0x80 == 0 then s << 1 else (s << 1) ^ 0x71
  }

  /** The register after n steps. */
  function Clocked(s: bv8, n: nat): bv8 {
    if n == 0 then s else Clock(Clocked(s, n - 1))
  }

  /** rc(n): the first bit of the register after n steps from its initial state. */
  function Rc(n: nat): lane {
    FirstBit(Clocked(1, n))
  }

  function FirstBit(s: bv8): lane {
    (s & 1) as lane
  }

  /** Bit 2^j - 1 of the constant of a round is rc(j + 7 * round), for j from 0 to 6. */
  function ConstantOf(round: nat): lane {
    var t := 7 * round;
    Scatter(Rc(t), Rc(t + 1), Rc(t + 2), Rc(t + 3), Rc(t + 4), Rc(t + 5), Rc(t + 6))
  }

  function Scatter(b0: lane, b1: lane, b2: lane, b3: lane, b4: lane, b5: lane, b6: lane): lane {
    b0 | (b1 << 1) | (b2 << 3) | (b3 << 7) | (b4 << 15) | (b5 << 31) | (b6 << 63)
  }

  function ClockSeven(s: bv8): bv8 {
    Clock(Clock(Clock(Clock(Clock(Clock(Clock(s)))))))
  }

  lemma ClockedTo(n: nat)
    ensures Clocked(1, n + 1) == Clock(Clocked(1, n)) && Clocked(1, n + 2) == Clock(Clocked(1, n + 1))
    ensures Clocked(1, n + 3) == Clock(Clocked(1, n + 2)) && Clocked(1, n + 4) == Clock(Clocked(1, n + 3))
    ensures Clocked(1, n + 5) == Clock(Clocked(1, n + 4)) && Clocked(1, n + 6) == Clock(Clocked(1, n + 5))
  {
    hide Clock;
  }

  lemma SevenClocks(n: nat)
    ensures Clocked(1, n + 7) == ClockSeven(Clocked(1, n))
  {
    hide Clock;
    ClockedTo(n);
    assert Clocked(1, n + 7) == Clock(Clocked(1, n + 6));
  }

  lemma ClockSevens()
    ensures ClockSeven(0x01) == 0x80 && ClockSeven(0x80) == 0xd8 && ClockSeven(0xd8) == 0x1a
    ensures ClockSeven(0x1a) == 0xdf && ClockSeven(0xdf) == 0x09 && ClockSeven(0x09) == 0x35
    ensures ClockSeven(0x35) == 0x4f && ClockSeven(0x4f) == 0xca && ClockSeven(0xca) == 0x70
    ensures ClockSeven(0x70) == 0x41 && ClockSeven(0x41) == 0xec && ClockSeven(0xec) == 0xd5
    ensures ClockSeven(0xd5) == 0xcd && ClockSeven(0xcd) == 0x63 && ClockSeven(0x63) == 0xab
    ensures ClockSeven(0xab) == 0xaa && ClockSeven(0xaa) == 0x2a && ClockSeven(0x2a) == 0xf2
    ensures ClockSeven(0xf2) == 0xe8 && ClockSeven(0xe8) == 0x37 && ClockSeven(0x37) == 0x3e
    ensures ClockSeven(0x3e) == 0x0b && ClockSeven(0x0b) == 0x44
  {
  }

  /** The register at the start of each round. */
  lemma StartStates()
    ensures Clocked(1, 0) == 0x01 && Clocked(1, 7) == 0x80 && Clocked(1, 14) == 0xd8 && Clocked(1, 21) == 0x1a
    ensures Clocked(1, 28) == 0xdf && Clocked(1, 35) == 0x09 && Clocked(1, 42) == 0x35 && Clocked(1, 49) == 0x4f
    ensures Clocked(1, 56) == 0xca && Clocked(1, 63) == 0x70 && Clocked(1, 70) == 0x41 && Clocked(1, 77) == 0xec
    ensures Clocked(1, 84) == 0xd5 && Clocked(1, 91) == 0xcd && Clocked(1, 98) == 0x63 && Clocked(1, 105) == 0xab
    ensures Clocked(1, 112) == 0xaa && Clocked(1, 119) == 0x2a && Clocked(1, 126) == 0xf2 && Clocked(1, 133) == 0xe8
    ensures Clocked(1, 140) == 0x37 && Clocked(1, 147) == 0x3e && Clocked(1, 154) == 0x0b && Clocked(1, 161) == 0x44
  {
    hide ClockSeven, Clock;
    ClockSevens();
    SevenClocks(0); SevenClocks(7); SevenClocks(14); SevenClocks(21); SevenClocks(28); SevenClocks(35);
    SevenClocks(42); SevenClocks(49); SevenClocks(56); SevenClocks(63); SevenClocks(70); SevenClocks(77);
    SevenClocks(84); SevenClocks(91); SevenClocks(98); SevenClocks(105); SevenClocks(112); SevenClocks(119);
    SevenClocks(126); SevenClocks(133); SevenClocks(140); SevenClocks(147); SevenClocks(154);
  }

  function ConstantFrom(s: bv8): lane {
    Scatter(FirstBit(s), FirstBit(Clock(s)), FirstBit(Clock(Clock(s))), FirstBit(Clock(Clock(Clock(s)))),
            FirstBit(Clock(Clock(Clock(Clock(s))))), FirstBit(Clock(Clock(Clock(Clock(Clock(s)))))),
            FirstBit(Clock(Clock(Clock(Clock(Clock(Clock(s))))))))
  }

  lemma ConstantsFrom1()
    ensures ConstantFrom(0x01) == 0x0000000000000001 && ConstantFrom(0x80) == 0x0000000000008082
    ensures ConstantFrom(0xd8) == 0x800000000000808a && ConstantFrom(0x1a) == 0x8000000080008000
    ensures ConstantFrom(0xdf) == 0x000000000000808b && ConstantFrom(0x09) == 0x0000000080000001
    ensures ConstantFrom(0x35) == 0x8000000080008081 && ConstantFrom(0x4f) == 0x8000000000008009
    ensures ConstantFrom(0xca) == 0x000000000000008a && ConstantFrom(0x70) == 0x0000000000000088
    ensures ConstantFrom(0x41) == 0x0000000080008009 && ConstantFrom(0xec) == 0x000000008000000a
  {
  }

  lemma ConstantsFrom2()
    ensures ConstantFrom(0xd5) == 0x000000008000808b && ConstantFrom(0xcd) == 0x800000000000008b
    ensures ConstantFrom(0x63) == 0x8000000000008089 && ConstantFrom(0xab) == 0x8000000000008003
    ensures ConstantFrom(0xaa) == 0x8000000000008002 && ConstantFrom(0x2a) == 0x8000000000000080
    ensures ConstantFrom(0xf2) == 0x000000000000800a && ConstantFrom(0xe8) == 0x800000008000000a
    ensures ConstantFrom(0x37) == 0x8000000080008081 && ConstantFrom(0x3e) == 0x8000000000008080
    ensures ConstantFrom(0x0b) == 0x0000000080000001 && ConstantFrom(0x44) == 0x8000000080008008
  {
  }

  lemma RoundConstants1()
    ensures RoundConstant(0) == 0x0000000000000001 && RoundConstant(1) == 0x0000000000008082
    ensures RoundConstant(2) == 0x800000000000808a && RoundConstant(3) == 0x8000000080008000
    ensures RoundConstant(4) == 0x000000000000808b && RoundConstant(5) == 0x0000000080000001
  {
  }

  lemma RoundConstants2()
    ensures RoundConstant(6) == 0x8000000080008081 && RoundConstant(7) == 0x8000000000008009
    ensures RoundConstant(8) == 0x000000000000008a && RoundConstant(9) == 0x0000000000000088
    ensures RoundConstant(10) == 0x0000000080008009 && RoundConstant(11) == 0x000000008000000a
  {
  }

  lemma RoundConstants3()
    ensures RoundConstant(12) == 0x000000008000808b && RoundConstant(13) == 0x800000000000008b
    ensures RoundConstant(14) == 0x8000000000008089 && RoundConstant(15) == 0x8000000000008003
    ensures RoundConstant(16) == 0x8000000000008002 && RoundConstant(17) == 0x8000000000000080
  {
  }

  lemma RoundConstants4()
    ensures RoundConstant(18) == 0x000000000000800a && RoundConstant(19) == 0x800000008000000a
    ensures RoundConstant(20) == 0x8000000080008081 && RoundConstant(21) == 0x8000000000008080
    ensures RoundConstant(22) == 0x0000000080000001 && RoundConstant(23) == 0x8000000080008008
  {
  }

  lemma ConstantFromState(round: nat)
    ensures ConstantOf(round) == ConstantFrom(Clocked(1, 7 * round))
  {
    hide Clock, Scatter, FirstBit;
    var t := 7 * round;
    ClockedTo(t);
  }

  /** The table of round constants in the code is the one that the register generates. */
  lemma RoundConstantsFromRegister(round: nat)
    requires round < 24
    ensures RoundConstant(round) == ConstantOf(round)
  {
    ConstantFromState(round);
    StartStates();
    ConstantsFrom1();
    ConstantsFrom2();
    RoundConstants1();
    RoundConstants2();
    RoundConstants3();
    RoundConstants4();
    hide *;
  }
}
