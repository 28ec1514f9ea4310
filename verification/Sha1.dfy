/** The SHA-1 compression function: sections 4.1.1, 4.2.1 and 6.1.2 of FIPS 180-4, the form of it with
    five rotating register names that the hash class runs, and the inverse of its 80 steps. */
module Sha1 {
  import opened Bytes
  import opened Words

  // ----- FIPS 180-4 -----

  function Parity(x: word, y: word, z: word): word {
    x ^ y ^ z
  }

  /** The function of the steps 20 * q to 20 * q + 19. */
  function F(q: nat, x: word, y: word, z: word): word {
    if q == 0 then Ch(x, y, z) else if q == 2 then Maj(x, y, z) else Parity(x, y, z)
  }

  function Constant(q: nat): word {
    if q == 0 then 0x5a827999 else if q == 1 then 0x6ed9eba1 else if q == 2 then 0x8f1bbcdc else 0xca62c1d6
  }

  /** Word t of the message schedule of a block. */
  function Schedule(block: seq<byte>, t: nat): word
    requires |block| == 64
  {
    if t < 16 then LoadBig(block, t)
    else
      RotateLeft(Schedule(block, t - 3) ^ Schedule(block, t - 8) ^ Schedule(block, t - 14) ^ Schedule(block, t - 16), 1)
  }

  datatype Registers = Registers(a: word, b: word, c: word, d: word, e: word)

  /** Step t of the loop of section 6.1.2. */
  function Round(r: Registers, t: nat, w: word): Registers {
    var temp := Add(Add(Add(Add(RotateLeft(r.a, 5), F(t / 20, r.b, r.c, r.d)), r.e), Constant(t / 20)), w);
    Registers(temp, r.a, RotateLeft(r.b, 30), r.c, r.d)
  }

  /** The first n steps for a block. */
  function Rounds(r: Registers, block: seq<byte>, n: nat): Registers
    requires |block| == 64
  {
    if n == 0 then r else Round(Rounds(r, block, n - 1), n - 1, Schedule(block, n - 1))
  }

  function Load(hash: seq<word>): Registers
    requires |hash| == 5
  {
    Registers(hash[0], hash[1], hash[2], hash[3], hash[4])
  }

  function Compress(hash: seq<word>, block: seq<byte>): (next: seq<word>)
    requires |hash| == 5 && |block| == 64
    ensures |next| == 5
  {
    var r := Rounds(Load(hash), block, 80);
    [Add(hash[0], r.a), Add(hash[1], r.b), Add(hash[2], r.c), Add(hash[3], r.d), Add(hash[4], r.e)]
  }

  // ----- the code -----

  function F1(b: word, c: word, d: word): word {
    d ^ (b & (c ^ d))
  }

  function F2(b: word, c: word, d: word): word {
    b ^ c ^ d
  }

  function F3(b: word, c: word, d: word): word {
    (b & c) | (b & d) | (c & d)
  }

  lemma ChooseForms(b: word, c: word, d: word)
    ensures d ^ (b & (c ^ d)) == Ch(b, c, d)
  {
  }

  lemma MajorityForms(b: word, c: word, d: word)
    ensures (b & c) | (b & d) | (c & d) == Maj(b, c, d)
  {
  }

  lemma MixFunctions(b: word, c: word, d: word)
    ensures F1(b, c, d) == Ch(b, c, d)
    ensures F2(b, c, d) == Parity(b, c, d)
    ensures F3(b, c, d) == Maj(b, c, d)
  {
    hide Ch, Maj;
    ChooseForms(b, c, d);
    MajorityForms(b, c, d);
  }

  /** One line of a loop: it writes two of the five registers, and renaming does the rest. */
  method Line(q: nat, a: word, b: word, c: word, d: word, e: word, w: word, k: word,
              ghost input: Registers, ghost block: seq<byte>, ghost t: nat)
    returns (e': word, b': word)
    requires |block| == 64 && 20 * q <= t < 20 * q + 20
    requires k == Constant(q) && w == Schedule(block, t)
    requires Registers(a, b, c, d, e) == Rounds(input, block, t)
    ensures Registers(e', a, b', c, d) == Rounds(input, block, t + 1)
  {
    hide Add, RotateLeft, F1, F2, F3, Ch, Parity, Maj, Constant, Schedule;
    var f := if q == 0 then F1(b, c, d) else if q == 2 then F3(b, c, d) else F2(b, c, d);
    MixFunctions(b, c, d);
    e' := Add(e, Add(Add(Add(RotateLeft(a, 5), f), w), k));
    b' := RotateLeft(b, 30);
    ReorderSum(e, Add(RotateLeft(a, 5), f), w, k);
  }

  lemma ReorderSum(e: word, s: word, w: word, k: word)
    ensures Add(e, Add(Add(s, w), k)) == Add(Add(Add(s, e), k), w)
  {
    hide Add;
    calc {
      Add(e, Add(Add(s, w), k));
      { AddAssociates(s, w, k); AddCommutes(w, k); AddAssociates(e, s, Add(k, w)); }
      Add(Add(e, s), Add(k, w));
      { AddCommutes(e, s); AddAssociates(Add(s, e), k, w); }
      Add(Add(Add(s, e), k), w);
    }
  }

  /** The first n words of the schedule of a block are in place. */
  ghost predicate Scheduled(words: array<word>, block: seq<byte>, n: nat)
    requires |block| == 64
    reads words
  {
    words.Length == 80 && n <= 80 && forall t :: 0 <= t < n ==> words[t] == Schedule(block, t)
  }

  /** The sum that the code rotates into the schedule. */
  function NextWord(w3: word, w8: word, w14: word, w16: word): word {
    RotateLeft(w3 ^ w8 ^ w14 ^ w16, 1)
  }

  lemma NextWordIsScheduled(block: seq<byte>, t: nat)
    requires |block| == 64 && t >= 16
    ensures NextWord(Schedule(block, t - 3), Schedule(block, t - 8), Schedule(block, t - 14), Schedule(block, t - 16))
         == Schedule(block, t)
  {
    hide RotateLeft;
  }

  method LoadWords(data: seq<byte>) returns (words: array<word>)
    requires |data| == 64
    ensures Scheduled(words, data, 80)
  {
    hide ByteSwap, LoadLittle, LoadBig, NextWord;
    words := new word[80];
    for i := 0 to 16
      invariant Scheduled(words, data, i)
    {
      words[i] := ByteSwap(LoadLittle(data, i));
      SwapLittleIsBig(data, i);
    }
    hide Schedule;
    for i := 16 to 80
      invariant Scheduled(words, data, i)
    {
      NextWordIsScheduled(data, i);
      words[i] := NextWord(words[i - 3], words[i - 8], words[i - 14], words[i - 16]);
    }
  }

  /** One of the four loops: five lines at a time, after which every register has its own name back. */
  method TwentySteps(q: nat, k: word, r: Registers, words: array<word>, ghost input: Registers, ghost data: seq<byte>)
    returns (r': Registers)
    requires |data| == 64 && Scheduled(words, data, 80)
    requires q < 4 && k == Constant(q)
    requires r == Rounds(input, data, 20 * q)
    ensures r' == Rounds(input, data, 20 * q + 20)
  {
    hide Rounds, Schedule, Constant;
    var a, b, c, d, e := r.a, r.b, r.c, r.d, r.e;
    for i := 4 * q to 4 * q + 4
      invariant Registers(a, b, c, d, e) == Rounds(input, data, 5 * i)
    {
      var t := 5 * i;
      e, b := Line(q, a, b, c, d, e, words[t], k, input, data, t);
      d, a := Line(q, e, a, b, c, d, words[t + 1], k, input, data, t + 1);
      c, e := Line(q, d, e, a, b, c, words[t + 2], k, input, data, t + 2);
      b, d := Line(q, c, d, e, a, b, words[t + 3], k, input, data, t + 3);
      a, c := Line(q, b, c, d, e, a, words[t + 4], k, input, data, t + 4);
    }
    r' := Registers(a, b, c, d, e);
  }

  /** The loops with their five-way rotated register names are the 80 steps. */
  method MixRounds(input: Registers, data: seq<byte>) returns (r: Registers)
    requires |data| == 64
    ensures r == Rounds(input, data, 80)
  {
    r := input;
    assert r == Rounds(input, data, 0);
    hide Rounds, Schedule, Scheduled;
    var words := LoadWords(data);
    r := TwentySteps(0, 0x5a827999, r, words, input, data);
    r := TwentySteps(1, 0x6ed9eba1, r, words, input, data);
    r := TwentySteps(2, 0x8f1bbcdc, r, words, input, data);
    r := TwentySteps(3, 0xca62c1d6, r, words, input, data);
  }

  method ProcessBlock(hash: array<word>, data: seq<byte>)
    requires hash.Length == 5 && |data| == 64
    modifies hash
    ensures hash[..] == Compress(old(hash[..]), data)
  {
    hide Add, Rounds;
    var r := MixRounds(Load(hash[..]), data);
    hash[0] := Add(hash[0], r.a);
    hash[1] := Add(hash[1], r.b);
    hash[2] := Add(hash[2], r.c);
    hash[3] := Add(hash[3], r.d);
    hash[4] := Add(hash[4], r.e);
  }

  // ----- the steps can be run backwards -----

  function Unround(r: Registers, t: nat, w: word): Registers {
    var b := RotateRight(r.c, 30);
    var e := Sub(Sub(Sub(r.a, w), Constant(t / 20)), Add(RotateLeft(r.b, 5), F(t / 20, b, r.d, r.e)));
    Registers(r.b, b, r.d, r.e, e)
  }

  lemma UnroundInverts(r: Registers, t: nat, w: word)
    ensures Unround(Round(r, t, w), t, w) == r
    ensures Round(Unround(r, t, w), t, w) == r
  {
    hide Add, Sub, RotateLeft, RotateRight, F, Constant;
    var q := t / 20;
    var s := Add(RotateLeft(r.a, 5), F(q, r.b, r.c, r.d));
    RightUndoesLeft(r.b, 30);
    SubUndoesAdd(Add(Add(s, r.e), Constant(q)), w);
    SubUndoesAdd(Add(s, r.e), Constant(q));
    AddCommutes(s, r.e);
    SubUndoesAdd(r.e, s);

    var u := Unround(r, t, w);
    var s' := Add(RotateLeft(u.a, 5), F(q, u.b, u.c, u.d));
    LeftUndoesRight(r.c, 30);
    SubUndoesAdd(r.a, w);
    SubUndoesAdd(Sub(r.a, w), Constant(q));
    SubUndoesAdd(Sub(Sub(r.a, w), Constant(q)), s');
    AddCommutes(u.e, s');
  }

  function Unrounds(r: Registers, block: seq<byte>, n: nat): Registers
    requires |block| == 64
    decreases n
  {
    if n == 0 then r
    else
      var w := Schedule(block, n - 1);
      Unrounds(Unround(r, n - 1, w), block, n - 1)
  }

  /** For a fixed block the steps are a bijection on the registers, and Unrounds is its inverse. */
  lemma {:induction false} RoundsAreBijective(r: Registers, block: seq<byte>, n: nat)
    requires |block| == 64
    ensures Unrounds(Rounds(r, block, n), block, n) == r
    ensures Rounds(Unrounds(r, block, n), block, n) == r
    decreases n
  {
    hide Round, Unround, Schedule;
    if n == 0 {
    } else {
      var w := Schedule(block, n - 1);
      UnroundInverts(Rounds(r, block, n - 1), n - 1, w);
      RoundsAreBijective(r, block, n - 1);
      UnroundInverts(r, n - 1, w);
      RoundsAreBijective(Unround(r, n - 1, w), block, n - 1);
    }
  }
}
