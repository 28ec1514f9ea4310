/** The SHA-256 compression function: sections 4.1.2, 4.2.2 and 6.2.2 of FIPS 180-4, the unrolled
    form of it that the hash class runs, and the inverse of its 64 steps. */
module Sha256 {
  import opened Bytes
  import opened Words

  // ----- FIPS 180-4 -----

  function BigSigma0(x: word): word {
    RotateRight(x, 2) ^ RotateRight(x, 13) ^ RotateRight(x, 22)
  }

  function BigSigma1(x: word): word {
    RotateRight(x, 6) ^ RotateRight(x, 11) ^ RotateRight(x, 25)
  }

  function SmallSigma0(x: word): word {
    RotateRight(x, 7) ^ RotateRight(x, 18) ^ (x >> 3)
  }

  function SmallSigma1(x: word): word {
    RotateRight(x, 17) ^ RotateRight(x, 19) ^ (x >> 10)
  }

  /** Row g of the table of section 4.2.2, eight constants to a row. */
  function ConstantRow(g: nat): (k: seq<word>)
    requires g < 8
    ensures |k| == 8
  {
    if g == 0 then [0x428a2f98, 0x71374491, 0xb5c0fbcf, 0xe9b5dba5, 0x3956c25b, 0x59f111f1, 0x923f82a4, 0xab1c5ed5]
    else if g == 1 then [0xd807aa98, 0x12835b01, 0x243185be, 0x550c7dc3, 0x72be5d74, 0x80deb1fe, 0x9bdc06a7, 0xc19bf174]
    else if g == 2 then [0xe49b69c1, 0xefbe4786, 0x0fc19dc6, 0x240ca1cc, 0x2de92c6f, 0x4a7484aa, 0x5cb0a9dc, 0x76f988da]
    else if g == 3 then [0x983e5152, 0xa831c66d, 0xb00327c8, 0xbf597fc7, 0xc6e00bf3, 0xd5a79147, 0x06ca6351, 0x14292967]
    else if g == 4 then [0x27b70a85, 0x2e1b2138, 0x4d2c6dfc, 0x53380d13, 0x650a7354, 0x766a0abb, 0x81c2c92e, 0x92722c85]
    else if g == 5 then [0xa2bfe8a1, 0xa81a664b, 0xc24b8b70, 0xc76c51a3, 0xd192e819, 0xd6990624, 0xf40e3585, 0x106aa070]
    else if g == 6 then [0x19a4c116, 0x1e376c08, 0x2748774c, 0x34b0bcb5, 0x391c0cb3, 0x4ed8aa4a, 0x5b9cca4f, 0x682e6ff3]
    else [0x748f82ee, 0x78a5636f, 0x84c87814, 0x8cc70208, 0x90befffa, 0xa4506ceb, 0xbef9a3f7, 0xc67178f2]
  }

  function Constant(t: nat): word
    requires t < 64
  {
    ConstantRow(t / 8)[t % 8]
  }

  lemma RowConstants(g: nat)
    requires g < 8
    ensures var k, t := ConstantRow(g), 8 * g;
            && Constant(t) == k[0] && Constant(t + 1) == k[1] && Constant(t + 2) == k[2] && Constant(t + 3) == k[3]
            && Constant(t + 4) == k[4] && Constant(t + 5) == k[5] && Constant(t + 6) == k[6] && Constant(t + 7) == k[7]
  {
    hide ConstantRow;
  }

  /** Word t of the message schedule of a block. */
  function Schedule(block: seq<byte>, t: nat): word
    requires |block| == 64
  {
    if t < 16 then LoadBig(block, t)
    else Add(Add(Add(SmallSigma1(Schedule(block, t - 2)), Schedule(block, t - 7)),
                 SmallSigma0(Schedule(block, t - 15))), Schedule(block, t - 16))
  }

  datatype Registers = Registers(a: word, b: word, c: word, d: word, e: word, f: word, g: word, h: word)

  /** One step of the loop of section 6.2.2. */
  function Round(r: Registers, k: word, w: word): Registers {
    var t1 := Add(Add(Add(Add(r.h, BigSigma1(r.e)), Ch(r.e, r.f, r.g)), k), w);
    var t2 := Add(BigSigma0(r.a), Maj(r.a, r.b, r.c));
    Registers(Add(t1, t2), r.a, r.b, r.c, Add(r.d, t1), r.e, r.f, r.g)
  }

  /** The first n steps for a block. */
  function Rounds(r: Registers, block: seq<byte>, n: nat): Registers
    requires |block| == 64 && n <= 64
  {
    if n == 0 then r else Round(Rounds(r, block, n - 1), Constant(n - 1), Schedule(block, n - 1))
  }

  function Load(hash: seq<word>): Registers
    requires |hash| == 8
  {
    Registers(hash[0], hash[1], hash[2], hash[3], hash[4], hash[5], hash[6], hash[7])
  }

  function Compress(hash: seq<word>, block: seq<byte>): (next: seq<word>)
    requires |hash| == 8 && |block| == 64
    ensures |next| == 8
  {
    var r := Rounds(Load(hash), block, 64);
    [Add(hash[0], r.a), Add(hash[1], r.b), Add(hash[2], r.c), Add(hash[3], r.d),
     Add(hash[4], r.e), Add(hash[5], r.f), Add(hash[6], r.g), Add(hash[7], r.h)]
  }

  // ----- the code -----

  function F1(e: word, f: word, g: word): word {
    var term1 := RotateRight(e, 6) ^ RotateRight(e, 11) ^ RotateRight(e, 25);
    var term2 := (e & f) ^ (!e & g);
    Add(term1, term2)
  }

  function F2(a: word, b: word, c: word): word {
    var term1 := RotateRight(a, 2) ^ RotateRight(a, 13) ^ RotateRight(a, 22);
    var term2 := ((a | b) & c) | (a & b);
    Add(term1, term2)
  }

  lemma MixFunctions(x: word, y: word, z: word)
    ensures F1(x, y, z) == Add(BigSigma1(x), Ch(x, y, z))
    ensures F2(x, y, z) == Add(BigSigma0(x), Maj(x, y, z))
  {
    hide RotateRight, Add;
    MajorityForms(x, y, z);
  }

  lemma MajorityForms(x: word, y: word, z: word)
    ensures ((x | y) & z) | (x & y) == Maj(x, y, z)
  {
  }

  /** One unrolled line: it writes two of the eight registers, and renaming does the rest. */
  method Line(a: word, b: word, c: word, d: word, e: word, f: word, g: word, h: word, k: word, w: word,
              ghost input: Registers, ghost block: seq<byte>, ghost t: nat)
    returns (d': word, h': word)
    requires |block| == 64 && t < 64 && k == Constant(t) && w == Schedule(block, t)
    requires Registers(a, b, c, d, e, f, g, h) == Rounds(input, block, t)
    ensures Registers(h', a, b, c, d', e, f, g) == Rounds(input, block, t + 1)
  {
    hide Add, F1, F2, Constant, Schedule, BigSigma0, BigSigma1, Ch, Maj;
    var x := Add(Add(Add(h, F1(e, f, g)), k), w);
    var y := F2(a, b, c);
    d' := Add(d, x);
    h' := Add(x, y);
    MixFunctions(e, f, g);
    MixFunctions(a, b, c);
    AddAssociates(h, BigSigma1(e), Ch(e, f, g));
  }

  /** The first n words of the schedule of a block are in place. */
  ghost predicate Scheduled(words: array<word>, block: seq<byte>, n: nat)
    requires |block| == 64
    reads words
  {
    words.Length == 64 && n <= 64 && forall t :: 0 <= t < n ==> words[t] == Schedule(block, t)
  }

  lemma ScheduledBefore(words: array<word>, block: seq<byte>, n: nat)
    requires |block| == 64 && n >= 4 && Scheduled(words, block, n)
    ensures Scheduled(words, block, n - 4)
  {
    hide Schedule;
  }

  /** Four lines, after which the two halves of the registers have changed their names with each other. */
  method FourLines(r: Registers, k0: word, k1: word, k2: word, k3: word, words: array<word>, t: nat,
                   ghost input: Registers, ghost data: seq<byte>)
    returns (r': Registers)
    requires |data| == 64 && t <= 60
    requires k0 == Constant(t) && k1 == Constant(t + 1) && k2 == Constant(t + 2) && k3 == Constant(t + 3)
    requires Scheduled(words, data, t + 4)
    requires r == Rounds(input, data, t)
    ensures r' == Rounds(input, data, t + 4)
  {
    hide Rounds, Schedule, Constant;
    var a, b, c, d, e, f, g, h := r.a, r.b, r.c, r.d, r.e, r.f, r.g, r.h;
    d, h := Line(a, b, c, d, e, f, g, h, k0, words[t], input, data, t);
    c, g := Line(h, a, b, c, d, e, f, g, k1, words[t + 1], input, data, t + 1);
    b, f := Line(g, h, a, b, c, d, e, f, k2, words[t + 2], input, data, t + 2);
    a, e := Line(f, g, h, a, b, c, d, e, k3, words[t + 3], input, data, t + 3);
    r' := Registers(e, f, g, h, a, b, c, d);
  }

  /** Eight consecutive lines; afterwards every register has its own name back. */
  method EightLines(r: Registers, k: seq<word>, words: array<word>, i: nat, ghost input: Registers,
                    ghost data: seq<byte>)
    returns (r': Registers)
    requires |data| == 64 && i < 8 && k == ConstantRow(i)
    requires Scheduled(words, data, 8 * i + 8)
    requires r == Rounds(input, data, 8 * i)
    ensures r' == Rounds(input, data, 8 * i + 8)
  {
    hide *;
    RowConstants(i);
    ScheduledBefore(words, data, 8 * i + 8);
    var t := 8 * i;
    r' := FourLines(r, k[0], k[1], k[2], k[3], words, t, input, data);
    r' := FourLines(r', k[4], k[5], k[6], k[7], words, t + 4, input, data);
  }

  /** The first sixteen words of the schedule. */
  method LoadWords(data: seq<byte>) returns (words: array<word>)
    requires |data| == 64
    ensures fresh(words)
    ensures Scheduled(words, data, 16)
  {
    hide ByteSwap, LoadLittle, LoadBig;
    words := new word[64];
    for i := 0 to 16
      invariant Scheduled(words, data, i)
    {
      words[i] := ByteSwap(LoadLittle(data, i));
      SwapLittleIsBig(data, i);
    }
  }

  /** The sum that the code adds to the schedule. */
  function NextWord(w16: word, w15: word, w7: word, w2: word): word {
    Add(Add(Add(w16, RotateRight(w15, 7) ^ RotateRight(w15, 18) ^ (w15 >> 3)), w7),
        RotateRight(w2, 17) ^ RotateRight(w2, 19) ^ (w2 >> 10))
  }

  lemma NextWordIsSum(w16: word, w15: word, w7: word, w2: word)
    ensures NextWord(w16, w15, w7, w2) == Add(Add(Add(w16, SmallSigma0(w15)), w7), SmallSigma1(w2))
  {
    hide Add, RotateRight;
  }

  lemma NextWordIsScheduled(block: seq<byte>, t: nat)
    requires |block| == 64 && t >= 16
    ensures NextWord(Schedule(block, t - 16), Schedule(block, t - 15), Schedule(block, t - 7), Schedule(block, t - 2))
         == Schedule(block, t)
  {
    hide Add, NextWord, SmallSigma0, SmallSigma1;
    var w16, w15, w7, w2 :=
      Schedule(block, t - 16), Schedule(block, t - 15), Schedule(block, t - 7), Schedule(block, t - 2);
    NextWordIsSum(w16, w15, w7, w2);
    ReorderSum(w16, SmallSigma0(w15), w7, SmallSigma1(w2));
  }

  /** Extend the schedule by eight words, just before they are needed. */
  method Extend(words: array<word>, start: nat, ghost data: seq<byte>)
    requires |data| == 64 && 16 <= start <= 56
    requires Scheduled(words, data, start)
    modifies words
    ensures Scheduled(words, data, start + 8)
  {
    hide NextWord, Schedule;
    for i := start to start + 8
      invariant Scheduled(words, data, i)
    {
      NextWordIsScheduled(data, i);
      words[i] := NextWord(words[i - 16], words[i - 15], words[i - 7], words[i - 2]);
    }
  }

  lemma ReorderSum(p: word, q: word, r: word, s: word)
    ensures Add(Add(Add(p, q), r), s) == Add(Add(Add(s, r), q), p)
  {
    hide Add;
    calc {
      Add(Add(Add(p, q), r), s);
      { AddCommutes(Add(Add(p, q), r), s); AddCommutes(Add(p, q), r); }
      Add(s, Add(r, Add(p, q)));
      { AddAssociates(s, r, Add(p, q)); AddCommutes(p, q); }
      Add(Add(s, r), Add(q, p));
      { AddAssociates(Add(s, r), q, p); }
      Add(Add(Add(s, r), q), p);
    }
  }

  /** Add registers to four words of the chaining value. */
  method AddFour(hash: array<word>, i: nat, x: word, y: word, z: word, w: word)
    requires i + 4 <= hash.Length
    modifies hash
    ensures hash[i] == Add(old(hash[i]), x) && hash[i + 1] == Add(old(hash[i + 1]), y)
    ensures hash[i + 2] == Add(old(hash[i + 2]), z) && hash[i + 3] == Add(old(hash[i + 3]), w)
    ensures forall j :: 0 <= j < i || i + 4 <= j < hash.Length ==> hash[j] == old(hash[j])
  {
    hide Add;
    hash[i] := Add(hash[i], x);
    hash[i + 1] := Add(hash[i + 1], y);
    hash[i + 2] := Add(hash[i + 2], z);
    hash[i + 3] := Add(hash[i + 3], w);
  }

  /** The unrolled code with its rotating register names and its lazily extended schedule is the
      compression function. */
  method ProcessBlock(hash: array<word>, data: seq<byte>)
    requires hash.Length == 8 && |data| == 64
    modifies hash
    ensures hash[..] == Compress(old(hash[..]), data)
  {
    ghost var before := hash[..];
    var r := MixRounds(Load(hash[..]), data);
    hide *;
    AddFour(hash, 0, r.a, r.b, r.c, r.d);
    AddFour(hash, 4, r.e, r.f, r.g, r.h);
    CompressUnfold(before, data, r, hash[..]);
  }

  lemma CompressUnfold(hash: seq<word>, block: seq<byte>, r: Registers, next: seq<word>)
    requires |hash| == 8 == |next| && |block| == 64 && r == Rounds(Load(hash), block, 64)
    requires next[0] == Add(hash[0], r.a) && next[1] == Add(hash[1], r.b)
    requires next[2] == Add(hash[2], r.c) && next[3] == Add(hash[3], r.d)
    requires next[4] == Add(hash[4], r.e) && next[5] == Add(hash[5], r.f)
    requires next[6] == Add(hash[6], r.g) && next[7] == Add(hash[7], r.h)
    ensures next == Compress(hash, block)
  {
    hide Add, Rounds;
  }

  method MixRounds(input: Registers, data: seq<byte>) returns (r: Registers)
    requires |data| == 64
    ensures r == Rounds(input, data, 64)
  {
    r := input;
    assert r == Rounds(input, data, 0);
    hide Rounds, Schedule, Scheduled;
    var words := LoadWords(data);
    r := EightLines(r, [0x428a2f98, 0x71374491, 0xb5c0fbcf, 0xe9b5dba5, 0x3956c25b, 0x59f111f1, 0x923f82a4, 0xab1c5ed5],
                    words, 0, input, data);
    r := EightLines(r, [0xd807aa98, 0x12835b01, 0x243185be, 0x550c7dc3, 0x72be5d74, 0x80deb1fe, 0x9bdc06a7, 0xc19bf174],
                    words, 1, input, data);
    Extend(words, 16, data);
    r := EightLines(r, [0xe49b69c1, 0xefbe4786, 0x0fc19dc6, 0x240ca1cc, 0x2de92c6f, 0x4a7484aa, 0x5cb0a9dc, 0x76f988da],
                    words, 2, input, data);
    Extend(words, 24, data);
    r := EightLines(r, [0x983e5152, 0xa831c66d, 0xb00327c8, 0xbf597fc7, 0xc6e00bf3, 0xd5a79147, 0x06ca6351, 0x14292967],
                    words, 3, input, data);
    Extend(words, 32, data);
    r := EightLines(r, [0x27b70a85, 0x2e1b2138, 0x4d2c6dfc, 0x53380d13, 0x650a7354, 0x766a0abb, 0x81c2c92e, 0x92722c85],
                    words, 4, input, data);
    Extend(words, 40, data);
    r := EightLines(r, [0xa2bfe8a1, 0xa81a664b, 0xc24b8b70, 0xc76c51a3, 0xd192e819, 0xd6990624, 0xf40e3585, 0x106aa070],
                    words, 5, input, data);
    Extend(words, 48, data);
    r := EightLines(r, [0x19a4c116, 0x1e376c08, 0x2748774c, 0x34b0bcb5, 0x391c0cb3, 0x4ed8aa4a, 0x5b9cca4f, 0x682e6ff3],
                    words, 6, input, data);
    Extend(words, 56, data);
    r := EightLines(r, [0x748f82ee, 0x78a5636f, 0x84c87814, 0x8cc70208, 0x90befffa, 0xa4506ceb, 0xbef9a3f7, 0xc67178f2],
                    words, 7, input, data);
  }

  // ----- the steps can be run backwards -----

  function Unround(r: Registers, k: word, w: word): Registers {
    var t2 := Add(BigSigma0(r.b), Maj(r.b, r.c, r.d));
    var t1 := Sub(r.a, t2);
    var h := Sub(Sub(Sub(Sub(t1, w), k), Ch(r.f, r.g, r.h)), BigSigma1(r.f));
    Registers(r.b, r.c, r.d, Sub(r.e, t1), r.f, r.g, r.h, h)
  }

  lemma UnroundInverts(r: Registers, k: word, w: word)
    ensures Unround(Round(r, k, w), k, w) == r
    ensures Round(Unround(r, k, w), k, w) == r
  {
    hide Add, Sub, BigSigma0, BigSigma1, Maj, Ch;
    var t2 := Add(BigSigma0(r.a), Maj(r.a, r.b, r.c));
    var s1 := Add(r.h, BigSigma1(r.e));
    var s2 := Add(s1, Ch(r.e, r.f, r.g));
    var t1 := Add(Add(s2, k), w);
    SubUndoesAdd(t1, t2);
    SubUndoesAdd(Add(s2, k), w);
    SubUndoesAdd(s2, k);
    SubUndoesAdd(s1, Ch(r.e, r.f, r.g));
    SubUndoesAdd(r.h, BigSigma1(r.e));
    SubUndoesAdd(r.d, t1);

    var u2 := Add(BigSigma0(r.b), Maj(r.b, r.c, r.d));
    var u1 := Sub(r.a, u2);
    var v1 := Sub(u1, w);
    var v2 := Sub(v1, k);
    var v3 := Sub(v2, Ch(r.f, r.g, r.h));
    SubUndoesAdd(r.a, u2);
    SubUndoesAdd(u1, w);
    SubUndoesAdd(v1, k);
    SubUndoesAdd(v2, Ch(r.f, r.g, r.h));
    SubUndoesAdd(v3, BigSigma1(r.f));
    SubUndoesAdd(r.e, u1);
  }

  function Unrounds(r: Registers, block: seq<byte>, n: nat): Registers
    requires |block| == 64 && n <= 64
    decreases n
  {
    if n == 0 then r
    else
      var k, w := Constant(n - 1), Schedule(block, n - 1);
      Unrounds(Unround(r, k, w), block, n - 1)
  }

  /** For a fixed block the steps are a bijection on the registers, and Unrounds is its inverse. */
  lemma {:induction false} RoundsAreBijective(r: Registers, block: seq<byte>, n: nat)
    requires |block| == 64 && n <= 64
    ensures Unrounds(Rounds(r, block, n), block, n) == r
    ensures Rounds(Unrounds(r, block, n), block, n) == r
    decreases n
  {
    hide Round, Unround, Schedule, Constant;
    if n == 0 {
    } else {
      var k, w := Constant(n - 1), Schedule(block, n - 1);
      UnroundInverts(Rounds(r, block, n - 1), k, w);
      RoundsAreBijective(r, block, n - 1);
      UnroundInverts(r, k, w);
      RoundsAreBijective(Unround(r, k, w), block, n - 1);
    }
  }
}
