/** The MD5 compression function: section 3.4 of RFC 1321, the unrolled form of it that the hash class
    runs, and the inverse of its 64 steps. */
module Md5 {
  import opened Bytes
  import opened Words

  // ----- RFC 1321 -----

  function F(x: word, y: word, z: word): word {
    (x & y) | (!x & z)
  }

  function G(x: word, y: word, z: word): word {
    (x & z) | (y & !z)
  }

  function H(x: word, y: word, z: word): word {
    x ^ y ^ z
  }

  function I(x: word, y: word, z: word): word {
    y ^ (x | !z)
  }

  /** The auxiliary function of round q. */
  function Mix(q: nat, x: word, y: word, z: word): word {
    if q == 0 then F(x, y, z) else if q == 1 then G(x, y, z) else if q == 2 then H(x, y, z) else I(x, y, z)
  }

  /** The word of the block that step i of round q uses. */
  function WordIndex(q: nat, i: nat): (k: nat)
    ensures k < 16
  {
    if q == 0 then i % 16 else if q == 1 then (5 * i + 1) % 16 else if q == 2 then (3 * i + 5) % 16 else 7 * i % 16
  }

  /** The rotation of step i of round q. */
  function Shift(q: nat, i: nat): (s: bv6)
    ensures 0 < s < 32
  {
    var m := i % 4;
    if q == 0 then (if m == 0 then 7 else if m == 1 then 12 else if m == 2 then 17 else 22)
    else if q == 1 then (if m == 0 then 5 else if m == 1 then 9 else if m == 2 then 14 else 20)
    else if q == 2 then (if m == 0 then 4 else if m == 1 then 11 else if m == 2 then 16 else 23)
    else (if m == 0 then 6 else if m == 1 then 10 else if m == 2 then 15 else 21)
  }

  // The table T, four entries to a row.

  function TableRow1(j: nat): (k: seq<word>)
    ensures |k| == 4
  {
    if j == 0 then [0xd76aa478, 0xe8c7b756, 0x242070db, 0xc1bdceee]
    else if j == 1 then [0xf57c0faf, 0x4787c62a, 0xa8304613, 0xfd469501]
    else if j == 2 then [0x698098d8, 0x8b44f7af, 0xffff5bb1, 0x895cd7be]
    else [0x6b901122, 0xfd987193, 0xa679438e, 0x49b40821]
  }

  function TableRow2(j: nat): (k: seq<word>)
    ensures |k| == 4
  {
    if j == 0 then [0xf61e2562, 0xc040b340, 0x265e5a51, 0xe9b6c7aa]
    else if j == 1 then [0xd62f105d, 0x02441453, 0xd8a1e681, 0xe7d3fbc8]
    else if j == 2 then [0x21e1cde6, 0xc33707d6, 0xf4d50d87, 0x455a14ed]
    else [0xa9e3e905, 0xfcefa3f8, 0x676f02d9, 0x8d2a4c8a]
  }

  function TableRow3(j: nat): (k: seq<word>)
    ensures |k| == 4
  {
    if j == 0 then [0xfffa3942, 0x8771f681, 0x6d9d6122, 0xfde5380c]
    else if j == 1 then [0xa4beea44, 0x4bdecfa9, 0xf6bb4b60, 0xbebfbc70]
    else if j == 2 then [0x289b7ec6, 0xeaa127fa, 0xd4ef3085, 0x04881d05]
    else [0xd9d4d039, 0xe6db99e5, 0x1fa27cf8, 0xc4ac5665]
  }

  function TableRow4(j: nat): (k: seq<word>)
    ensures |k| == 4
  {
    if j == 0 then [0xf4292244, 0x432aff97, 0xab9423a7, 0xfc93a039]
    else if j == 1 then [0x655b59c3, 0x8f0ccc92, 0xffeff47d, 0x85845dd1]
    else if j == 2 then [0x6fa87e4f, 0xfe2ce6e0, 0xa3014314, 0x4e0811a1]
    else [0xf7537e82, 0xbd3af235, 0x2ad7d2bb, 0xeb86d391]
  }

  /** Row j of round q. */
  function TableRow(q: nat, j: nat): (k: seq<word>)
    ensures |k| == 4
  {
    if q == 0 then TableRow1(j) else if q == 1 then TableRow2(j) else if q == 2 then TableRow3(j) else TableRow4(j)
  }

  /** The entry of the table T that step i of round q uses. */
  function Table(q: nat, i: nat): word
    requires i < 16
  {
    TableRow(q, i / 4)[i % 4]
  }

  datatype Registers = Registers(a: word, b: word, c: word, d: word)

  /** Step i of round q, [abcd k s i], followed by renaming dabc to abcd. */
  function Step(r: Registers, q: nat, i: nat, block: seq<byte>): Registers
    requires |block| == 64 && i < 16
  {
    var sum := Add(Add(Add(r.a, Mix(q, r.b, r.c, r.d)), LoadLittle(block, WordIndex(q, i))), Table(q, i));
    Registers(r.d, Add(r.b, RotateLeft(sum, Shift(q, i))), r.b, r.c)
  }

  /** The first n steps for a block, sixteen to a round. */
  function Steps(r: Registers, block: seq<byte>, n: nat): Registers
    requires |block| == 64
  {
    if n == 0 then r else Step(Steps(r, block, n - 1), (n - 1) / 16, (n - 1) % 16, block)
  }

  function Load(hash: seq<word>): Registers
    requires |hash| == 4
  {
    Registers(hash[0], hash[1], hash[2], hash[3])
  }

  function Compress(hash: seq<word>, block: seq<byte>): (next: seq<word>)
    requires |hash| == 4 && |block| == 64
    ensures |next| == 4
  {
    var r := Steps(Load(hash), block, 64);
    [Add(hash[0], r.a), Add(hash[1], r.b), Add(hash[2], r.c), Add(hash[3], r.d)]
  }

  // ----- the code -----

  function F1(b: word, c: word, d: word): word {
    d ^ (b & (c ^ d))
  }

  function F2(b: word, c: word, d: word): word {
    c ^ (d & (b ^ c))
  }

  function F3(b: word, c: word, d: word): word {
    b ^ c ^ d
  }

  function F4(b: word, c: word, d: word): word {
    c ^ (b | !d)
  }

  lemma ChooseForms(b: word, c: word, d: word)
    ensures d ^ (b & (c ^ d)) == F(b, c, d)
    ensures c ^ (d & (b ^ c)) == G(b, c, d)
  {
  }

  lemma MixFunctions(b: word, c: word, d: word)
    ensures F1(b, c, d) == F(b, c, d)
    ensures F2(b, c, d) == G(b, c, d)
    ensures F3(b, c, d) == H(b, c, d)
    ensures F4(b, c, d) == I(b, c, d)
  {
    hide F, G;
    ChooseForms(b, c, d);
  }

  /** The rewritten function of round q. */
  function CodeMix(q: nat, b: word, c: word, d: word): word {
    if q == 0 then F1(b, c, d) else if q == 1 then F2(b, c, d) else if q == 2 then F3(b, c, d) else F4(b, c, d)
  }

  lemma CodeMixIsMix(q: nat, b: word, c: word, d: word)
    ensures CodeMix(q, b, c, d) == Mix(q, b, c, d)
  {
    hide F, G, H, I, F1, F2, F3, F4;
    MixFunctions(b, c, d);
  }

  /** One unrolled line: it writes one of the four registers, and renaming does the rest. */
  method Line(q: nat, a: word, b: word, c: word, d: word, k: nat, s: bv6, t: word, i: nat,
              ghost input: Registers, block: seq<byte>)
    returns (a': word)
    requires |block| == 64 && q < 4 && i < 16
    requires k == WordIndex(q, i) && s == Shift(q, i) && t == Table(q, i)
    requires Registers(a, b, c, d) == Steps(input, block, 16 * q + i)
    ensures Registers(d, a', b, c) == Steps(input, block, 16 * q + i + 1)
  {
    hide Add, RotateLeft, CodeMix, Mix, LoadLittle, WordIndex, Shift, Table;
    CodeMixIsMix(q, b, c, d);
    var rotated := RotateLeft(Add(Add(Add(a, CodeMix(q, b, c, d)), LoadLittle(block, k)), t), s);
    a' := Add(rotated, b);
    AddCommutes(rotated, b);
  }

  /** What four lines in a row say: the words of the block and the table entries that they use. */
  datatype Numbers = Numbers(k0: nat, t0: word, k1: nat, t1: word, k2: nat, t2: word, k3: nat, t3: word)

  /** They are the numbers of row j of round q. */
  ghost predicate AreRow(n: Numbers, q: nat, j: nat)
    requires j < 4
  {
    && [n.t0, n.t1, n.t2, n.t3] == TableRow(q, j)
    && n.k0 == WordIndex(q, 4 * j) && n.k1 == WordIndex(q, 4 * j + 1)
    && n.k2 == WordIndex(q, 4 * j + 2) && n.k3 == WordIndex(q, 4 * j + 3)
  }

  lemma ShiftsOfRow(q: nat, j: nat)
    ensures Shift(q, 4 * j) == Shift(q, 0) && Shift(q, 4 * j + 1) == Shift(q, 1)
    ensures Shift(q, 4 * j + 2) == Shift(q, 2) && Shift(q, 4 * j + 3) == Shift(q, 3)
  {
    assert 4 * j % 4 == 0 && (4 * j + 1) % 4 == 1 && (4 * j + 2) % 4 == 2 && (4 * j + 3) % 4 == 3;
  }

  lemma EntriesOfRow(q: nat, j: nat)
    requires j < 4
    ensures Table(q, 4 * j) == TableRow(q, j)[0] && Table(q, 4 * j + 1) == TableRow(q, j)[1]
    ensures Table(q, 4 * j + 2) == TableRow(q, j)[2] && Table(q, 4 * j + 3) == TableRow(q, j)[3]
  {
    hide TableRow;
  }

  lemma Shifts()
    ensures Shift(0, 0) == 7 && Shift(0, 1) == 12 && Shift(0, 2) == 17 && Shift(0, 3) == 22
    ensures Shift(1, 0) == 5 && Shift(1, 1) == 9 && Shift(1, 2) == 14 && Shift(1, 3) == 20
    ensures Shift(2, 0) == 4 && Shift(2, 1) == 11 && Shift(2, 2) == 16 && Shift(2, 3) == 23
    ensures Shift(3, 0) == 6 && Shift(3, 1) == 10 && Shift(3, 2) == 15 && Shift(3, 3) == 21
  {
  }

  /** Four lines, after which every register has its own name back. */
  method FourLines(q: nat, j: nat, r: Registers, n: Numbers, s0: bv6, s1: bv6, s2: bv6, s3: bv6,
                   ghost input: Registers, data: seq<byte>)
    returns (r': Registers)
    requires |data| == 64 && q < 4 && j < 4 && AreRow(n, q, j)
    requires s0 == Shift(q, 0) && s1 == Shift(q, 1) && s2 == Shift(q, 2) && s3 == Shift(q, 3)
    requires r == Steps(input, data, 16 * q + 4 * j)
    ensures r' == Steps(input, data, 16 * q + 4 * j + 4)
  {
    hide Steps, WordIndex, Shift, Table, TableRow;
    ShiftsOfRow(q, j);
    EntriesOfRow(q, j);
    ghost var entries := [n.t0, n.t1, n.t2, n.t3];
    assert entries[0] == n.t0 && entries[1] == n.t1 && entries[2] == n.t2 && entries[3] == n.t3;
    var a, b, c, d := r.a, r.b, r.c, r.d;
    a := Line(q, a, b, c, d, n.k0, s0, n.t0, 4 * j, input, data);
    d := Line(q, d, a, b, c, n.k1, s1, n.t1, 4 * j + 1, input, data);
    c := Line(q, c, d, a, b, n.k2, s2, n.t2, 4 * j + 2, input, data);
    b := Line(q, b, c, d, a, n.k3, s3, n.t3, 4 * j + 3, input, data);
    r' := Registers(a, b, c, d);
  }

  method RoundOne(r: Registers, ghost input: Registers, data: seq<byte>) returns (r': Registers)
    requires |data| == 64 && r == Steps(input, data, 0)
    ensures r' == Steps(input, data, 16)
  {
    hide Steps, Table, Shift, Step, TableRow2, TableRow3, TableRow4;
    assert Shift(0, 0) == 7 && Shift(0, 1) == 12 && Shift(0, 2) == 17 && Shift(0, 3) == 22 by {
      Shifts();
    }
    r' := FourLines(0, 0, r,
                    Numbers(0, 0xd76aa478, 1, 0xe8c7b756, 2, 0x242070db, 3, 0xc1bdceee),
                    7, 12, 17, 22, input, data);
    r' := FourLines(0, 1, r',
                    Numbers(4, 0xf57c0faf, 5, 0x4787c62a, 6, 0xa8304613, 7, 0xfd469501),
                    7, 12, 17, 22, input, data);
    r' := FourLines(0, 2, r',
                    Numbers(8, 0x698098d8, 9, 0x8b44f7af, 10, 0xffff5bb1, 11, 0x895cd7be),
                    7, 12, 17, 22, input, data);
    r' := FourLines(0, 3, r',
                    Numbers(12, 0x6b901122, 13, 0xfd987193, 14, 0xa679438e, 15, 0x49b40821),
                    7, 12, 17, 22, input, data);
  }

  method RoundTwo(r: Registers, ghost input: Registers, data: seq<byte>) returns (r': Registers)
    requires |data| == 64 && r == Steps(input, data, 16)
    ensures r' == Steps(input, data, 32)
  {
    hide Steps, Table, Shift, Step, TableRow1, TableRow3, TableRow4;
    assert Shift(1, 0) == 5 && Shift(1, 1) == 9 && Shift(1, 2) == 14 && Shift(1, 3) == 20 by {
      Shifts();
    }
    r' := FourLines(1, 0, r,
                    Numbers(1, 0xf61e2562, 6, 0xc040b340, 11, 0x265e5a51, 0, 0xe9b6c7aa),
                    5, 9, 14, 20, input, data);
    r' := FourLines(1, 1, r',
                    Numbers(5, 0xd62f105d, 10, 0x02441453, 15, 0xd8a1e681, 4, 0xe7d3fbc8),
                    5, 9, 14, 20, input, data);
    r' := FourLines(1, 2, r',
                    Numbers(9, 0x21e1cde6, 14, 0xc33707d6, 3, 0xf4d50d87, 8, 0x455a14ed),
                    5, 9, 14, 20, input, data);
    r' := FourLines(1, 3, r',
                    Numbers(13, 0xa9e3e905, 2, 0xfcefa3f8, 7, 0x676f02d9, 12, 0x8d2a4c8a),
                    5, 9, 14, 20, input, data);
  }

  method RoundThree(r: Registers, ghost input: Registers, data: seq<byte>) returns (r': Registers)
    requires |data| == 64 && r == Steps(input, data, 32)
    ensures r' == Steps(input, data, 48)
  {
    hide Steps, Table, Shift, Step, TableRow1, TableRow2, TableRow4;
    assert Shift(2, 0) == 4 && Shift(2, 1) == 11 && Shift(2, 2) == 16 && Shift(2, 3) == 23 by {
      Shifts();
    }
    r' := FourLines(2, 0, r,
                    Numbers(5, 0xfffa3942, 8, 0x8771f681, 11, 0x6d9d6122, 14, 0xfde5380c),
                    4, 11, 16, 23, input, data);
    r' := FourLines(2, 1, r',
                    Numbers(1, 0xa4beea44, 4, 0x4bdecfa9, 7, 0xf6bb4b60, 10, 0xbebfbc70),
                    4, 11, 16, 23, input, data);
    r' := FourLines(2, 2, r',
                    Numbers(13, 0x289b7ec6, 0, 0xeaa127fa, 3, 0xd4ef3085, 6, 0x04881d05),
                    4, 11, 16, 23, input, data);
    r' := FourLines(2, 3, r',
                    Numbers(9, 0xd9d4d039, 12, 0xe6db99e5, 15, 0x1fa27cf8, 2, 0xc4ac5665),
                    4, 11, 16, 23, input, data);
  }

  method RoundFour(r: Registers, ghost input: Registers, data: seq<byte>) returns (r': Registers)
    requires |data| == 64 && r == Steps(input, data, 48)
    ensures r' == Steps(input, data, 64)
  {
    hide Steps, Table, Shift, Step, TableRow1, TableRow2, TableRow3;
    assert Shift(3, 0) == 6 && Shift(3, 1) == 10 && Shift(3, 2) == 15 && Shift(3, 3) == 21 by {
      Shifts();
    }
    r' := FourLines(3, 0, r,
                    Numbers(0, 0xf4292244, 7, 0x432aff97, 14, 0xab9423a7, 5, 0xfc93a039),
                    6, 10, 15, 21, input, data);
    r' := FourLines(3, 1, r',
                    Numbers(12, 0x655b59c3, 3, 0x8f0ccc92, 10, 0xffeff47d, 1, 0x85845dd1),
                    6, 10, 15, 21, input, data);
    r' := FourLines(3, 2, r',
                    Numbers(8, 0x6fa87e4f, 15, 0xfe2ce6e0, 6, 0xa3014314, 13, 0x4e0811a1),
                    6, 10, 15, 21, input, data);
    r' := FourLines(3, 3, r',
                    Numbers(4, 0xf7537e82, 11, 0xbd3af235, 2, 0x2ad7d2bb, 9, 0xeb86d391),
                    6, 10, 15, 21, input, data);
  }

  /** The unrolled lines, with their rewritten functions and their literal word order, are the 64 steps. */
  method MixRounds(input: Registers, data: seq<byte>) returns (r: Registers)
    requires |data| == 64
    ensures r == Steps(input, data, 64)
  {
    r := RoundOne(input, input, data);
    r := RoundTwo(r, input, data);
    r := RoundThree(r, input, data);
    r := RoundFour(r, input, data);
  }

  method ProcessBlock(hash: array<word>, data: seq<byte>)
    requires hash.Length == 4 && |data| == 64
    modifies hash
    ensures hash[..] == Compress(old(hash[..]), data)
  {
    hide Add, Steps;
    var r := MixRounds(Load(hash[..]), data);
    hash[0] := Add(hash[0], r.a);
    hash[1] := Add(hash[1], r.b);
    hash[2] := Add(hash[2], r.c);
    hash[3] := Add(hash[3], r.d);
  }

  // ----- the steps can be run backwards -----

  function Unstep(r: Registers, q: nat, i: nat, block: seq<byte>): Registers
    requires |block| == 64 && i < 16
  {
    var sum := RotateRight(Sub(r.b, r.c), Shift(q, i));
    var a := Sub(Sub(Sub(sum, Table(q, i)), LoadLittle(block, WordIndex(q, i))), Mix(q, r.c, r.d, r.a));
    Registers(a, r.c, r.d, r.a)
  }

  lemma UnstepInverts(r: Registers, q: nat, i: nat, block: seq<byte>)
    requires |block| == 64 && i < 16
    ensures Unstep(Step(r, q, i, block), q, i, block) == r
    ensures Step(Unstep(r, q, i, block), q, i, block) == r
  {
    hide Add, Sub, RotateLeft, RotateRight, Mix, LoadLittle, WordIndex, Shift, Table;
    var x, k, s := LoadLittle(block, WordIndex(q, i)), Table(q, i), Shift(q, i);

    var f := Mix(q, r.b, r.c, r.d);
    var sum := Add(Add(Add(r.a, f), x), k);
    AddCommutes(r.b, RotateLeft(sum, s));
    SubUndoesAdd(RotateLeft(sum, s), r.b);
    RightUndoesLeft(sum, s);
    SubUndoesAdd(Add(Add(r.a, f), x), k);
    SubUndoesAdd(Add(r.a, f), x);
    SubUndoesAdd(r.a, f);

    var g := Mix(q, r.c, r.d, r.a);
    var back := RotateRight(Sub(r.b, r.c), s);
    SubUndoesAdd(Sub(Sub(back, k), x), g);
    SubUndoesAdd(Sub(back, k), x);
    SubUndoesAdd(back, k);
    LeftUndoesRight(Sub(r.b, r.c), s);
    SubUndoesAdd(r.b, r.c);
    AddCommutes(Sub(r.b, r.c), r.c);
  }

  function Unsteps(r: Registers, block: seq<byte>, n: nat): Registers
    requires |block| == 64
    decreases n
  {
    if n == 0 then r else Unsteps(Unstep(r, (n - 1) / 16, (n - 1) % 16, block), block, n - 1)
  }

  /** For a fixed block the steps are a bijection on the registers, and Unsteps is its inverse. */
  lemma {:induction false} StepsAreBijective(r: Registers, block: seq<byte>, n: nat)
    requires |block| == 64
    ensures Unsteps(Steps(r, block, n), block, n) == r
    ensures Steps(Unsteps(r, block, n), block, n) == r
    decreases n
  {
    hide Step, Unstep;
    if n == 0 {
    } else {
      var q, i := (n - 1) / 16, (n - 1) % 16;
      UnstepInverts(Steps(r, block, n - 1), q, i, block);
      StepsAreBijective(r, block, n - 1);
      UnstepInverts(r, q, i, block);
      StepsAreBijective(Unstep(r, q, i, block), block, n - 1);
    }
  }
}
