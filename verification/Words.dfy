/** 32-bit words, and how they are read from and written to bytes. */
module Words {
  import opened Bytes

  type word = bv32

  // ----- addition modulo 2^32 -----
  //
  // Additions are named so that a proof about a whole round can hide them and
  // reason with the laws below instead of with 32-bit adders.

  function Add(x: word, y: word): word {
    x + y
  }

  function Sub(x: word, y: word): word {
    x - y
  }

  lemma AddSubUnfold(x: word, y: word)
    ensures Add(x, y) == x + y
    ensures Sub(x, y) == x - y
  {
  }

  lemma AddInnerSum(x: word, y: word, z: word)
    ensures Add(x, y + z) == Add(x + y, z)
  {
  }

  lemma SubSum(x: word, y: word)
    ensures Sub(x + y, y) == x
    ensures Add(x - y, y) == x
  {
  }

  lemma AddCommutes(x: word, y: word)
    ensures Add(x, y) == Add(y, x)
  {
  }

  lemma AddAssociates(x: word, y: word, z: word)
    ensures Add(x, Add(y, z)) == Add(Add(x, y), z)
  {
    hide Add;
    AddSubUnfold(x, y);
    AddSubUnfold(y, z);
    AddInnerSum(x, y, z);
  }

  lemma SubUndoesAdd(x: word, y: word)
    ensures Sub(Add(x, y), y) == x
    ensures Add(Sub(x, y), y) == x
  {
    hide Add, Sub;
    AddSubUnfold(x, y);
    SubSum(x, y);
  }

  // ----- rotations -----

  function RotateLeft(a: word, c: bv6): word
    requires 0 < c < 32
  {
    (a << c) | (a >> (32 - c))
  }

  function RotateRight(a: word, c: bv6): word
    requires 0 < c < 32
  {
    (a >> c) | (a << (32 - c))
  }

  // The parts of a rotated word that move back are named, so that the proof below takes one shift at a time.

  function Or(x: word, y: word): word {
    x | y
  }

  function DownPart(x: word, c: bv6): word
    requires 0 < c < 32
  {
    x >> c
  }

  function UpPart(x: word, c: bv6): word
    requires 0 < c < 32
  {
    x << (32 - c)
  }

  function DownAgain(a: word, c: bv6): word
    requires 0 < c < 32
  {
    (a << c) >> c
  }

  function UpAgain(a: word, c: bv6): word
    requires 0 < c < 32
  {
    (a >> (32 - c)) << (32 - c)
  }

  lemma LeftUnfold(a: word, c: bv6)
    requires 0 < c < 32
    ensures RotateLeft(a, c) == (a << c) | (a >> (32 - c))
  {
  }

  lemma RightUnfold(x: word, c: bv6)
    requires 0 < c < 32
    ensures RotateRight(x, c) == Or(DownPart(x, c), UpPart(x, c))
  {
  }

  lemma DownPartOfLeft(a: word, c: bv6)
    requires 0 < c < 32
    ensures DownPart((a << c) | (a >> (32 - c)), c) == DownAgain(a, c)
  {
  }

  lemma UpPartOfLeft(a: word, c: bv6)
    requires 0 < c < 32
    ensures UpPart((a << c) | (a >> (32 - c)), c) == UpAgain(a, c)
  {
  }

  lemma PartsTogether(a: word, c: bv6)
    requires 0 < c < 32
    ensures DownAgain(a, c) | UpAgain(a, c) == a
  {
  }

  lemma OrUnfold(x: word, y: word)
    ensures Or(x, y) == x | y
  {
  }

  /** Rotating back by the same amount gives the word again. */
  lemma RightUndoesLeft(a: word, c: bv6)
    requires 0 < c < 32
    ensures RotateRight(RotateLeft(a, c), c) == a
  {
    hide *;
    LeftUnfold(a, c);
    RightUnfold(RotateLeft(a, c), c);
    DownPartOfLeft(a, c);
    UpPartOfLeft(a, c);
    OrUnfold(DownAgain(a, c), UpAgain(a, c));
    PartsTogether(a, c);
  }

  lemma RightIsLeft(a: word, c: bv6)
    requires 0 < c < 32
    ensures RotateRight(a, c) == RotateLeft(a, 32 - c)
    ensures RotateLeft(a, c) == RotateRight(a, 32 - c)
  {
  }

  lemma LeftUndoesRight(a: word, c: bv6)
    requires 0 < c < 32
    ensures RotateLeft(RotateRight(a, c), c) == a
  {
    hide *;
    RightIsLeft(a, c);
    RightIsLeft(RotateRight(a, c), c);
    RightUndoesLeft(a, 32 - c);
  }

  // ----- the functions that SHA-1 and SHA-256 share (section 4.1 of FIPS 180-4) -----

  function Ch(x: word, y: word, z: word): word {
    (x & y) ^ (!x & z)
  }

  function Maj(x: word, y: word, z: word): word {
    (x & y) ^ (x & z) ^ (y & z)
  }

  // ----- words in memory -----

  /** Reverse the four bytes of a word. */
  function ByteSwap(x: word): word {
    (x >> 24) | ((x >> 8) & 0x0000FF00) | ((x << 8) & 0x00FF0000) | (x << 24)
  }

  /** What a little-endian machine reads from four bytes in memory. */
  function LittleEndian(b0: byte, b1: byte, b2: byte, b3: byte): word {
    (b0 as word) | ((b1 as word) << 8) | ((b2 as word) << 16) | ((b3 as word) << 24)
  }

  /** The most significant byte first. */
  function BigEndian(b0: byte, b1: byte, b2: byte, b3: byte): word {
    ((b0 as word) << 24) | ((b1 as word) << 16) | ((b2 as word) << 8) | (b3 as word)
  }

  function LoadLittle(data: seq<byte>, i: nat): word
    requires 4 * i + 4 <= |data|
  {
    LittleEndian(data[4 * i], data[4 * i + 1], data[4 * i + 2], data[4 * i + 3])
  }

  function LoadBig(data: seq<byte>, i: nat): word
    requires 4 * i + 4 <= |data|
  {
    BigEndian(data[4 * i], data[4 * i + 1], data[4 * i + 2], data[4 * i + 3])
  }

  lemma SwapLittleIsBig(data: seq<byte>, i: nat)
    requires 4 * i + 4 <= |data|
    ensures ByteSwap(LoadLittle(data, i)) == LoadBig(data, i)
  {
    var b0, b1, b2, b3 := data[4 * i], data[4 * i + 1], data[4 * i + 2], data[4 * i + 3];
    SwapOfLittleEndian(b0, b1, b2, b3);
  }

  lemma SwapOfLittleEndian(b0: byte, b1: byte, b2: byte, b3: byte)
    ensures ByteSwap(LittleEndian(b0, b1, b2, b3)) == BigEndian(b0, b1, b2, b3)
  {
  }

  function StoreLittle(x: word): (bytes: seq<byte>)
    ensures |bytes| == 4
  {
    [(x & 0xFF) as byte, ((x >> 8) & 0xFF) as byte, ((x >> 16) & 0xFF) as byte, ((x >> 24) & 0xFF) as byte]
  }

  function StoreBig(x: word): (bytes: seq<byte>)
    ensures |bytes| == 4
  {
    [((x >> 24) & 0xFF) as byte, ((x >> 16) & 0xFF) as byte, ((x >> 8) & 0xFF) as byte, (x & 0xFF) as byte]
  }

  /** Storing a word and loading it again gives the word, in either byte order. */
  lemma LoadUndoesStore(x: word)
    ensures LoadLittle(StoreLittle(x), 0) == x
    ensures LoadBig(StoreBig(x), 0) == x
  {
  }
}
