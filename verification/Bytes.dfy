/** Bytes and the numbers they stand for. */
module Bytes {
  type byte = bv8

  function ToByte(n: int): byte
    requires 0 <= n < 256
  {
    n as byte
  }

  function FromByte(b: byte): (n: int)
    ensures 0 <= n < 256
  {
    b as int
  }

  /** w when the bit of weight w is set in b. */
  function Weight(b: byte, mask: byte, w: int): int {
    if b & mask != 0 then w else 0
  }

  lemma WeightsOfByte(b: byte)
    ensures FromByte(b) == Weight(b, 1, 1) + Weight(b, 2, 2) + Weight(b, 4, 4) + Weight(b, 8, 8)
                         + Weight(b, 16, 16) + Weight(b, 32, 32) + Weight(b, 64, 64) + Weight(b, 128, 128)
  {
  }

  lemma WeightsOfNumber(n: int)
    requires 0 <= n < 256
    ensures Weight(ToByte(n), 1, 1) == n % 2
    ensures Weight(ToByte(n), 2, 2) == 2 * (n / 2 % 2)
    ensures Weight(ToByte(n), 4, 4) == 4 * (n / 4 % 2)
    ensures Weight(ToByte(n), 8, 8) == 8 * (n / 8 % 2)
    ensures Weight(ToByte(n), 16, 16) == 16 * (n / 16 % 2)
    ensures Weight(ToByte(n), 32, 32) == 32 * (n / 32 % 2)
    ensures Weight(ToByte(n), 64, 64) == 64 * (n / 64 % 2)
    ensures Weight(ToByte(n), 128, 128) == 128 * (n / 128 % 2)
  {
  }

  lemma LowDigits(n: nat)
    requires n < 256
    ensures n == n % 2 + 2 * (n / 2 % 2) + 4 * (n / 4 % 2) + 8 * (n / 8 % 2) + 16 * (n / 16)
  {
    assert n / 8 == 2 * (n / 16) + n / 8 % 2;
    assert n / 4 == 2 * (n / 8) + n / 4 % 2;
    assert n / 2 == 2 * (n / 4) + n / 2 % 2;
    assert n == 2 * (n / 2) + n % 2;
  }

  lemma HighDigits(n: nat)
    requires n < 256
    ensures n / 16 == n / 16 % 2 + 2 * (n / 32 % 2) + 4 * (n / 64 % 2) + 8 * (n / 128 % 2)
  {
    assert n / 64 == 2 * (n / 128) + n / 64 % 2;
    assert n / 32 == 2 * (n / 64) + n / 32 % 2;
    assert n / 16 == 2 * (n / 32) + n / 16 % 2;
  }

  lemma BinaryDigits(n: int)
    requires 0 <= n < 256
    ensures n == n % 2 + 2 * (n / 2 % 2) + 4 * (n / 4 % 2) + 8 * (n / 8 % 2) + 16 * (n / 16 % 2)
               + 32 * (n / 32 % 2) + 64 * (n / 64 % 2) + 128 * (n / 128 % 2)
  {
    LowDigits(n);
    HighDigits(n);
  }

  /** A byte keeps the number it was made from. */
  lemma ByteRoundTrip(n: int)
    requires 0 <= n < 256
    ensures FromByte(ToByte(n)) == n
  {
    hide ToByte, FromByte, Weight;
    WeightsOfByte(ToByte(n));
    WeightsOfNumber(n);
    BinaryDigits(n);
  }

  // ----- sequences of bytes -----

  function Zeros(n: nat): (bytes: seq<byte>)
    ensures |bytes| == n
    ensures forall i :: 0 <= i < n ==> bytes[i] == 0
  {
    seq(n, _ => 0)
  }

  lemma Reassemble(msg: seq<byte>, data: seq<byte>, i: nat, j: nat)
    requires i <= j <= |data|
    ensures msg + data[..i] + data[i..j] + data[j..] == msg + data
  {
  }

  lemma AddPiece(msg: seq<byte>, data: seq<byte>, start: nat, i: nat, n: nat)
    requires start <= i && 0 < n && i + n <= |data|
    ensures msg + data[start..i] + data[i..i + n] == msg + data[start..i + n]
    ensures data[i..i + 1] == [data[i]]
  {
  }
}
