/** Lower-case hexadecimal text, the form in which the hash classes return a digest. */
module HexText {
  import opened Bytes

  function HexDigit(n: byte): char
    requires n < 16
  {
    "0123456789abcdef"[n as int]
  }

  function Hex(bytes: seq<byte>): (text: string)
    ensures |text| == 2 * |bytes|
  {
    if bytes == [] then ""
    else HexByte(bytes[0]) + Hex(bytes[1..])
  }

  function HexByte(b: byte): (text: string)
    ensures |text| == 2
  {
    [HexDigit((b >> 4) & 15), HexDigit(b & 15)]
  }

  lemma HexAppends(a: seq<byte>, b: seq<byte>)
    ensures Hex(a + b) == Hex(a) + Hex(b)
  {
    hide HexByte;
    if a == [] {
      assert a + b == b;
    } else {
      assert (a + b)[1..] == a[1..] + b;
      HexAppends(a[1..], b);
    }
  }

  lemma HexGrows(a: seq<byte>, b: byte)
    ensures Hex(a + [b]) == Hex(a) + HexByte(b)
  {
    HexAppends(a, [b]);
    assert [b][1..] == [];
  }

  method ToHex(bytes: seq<byte>) returns (text: string)
    ensures text == Hex(bytes)
  {
    hide HexByte;
    text := "";
    for i := 0 to |bytes|
      invariant text == Hex(bytes[..i])
    {
      HexGrows(bytes[..i], bytes[i]);
      assert bytes[..i] + [bytes[i]] == bytes[..i + 1];
      text := text + HexByte(bytes[i]);
    }
    assert bytes[..|bytes|] == bytes;
  }

  /** Lower-case hexadecimal text determines the bytes it stands for. */
  lemma {:induction false} HexIsInjective(a: seq<byte>, b: seq<byte>)
    requires Hex(a) == Hex(b)
    ensures a == b
  {
    if a == [] {
    } else {
      assert |b| == |a|;
      var s, t := Hex(a), Hex(b);
      NibblesDetermineByte(a[0], b[0], s[0], s[1]);
      assert s[2..] == Hex(a[1..]) && t[2..] == Hex(b[1..]);
      HexIsInjective(a[1..], b[1..]);
    }
  }

  lemma HexDigitIsInjective(m: byte, n: byte)
    requires m < 16 && n < 16
    requires HexDigit(m) == HexDigit(n)
    ensures m == n
  {
    var digits := "0123456789abcdef";
    assert forall i, j :: 0 <= i < j < 16 ==> digits[i] != digits[j];
    assert m as int == n as int;
  }

  lemma NibblesDetermineByte(x: byte, y: byte, high: char, low: char)
    requires HexDigit((x >> 4) & 15) == high == HexDigit((y >> 4) & 15)
    requires HexDigit(x & 15) == low == HexDigit(y & 15)
    ensures x == y
  {
    HexDigitIsInjective((x >> 4) & 15, (y >> 4) & 15);
    HexDigitIsInjective(x & 15, y & 15);
  }
}
