/** Base 128 varints of the Protocol Buffers encoding, and the ways in which the parser reads them. */
module Varints {
  type octet = n: nat | n < 256

  /** What reading from the front of some bytes gives: a value and the number of bytes it took. */
  datatype Read<+T> = Failure | Got(value: T, length: nat)

  /** Seven bits to a byte, the lowest first; all bytes but the last one have the top bit set. */
  function Varint(n: nat): (bytes: seq<octet>)
    ensures |bytes| > 0
  {
    if n < 128 then [n] else [128 + n % 128] + Varint(n / 128)
  }

  /** Read a varint of at most max bytes, as an unbounded number. */
  function ReadGroups(data: seq<octet>, max: nat): (r: Read<nat>)
    ensures r.Got? ==> 0 < r.length <= |data| && r.length <= max
  {
    if max == 0 || data == [] then Failure
    else if data[0] < 128 then Got(data[0], 1)
    else
      match ReadGroups(data[1..], max - 1)
      case Failure => Failure
      case Got(v, k) => Got(data[0] - 128 + 128 * v, k + 1)
  }

  /** A varint of up to ten bytes, of which 64 bits are kept. */
  function ReadVarint64(data: seq<octet>): (r: Read<nat>)
    ensures r.Got? ==> 0 < r.length <= |data| && r.value < 0x1_0000_0000_0000_0000
  {
    match ReadGroups(data, 10)
    case Failure => Failure
    case Got(v, k) => Got(v % 0x1_0000_0000_0000_0000, k)
  }

  /** A tag of up to five bytes, of which 32 bits are kept. */
  function ReadTag(data: seq<octet>): (r: Read<nat>)
    ensures r.Got? ==> 0 < r.length <= |data| && r.length <= 5 && r.value < 0x1_0000_0000
  {
    match ReadGroups(data, 5)
    case Failure => Failure
    case Got(v, k) => Got(v % 0x1_0000_0000, k)
  }

  /** The largest size of a string or of a message inside a message: 16 less than the largest 32-bit integer. */
  const MAX_SIZE := 2147483631

  function ReadSize(data: seq<octet>): (r: Read<nat>)
    ensures r.Got? ==> 0 < r.length <= |data| && r.length <= 5 && r.value <= MAX_SIZE
  {
    match ReadGroups(data, 5)
    case Failure => Failure
    case Got(v, k) => if v <= MAX_SIZE then Got(v, k) else Failure
  }

  // ----- round trip -----

  /** Reading gives back what was written, whatever follows it, if and only if it may be that long. */
  lemma {:induction false} ReadUndoesWrite(n: nat, rest: seq<octet>, max: nat)
    ensures ReadGroups(Varint(n) + rest, max)
         == if |Varint(n)| <= max then Got(n, |Varint(n)|) else Failure
  {
    var data := Varint(n) + rest;
    if n >= 128 && max > 0 {
      assert data[1..] == Varint(n / 128) + rest;
      ReadUndoesWrite(n / 128, rest, max - 1);
    }
  }

  /** What is read from some bytes is read again when more bytes follow. */
  lemma {:induction false} ReadIgnoresRest(data: seq<octet>, rest: seq<octet>, max: nat)
    requires ReadGroups(data, max).Got?
    ensures ReadGroups(data + rest, max) == ReadGroups(data, max)
  {
    if data[0] < 128 {
    } else {
      assert (data + rest)[1..] == data[1..] + rest;
      ReadIgnoresRest(data[1..], rest, max - 1);
    }
  }

  /** What is read from more bytes is read from the front of them, if it does not reach further. */
  lemma {:induction false} ReadWithin(data: seq<octet>, rest: seq<octet>, max: nat)
    ensures var r := ReadGroups(data + rest, max);
            ReadGroups(data, max) == if r.Got? && r.length <= |data| then r else Failure
  {
    if data == [] || max == 0 {
    } else if data[0] >= 128 {
      assert (data + rest)[1..] == data[1..] + rest;
      ReadWithin(data[1..], rest, max - 1);
    }
  }

  lemma OneMoreGroup(low: nat, v: nat)
    requires low < 128
    ensures |Varint(low)| == 1 && |Varint(low + 128 * v)| <= 1 + |Varint(v)|
  {
    assert (low + 128 * v) / 128 == v;
  }

  /** No varint is shorter than the one that is written for the same number. */
  lemma {:induction false} WrittenIsShortest(data: seq<octet>, max: nat)
    requires ReadGroups(data, max).Got?
    ensures |Varint(ReadGroups(data, max).value)| <= ReadGroups(data, max).length
  {
    hide Varint;
    if data[0] < 128 {
      OneMoreGroup(data[0], 0);
    } else {
      WrittenIsShortest(data[1..], max - 1);
      OneMoreGroup(data[0] - 128, ReadGroups(data[1..], max - 1).value);
    }
  }

  // ----- sizes -----

  function Power128(k: nat): (p: nat)
    ensures p > 0
  {
    if k == 0 then 1 else 128 * Power128(k - 1)
  }

  lemma {:induction false} VarintIsBounded(n: nat, k: nat)
    requires k > 0 && n < Power128(k)
    ensures |Varint(n)| <= k
  {
    if n < 128 {
    } else {
      assert k > 1 by {
        assert Power128(1) == 128 * Power128(0);
      }
      VarintIsBounded(n / 128, k - 1);
    }
  }

  /** Smaller numbers have shorter varints. */
  lemma {:induction false} VarintIsMonotone(m: nat, n: nat)
    requires m <= n
    ensures |Varint(m)| <= |Varint(n)|
  {
    if m < 128 {
    } else {
      VarintIsMonotone(m / 128, n / 128);
    }
  }

  function Log2Floor(n: nat): nat {
    if n < 2 then 0 else 1 + Log2Floor(n / 2)
  }

  /** The number of bytes of a varint, computed with one multiplication and one shift. */
  function VarintSize(n: nat): nat {
    (Log2Floor(n) * 9 + 73) / 64
  }

  /** The same plus one, which is folded into the sum. */
  function VarintSizePlusOne(n: nat): (size: nat)
    ensures size == VarintSize(n) + 1
  {
    (Log2Floor(n) * 9 + 73 + 64) / 64
  }

  lemma SevenHalvings(n: nat)
    requires n >= 128
    ensures Log2Floor(n) == 7 + Log2Floor(n / 128)
  {
    assert n / 2 / 2 / 2 / 2 / 2 / 2 / 2 == n / 128;
    assert Log2Floor(n) == 2 + Log2Floor(n / 2 / 2);
    assert Log2Floor(n / 2 / 2) == 2 + Log2Floor(n / 2 / 2 / 2 / 2);
    assert Log2Floor(n / 2 / 2 / 2 / 2) == 2 + Log2Floor(n / 2 / 2 / 2 / 2 / 2 / 2);
  }

  lemma {:induction false} LengthFromLog(n: nat)
    ensures |Varint(n)| == Log2Floor(n) / 7 + 1
  {
    if n >= 128 {
      SevenHalvings(n);
      LengthFromLog(n / 128);
    } else {
      assert n / 2 / 2 / 2 / 2 / 2 / 2 / 2 == 0;
      assert Log2Floor(n) <= 2 + Log2Floor(n / 2 / 2);
      assert Log2Floor(n / 2 / 2) <= 2 + Log2Floor(n / 2 / 2 / 2 / 2);
      assert Log2Floor(n / 2 / 2 / 2 / 2) <= 2 + Log2Floor(n / 2 / 2 / 2 / 2 / 2 / 2);
    }
  }

  lemma {:induction false} PowersOf128()
    ensures Power128(10) == 0x40_0000_0000_0000_0000 && Power128(5) == 0x8_0000_0000
  {
    assert Power128(2) == 128 * Power128(1) == 0x4000;
    assert Power128(4) == 128 * (128 * Power128(2)) == 0x1000_0000;
    assert Power128(5) == 0x8_0000_0000;
    assert Power128(7) == 128 * (128 * Power128(5)) == 0x2_0000_0000_0000;
    assert Power128(9) == 128 * (128 * Power128(7)) == 0x8000_0000_0000_0000;
  }

  /** The size formula is right for every 64-bit number. */
  lemma VarintSizeIsLength(n: nat)
    requires n < 0x1_0000_0000_0000_0000
    ensures VarintSize(n) == |Varint(n)| <= 10
  {
    hide Varint, Log2Floor, Power128;
    PowersOf128();
    VarintIsBounded(n, 10);
    LengthFromLog(n);
  }

  // ----- the loops that read varints -----

  lemma WrappedSum(v: nat, x: int)
    requires v + x >= 0
    ensures (v % 0x1_0000_0000_0000_0000 + x) % 0x1_0000_0000_0000_0000 == (v + x) % 0x1_0000_0000_0000_0000
  {
    var m := 0x1_0000_0000_0000_0000;
    assert v + x == v % 0x1_0000_0000_0000_0000 + x + m * (v / 0x1_0000_0000_0000_0000);
  }

  lemma WrappedSum32(v: nat, x: int)
    requires v + x >= 0
    ensures (v % 0x1_0000_0000 + x) % 0x1_0000_0000 == (v + x) % 0x1_0000_0000
  {
    var m := 0x1_0000_0000;
    assert v + x == v % 0x1_0000_0000 + x + m * (v / 0x1_0000_0000);
  }

  lemma NextGroup(low: nat, w: nat, b: nat, v: nat)
    ensures low + (b - 128) * w + 128 * w * v == low + w * (b - 128 + 128 * v)
    ensures low + w + (b - 1) * w == low + w * b >= 0
    ensures b >= 128 ==> (b - 128) * w >= 0
  {
    assert (b - 128) * w == w * (b - 128);
    assert 128 * w * v == w * (128 * v);
    assert w * (b - 128) + w * (128 * v) == w * (b - 128 + 128 * v);
    assert w + (b - 1) * w == w * b;
  }

  /** The groups read so far, and what those from index i on still add with weight w. */
  ghost predicate ReadSoFar(data: seq<octet>, max: nat, i: nat, low: nat, w: nat) {
    && i <= max && i <= |data|
    && ReadGroups(data, max)
       == match ReadGroups(data[i..], max - i)
          case Failure => Failure
          case Got(v, k) => Got(low + w * v, k + i)
  }

  lemma FirstByte(data: seq<octet>, max: nat)
    requires max > 0 && data != [] && data[0] >= 128
    ensures ReadSoFar(data, max, 1, data[0] - 128, 128)
  {
  }

  lemma ReadFrom(data: seq<octet>, i: nat, max: nat)
    requires i < |data| && max > 0
    ensures data[i] < 128 ==> ReadGroups(data[i..], max) == Got(data[i], 1)
    ensures data[i] >= 128 ==>
              ReadGroups(data[i..], max)
              == match ReadGroups(data[i + 1..], max - 1)
                 case Failure => Failure
                 case Got(v, k) => Got(data[i] - 128 + 128 * v, k + 1)
  {
    assert data[i..][0] == data[i] && data[i..][1..] == data[i + 1..];
  }

  lemma LastByte(data: seq<octet>, max: nat, i: nat, low: nat, w: nat)
    requires ReadSoFar(data, max, i, low, w) && i < max && i < |data| && data[i] < 128
    ensures ReadGroups(data, max) == Got(low + w * data[i], i + 1)
  {
    hide ReadGroups;
    ReadFrom(data, i, max - i);
  }

  lemma MiddleByte(data: seq<octet>, max: nat, i: nat, low: nat, w: nat, high: nat)
    requires ReadSoFar(data, max, i, low, w) && i < max && i < |data| && data[i] >= 128
    requires high == (data[i] - 128) * w
    ensures ReadSoFar(data, max, i + 1, low + high, 128 * w)
  {
    hide ReadGroups;
    ReadFrom(data, i, max - i);
    var rest := ReadGroups(data[i + 1..], max - i - 1);
    if rest.Got? {
      NextGroup(low, w, data[i], rest.value);
    }
  }

  lemma ReadBounds(data: seq<octet>, max: nat, i: nat, low: nat, w: nat)
    requires ReadSoFar(data, max, i, low, w)
    ensures i <= max && i <= |data|
  {
    hide ReadGroups;
  }

  lemma NoByte(data: seq<octet>, max: nat, i: nat, low: nat, w: nat)
    requires ReadSoFar(data, max, i, low, w) && (i == max || i == |data|)
    ensures ReadGroups(data, max) == Failure
  {
  }

  /** One more byte is the last one, or stands for seven more bits. */
  lemma NextByte(data: seq<octet>, max: nat, i: nat, low: nat, w: nat)
    requires ReadSoFar(data, max, i, low, w)
    ensures i == max || i == |data| ==> ReadGroups(data, max) == Failure
    ensures i < max && i < |data| && data[i] < 128 ==> ReadGroups(data, max) == Got(low + w * data[i], i + 1)
    ensures i < max && i < |data| && data[i] >= 128 ==>
              (data[i] - 128) * w >= 0 && ReadSoFar(data, max, i + 1, low + (data[i] - 128) * w, 128 * w)
  {
    ReadBounds(data, max, i, low, w);
    hide ReadGroups, ReadSoFar;
    if i == max || i == |data| {
      NoByte(data, max, i, low, w);
    } else if data[i] < 128 {
      LastByte(data, max, i, low, w);
    } else {
      NextGroup(low, w, data[i], 0);
      MiddleByte(data, max, i, low, w, (data[i] - 128) * w);
    }
  }

  /** Each byte is added with one taken off, which cancels the continuation bit of the byte before it; all sums are
      taken modulo 2^64. */
  method ParseVarint(data: seq<octet>, max: nat) returns (r: Read<nat>)
    ensures match ReadGroups(data, max)
            case Failure => r == Failure
            case Got(v, k) => r == Got(v % 0x1_0000_0000_0000_0000, k)
  {
    hide ReadSoFar;
    if max == 0 || data == [] {
      return Failure;
    }
    var res := data[0];
    if res < 128 {
      return Got(res, 1);
    }
    FirstByte(data, max);
    hide ReadGroups;
    ghost var low: nat := res - 128;
    ghost var sum := res;
    var i: nat, w: nat := 1, 128;
    while i < max && i < |data|
      invariant i <= max && i <= |data| && ReadSoFar(data, max, i, low, w)
      invariant sum == low + w && res == sum % 0x1_0000_0000_0000_0000
    {
      var b := data[i];
      NextByte(data, max, i, low, w);
      NextGroup(low, w, b, 0);
      WrappedSum(sum, (b - 1) * w);
      res := (res + (b - 1) * w) % 0x1_0000_0000_0000_0000;
      sum := sum + (b - 1) * w;
      if b < 128 {
        return Got(res, i + 1);
      }
      low := low + (b - 128) * w;
      w := 128 * w;
      i := i + 1;
    }
    NextByte(data, max, i, low, w);
    return Failure;
  }

  /** Tags are read in the same way, modulo 2^32 and up to five bytes. */
  method ParseTag(data: seq<octet>) returns (r: Read<nat>)
    ensures r == ReadTag(data)
  {
    hide ReadSoFar;
    if data == [] {
      return Failure;
    }
    var res := data[0];
    if res < 128 {
      return Got(res, 1);
    }
    FirstByte(data, 5);
    hide ReadGroups;
    ghost var low: nat := res - 128;
    ghost var sum := res;
    var i: nat, w: nat := 1, 128;
    while i < 5 && i < |data|
      invariant i <= 5 && i <= |data| && ReadSoFar(data, 5, i, low, w)
      invariant sum == low + w && res == sum % 0x1_0000_0000
    {
      var b := data[i];
      NextByte(data, 5, i, low, w);
      NextGroup(low, w, b, 0);
      WrappedSum32(sum, (b - 1) * w);
      res := (res + (b - 1) * w) % 0x1_0000_0000;
      sum := sum + (b - 1) * w;
      if b < 128 {
        return Got(res, i + 1);
      }
      low := low + (b - 128) * w;
      w := 128 * w;
      i := i + 1;
    }
    NextByte(data, 5, i, low, w);
    return Failure;
  }

  /** Sizes are read in four steps and a fifth that refuses a byte above seven and then numbers close to 2^31. */
  method ParseSize(data: seq<octet>) returns (r: Read<nat>)
    ensures r == ReadSize(data)
  {
    hide ReadSoFar;
    if data == [] {
      return Failure;
    }
    var res := data[0];
    if res < 128 {
      return Got(res, 1);
    }
    FirstByte(data, 5);
    hide ReadGroups;
    ghost var low: nat := res - 128;
    var i: nat, w: nat := 1, 128;
    while i < 4
      invariant i <= 4 && i <= |data| && ReadSoFar(data, 5, i, low, w)
      invariant w == (if i == 1 then 0x80 else if i == 2 then 0x4000 else if i == 3 then 0x20_0000 else 0x1000_0000)
      invariant i > 0 && low < w && res == low + w
    {
      NextByte(data, 5, i, low, w);
      if i == |data| {
        return Failure;
      }
      var b := data[i];
      res := res + (b - 1) * w;
      if b < 128 {
        return Got(res, i + 1);
      }
      low := low + (b - 128) * w;
      w := 128 * w;
      i := i + 1;
    }
    NextByte(data, 5, 4, low, w);
    if |data| == 4 {
      return Failure;
    }
    LastSizeByte(data, low);
    var b: int := data[4];
    if b >= 8 {
      return Failure;
    }
    res := (res + (b - 1) * 0x1000_0000) % 0x1_0000_0000;
    if res > MAX_SIZE {
      return Failure;
    }
    return Got(res, 5);
  }

  /** With a byte above seven in the fifth place a size is too large; otherwise the wrapped sum is the size. */
  lemma LastSizeByte(data: seq<octet>, low: nat)
    requires ReadSoFar(data, 5, 4, low, 0x1000_0000) && low < 0x1000_0000 && |data| > 4
    ensures data[4] >= 8 ==> ReadSize(data) == Failure
    ensures data[4] < 8 ==>
              var sum := low + data[4] as int * 0x1000_0000;
              ReadSize(data) == if sum <= MAX_SIZE then Got(sum, 5) else Failure
  {
    hide ReadSoFar, ReadGroups;
    NextByte(data, 5, 4, low, 0x1000_0000);
    var b: int := data[4];
    if b >= 128 {
      NextByte(data, 5, 5, low + (b - 128) * 0x1000_0000, 128 * 0x1000_0000);
    }
  }
}
