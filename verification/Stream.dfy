/** What the parser reads from memory. It may read past the end of a message, and past the end of all data, where the
    memory holds zeros; only afterwards does it notice that it went too far. So a record that is cut off is taken from
    the bytes that happen to follow, and stays in the object although the parse fails. */
module Streams {
  import opened Varints
  import opened Wire

  /** A value, how far the parser got, and whether it goes on from there. */
  datatype Step<+T> = Step(value: T, end: nat, ok: bool)

  /** What an object holds after a parse, and whether the parse succeeded. */
  datatype Outcome<+T> = Outcome(value: T, ok: bool)

  /** The memory from position p on: the data, and sixteen bytes of the patch buffer behind it, which was filled with
      zeros before the end of the data was copied to its front. */
  function From(data: seq<octet>, p: nat): (bytes: seq<octet>)
    requires p <= |data| + 16
    ensures |bytes| == |data| + 16 - p
  {
    (data + seq(16, _ => 0))[p..]
  }

  // ----- strings -----

  datatype Text = NoSize | Cut(bytes: seq<octet>) | Whole(bytes: seq<octet>, end: nat)

  /** A string of a record that starts at start, with its size prefix at p. As soon as a record starts within the last
      sixteen bytes, the parser works in the patch buffer and takes a string from all that is left there. Before that
      it takes a string from the data, and goes over to the patch buffer only if the limit of the message lies behind
      the end of the data. */
  function TakeText(data: seq<octet>, limit: nat, start: nat, p: nat): (t: Text)
    requires start < |data| && start <= p <= start + 5
    ensures t.Whole? ==> p < t.end <= |data| + 16
    ensures !t.NoSize? ==> |t.bytes| <= MAX_SIZE
  {
    match ReadSize(From(data, p))
    case Failure => NoSize
    case Got(size, k) =>
      var begin, patched := p + k, start + 16 >= |data|;
      var reach := if patched || limit > |data| then |data| + 16 else |data|;
      if begin + size <= reach then Whole(From(data, begin)[..size], begin + size)
      else Cut(if patched then [] else data[begin..])
  }

  // ----- unknown records -----

  /** A record was taken up to its end, or the parser gave up and had stored a part of it, or nothing. */
  datatype Taken = Took(record: Record, end: nat) | Stopped(stored: seq<Record>)

  /** The records of a group, up to the tag that closes it, if that was found. */
  datatype Group = Group(records: seq<Record>, end: nat, closed: bool)

  /** What follows the tag of an unknown record that starts at start, in a message that ends at limit. */
  function TakeBody(num: nat, wireType: nat, data: seq<octet>, limit: nat, start: nat, p: nat, depth: nat): (t: Taken)
    requires start < |data| && start <= p <= start + 5
    ensures t.Took? ==> p < t.end <= |data| + 16 && t.record.num == num
    ensures t.Stopped? ==> |t.stored| <= 1
    decreases |data| + 16 - p, 2
  {
    if num == 0 then Stopped([])
    else if wireType == 0 then
      match ReadVarint64(From(data, p))
      case Failure => Stopped([])
      case Got(value, k) => Took(VarintRecord(num, value), p + k)
    else if wireType == 1 then Took(Fixed64Record(num, From(data, p)[..8]), p + 8)
    else if wireType == 2 then
      match TakeText(data, limit, start, p)
      case NoSize => Stopped([DelimitedRecord(num, [])])
      case Cut(bytes) => Stopped([DelimitedRecord(num, bytes)])
      case Whole(bytes, end) => Took(DelimitedRecord(num, bytes), end)
    else if wireType == 3 then
      if depth == 0 then Stopped([GroupRecord(num, [])])
      else
        var g := TakeGroup(num, data, limit, p, depth - 1);
        if g.closed then Took(GroupRecord(num, g.records), g.end) else Stopped([GroupRecord(num, g.records)])
    else if wireType == 5 then Took(Fixed32Record(num, From(data, p)[..4]), p + 4)
    else Stopped([])
  }

  function TakeGroup(num: nat, data: seq<octet>, limit: nat, p: nat, depth: nat): (g: Group)
    requires p <= |data| + 16
    ensures g.closed ==> p < g.end <= |data| + 16
    decreases |data| + 16 - p, 1
  {
    if p >= |data| || p >= limit then Group([], p, false)
    else
      match ReadTag(From(data, p))
      case Failure => Group([], p, false)
      case Got(tag, k) =>
        if tag == 8 * num + 4 then Group([], p + k, true) else TakeFirst(num, data, limit, p, tag, k, depth)
  }

  /** One record of a group and the rest of the group. */
  function TakeFirst(num: nat, data: seq<octet>, limit: nat, p: nat, tag: nat, k: nat, depth: nat): (g: Group)
    requires p < |data| && 0 < k <= 5
    ensures g.closed ==> p + k < g.end <= |data| + 16
    decreases |data| + 16 - p, 0
  {
    match TakeBody(tag / 8, tag % 8, data, limit, p, p + k, depth)
    case Stopped(stored) => Group(stored, p, false)
    case Took(first, end) =>
      var others := TakeGroup(num, data, limit, end, depth);
      others.(records := [first] + others.records)
  }

  // ----- records that lie within a stretch of data are read as if nothing followed -----

  lemma ReadersWithin(data: seq<octet>, end: nat, p: nat)
    requires p <= end <= |data|
    ensures var r := ReadTag(From(data, p));
            ReadTag(data[p..end]) == if r.Got? && p + r.length <= end then r else Failure
    ensures var r := ReadVarint64(From(data, p));
            ReadVarint64(data[p..end]) == if r.Got? && p + r.length <= end then r else Failure
    ensures var r := ReadSize(From(data, p));
            ReadSize(data[p..end]) == if r.Got? && p + r.length <= end then r else Failure
  {
    hide ReadGroups;
    var rest := From(data, end);
    assert From(data, p) == data[p..end] + rest;
    ReadWithin(data[p..end], rest, 5);
    ReadWithin(data[p..end], rest, 10);
  }

  lemma SliceOfMemory(data: seq<octet>, end: nat, p: nat, k: nat, n: nat)
    requires p + k + n <= end <= |data|
    ensures From(data, p + k)[..n] == data[p..end][k..k + n]
    ensures k == 0 ==> From(data, p)[..n] == data[p..end][..n]
  {
    var a, b := From(data, p + k)[..n], data[p..end][k..k + n];
    assert forall i :: 0 <= i < n ==> a[i] == b[i];
  }

  function UpTo(t: Taken, p: nat, end: nat): Read<Record>
    requires t.Took? ==> p <= t.end
  {
    if t.Took? && t.end <= end then Got(t.record, t.end - p) else Failure
  }

  /** A record in a stretch of data is what the parser takes from memory, unless that goes beyond the stretch. */
  lemma {:induction false} BodyWithin(num: nat, wireType: nat, data: seq<octet>, limit: nat, end: nat, start: nat,
                                      p: nat, depth: nat)
    requires start < |data| && start <= p <= start + 5 && p <= end <= |data| && end <= limit
    ensures ReadBody(num, wireType, data[p..end], depth)
         == UpTo(TakeBody(num, wireType, data, limit, start, p, depth), p, end)
    decreases |data| + 16 - p, 2
  {
    hide ReadVarint64, ReadSize, ReadGroup, TakeGroup, From;
    ReadersWithin(data, end, p);
    if wireType == 1 && p + 8 <= end {
      SliceOfMemory(data, end, p, 0, 8);
    } else if wireType == 2 {
      TextWithin(data, limit, end, start, p);
    } else if wireType == 3 && depth > 0 {
      GroupWithin(num, data, limit, end, p, depth - 1);
    } else if wireType == 5 && p + 4 <= end {
      SliceOfMemory(data, end, p, 0, 4);
    }
  }

  lemma TextWithin(data: seq<octet>, limit: nat, end: nat, start: nat, p: nat)
    requires start < |data| && start <= p <= start + 5 && p <= end <= |data| && end <= limit
    ensures var t, size := TakeText(data, limit, start, p), ReadSize(data[p..end]);
            && (t.Whole? && t.end <= end <==> size.Got? && p + size.length + size.value <= end)
            && (t.Whole? && t.end <= end ==>
                  t.end == p + size.length + size.value
                  && t.bytes == data[p..end][size.length..size.length + size.value])
  {
    hide ReadSize, From;
    ReadersWithin(data, end, p);
    var size := ReadSize(data[p..end]);
    if size.Got? && p + size.length + size.value <= end {
      SliceOfMemory(data, end, p, size.length, size.value);
    }
  }

  lemma {:induction false} FirstWithin(num: nat, data: seq<octet>, limit: nat, end: nat, p: nat, tag: nat, k: nat,
                                       depth: nat)
    requires p < |data| && 0 < k <= 5 && p + k <= end <= |data| && end <= limit
    ensures ReadFirst(num, data[p..end], tag, k, depth)
         == var g := TakeFirst(num, data, limit, p, tag, k, depth);
            if g.closed && p <= g.end <= end then Got(g.records, g.end - p) else Failure
    decreases |data| + 16 - p, 0
  {
    hide ReadGroup, TakeGroup, ReadBody, TakeBody;
    var q := p + k;
    assert data[p..end][k..] == data[q..end];
    BodyWithin(tag / 8, tag % 8, data, limit, end, p, q, depth);
    var t := TakeBody(tag / 8, tag % 8, data, limit, p, q, depth);
    if t.Took? && t.end <= end {
      assert data[p..end][t.end - p..] == data[t.end..end];
      GroupWithin(num, data, limit, end, t.end, depth);
    }
  }

  lemma {:induction false} GroupWithin(num: nat, data: seq<octet>, limit: nat, end: nat, p: nat, depth: nat)
    requires p <= end <= |data| && end <= limit
    ensures ReadGroup(num, data[p..end], depth)
         == var g := TakeGroup(num, data, limit, p, depth);
            if g.closed && g.end <= end then Got(g.records, g.end - p) else Failure
    decreases |data| + 16 - p, 1
  {
    hide ReadTag, ReadFirst, TakeFirst, From;
    ReadersWithin(data, end, p);
    var t := ReadTag(data[p..end]);
    if p < end && t.Got? && t.value != 8 * num + 4 {
      FirstWithin(num, data, limit, end, p, t.value, t.length, depth);
    }
  }

  // ----- what is stored can be written -----

  /** Whole or not, an unknown record that is stored has the number and the wire type of its tag, and can be written. */
  lemma {:induction false} TakenIsStorable(num: nat, wireType: nat, data: seq<octet>, limit: nat, start: nat, p: nat,
                                           depth: nat)
    requires start < |data| && start <= p <= start + 5 && num < 0x2000_0000
    ensures var t := TakeBody(num, wireType, data, limit, start, p, depth);
            && (t.Took? ==> Storable(t.record) && WireType(t.record) == wireType)
            && (t.Stopped? ==> forall r :: r in t.stored ==> Storable(r) && WireType(r) == wireType && r.num == num)
    decreases |data| + 16 - p, 2
  {
    hide ReadVarint64, TakeText, TakeGroup, From, AllStorable;
    if wireType == 3 && depth > 0 {
      GroupIsStorable(num, data, limit, p, depth - 1);
    }
    NothingIsStorable();
  }

  lemma NothingIsStorable()
    ensures AllStorable([])
  {
  }

  lemma StorableList(rs: seq<Record>)
    requires |rs| <= 1 && forall r :: r in rs ==> Storable(r)
    ensures AllStorable(rs)
  {
    hide Storable;
    if rs != [] {
      assert rs[1..] == [];
    }
  }

  lemma {:induction false} GroupIsStorable(num: nat, data: seq<octet>, limit: nat, p: nat, depth: nat)
    requires p <= |data| + 16
    ensures AllStorable(TakeGroup(num, data, limit, p, depth).records)
    decreases |data| + 16 - p, 1
  {
    hide TakeBody, From, Storable;
    if p < |data| && p < limit && ReadTag(From(data, p)).Got? {
      var t := ReadTag(From(data, p));
      TakenIsStorable(t.value / 8, t.value % 8, data, limit, p, p + t.length, depth);
      var body := TakeBody(t.value / 8, t.value % 8, data, limit, p, p + t.length, depth);
      if body.Took? {
        GroupIsStorable(num, data, limit, body.end, depth);
        var others := TakeGroup(num, data, limit, body.end, depth).records;
        assert ([body.record] + others)[1..] == others;
      } else {
        StorableList(body.stored);
      }
    }
  }

  // ----- the code -----

  /** Read a size and that many bytes. The current buffer ends sixteen bytes before the end of the data, or is the
      patch buffer, behind which there is nothing more. */
  method ParseText(data: seq<octet>, limit: nat, start: nat, p: nat) returns (t: Text)
    requires start < |data| && start <= p <= start + 5
    ensures t == TakeText(data, limit, start, p)
  {
    hide ReadSize;
    var size := ParseSize(From(data, p));
    if size == Failure {
      return NoSize;
    }
    var begin, n := p + size.length, size.value;
    var patched := start + 16 >= |data|;
    var bufferEnd := if patched then |data| else |data| - 16;
    if n <= bufferEnd + 16 - begin {
      return Whole(From(data, begin)[..n], begin + n);
    }
    if patched {
      return Cut([]);
    }
    var text, rest := data[begin..], n - (|data| - begin);
    // the message must go on behind this buffer
    if limit - bufferEnd <= 16 || rest > 16 {
      return Cut(text);
    }
    assert text + From(data, |data|)[..rest] == From(data, begin)[..n];
    return Whole(text + From(data, |data|)[..rest], begin + n);
  }

  /** Take what follows the tag of an unknown record. */
  method ParseBody(num: nat, wireType: nat, data: seq<octet>, limit: nat, start: nat, p: nat, depth: nat)
    returns (t: Taken)
    requires start < |data| && start <= p <= start + 5
    ensures t == TakeBody(num, wireType, data, limit, start, p, depth)
    decreases |data| + 16 - p, 1
  {
    hide ReadGroups, TakeText, TakeGroup, From;
    if num == 0 {
      return Stopped([]);
    }
    match wireType {
      case 0 =>
        var n := ParseVarint(From(data, p), 10);
        return if n == Failure then Stopped([]) else Took(VarintRecord(num, n.value), p + n.length);
      case 1 =>
        return Took(Fixed64Record(num, From(data, p)[..8]), p + 8);
      case 2 =>
        var text := ParseText(data, limit, start, p);
        match text {
          case NoSize => return Stopped([DelimitedRecord(num, [])]);
          case Cut(bytes) => return Stopped([DelimitedRecord(num, bytes)]);
          case Whole(bytes, end) => return Took(DelimitedRecord(num, bytes), end);
        }
      case 3 =>
        if depth == 0 {
          return Stopped([GroupRecord(num, [])]);
        }
        var g := ParseGroup(num, data, limit, p, depth - 1);
        return if g.closed then Took(GroupRecord(num, g.records), g.end) else Stopped([GroupRecord(num, g.records)]);
      case 5 =>
        return Took(Fixed32Record(num, From(data, p)[..4]), p + 4);
      case _ =>
        return Stopped([]);
    }
  }

  function Prepend(records: seq<Record>, g: Group): Group {
    g.(records := records + g.records)
  }

  lemma PrependOne(records: seq<Record>, first: Record, g: Group)
    ensures Prepend(records, Prepend([first], g)) == Prepend(records + [first], g)
  {
    assert records + ([first] + g.records) == records + [first] + g.records;
  }

  lemma PrependNothing(records: seq<Record>, g: Group)
    ensures Prepend([], g) == g
    ensures g.records == [] ==> Prepend(records, g) == g.(records := records)
  {
    assert [] + g.records == g.records && records + [] == records;
  }

  /** Take the records of a group one by one, until a tag closes it. */
  method ParseGroup(num: nat, data: seq<octet>, limit: nat, p: nat, depth: nat) returns (g: Group)
    requires p <= |data| + 16
    ensures g == TakeGroup(num, data, limit, p, depth)
    decreases |data| + 16 - p, 0
  {
    hide ReadTag, TakeBody, From;
    var records, q := [], p;
    PrependNothing([], TakeGroup(num, data, limit, p, depth));
    while q < |data| && q < limit
      invariant p <= q <= |data| + 16
      invariant Prepend(records, TakeGroup(num, data, limit, q, depth)) == TakeGroup(num, data, limit, p, depth)
      decreases |data| + 16 - q
    {
      var t := ParseTag(From(data, q));
      PrependNothing(records, TakeGroup(num, data, limit, q, depth));
      if t == Failure {
        return Group(records, q, false);
      }
      if t.value == 8 * num + 4 {
        return Group(records, q + t.length, true);
      }
      var body := ParseBody(t.value / 8, t.value % 8, data, limit, q, q + t.length, depth);
      match body {
        case Stopped(stored) =>
          return Group(records + stored, q, false);
        case Took(first, end) =>
          PrependOne(records, first, TakeGroup(num, data, limit, end, depth));
          records, q := records + [first], end;
      }
    }
    PrependNothing(records, TakeGroup(num, data, limit, q, depth));
    return Group(records, q, false);
  }
}
