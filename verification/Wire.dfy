/** The records that a message is made of on the wire: a tag with a field number and a wire type, and what follows it.
    The parser reads every record in the same way, whether it knows the field or keeps it aside as unknown. */
module Wire {
  import opened Sequences
  import opened Varints

  datatype Record =
    | VarintRecord(num: nat, value: nat)
    | Fixed64Record(num: nat, bytes: seq<octet>)
    | DelimitedRecord(num: nat, payload: seq<octet>)
    | GroupRecord(num: nat, records: seq<Record>)
    | Fixed32Record(num: nat, bytes: seq<octet>)

  datatype Option<+T> = None | Some(value: T)

  // ----- writing -----

  function Tag(num: nat, wireType: nat): (bytes: seq<octet>)
    ensures |bytes| > 0
  {
    Varint(8 * num + wireType)
  }

  function WireType(r: Record): (wireType: nat)
    ensures wireType < 6 && wireType != 4
  {
    match r
    case VarintRecord(_, _) => 0
    case Fixed64Record(_, _) => 1
    case DelimitedRecord(_, _) => 2
    case GroupRecord(_, _) => 3
    case Fixed32Record(_, _) => 5
  }

  /** What follows the tag. */
  function Body(r: Record): seq<octet>
    decreases r, 0
  {
    match r
    case VarintRecord(_, value) => Varint(value)
    case Fixed64Record(_, bytes) => bytes
    case DelimitedRecord(_, payload) => Varint(|payload|) + payload
    case GroupRecord(num, records) => EncodeAll(records) + Tag(num, 4)
    case Fixed32Record(_, bytes) => bytes
  }

  function Encode(r: Record): (bytes: seq<octet>)
    ensures |bytes| > 0
    decreases r, 1
  {
    Tag(r.num, WireType(r)) + Body(r)
  }

  function EncodeAll(rs: seq<Record>): seq<octet>
    decreases rs
  {
    if rs == [] then [] else Encode(rs[0]) + EncodeAll(rs[1..])
  }

  /** The loop that writes unknown records one after the other. */
  method SerializeRecords(rs: seq<Record>) returns (out: seq<octet>)
    ensures out == EncodeAll(rs)
  {
    hide Encode;
    out := [];
    for i := 0 to |rs|
      invariant out + EncodeAll(rs[i..]) == EncodeAll(rs)
    {
      assert rs[i..][1..] == rs[i + 1..];
      out := out + Encode(rs[i]);
    }
  }

  // ----- reading -----

  /** What follows the tag of a field. */
  function ReadBody(num: nat, wireType: nat, data: seq<octet>, depth: nat): (r: Read<Record>)
    ensures r.Got? ==> 0 < r.length <= |data| && r.value.num == num != 0
    decreases |data|, 2
  {
    if num == 0 then Failure
    else if wireType == 0 then
      match ReadVarint64(data)
      case Failure => Failure
      case Got(value, k) => Got(VarintRecord(num, value), k)
    else if wireType == 1 then
      if |data| < 8 then Failure else Got(Fixed64Record(num, data[..8]), 8)
    else if wireType == 2 then
      match ReadSize(data)
      case Failure => Failure
      case Got(size, k) =>
        if |data| < k + size then Failure else Got(DelimitedRecord(num, data[k..k + size]), k + size)
    else if wireType == 3 then
      if depth == 0 then Failure
      else
        match ReadGroup(num, data, depth - 1)
        case Failure => Failure
        case Got(records, k) => Got(GroupRecord(num, records), k)
    else if wireType == 5 then
      if |data| < 4 then Failure else Got(Fixed32Record(num, data[..4]), 4)
    else Failure
  }

  /** The records of a group, up to and including the tag that ends it. */
  function ReadGroup(num: nat, data: seq<octet>, depth: nat): (r: Read<seq<Record>>)
    ensures r.Got? ==> 0 < r.length <= |data|
    decreases |data|, 1
  {
    match ReadTag(data)
    case Failure => Failure
    case Got(tag, k) => if tag == 8 * num + 4 then Got([], k) else ReadFirst(num, data, tag, k, depth)
  }

  /** The first record of a group, with a tag of k bytes, and the rest of the group. */
  function ReadFirst(num: nat, data: seq<octet>, tag: nat, k: nat, depth: nat): (r: Read<seq<Record>>)
    requires 0 < k <= |data|
    ensures r.Got? ==> k < r.length <= |data|
    decreases |data|, 0
  {
    match ReadBody(tag / 8, tag % 8, data[k..], depth)
    case Failure => Failure
    case Got(first, n) =>
      match ReadGroup(num, data[k + n..], depth)
      case Failure => Failure
      case Got(others, m) => Got([first] + others, k + n + m)
  }

  /** One record of a message. A zero tag or the end of a group has no place there. */
  function ReadRecord(data: seq<octet>, depth: nat): (r: Read<Record>)
    ensures r.Got? ==> 0 < r.length <= |data|
  {
    match ReadTag(data)
    case Failure => Failure
    case Got(tag, k) =>
      match ReadBody(tag / 8, tag % 8, data[k..], depth)
      case Failure => Failure
      case Got(record, n) => Got(record, k + n)
  }

  /** All records of a message. */
  function ReadRecords(data: seq<octet>, depth: nat): Option<seq<Record>>
    decreases |data|
  {
    if data == [] then Some([])
    else
      match ReadRecord(data, depth)
      case Failure => None
      case Got(first, n) =>
        match ReadRecords(data[n..], depth)
        case None => None
        case Some(others) => Some([first] + others)
  }

  // ----- which records survive -----

  /** What the object for an unknown field can hold; lengths are 32-bit numbers. */
  ghost predicate Storable(r: Record)
    decreases r
  {
    && 0 < r.num < 0x2000_0000
    && match r
       case VarintRecord(_, value) => value < 0x1_0000_0000_0000_0000
       case Fixed64Record(_, bytes) => |bytes| == 8
       case DelimitedRecord(_, payload) => |payload| < 0x1_0000_0000
       case GroupRecord(_, records) => AllStorable(records)
       case Fixed32Record(_, bytes) => |bytes| == 4
  }

  ghost predicate AllStorable(rs: seq<Record>)
    decreases rs
  {
    rs == [] || (Storable(rs[0]) && AllStorable(rs[1..]))
  }

  /** Payloads are not too long, and groups are not nested too deeply, to be parsed. */
  ghost predicate Fits(r: Record, depth: nat)
    decreases r
  {
    match r
    case DelimitedRecord(_, payload) => |payload| <= MAX_SIZE
    case GroupRecord(_, records) => depth > 0 && AllFit(records, depth - 1)
    case _ => true
  }

  ghost predicate AllFit(rs: seq<Record>, depth: nat)
    decreases rs
  {
    rs == [] || (Fits(rs[0], depth) && AllFit(rs[1..], depth))
  }

  // ----- parsing undoes writing -----

  lemma ReadUndoesTag(num: nat, wireType: nat, rest: seq<octet>)
    requires num < 0x2000_0000 && wireType < 8
    ensures ReadTag(Tag(num, wireType) + rest) == Got(8 * num + wireType, |Tag(num, wireType)|)
  {
    var tag := 8 * num + wireType;
    hide Varint, ReadGroups, Power128;
    PowersOf128();
    VarintIsBounded(tag, 5);
    ReadUndoesWrite(tag, rest, 5);
  }

  lemma ReadUndoesVarint64(n: nat, rest: seq<octet>)
    requires n < 0x1_0000_0000_0000_0000
    ensures ReadVarint64(Varint(n) + rest) == Got(n, |Varint(n)|)
  {
    hide Varint, ReadGroups, Power128;
    PowersOf128();
    VarintIsBounded(n, 10);
    ReadUndoesWrite(n, rest, 10);
  }

  lemma ReadUndoesSize(n: nat, rest: seq<octet>)
    ensures ReadSize(Varint(n) + rest) == if n <= MAX_SIZE then Got(n, |Varint(n)|) else Failure
  {
    hide Varint, ReadGroups, Power128;
    ReadUndoesWrite(n, rest, 5);
    if n <= MAX_SIZE {
      PowersOf128();
      VarintIsBounded(n, 5);
    }
  }

  /** After its tag, a record is read back exactly when it fits. */
  lemma {:induction false} ReadUndoesBody(r: Record, rest: seq<octet>, depth: nat)
    requires Storable(r)
    ensures ReadBody(r.num, WireType(r), Body(r) + rest, depth)
         == if Fits(r, depth) then Got(r, |Body(r)|) else Failure
    decreases r, 0
  {
    hide Varint, Tag, ReadVarint64, ReadSize, ReadGroup, EncodeAll, AllStorable, AllFit;
    var data := Body(r) + rest;
    match r
    case VarintRecord(_, value) =>
      ReadUndoesVarint64(value, rest);
    case Fixed64Record(_, bytes) =>
      assert data[..8] == bytes;
    case DelimitedRecord(_, payload) =>
      var k := |Varint(|payload|)|;
      Regroup(Varint(|payload|), payload, rest);
      ReadUndoesSize(|payload|, payload + rest);
      assert |payload| <= MAX_SIZE ==> data[k..k + |payload|] == payload;
    case GroupRecord(num, records) =>
      if depth > 0 {
        ReadUndoesGroup(num, records, rest, depth - 1);
      }
    case Fixed32Record(_, bytes) =>
      assert data[..4] == bytes;
  }

  /** In a group, a record in front of others is read back exactly when it fits, and then the others are read. */
  lemma {:induction false} ReadUndoesFirst(num: nat, first: Record, later: seq<octet>, depth: nat)
    requires Storable(first)
    ensures ReadGroup(num, Encode(first) + later, depth)
         == if !Fits(first, depth) then Failure
            else
              match ReadGroup(num, later, depth)
              case Failure => Failure
              case Got(others, m) => Got([first] + others, |Encode(first)| + m)
    decreases first, 1
  {
    hide Tag, ReadTag, ReadBody, Body, WireType, Storable, Fits;
    StorableNumber(first);
    var tag := Tag(first.num, WireType(first));
    var data := Encode(first) + later;
    Regroup(tag, Body(first), later);
    ReadUndoesTag(first.num, WireType(first), Body(first) + later);
    assert data[|tag|..] == Body(first) + later;
    ReadUndoesBody(first, later, depth);
    assert data[|tag| + |Body(first)|..] == later;
  }

  lemma {:induction false} ReadUndoesGroup(num: nat, rs: seq<Record>, rest: seq<octet>, depth: nat)
    requires 0 < num < 0x2000_0000 && AllStorable(rs)
    ensures ReadGroup(num, EncodeAll(rs) + Tag(num, 4) + rest, depth)
         == if AllFit(rs, depth) then Got(rs, |EncodeAll(rs) + Tag(num, 4)|) else Failure
    decreases rs
  {
    hide Tag, ReadTag, ReadBody, Encode, Storable, Fits;
    if rs == [] {
      assert EncodeAll(rs) + Tag(num, 4) + rest == Tag(num, 4) + rest;
      ReadUndoesTag(num, 4, rest);
    } else {
      var later := EncodeAll(rs[1..]) + Tag(num, 4) + rest;
      RegroupFront(Encode(rs[0]), EncodeAll(rs[1..]), Tag(num, 4), rest);
      hide ReadGroup;
      ReadUndoesFirst(num, rs[0], later, depth);
      ReadUndoesGroup(num, rs[1..], rest, depth);
      assert [rs[0]] + rs[1..] == rs;
    }
  }

  lemma RegroupFront(first: seq<octet>, others: seq<octet>, end: seq<octet>, rest: seq<octet>)
    ensures first + others + end + rest == first + (others + end + rest)
  {
  }

  lemma StorableNumber(r: Record)
    requires Storable(r)
    ensures 0 < r.num < 0x2000_0000
  {
  }

  /** A record that fits is read back, whatever follows it; one that does not fit is not read. */
  lemma ReadUndoesEncode(r: Record, rest: seq<octet>, depth: nat)
    requires Storable(r)
    ensures ReadRecord(Encode(r) + rest, depth) == if Fits(r, depth) then Got(r, |Encode(r)|) else Failure
  {
    hide Tag, ReadTag, ReadBody, Body, WireType, Storable, Fits;
    StorableNumber(r);
    var tag := Tag(r.num, WireType(r));
    Regroup(tag, Body(r), rest);
    ReadUndoesTag(r.num, WireType(r), Body(r) + rest);
    ReadUndoesBody(r, rest, depth);
    assert (Encode(r) + rest)[|tag|..] == Body(r) + rest;
  }

  /** Records are read back if and only if all of them fit. */
  lemma {:induction false} ReadUndoesEncodeAll(rs: seq<Record>, depth: nat)
    requires AllStorable(rs)
    ensures ReadRecords(EncodeAll(rs), depth) == if AllFit(rs, depth) then Some(rs) else None
  {
    hide Encode, ReadRecord, Storable, Fits;
    if rs == [] {
    } else {
      var rest := EncodeAll(rs[1..]);
      ReadUndoesEncode(rs[0], rest, depth);
      assert (Encode(rs[0]) + rest)[|Encode(rs[0])|..] == rest;
      ReadUndoesEncodeAll(rs[1..], depth);
      assert [rs[0]] + rs[1..] == rs;
    }
  }

  // ----- reading does not look ahead -----

  lemma ReadersIgnoreRest(data: seq<octet>, rest: seq<octet>)
    ensures ReadTag(data).Got? ==> ReadTag(data + rest) == ReadTag(data)
    ensures ReadVarint64(data).Got? ==> ReadVarint64(data + rest) == ReadVarint64(data)
    ensures ReadSize(data).Got? ==> ReadSize(data + rest) == ReadSize(data)
  {
    hide ReadGroups;
    if ReadGroups(data, 5).Got? {
      ReadIgnoresRest(data, rest, 5);
    }
    if ReadGroups(data, 10).Got? {
      ReadIgnoresRest(data, rest, 10);
    }
  }

  lemma {:induction false} BodyIgnoresRest(num: nat, wireType: nat, data: seq<octet>, rest: seq<octet>, depth: nat)
    requires ReadBody(num, wireType, data, depth).Got?
    ensures ReadBody(num, wireType, data + rest, depth) == ReadBody(num, wireType, data, depth)
    decreases |data|, 2
  {
    hide ReadVarint64, ReadSize, ReadGroup;
    ReadersIgnoreRest(data, rest);
    if wireType == 1 {
      assert (data + rest)[..8] == data[..8];
    } else if wireType == 2 {
      var k, size := ReadSize(data).length, ReadSize(data).value;
      assert (data + rest)[k..k + size] == data[k..k + size];
    } else if wireType == 3 {
      GroupIgnoresRest(num, data, rest, depth - 1);
    } else if wireType == 5 {
      assert (data + rest)[..4] == data[..4];
    }
  }

  lemma {:induction false} FirstIgnoresRest(num: nat, data: seq<octet>, rest: seq<octet>, tag: nat, k: nat, depth: nat)
    requires 0 < k <= |data| && ReadFirst(num, data, tag, k, depth).Got?
    ensures ReadFirst(num, data + rest, tag, k, depth) == ReadFirst(num, data, tag, k, depth)
    decreases |data|, 0
  {
    hide ReadBody, ReadGroup;
    assert (data + rest)[k..] == data[k..] + rest;
    BodyIgnoresRest(tag / 8, tag % 8, data[k..], rest, depth);
    var n := ReadBody(tag / 8, tag % 8, data[k..], depth).length;
    assert (data + rest)[k + n..] == data[k + n..] + rest;
    GroupIgnoresRest(num, data[k + n..], rest, depth);
  }

  lemma {:induction false} GroupIgnoresRest(num: nat, data: seq<octet>, rest: seq<octet>, depth: nat)
    requires ReadGroup(num, data, depth).Got?
    ensures ReadGroup(num, data + rest, depth) == ReadGroup(num, data, depth)
    decreases |data|, 1
  {
    hide ReadTag, ReadFirst;
    ReadersIgnoreRest(data, rest);
    var t := ReadTag(data);
    if t.value != 8 * num + 4 {
      FirstIgnoresRest(num, data, rest, t.value, t.length, depth);
    }
  }

  lemma RecordIgnoresRest(data: seq<octet>, rest: seq<octet>, depth: nat)
    requires ReadRecord(data, depth).Got?
    ensures ReadRecord(data + rest, depth) == ReadRecord(data, depth)
  {
    hide ReadTag, ReadBody;
    ReadersIgnoreRest(data, rest);
    var tag, k := ReadTag(data).value, ReadTag(data).length;
    assert (data + rest)[k..] == data[k..] + rest;
    BodyIgnoresRest(tag / 8, tag % 8, data[k..], rest, depth);
  }

  function Followed(first: seq<Record>, others: Option<seq<Record>>): Option<seq<Record>> {
    match others
    case None => None
    case Some(rs) => Some(first + rs)
  }

  lemma FollowedLaws(first: seq<Record>, second: seq<Record>, others: Option<seq<Record>>)
    ensures Followed([], others) == others
    ensures Followed(first, Followed(second, others)) == Followed(first + second, others)
  {
    if others.Some? {
      assert [] + others.value == others.value;
      assert first + (second + others.value) == first + second + others.value;
    }
  }

  lemma RecordsFollow(data: seq<octet>, depth: nat)
    requires data != [] && ReadRecord(data, depth).Got?
    ensures var r := ReadRecord(data, depth);
            ReadRecords(data, depth) == Followed([r.value], ReadRecords(data[r.length..], depth))
  {
    hide ReadRecord;
  }

  lemma FirstRecordIsRead(data: seq<octet>, depth: nat)
    requires data != [] && ReadRecords(data, depth).Some?
    ensures ReadRecord(data, depth).Got?
  {
    hide ReadRecord;
  }

  lemma NothingToRead(depth: nat)
    ensures ReadRecords([], depth) == Some([])
  {
  }

  /** The records of two pieces, the first of which can be read, are the records of the one and then of the other. */
  lemma {:induction false} ReadConcatenation(a: seq<octet>, b: seq<octet>, depth: nat)
    requires ReadRecords(a, depth).Some?
    ensures ReadRecords(a + b, depth) == Followed(ReadRecords(a, depth).value, ReadRecords(b, depth))
    decreases |a|
  {
    hide ReadRecord, ReadRecords;
    if a == [] {
      assert a + b == b;
      NothingToRead(depth);
      FollowedLaws([], [], ReadRecords(b, depth));
    } else {
      FirstRecordIsRead(a, depth);
      var first := ReadRecord(a, depth);
      var others := a[first.length..];
      RecordsFollow(a, depth);
      RecordIgnoresRest(a, b, depth);
      RecordsFollow(a + b, depth);
      assert (a + b)[first.length..] == others + b;
      ReadConcatenation(others, b, depth);
      FollowedLaws([first.value], ReadRecords(others, depth).value, ReadRecords(b, depth));
    }
  }

  // ----- what is read can be written and read again -----

  lemma ReadersAreShortest(data: seq<octet>)
    ensures ReadTag(data).Got? ==> |Varint(ReadTag(data).value)| <= ReadTag(data).length
    ensures ReadVarint64(data).Got? ==> |Varint(ReadVarint64(data).value)| <= ReadVarint64(data).length
    ensures ReadSize(data).Got? ==> |Varint(ReadSize(data).value)| <= ReadSize(data).length
  {
    hide Varint, ReadGroups;
    if ReadGroups(data, 5).Got? {
      WrittenIsShortest(data, 5);
      VarintIsMonotone(ReadGroups(data, 5).value % 0x1_0000_0000, ReadGroups(data, 5).value);
    }
    if ReadGroups(data, 10).Got? {
      WrittenIsShortest(data, 10);
      VarintIsMonotone(ReadGroups(data, 10).value % 0x1_0000_0000_0000_0000, ReadGroups(data, 10).value);
    }
  }

  /** A record that is read can be stored and fits, has the wire type it was read with, and is not written longer. */
  lemma {:induction false} BodyIsRewritable(num: nat, wireType: nat, data: seq<octet>, depth: nat)
    requires num < 0x2000_0000 && ReadBody(num, wireType, data, depth).Got?
    ensures var r := ReadBody(num, wireType, data, depth);
            && Storable(r.value) && Fits(r.value, depth) && WireType(r.value) == wireType
            && |Body(r.value)| <= r.length
    decreases |data|, 1
  {
    hide Varint, Tag, ReadVarint64, ReadSize, ReadGroup, EncodeAll, AllStorable, AllFit;
    ReadersAreShortest(data);
    if wireType == 3 {
      GroupIsRewritable(num, data, depth - 1);
    }
  }

  lemma {:induction false} GroupIsRewritable(num: nat, data: seq<octet>, depth: nat)
    requires num < 0x2000_0000 && ReadGroup(num, data, depth).Got?
    ensures var r := ReadGroup(num, data, depth);
            AllStorable(r.value) && AllFit(r.value, depth) && |EncodeAll(r.value) + Tag(num, 4)| <= r.length
    decreases |data|, 0
  {
    hide Varint, ReadTag, ReadBody, Body, WireType, Storable, Fits;
    ReadersAreShortest(data);
    var tag, k := ReadTag(data).value, ReadTag(data).length;
    if tag != 8 * num + 4 {
      BodyIsRewritable(tag / 8, tag % 8, data[k..], depth);
      var n := ReadBody(tag / 8, tag % 8, data[k..], depth).length;
      GroupIsRewritable(num, data[k + n..], depth);
    }
  }

  lemma RecordIsRewritable(data: seq<octet>, depth: nat)
    requires ReadRecord(data, depth).Got?
    ensures var r := ReadRecord(data, depth);
            Storable(r.value) && Fits(r.value, depth) && |Encode(r.value)| <= r.length
  {
    hide Varint, ReadTag, ReadBody, Body, WireType, Storable, Fits;
    ReadersAreShortest(data);
    var tag, k := ReadTag(data).value, ReadTag(data).length;
    BodyIsRewritable(tag / 8, tag % 8, data[k..], depth);
  }

  lemma {:induction false} RecordsAreRewritable(data: seq<octet>, depth: nat)
    requires ReadRecords(data, depth).Some?
    ensures var rs := ReadRecords(data, depth).value;
            AllStorable(rs) && AllFit(rs, depth) && |EncodeAll(rs)| <= |data|
    decreases |data|
  {
    hide ReadRecord, Encode, Storable, Fits;
    if data == [] {
    } else {
      RecordIsRewritable(data, depth);
      RecordsAreRewritable(data[ReadRecord(data, depth).length..], depth);
    }
  }

  // ----- sizes -----

  function LengthDelimitedSize(length: nat): nat {
    length + VarintSize(length)
  }

  /** The size of a record as the code computes it, without writing it. */
  function RecordSize(r: Record): nat
    decreases r
  {
    match r
    case VarintRecord(num, value) => VarintSize(8 * num) + VarintSize(value)
    case Fixed64Record(num, _) => VarintSize(8 * num + 1) + 8
    case DelimitedRecord(num, payload) => VarintSize(8 * num + 2) + LengthDelimitedSize(|payload|)
    case GroupRecord(num, records) => VarintSize(8 * num + 3) + RecordsSize(records) + VarintSize(8 * num + 4)
    case Fixed32Record(num, _) => VarintSize(8 * num + 5) + 4
  }

  function RecordsSize(rs: seq<Record>): nat
    decreases rs
  {
    if rs == [] then 0 else RecordSize(rs[0]) + RecordsSize(rs[1..])
  }

  lemma NoRecordsSize()
    ensures RecordsSize([]) == 0
  {
  }

  lemma {:induction false} RecordSizeIsLength(r: Record)
    requires Storable(r)
    ensures RecordSize(r) == |Encode(r)|
    decreases r
  {
    hide Varint, VarintSize, EncodeAll, AllStorable;
    VarintSizeIsLength(8 * r.num + WireType(r));
    match r
    case VarintRecord(_, value) => VarintSizeIsLength(value);
    case Fixed64Record(_, _) =>
    case DelimitedRecord(_, payload) => VarintSizeIsLength(|payload|);
    case GroupRecord(num, records) =>
      RecordsSizeIsLength(records);
      VarintSizeIsLength(8 * num + 4);
    case Fixed32Record(_, _) =>
  }

  lemma {:induction false} RecordsSizeIsLength(rs: seq<Record>)
    requires AllStorable(rs)
    ensures RecordsSize(rs) == |EncodeAll(rs)|
    decreases rs
  {
    hide Encode, RecordSize, Storable;
    if rs == [] {
    } else {
      RecordSizeIsLength(rs[0]);
      RecordsSizeIsLength(rs[1..]);
    }
  }
}
