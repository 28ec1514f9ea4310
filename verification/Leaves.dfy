/** The six messages that hold plain fields, as values: what their encodings mean, how two of them merge, and what
    parsing and writing have to do with each other. */
module Leaves {
  import opened Streams
  import opened Varints
  import opened Wire

  datatype Kind = Int64 | Text | Enum(limit: nat)

  datatype Value = IntValue(n: nat) | TextValue(bytes: seq<octet>) | EnumValue(n: nat)

  /** The kinds of the fields 1, 2, ... of a message; all of them are required. */
  type Schema = kinds: seq<Kind> | 0 < |kinds| <= 3 witness [Int64]

  /** A message: each field, if it is present, and the records that no field took, in order of arrival. */
  datatype Leaf = Leaf(fields: seq<Option<Value>>, unknown: seq<Record>)

  function Empty(schema: Schema): (m: Leaf)
    ensures |m.fields| == |schema|
  {
    Leaf(seq(|schema|, _ => None), [])
  }

  /** What a 64-bit number is as an enumerator of 32 bits. */
  function Enumerator(n: nat): nat {
    n % 0x1_0000_0000
  }

  // ----- reading -----

  /** The value that a record gives to the field with its number, if it is for a field and acceptable to it. */
  function Interpret(schema: Schema, r: Record): (v: Option<Value>)
    ensures v.Some? ==> 0 < r.num <= |schema|
  {
    if r.num == 0 || r.num > |schema| then None
    else
      match (schema[r.num - 1], r)
      case (Int64, VarintRecord(_, n)) => Some(IntValue(n))
      case (Text, DelimitedRecord(_, bytes)) => Some(TextValue(bytes))
      case (Enum(limit), VarintRecord(_, n)) => if Enumerator(n) < limit then Some(EnumValue(Enumerator(n))) else None
      case _ => None
  }

  /** A known field is overwritten; anything else is kept aside. */
  function Apply(schema: Schema, m: Leaf, r: Record): (m': Leaf)
    requires |m.fields| == |schema|
    ensures |m'.fields| == |schema|
  {
    match Interpret(schema, r)
    case Some(v) => m.(fields := m.fields[r.num - 1 := Some(v)])
    case None => m.(unknown := m.unknown + [r])
  }

  function ApplyAll(schema: Schema, m: Leaf, rs: seq<Record>): (m': Leaf)
    requires |m.fields| == |schema|
    ensures |m'.fields| == |schema|
    decreases |rs|
  {
    if rs == [] then m else ApplyAll(schema, Apply(schema, m, rs[0]), rs[1..])
  }

  /** Parse an encoding into a message that may already hold fields. */
  function Parse(schema: Schema, m: Leaf, data: seq<octet>, depth: nat): (r: Option<Leaf>)
    requires |m.fields| == |schema|
    ensures r.Some? ==> |r.value.fields| == |schema|
  {
    match ReadRecords(data, depth)
    case None => None
    case Some(rs) => Some(ApplyAll(schema, m, rs))
  }

  // ----- writing -----

  function FieldRecord(num: nat, v: Value): Record {
    match v
    case IntValue(n) => VarintRecord(num, n)
    case TextValue(bytes) => DelimitedRecord(num, bytes)
    case EnumValue(n) => VarintRecord(num, n)
  }

  /** The records of the fields from index i on that are present. */
  function FieldRecords(fields: seq<Option<Value>>, i: nat): seq<Record>
    requires i <= |fields|
    decreases |fields| - i
  {
    if i == |fields| then []
    else (if fields[i].Some? then [FieldRecord(i + 1, fields[i].value)] else []) + FieldRecords(fields, i + 1)
  }

  function Records(m: Leaf): seq<Record> {
    FieldRecords(m.fields, 0) + m.unknown
  }

  function Write(m: Leaf): seq<octet> {
    EncodeAll(Records(m))
  }

  // ----- well-formed messages -----

  /** A value that a field of the kind can hold. */
  ghost predicate Holds(kind: Kind, v: Value) {
    match (kind, v)
    case (Int64, IntValue(n)) => n < 0x1_0000_0000_0000_0000
    case (Text, TextValue(bytes)) => |bytes| < 0x1_0000_0000
    case (Enum(limit), EnumValue(n)) => n < limit && n < 0x1_0000_0000
    case _ => false
  }

  ghost predicate AllUnknown(schema: Schema, rs: seq<Record>) {
    forall r :: r in rs ==> Interpret(schema, r) == None
  }

  ghost predicate WellFormed(schema: Schema, m: Leaf) {
    && |m.fields| == |schema|
    && (forall i :: 0 <= i < |schema| && m.fields[i].Some? ==> Holds(schema[i], m.fields[i].value))
    && AllStorable(m.unknown)
    && AllUnknown(schema, m.unknown)
  }

  /** All strings and unknown records are small enough to be parsed at the depth. */
  ghost predicate LeafFits(m: Leaf, depth: nat) {
    && (forall i :: 0 <= i < |m.fields| && m.fields[i].Some? && m.fields[i].value.TextValue?
          ==> |m.fields[i].value.bytes| <= MAX_SIZE)
    && AllFit(m.unknown, depth)
  }

  /** Every field is present. */
  predicate Initialized(m: Leaf) {
    forall i :: 0 <= i < |m.fields| ==> m.fields[i].Some?
  }

  // ----- records in sequence -----

  lemma {:induction false} ApplyAllAppend(schema: Schema, m: Leaf, a: seq<Record>, b: seq<Record>)
    requires |m.fields| == |schema|
    ensures ApplyAll(schema, m, a + b) == ApplyAll(schema, ApplyAll(schema, m, a), b)
    decreases |a|
  {
    hide Apply;
    if a == [] {
      assert a + b == b;
    } else {
      assert (a + b)[1..] == a[1..] + b;
      ApplyAllAppend(schema, Apply(schema, m, a[0]), a[1..], b);
    }
  }

  lemma {:induction false} AllStorableAppend(a: seq<Record>, b: seq<Record>)
    ensures AllStorable(a + b) <==> AllStorable(a) && AllStorable(b)
  {
    hide Storable;
    if a == [] {
      assert a + b == b;
    } else {
      assert (a + b)[1..] == a[1..] + b;
      AllStorableAppend(a[1..], b);
    }
  }

  lemma {:induction false} AllFitAppend(a: seq<Record>, b: seq<Record>, depth: nat)
    ensures AllFit(a + b, depth) <==> AllFit(a, depth) && AllFit(b, depth)
  {
    hide Fits;
    if a == [] {
      assert a + b == b;
    } else {
      assert (a + b)[1..] == a[1..] + b;
      AllFitAppend(a[1..], b, depth);
    }
  }

  lemma {:induction false} EncodeAllAppend(a: seq<Record>, b: seq<Record>)
    ensures EncodeAll(a + b) == EncodeAll(a) + EncodeAll(b)
  {
    hide Encode;
    if a == [] {
      assert a + b == b;
    } else {
      assert (a + b)[1..] == a[1..] + b;
      EncodeAllAppend(a[1..], b);
      assert EncodeAll(a + b) == Encode(a[0]) + (EncodeAll(a[1..]) + EncodeAll(b));
    }
  }

  /** The records of the fields from index i on start with that of field i, if it is present. */
  lemma FieldRecordsStep(fields: seq<Option<Value>>, i: nat)
    requires i <= |fields|
    ensures i == |fields| ==> FieldRecords(fields, i) == []
    ensures i < |fields| && fields[i] == None ==> FieldRecords(fields, i) == FieldRecords(fields, i + 1)
    ensures i < |fields| && fields[i].Some? ==>
              var rs := FieldRecords(fields, i);
              rs != [] && rs[0] == FieldRecord(i + 1, fields[i].value) && rs[1..] == FieldRecords(fields, i + 1)
  {
    hide FieldRecord;
  }

  lemma FieldsSplit(fields: seq<Option<Value>>, i: nat)
    requires i <= |fields|
    ensures i == |fields| ==> EncodeAll(FieldRecords(fields, i)) == []
    ensures i < |fields| ==>
              EncodeAll(FieldRecords(fields, i))
              == (if fields[i].Some? then Encode(FieldRecord(i + 1, fields[i].value)) else [])
                 + EncodeAll(FieldRecords(fields, i + 1))
  {
    hide Encode, FieldRecord, FieldRecords;
    FieldRecordsStep(fields, i);
  }

  // ----- parsing undoes writing -----

  /** The record of a field is taken by the same field with the same value. */
  lemma FieldRecordIsTaken(schema: Schema, i: nat, v: Value)
    requires i < |schema| && Holds(schema[i], v)
    ensures Interpret(schema, FieldRecord(i + 1, v)) == Some(v)
    ensures Storable(FieldRecord(i + 1, v))
    ensures Fits(FieldRecord(i + 1, v), 0) <==> (v.TextValue? ==> |v.bytes| <= MAX_SIZE)
  {
  }

  lemma FieldFitsAnywhere(num: nat, v: Value, depth: nat)
    ensures Fits(FieldRecord(num, v), depth) <==> Fits(FieldRecord(num, v), 0)
  {
  }

  /** The message with its fields up to index i only. */
  function Upto(schema: Schema, m: Leaf, i: nat): Leaf
    requires i <= |m.fields| == |schema|
  {
    Leaf(m.fields[..i] + Empty(schema).fields[i..], [])
  }

  lemma UptoGrows(schema: Schema, m: Leaf, i: nat)
    requires |m.fields| == |schema| && i < |schema|
    ensures Upto(schema, m, i + 1).fields == Upto(schema, m, i).fields[i := m.fields[i]]
    ensures m.fields[i] == None ==> Upto(schema, m, i + 1).fields == Upto(schema, m, i).fields
  {
  }

  lemma {:induction false} FieldRecordsRebuild(schema: Schema, m: Leaf, i: nat)
    requires WellFormed(schema, m) && i <= |schema|
    ensures ApplyAll(schema, Upto(schema, m, i), FieldRecords(m.fields, i)) == m.(unknown := [])
    decreases |schema| - i
  {
    hide Interpret, Storable, FieldRecord, FieldRecords, AllStorable, AllUnknown;
    FieldRecordsStep(m.fields, i);
    if i == |schema| {
      assert Upto(schema, m, i).fields == m.fields;
    } else {
      FieldRecordsRebuild(schema, m, i + 1);
      UptoGrows(schema, m, i);
      hide Empty;
      if m.fields[i].Some? {
        FieldRecordIsTaken(schema, i, m.fields[i].value);
        FieldRecordNumber(i + 1, m.fields[i].value);
      }
    }
  }

  lemma {:induction false} FieldRecordsAreStorable(schema: Schema, m: Leaf, i: nat)
    requires WellFormed(schema, m) && i <= |schema|
    ensures AllStorable(FieldRecords(m.fields, i))
    decreases |schema| - i
  {
    hide Interpret, Storable, FieldRecord, FieldRecords;
    FieldRecordsStep(m.fields, i);
    if i == |schema| {
    } else {
      FieldRecordsAreStorable(schema, m, i + 1);
      if m.fields[i].Some? {
        FieldRecordIsTaken(schema, i, m.fields[i].value);
      }
    }
  }

  lemma FieldRecordNumber(num: nat, v: Value)
    ensures FieldRecord(num, v).num == num
  {
  }

  lemma {:induction false} UnknownRecordsStay(schema: Schema, m: Leaf, rs: seq<Record>)
    requires |m.fields| == |schema| && AllUnknown(schema, rs)
    ensures ApplyAll(schema, m, rs) == m.(unknown := m.unknown + rs)
    decreases |rs|
  {
    hide Interpret;
    if rs == [] {
      assert m.unknown + rs == m.unknown;
    } else {
      UnknownRecordsStay(schema, Apply(schema, m, rs[0]), rs[1..]);
      assert m.unknown + [rs[0]] + rs[1..] == m.unknown + rs;
    }
  }

  lemma {:induction false} FieldsFit(schema: Schema, m: Leaf, i: nat, depth: nat)
    requires WellFormed(schema, m) && i <= |schema|
    ensures AllFit(FieldRecords(m.fields, i), depth)
       <==> forall j :: i <= j < |m.fields| && m.fields[j].Some? && m.fields[j].value.TextValue?
              ==> |m.fields[j].value.bytes| <= MAX_SIZE
    decreases |schema| - i
  {
    hide Interpret, Storable, Fits, FieldRecord, FieldRecords, AllStorable, AllUnknown;
    FieldRecordsStep(m.fields, i);
    if i == |schema| {
    } else {
      FieldsFit(schema, m, i + 1, depth);
      if m.fields[i].Some? {
        FieldRecordIsTaken(schema, i, m.fields[i].value);
        FieldFitsAnywhere(i + 1, m.fields[i].value, depth);
      }
    }
  }

  lemma RecordsAreStorable(schema: Schema, m: Leaf)
    requires WellFormed(schema, m)
    ensures AllStorable(Records(m))
  {
    hide AllStorable;
    FieldRecordsAreStorable(schema, m, 0);
    AllStorableAppend(FieldRecords(m.fields, 0), m.unknown);
  }

  /** A well-formed message is read back exactly, absent fields and unknown records included, if and only if it fits. */
  lemma ParseUndoesWrite(schema: Schema, m: Leaf, depth: nat)
    requires WellFormed(schema, m)
    ensures Parse(schema, Empty(schema), Write(m), depth) == if LeafFits(m, depth) then Some(m) else None
  {
    hide ReadRecords, EncodeAll, ApplyAll, FieldRecords, AllFit, AllStorable, Interpret, Holds;
    var fields := FieldRecords(m.fields, 0);
    RecordsAreStorable(schema, m);
    ReadUndoesEncodeAll(Records(m), depth);
    AllFitAppend(fields, m.unknown, depth);
    FieldsFit(schema, m, 0, depth);
    assert Upto(schema, m, 0) == Empty(schema);
    FieldRecordsRebuild(schema, m, 0);
    ApplyAllAppend(schema, Empty(schema), fields, m.unknown);
    UnknownRecordsStay(schema, m.(unknown := []), m.unknown);
    assert [] + m.unknown == m.unknown;
  }

  // ----- merging -----

  function MergeFields(a: seq<Option<Value>>, b: seq<Option<Value>>): seq<Option<Value>>
    requires |a| == |b|
  {
    seq(|a|, i requires 0 <= i < |a| => if b[i].Some? then b[i] else a[i])
  }

  /** The fields of the second message win; unknown records are kept in order. */
  function Merge(m: Leaf, n: Leaf): Leaf
    requires |m.fields| == |n.fields|
  {
    Leaf(MergeFields(m.fields, n.fields), m.unknown + n.unknown)
  }

  lemma MergeKeepsWellFormed(schema: Schema, m: Leaf, n: Leaf)
    requires WellFormed(schema, m) && WellFormed(schema, n)
    ensures WellFormed(schema, Merge(m, n))
  {
    AllStorableAppend(m.unknown, n.unknown);
  }

  lemma MergeIntoEmpty(schema: Schema, m: Leaf)
    requires |m.fields| == |schema|
    ensures Merge(Empty(schema), m) == m
  {
    assert [] + m.unknown == m.unknown;
  }

  lemma MergeOfOne(schema: Schema, m: Leaf, r: Record, n: Leaf)
    requires |m.fields| == |schema| == |n.fields|
    ensures Merge(Apply(schema, m, r), n) == Merge(m, Merge(Apply(schema, Empty(schema), r), n))
  {
    hide Interpret;
    var e := Apply(schema, Empty(schema), r);
    assert Apply(schema, m, r).unknown + n.unknown == m.unknown + (e.unknown + n.unknown);
    assert Merge(Apply(schema, m, r), n).fields == Merge(m, Merge(e, n)).fields;
  }

  /** Records applied to a message give the message merged with what they give on their own. */
  lemma {:induction false} ApplyingIsMerging(schema: Schema, m: Leaf, rs: seq<Record>)
    requires |m.fields| == |schema|
    ensures ApplyAll(schema, m, rs) == Merge(m, ApplyAll(schema, Empty(schema), rs))
    decreases |rs|
  {
    hide Apply;
    if rs == [] {
      assert m.unknown + [] == m.unknown;
    } else {
      var e := Empty(schema);
      ApplyingIsMerging(schema, Apply(schema, m, rs[0]), rs[1..]);
      ApplyingIsMerging(schema, Apply(schema, e, rs[0]), rs[1..]);
      MergeOfOne(schema, m, rs[0], ApplyAll(schema, e, rs[1..]));
    }
  }

  /** Parsing two encodings in a row is parsing each of them and merging the results. */
  lemma ParseConcatenation(schema: Schema, a: seq<octet>, b: seq<octet>, depth: nat)
    requires Parse(schema, Empty(schema), a, depth).Some?
    ensures Parse(schema, Empty(schema), a + b, depth)
         == match Parse(schema, Empty(schema), b, depth)
            case None => None
            case Some(n) => Some(Merge(Parse(schema, Empty(schema), a, depth).value, n))
  {
    hide ReadRecords, ApplyAll, Merge;
    ReadConcatenation(a, b, depth);
    if ReadRecords(b, depth).Some? {
      var e, rs := Empty(schema), ReadRecords(b, depth).value;
      ApplyAllAppend(schema, e, ReadRecords(a, depth).value, rs);
      ApplyingIsMerging(schema, ApplyAll(schema, e, ReadRecords(a, depth).value), rs);
    }
  }

  // ----- sizes -----

  /** The size of a field with its tag, as the code computes it. */
  function FieldSize(v: Value): nat {
    match v
    case IntValue(n) => VarintSizePlusOne(n)
    case TextValue(bytes) => 1 + LengthDelimitedSize(|bytes|)
    case EnumValue(n) => 1 + VarintSize(n)
  }

  function FieldsSize(fields: seq<Option<Value>>, i: nat): nat
    requires i <= |fields|
    decreases |fields| - i
  {
    if i == |fields| then 0
    else (if fields[i].Some? then FieldSize(fields[i].value) else 0) + FieldsSize(fields, i + 1)
  }

  function Size(m: Leaf): nat {
    FieldsSize(m.fields, 0) + RecordsSize(m.unknown)
  }

  lemma FieldSizeIsLength(schema: Schema, i: nat, v: Value)
    requires i < |schema| && Holds(schema[i], v)
    ensures FieldSize(v) == |Encode(FieldRecord(i + 1, v))|
  {
    hide VarintSize, Varint;
    SmallTag(i + 1, WireType(FieldRecord(i + 1, v)));
    match v
    case IntValue(n) => VarintSizeIsLength(n);
    case TextValue(bytes) => VarintSizeIsLength(|bytes|);
    case EnumValue(n) => VarintSizeIsLength(n);
  }

  lemma SmallTag(num: nat, wireType: nat)
    requires num <= 3 && wireType < 8
    ensures |Tag(num, wireType)| == 1
  {
  }

  lemma {:induction false} FieldsSizeIsLength(schema: Schema, m: Leaf, i: nat)
    requires WellFormed(schema, m) && i <= |schema|
    ensures FieldsSize(m.fields, i) == |EncodeAll(FieldRecords(m.fields, i))|
    decreases |schema| - i
  {
    hide Encode, EncodeAll, FieldSize, FieldRecord, FieldRecords, Holds, AllStorable, AllUnknown;
    FieldsSplit(m.fields, i);
    if i == |schema| {
    } else {
      FieldsSizeIsLength(schema, m, i + 1);
      if m.fields[i].Some? {
        FieldSizeIsLength(schema, i, m.fields[i].value);
      }
    }
  }

  /** The size that is computed without writing is the length of what is written. */
  lemma SizeIsLength(schema: Schema, m: Leaf)
    requires WellFormed(schema, m)
    ensures Size(m) == |Write(m)|
  {
    hide EncodeAll, RecordsSize, FieldsSize, FieldRecords;
    FieldsSizeIsLength(schema, m, 0);
    RecordsSizeIsLength(m.unknown);
    EncodeAllAppend(FieldRecords(m.fields, 0), m.unknown);
  }

  // ----- what is parsed can be written and parsed again -----

  lemma ApplyKeepsWellFormed(schema: Schema, m: Leaf, r: Record, depth: nat)
    requires WellFormed(schema, m) && Storable(r)
    ensures WellFormed(schema, Apply(schema, m, r))
    ensures LeafFits(m, depth) && Fits(r, depth) ==> LeafFits(Apply(schema, m, r), depth)
  {
    hide AllStorable, AllFit;
    AllStorableAppend(m.unknown, [r]);
    AllFitAppend(m.unknown, [r], depth);
    OneRecord(r, depth);
  }

  lemma OneRecord(r: Record, depth: nat)
    ensures AllStorable([r]) <==> Storable(r)
    ensures AllFit([r], depth) <==> Fits(r, depth)
    ensures EncodeAll([r]) == Encode(r)
  {
    hide Storable, Fits, Encode;
    assert [r][1..] == [];
    assert Encode(r) + [] == Encode(r);
  }

  lemma {:induction false} FieldsSizeAfterUpdate(fields: seq<Option<Value>>, k: nat, v: Value, i: nat)
    requires k < |fields| && i <= |fields|
    ensures FieldsSize(fields[k := Some(v)], i) <= FieldsSize(fields, i) + (if i <= k then FieldSize(v) else 0)
    decreases |fields| - i
  {
    hide FieldSize;
    if i == |fields| {
    } else {
      FieldsSizeAfterUpdate(fields, k, v, i + 1);
    }
  }

  /** A field is not larger than the record that it was taken from. */
  lemma InterpretDoesNotGrow(schema: Schema, r: Record)
    requires Interpret(schema, r).Some? && Storable(r)
    ensures FieldSize(Interpret(schema, r).value) <= RecordSize(r)
  {
    hide Varint, VarintSize;
    SmallTag(r.num, WireType(r));
    VarintSizeIsLength(8 * r.num + WireType(r));
    if r.VarintRecord? {
      VarintSizeIsLength(r.value);
      VarintSizeIsLength(Enumerator(r.value));
      VarintIsMonotone(Enumerator(r.value), r.value);
    }
  }

  lemma {:induction false} RecordsSizeAppend(a: seq<Record>, b: seq<Record>)
    ensures RecordsSize(a + b) == RecordsSize(a) + RecordsSize(b)
  {
    hide RecordSize;
    if a == [] {
      assert a + b == b;
    } else {
      assert (a + b)[1..] == a[1..] + b;
      RecordsSizeAppend(a[1..], b);
    }
  }

  lemma ApplyDoesNotGrow(schema: Schema, m: Leaf, r: Record)
    requires |m.fields| == |schema| && Storable(r)
    ensures Size(Apply(schema, m, r)) <= Size(m) + RecordSize(r)
  {
    hide Interpret, FieldSize, RecordSize, Storable;
    var taken := Interpret(schema, r);
    if taken.Some? {
      InterpretDoesNotGrow(schema, r);
      FieldsSizeAfterUpdate(m.fields, r.num - 1, taken.value, 0);
    } else {
      RecordsSizeAppend(m.unknown, [r]);
      assert [r][1..] == [];
    }
  }

  lemma {:induction false} ApplyAllKeepsWellFormed(schema: Schema, m: Leaf, rs: seq<Record>, depth: nat)
    requires WellFormed(schema, m) && AllStorable(rs)
    ensures WellFormed(schema, ApplyAll(schema, m, rs))
    ensures LeafFits(m, depth) && AllFit(rs, depth) ==> LeafFits(ApplyAll(schema, m, rs), depth)
    ensures Size(ApplyAll(schema, m, rs)) <= Size(m) + RecordsSize(rs)
    decreases |rs|
  {
    hide Apply, Storable, Fits, LeafFits, Size, RecordSize;
    if rs == [] {
    } else {
      FieldsStay(schema, m);
      ApplyKeepsWellFormed(schema, m, rs[0], depth);
      ApplyDoesNotGrow(schema, m, rs[0]);
      hide WellFormed;
      ApplyAllKeepsWellFormed(schema, Apply(schema, m, rs[0]), rs[1..], depth);
    }
  }

  lemma FieldsStay(schema: Schema, m: Leaf)
    requires WellFormed(schema, m)
    ensures |m.fields| == |schema|
  {
  }

  lemma EmptyIsWellFormed(schema: Schema, depth: nat)
    ensures WellFormed(schema, Empty(schema)) && LeafFits(Empty(schema), depth) && Size(Empty(schema)) == 0
  {
    EmptySize(Empty(schema).fields, 0);
  }

  lemma {:induction false} EmptySize(fields: seq<Option<Value>>, i: nat)
    requires i <= |fields| && forall j :: 0 <= j < |fields| ==> fields[j] == None
    ensures FieldsSize(fields, i) == 0
    decreases |fields| - i
  {
    if i == |fields| {
    } else {
      EmptySize(fields, i + 1);
    }
  }

  /** A message that was parsed can be written in no more bytes than it came in, and is parsed again to the same. */
  lemma ParsedIsRewritable(schema: Schema, data: seq<octet>, depth: nat)
    requires Parse(schema, Empty(schema), data, depth).Some?
    ensures var m := Parse(schema, Empty(schema), data, depth).value;
            && WellFormed(schema, m) && LeafFits(m, depth) && |Write(m)| <= |data|
            && Parse(schema, Empty(schema), Write(m), depth) == Some(m)
  {
    hide ReadRecords, ApplyAll, WellFormed, LeafFits, Size, Write;
    var m := Parse(schema, Empty(schema), data, depth).value;
    var rs := ReadRecords(data, depth).value;
    RecordsAreRewritable(data, depth);
    RecordsSizeIsLength(rs);
    EmptyIsWellFormed(schema, depth);
    ApplyAllKeepsWellFormed(schema, Empty(schema), rs, depth);
    SizeIsLength(schema, m);
    ParseUndoesWrite(schema, m, depth);
  }

  // ----- numbers that are taken for enumerators -----

  /** The encoding of a message with a number and an enumerator, when a number n stands for the enumerator. */
  function NumbersOnly(id: nat, n: nat): seq<octet> {
    EncodeAll([VarintRecord(1, id), VarintRecord(2, n)])
  }

  /** What is parsed from it. */
  function NumbersParsed(id: nat, n: nat, limit: nat): Leaf {
    if Enumerator(n) < limit then Leaf([Some(IntValue(id)), Some(EnumValue(Enumerator(n)))], [])
    else Leaf([Some(IntValue(id)), None], [VarintRecord(2, n)])
  }

  lemma TwoRecords(schema: Schema, a: Record, b: Record, depth: nat)
    requires Storable(a) && Storable(b) && Fits(a, depth) && Fits(b, depth)
    ensures AllStorable([a, b]) && AllFit([a, b], depth)
    ensures EncodeAll([a, b]) == Encode(a) + Encode(b)
    ensures ApplyAll(schema, Empty(schema), [a, b]) == Apply(schema, Apply(schema, Empty(schema), a), b)
  {
    hide Storable, Fits, Encode, Apply, Empty;
    assert [a, b][1..] == [b] && [b][1..] == [];
    OneRecord(b, depth);
    assert [a, b] == [a] + [b];
    ApplyAllAppend(schema, Empty(schema), [a], [b]);
    assert [a][1..] == [];
    assert ApplyAll(schema, Apply(schema, Empty(schema), a), [b]) == Apply(schema, Apply(schema, Empty(schema), a), b);
  }

  lemma NumbersAreParsed(schema: Schema, id: nat, n: nat, depth: nat)
    requires |schema| == 2 && schema[0] == Int64 && schema[1].Enum?
    requires id < 0x1_0000_0000_0000_0000 && n < 0x1_0000_0000_0000_0000
    ensures Parse(schema, Empty(schema), NumbersOnly(id, n), depth) == Some(NumbersParsed(id, n, schema[1].limit))
  {
    hide EncodeAll, ReadRecords, ApplyAll;
    var a, b := VarintRecord(1, id), VarintRecord(2, n);
    TwoRecords(schema, a, b, depth);
    ReadUndoesEncodeAll([a, b], depth);
    var one := Apply(schema, Empty(schema), a);
    assert one == Leaf([Some(IntValue(id)), None], []);
    assert Apply(schema, one, b) == NumbersParsed(id, n, schema[1].limit);
  }

  lemma NumbersAreWritten(m: Leaf, id: nat, n: nat)
    requires m == Leaf([Some(IntValue(id)), Some(EnumValue(n))], [])
          || m == Leaf([Some(IntValue(id)), None], [VarintRecord(2, n)])
    ensures Write(m) == NumbersOnly(id, n)
  {
    hide EncodeAll;
    var a, b := VarintRecord(1, id), VarintRecord(2, n);
    assert FieldRecords(m.fields, 2) == [];
    assert FieldRecords(m.fields, 1) == if m.unknown == [] then [b] else [];
    assert FieldRecords(m.fields, 0) == [a] + FieldRecords(m.fields, 1);
    assert Records(m) == [a, b];
  }

  lemma NumbersSize(id: nat, n: nat)
    requires id < 0x1_0000_0000_0000_0000 && n < 0x1_0000_0000_0000_0000
    ensures |NumbersOnly(id, n)| == 2 + |Varint(id)| + |Varint(n)|
  {
    hide Varint, EncodeAll;
    TwoRecords([Int64], VarintRecord(1, id), VarintRecord(2, n), 0);
    SmallTag(1, 0);
    SmallTag(2, 0);
  }

  /** A number from 2^32 on takes at least five bytes. */
  lemma FiveBytes(n: nat)
    requires n >= 0x1_0000_0000
    ensures |Varint(n)| >= 5
  {
    assert |Varint(n)| == 1 + |Varint(n / 128)|;
    assert |Varint(n / 128)| == 1 + |Varint(n / 128 / 128)|;
    assert |Varint(n / 128 / 128)| == 1 + |Varint(n / 128 / 128 / 128)|;
    assert |Varint(n / 128 / 128 / 128)| == 1 + |Varint(n / 128 / 128 / 128 / 128)|;
  }

  /** The parser takes a number for an enumerator by its low 32 bits. A message with a number and one of few
      enumerators is then written in the bytes it came in if and only if the number has no other bits, or is taken for
      no enumerator and kept aside; otherwise it is written in fewer bytes. */
  lemma EnumeratorsWrap(schema: Schema, id: nat, n: nat, depth: nat)
    requires |schema| == 2 && schema[0] == Int64 && schema[1].Enum? && schema[1].limit <= 128
    requires id < 0x1_0000_0000_0000_0000 && n < 0x1_0000_0000_0000_0000
    ensures var bytes := NumbersOnly(id, n);
            var m := Parse(schema, Empty(schema), bytes, depth);
            && m.Some?
            && (m.value.fields[1].Some? <==> Enumerator(n) < schema[1].limit)
            && (m.value.fields[1].Some? ==> m.value.fields[1].value == EnumValue(Enumerator(n)))
            && (Write(m.value) == bytes <==> n < 0x1_0000_0000 || Enumerator(n) >= schema[1].limit)
            && (Write(m.value) != bytes ==> |Write(m.value)| < |bytes|)
  {
    hide Parse, NumbersOnly, Write, Varint;
    NumbersAreParsed(schema, id, n, depth);
    var low := Enumerator(n);
    NumbersSize(id, n);
    if low >= schema[1].limit {
      NumbersAreWritten(NumbersParsed(id, n, schema[1].limit), id, n);
    } else {
      NumbersAreWritten(NumbersParsed(id, n, schema[1].limit), id, low);
      NumbersSize(id, low);
      OneByte(low);
      if n >= 0x1_0000_0000 {
        FiveBytes(n);
      }
    }
  }

  lemma OneByte(n: nat)
    requires n < 128
    ensures |Varint(n)| == 1
  {
  }

  // ----- one record at a time -----

  function TakeOne(schema: Schema, m: Leaf, data: seq<octet>, ptr: nat, depth: nat): Option<Leaf>
    requires |m.fields| == |schema| && ptr <= |data|
  {
    match ReadRecord(data[ptr..], depth)
    case Failure => None
    case Got(r, n) => Parse(schema, Apply(schema, m, r), data[ptr + n..], depth)
  }

  /** Parsing from a position on is taking one record and parsing on from behind it. */
  lemma ParseStep(schema: Schema, m: Leaf, data: seq<octet>, ptr: nat, depth: nat)
    requires |m.fields| == |schema| && ptr <= |data|
    ensures ptr == |data| ==> Parse(schema, m, data[ptr..], depth) == Some(m)
    ensures ptr < |data| ==> Parse(schema, m, data[ptr..], depth) == TakeOne(schema, m, data, ptr, depth)
  {
    hide Apply, ReadRecord;
    if ptr < |data| && ReadRecord(data[ptr..], depth).Got? {
      var n := ReadRecord(data[ptr..], depth).length;
      assert data[ptr..][n..] == data[ptr + n..];
      var others := ReadRecords(data[ptr + n..], depth);
      if others.Some? {
        var r := ReadRecord(data[ptr..], depth).value;
        assert ([r] + others.value)[1..] == others.value;
      }
    }
  }

  // ----- what a parse leaves behind, whether or not it succeeds -----

  /** What a field is before anything is parsed into it. */
  function Default(kind: Kind): Value {
    match kind
    case Int64 => IntValue(0)
    case Text => TextValue([])
    case Enum(_) => EnumValue(0)
  }

  /** The value that the program gets from a field, which may be absent. */
  function Get(schema: Schema, m: Leaf, i: nat): Value
    requires i < |m.fields| == |schema|
  {
    if m.fields[i].Some? then m.fields[i].value else Default(schema[i])
  }

  /** The tag of a field: its number and the wire type of its kind. */
  function ExpectedTag(kind: Kind, number: nat): nat {
    8 * number + if kind.Text? then 2 else 0
  }

  function Set(m: Leaf, i: nat, v: Value): Leaf
    requires i < |m.fields|
  {
    m.(fields := m.fields[i := Some(v)])
  }

  /** What follows the expected tag of field number. A number that cannot be read leaves a zero, an enumerator that
      cannot be read leaves nothing, and a string that is cut off leaves what of it could be copied. */
  function TakeField(schema: Schema, m: Leaf, number: nat, data: seq<octet>, limit: nat, start: nat, p: nat)
    : (s: Step<Leaf>)
    requires |m.fields| == |schema| && 0 < number <= |schema|
    requires start < |data| && start <= p <= start + 5
    ensures |s.value.fields| == |schema| && (s.ok ==> p < s.end <= |data| + 16)
  {
    match schema[number - 1]
    case Int64 =>
      (match ReadVarint64(From(data, p))
       case Failure => Step(Set(m, number - 1, IntValue(0)), p, false)
       case Got(n, k) => Step(Set(m, number - 1, IntValue(n)), p + k, true))
    case Text =>
      (match TakeText(data, limit, start, p)
       case NoSize => Step(Set(m, number - 1, Get(schema, m, number - 1)), p, false)
       case Cut(bytes) => Step(Set(m, number - 1, TextValue(bytes)), p, false)
       case Whole(bytes, end) => Step(Set(m, number - 1, TextValue(bytes)), end, true))
    case Enum(_) =>
      (match ReadVarint64(From(data, p))
       case Failure => Step(m, p, false)
       case Got(n, k) => Step(Apply(schema, m, VarintRecord(number, n)), p + k, true))
  }

  /** One record, of a field or unknown. */
  function TakeRecord(schema: Schema, m: Leaf, data: seq<octet>, limit: nat, ptr: nat, depth: nat): (s: Step<Leaf>)
    requires |m.fields| == |schema| && ptr < |data|
    ensures |s.value.fields| == |schema| && (s.ok ==> ptr < s.end <= |data| + 16)
  {
    match ReadTag(From(data, ptr))
    case Failure => Step(m, ptr, false)
    case Got(tag, k) =>
      var number, p := tag / 8, ptr + k;
      if 0 < number <= |schema| && tag % 256 == ExpectedTag(schema[number - 1], number) then
        TakeField(schema, m, number, data, limit, ptr, p)
      else
        match TakeBody(number, tag % 8, data, limit, ptr, p, depth)
        case Took(r, end) => Step(m.(unknown := m.unknown + [r]), end, true)
        case Stopped(stored) => Step(m.(unknown := m.unknown + stored), ptr, false)
  }

  /** All records of a message that ends at limit. The message is complete when its last record ends there, and that
      is not behind the end of the data. */
  function Run(schema: Schema, m: Leaf, data: seq<octet>, limit: nat, ptr: nat, depth: nat): (r: Outcome<Leaf>)
    requires |m.fields| == |schema|
    ensures |r.value.fields| == |schema| && (r.ok ==> ptr <= limit <= |data|)
    decreases |data| + 16 - ptr
  {
    if ptr >= |data| || ptr >= limit then Outcome(m, ptr == limit <= |data|)
    else
      var s := TakeRecord(schema, m, data, limit, ptr, depth);
      if s.ok then Run(schema, s.value, data, limit, s.end, depth) else Outcome(s.value, false)
  }

  lemma FieldWithin(schema: Schema, m: Leaf, number: nat, data: seq<octet>, limit: nat, end: nat, start: nat, p: nat,
                    depth: nat)
    requires |m.fields| == |schema| && 0 < number <= |schema|
    requires start < |data| && start <= p <= start + 5 && p <= end <= |data| && end <= limit
    ensures var wireType := ExpectedTag(schema[number - 1], number) % 8;
            var s, r := TakeField(schema, m, number, data, limit, start, p),
                        ReadBody(number, wireType, data[p..end], depth);
            && (r.Got? <==> s.ok && s.end <= end)
            && (r.Got? ==> s.end == p + r.length && s.value == Apply(schema, m, r.value))
  {
    hide ReadVarint64, ReadSize, From, TakeText;
    ReadersWithin(data, end, p);
    if schema[number - 1].Text? {
      TextWithin(data, limit, end, start, p);
    }
  }

  /** A tag that no field expects is the end of a group, or is in front of a record that no field takes. */
  lemma TagForNobody(schema: Schema, tag: nat, rest: seq<octet>, depth: nat)
    requires 0 < tag / 8 <= |schema| ==> tag % 256 != ExpectedTag(schema[tag / 8 - 1], tag / 8)
    ensures var r := ReadBody(tag / 8, tag % 8, rest, depth);
            && (tag == 0 || tag % 8 == 4 ==> r == Failure)
            && (r.Got? ==> Interpret(schema, r.value) == None)
  {
    hide ReadVarint64, ReadSize, ReadGroup;
  }

  lemma TakeRecordWithin(schema: Schema, m: Leaf, data: seq<octet>, limit: nat, end: nat, ptr: nat, depth: nat)
    requires |m.fields| == |schema| && ptr < end <= |data| && end <= limit
    ensures var s, r := TakeRecord(schema, m, data, limit, ptr, depth), ReadRecord(data[ptr..end], depth);
            && (r.Got? <==> s.ok && s.end <= end)
            && (r.Got? ==> s.end == ptr + r.length && s.value == Apply(schema, m, r.value))
  {
    hide ReadTag, ReadBody, TakeBody, TakeField, From, Interpret;
    ReadersWithin(data, end, ptr);
    var t := ReadTag(data[ptr..end]);
    if t.Got? {
      var number, p := t.value / 8, ptr + t.length;
      assert data[ptr..end][t.length..] == data[p..end];
      if 0 < number <= |schema| && t.value % 256 == ExpectedTag(schema[number - 1], number) {
        FieldWithin(schema, m, number, data, limit, end, ptr, p, depth);
      } else {
        TagForNobody(schema, t.value, data[p..end], depth);
        BodyWithin(number, t.value % 8, data, limit, end, ptr, p, depth);
      }
    }
  }

  /** The outcome is a success exactly when the bytes of the message can be parsed, and then the object holds what they
      mean. So zeros behind the data and bytes behind the message never make a difference to a success. */
  lemma {:induction false} RunIsParse(schema: Schema, m: Leaf, data: seq<octet>, limit: nat, ptr: nat, depth: nat)
    requires |m.fields| == |schema| && ptr <= limit <= |data|
    ensures Parse(schema, m, data[ptr..limit], depth)
         == var r := Run(schema, m, data, limit, ptr, depth); if r.ok then Some(r.value) else None
    decreases |data| - ptr
  {
    hide ReadRecord, TakeRecord, Apply, Parse;
    ParseStep(schema, m, data[..limit], ptr, depth);
    assert data[..limit][ptr..] == data[ptr..limit];
    if ptr == limit {
    } else {
      TakeRecordWithin(schema, m, data, limit, limit, ptr, depth);
      var s := TakeRecord(schema, m, data, limit, ptr, depth);
      if s.ok && s.end <= limit {
        assert data[..limit][s.end..] == data[s.end..limit];
        RunIsParse(schema, s.value, data, limit, s.end, depth);
      }
    }
  }

  /** However a parse ends, all records that are complete have been taken: the fields in front of a cut are as they
      were sent. */
  lemma {:induction false} CompleteRecordsStay(schema: Schema, m: Leaf, data: seq<octet>, limit: nat, end: nat,
                                               ptr: nat, depth: nat)
    requires |m.fields| == |schema| && ptr <= end <= |data| && end <= limit
    requires Parse(schema, m, data[ptr..end], depth).Some?
    ensures Run(schema, m, data, limit, ptr, depth)
         == Run(schema, Parse(schema, m, data[ptr..end], depth).value, data, limit, end, depth)
    decreases |data| - ptr
  {
    hide ReadRecord, TakeRecord, Apply, Parse;
    ParseStep(schema, m, data[..end], ptr, depth);
    assert data[..end][ptr..] == data[ptr..end];
    if ptr == end {
    } else {
      TakeRecordWithin(schema, m, data, limit, end, ptr, depth);
      var s := TakeRecord(schema, m, data, limit, ptr, depth);
      assert data[..end][s.end..] == data[s.end..end];
      CompleteRecordsStay(schema, s.value, data, limit, end, s.end, depth);
    }
  }

  lemma UnexpectedRecord(schema: Schema, tag: nat, r: Record)
    requires 0 < tag / 8 <= |schema| ==> tag % 256 != ExpectedTag(schema[tag / 8 - 1], tag / 8)
    requires r.num == tag / 8 && WireType(r) == tag % 8
    ensures Interpret(schema, r) == None
  {
  }

  lemma TakeFieldKeepsWellFormed(schema: Schema, m: Leaf, number: nat, data: seq<octet>, limit: nat, start: nat, p: nat)
    requires WellFormed(schema, m) && 0 < number <= |schema|
    requires start < |data| && start <= p <= start + 5
    ensures WellFormed(schema, TakeField(schema, m, number, data, limit, start, p).value)
  {
    hide ReadVarint64, TakeText, From, AllStorable;
    if schema[number - 1].Enum? && ReadVarint64(From(data, p)).Got? {
      var r := VarintRecord(number, ReadVarint64(From(data, p)).value);
      ApplyKeepsWellFormed(schema, m, r, 0);
    }
  }

  lemma MoreUnknown(schema: Schema, m: Leaf, rs: seq<Record>)
    requires WellFormed(schema, m) && AllStorable(rs) && AllUnknown(schema, rs)
    ensures WellFormed(schema, m.(unknown := m.unknown + rs))
  {
    hide AllStorable, Interpret;
    AllStorableAppend(m.unknown, rs);
  }

  lemma TakeRecordKeepsWellFormed(schema: Schema, m: Leaf, data: seq<octet>, limit: nat, ptr: nat, depth: nat)
    requires WellFormed(schema, m) && ptr < |data|
    ensures WellFormed(schema, TakeRecord(schema, m, data, limit, ptr, depth).value)
  {
    hide TakeBody, TakeField, From, Interpret, WellFormed, Storable, AllStorable;
    FieldsStay(schema, m);
    var t := ReadTag(From(data, ptr));
    if t.Got? {
      var number, p := t.value / 8, ptr + t.length;
      if 0 < number <= |schema| && t.value % 256 == ExpectedTag(schema[number - 1], number) {
        TakeFieldKeepsWellFormed(schema, m, number, data, limit, ptr, p);
      } else {
        TakenIsStorable(number, t.value % 8, data, limit, ptr, p, depth);
        var body := TakeBody(number, t.value % 8, data, limit, ptr, p, depth);
        var stored := if body.Took? then [body.record] else body.stored;
        StorableList(stored);
        forall r | r in stored
          ensures Interpret(schema, r) == None
        {
          UnexpectedRecord(schema, t.value, r);
        }
        MoreUnknown(schema, m, stored);
      }
    }
  }

  /** Whatever bytes are parsed, and however the parse ends, the message stays well formed. */
  lemma {:induction false} RunKeepsWellFormed(schema: Schema, m: Leaf, data: seq<octet>, limit: nat, ptr: nat,
                                              depth: nat)
    requires WellFormed(schema, m)
    ensures |m.fields| == |schema| && WellFormed(schema, Run(schema, m, data, limit, ptr, depth).value)
    decreases |data| + 16 - ptr
  {
    hide TakeRecord, WellFormed;
    FieldsStay(schema, m);
    if ptr < |data| && ptr < limit {
      TakeRecordKeepsWellFormed(schema, m, data, limit, ptr, depth);
      var s := TakeRecord(schema, m, data, limit, ptr, depth);
      if s.ok {
        RunKeepsWellFormed(schema, s.value, data, limit, s.end, depth);
      }
    }
  }
}
