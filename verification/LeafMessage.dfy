/** The object of a message with plain fields: its values, the bits that say which of them are present, and the cached
    size. Each method is proved against the meaning of messages as values. */
module LeafMessages {
  import opened Leaves
  import opened Sequences
  import opened Streams
  import opened Varints
  import opened Wire

  // ----- has-bits -----

  predicate HasBit(bits: bv32, mask: bv32) {
    bits & mask != 0
  }

  function SetBits(bits: bv32, mask: bv32): bv32 {
    bits | mask
  }

  /** All bits of a message with two or three fields. */
  function AllBits(n: nat): bv32 {
    if n == 2 then 3 else 7
  }

  predicate AllPresent(bits: bv32, n: nat) {
    ((bits & AllBits(n)) ^ AllBits(n)) == 0
  }

  predicate AnyPresent(bits: bv32, n: nat) {
    bits & AllBits(n) != 0
  }

  /** The bits of the fields 1, 2, ... in the messages of the protocol: strings come first. */
  predicate ValidMasks(masks: seq<bv32>) {
    masks == [1, 2] || masks == [4, 1, 2] || masks == [2, 4, 1]
  }

  predicate NotZero(bits: bv32) {
    bits != 0
  }

  lemma HasBitUnfold(bits: bv32, mask: bv32)
    ensures HasBit(bits, mask) <==> NotZero(bits & mask)
  {
  }

  lemma SetBitsUnfold(bits: bv32, more: bv32)
    ensures SetBits(bits, more) == bits | more
  {
  }

  lemma AndDistributes(bits: bv32, more: bv32, mask: bv32)
    ensures (bits | more) & mask == (bits & mask) | (more & mask)
    ensures !NotZero(0 & mask)
  {
  }

  lemma NotZeroOr(x: bv32, y: bv32)
    ensures NotZero(x | y) <==> NotZero(x) || NotZero(y)
  {
  }

  lemma BitLaws(bits: bv32, more: bv32, mask: bv32)
    ensures !HasBit(0, mask)
    ensures HasBit(SetBits(bits, more), mask) <==> HasBit(bits, mask) || HasBit(more, mask)
  {
    hide *;
    SetBitsUnfold(bits, more);
    HasBitUnfold(0, mask);
    HasBitUnfold(bits, mask);
    HasBitUnfold(more, mask);
    HasBitUnfold(bits | more, mask);
    AndDistributes(bits, more, mask);
    NotZeroOr(bits & mask, more & mask);
  }

  lemma MaskLaws(masks: seq<bv32>)
    requires ValidMasks(masks)
    ensures |masks| == 2 || |masks| == 3
    ensures forall i, j :: 0 <= i < |masks| && 0 <= j < |masks| ==> (HasBit(masks[i], masks[j]) <==> i == j)
  {
  }

  lemma ThreeBits(bits: bv32)
    ensures AllPresent(bits, 2) <==> HasBit(bits, 1) && HasBit(bits, 2)
    ensures AllPresent(bits, 3) <==> HasBit(bits, 1) && HasBit(bits, 2) && HasBit(bits, 4)
    ensures AnyPresent(bits, 2) <==> HasBit(bits, 1) || HasBit(bits, 2)
    ensures AnyPresent(bits, 3) <==> HasBit(bits, 1) || HasBit(bits, 2) || HasBit(bits, 4)
  {
  }

  /** The tests of all bits at once are tests of every field, or of any field. */
  lemma PresenceLaws(masks: seq<bv32>, bits: bv32)
    requires ValidMasks(masks)
    ensures AllPresent(bits, |masks|) <==> forall i :: 0 <= i < |masks| ==> HasBit(bits, masks[i])
    ensures AnyPresent(bits, |masks|) <==> exists i :: 0 <= i < |masks| && HasBit(bits, masks[i])
  {
    hide AllPresent, AnyPresent, HasBit;
    ThreeBits(bits);
    if masks == [1, 2] {
      assert masks[0] == 1 && masks[1] == 2;
    } else if masks == [4, 1, 2] {
      assert masks[0] == 4 && masks[1] == 1 && masks[2] == 2;
    } else {
      assert masks[0] == 2 && masks[1] == 4 && masks[2] == 1;
    }
  }

  /** The fields that are present. */
  function Present(values: seq<Value>, masks: seq<bv32>, bits: bv32): seq<Option<Value>>
    requires |values| == |masks|
  {
    seq(|values|, i requires 0 <= i < |values| => if HasBit(bits, masks[i]) then Some(values[i]) else None)
  }

  lemma PresentAfterSet(values: seq<Value>, masks: seq<bv32>, bits: bv32, i: nat, v: Value)
    requires ValidMasks(masks) && |values| == |masks| && i < |values|
    ensures Present(values[i := v], masks, SetBits(bits, masks[i])) == Present(values, masks, bits)[i := Some(v)]
  {
    hide HasBit, SetBits;
    MaskLaws(masks);
    forall j | 0 <= j < |masks| {
      BitLaws(bits, masks[i], masks[j]);
    }
  }

  lemma NothingPresent(schema: Schema, values: seq<Value>, masks: seq<bv32>)
    requires |schema| == |values| == |masks|
    ensures Present(values, masks, 0) == Empty(schema).fields
  {
    hide HasBit, SetBits;
    forall j | 0 <= j < |masks| {
      BitLaws(0, 0, masks[j]);
    }
  }

  /** Fields that are absent hold their defaults. */
  ghost predicate AbsentAreDefault(schema: Schema, values: seq<Value>, masks: seq<bv32>, bits: bv32)
    requires |schema| == |values| == |masks|
  {
    forall i :: 0 <= i < |schema| && !HasBit(bits, masks[i]) ==> values[i] == Default(schema[i])
  }

  lemma DefaultsAfterSet(schema: Schema, values: seq<Value>, masks: seq<bv32>, bits: bv32, i: nat, v: Value)
    requires ValidMasks(masks) && |schema| == |values| == |masks| && i < |schema|
    requires AbsentAreDefault(schema, values, masks, bits)
    ensures AbsentAreDefault(schema, values[i := v], masks, SetBits(bits, masks[i]))
  {
    hide HasBit, SetBits;
    MaskLaws(masks);
    forall j | 0 <= j < |masks| {
      BitLaws(bits, masks[i], masks[j]);
    }
  }

  /** The values after the first n fields that are present in another message were taken over. */
  function Merged(values: seq<Value>, others: seq<Value>, masks: seq<bv32>, bits: bv32, n: nat): seq<Value>
    requires |values| == |others| == |masks|
  {
    seq(|values|, i requires 0 <= i < |values| => if i < n && HasBit(bits, masks[i]) then others[i] else values[i])
  }

  lemma MergedGrows(values: seq<Value>, others: seq<Value>, masks: seq<bv32>, bits: bv32, n: nat)
    requires n < |values| == |others| == |masks|
    ensures Merged(values, others, masks, bits, 0) == values
    ensures Merged(values, others, masks, bits, n + 1)
         == var v := Merged(values, others, masks, bits, n); if HasBit(bits, masks[n]) then v[n := others[n]] else v
  {
    hide HasBit;
  }

  lemma MergedPresent(schema: Schema, values: seq<Value>, others: seq<Value>, masks: seq<bv32>, bits: bv32, more: bv32)
    requires |schema| == |values| == |others| == |masks|
    requires AbsentAreDefault(schema, values, masks, bits)
    ensures var merged := Merged(values, others, masks, more, |values|);
            && AbsentAreDefault(schema, merged, masks, SetBits(bits, more))
            && Present(merged, masks, SetBits(bits, more))
               == MergeFields(Present(values, masks, bits), Present(others, masks, more))
  {
    hide HasBit, SetBits;
    forall j | 0 <= j < |masks| {
      BitLaws(bits, more, masks[j]);
    }
  }

  class LeafMessage {
    const schema: Schema
    const masks: seq<bv32>
    var values: seq<Value>
    var hasBits: bv32
    var unknown: seq<Record>
    var cachedSize: nat

    ghost predicate Shaped()
      reads this`values, this`hasBits
    {
      ValidMasks(masks) && |values| == |masks| == |schema| && AbsentAreDefault(schema, values, masks, hasBits)
    }

    /** The message as a value. */
    ghost function View(): (m: Leaf)
      requires Shaped()
      reads this`values, this`hasBits, this`unknown
      ensures |m.fields| == |schema|
    {
      Leaf(Present(values, masks, hasBits), unknown)
    }

    ghost predicate Valid()
      reads this`values, this`hasBits, this`unknown
    {
      Shaped() && WellFormed(schema, View())
    }

    constructor (schema: Schema, masks: seq<bv32>)
      requires ValidMasks(masks) && |masks| == |schema|
      ensures this.schema == schema && this.masks == masks
      ensures Valid() && View() == Empty(schema)
    {
      this.schema := schema;
      this.masks := masks;
      this.values := seq(|schema|, i requires 0 <= i < |schema| => Default(schema[i]));
      this.hasBits := 0;
      this.unknown := [];
      this.cachedSize := 0;
      new;
      NothingPresent(schema, values, masks);
      EmptyIsWellFormed(schema, 0);
    }

    method Clear()
      requires Valid()
      modifies this`values, this`hasBits, this`unknown
      ensures Valid() && View() == Empty(schema)
    {
      values := seq(|schema|, i requires 0 <= i < |schema| => Default(schema[i]));
      hasBits := 0;
      unknown := [];
      NothingPresent(schema, values, masks);
      EmptyIsWellFormed(schema, 0);
    }

    /** Every required field is present. */
    method IsInitialized() returns (yes: bool)
      requires Valid()
      ensures yes == Initialized(View())
    {
      hide AllPresent, AllBits, HasBit, WellFormed;
      PresenceLaws(masks, hasBits);
      yes := AllPresent(hasBits, |masks|);
      assert forall i :: 0 <= i < |masks| ==> (View().fields[i].Some? <==> HasBit(hasBits, masks[i]));
    }

    /** What the program reads from a field. */
    function GetField(i: nat): (v: Value)
      requires Shaped() && i < |schema|
      reads this`values, this`hasBits, this`unknown
      ensures v == Get(schema, View(), i)
    {
      values[i]
    }

    method SetField(i: nat, v: Value)
      requires Shaped() && i < |schema|
      modifies this`values, this`hasBits
      ensures Shaped() && View() == Set(old(View()), i, v)
    {
      hide AbsentAreDefault;
      PresentAfterSet(values, masks, hasBits, i, v);
      DefaultsAfterSet(schema, values, masks, hasBits, i, v);
      values := values[i := v];
      hasBits := SetBits(hasBits, masks[i]);
    }

    /** Keep records aside. */
    method AddUnknown(rs: seq<Record>)
      requires Shaped()
      modifies this`unknown
      ensures Shaped() && View() == old(View()).(unknown := old(View()).unknown + rs)
    {
      unknown := unknown + rs;
    }

    /** What follows the tag of field number, when the tag is the expected one. */
    method ParseField(number: nat, data: seq<octet>, limit: nat, start: nat, p: nat) returns (ok: bool, end: nat)
      requires Shaped() && 0 < number <= |schema|
      requires start < |data| && start <= p <= start + 5
      modifies this`values, this`hasBits, this`unknown
      ensures Shaped()
      ensures var s := TakeField(schema, old(View()), number, data, limit, start, p);
              View() == s.value && ok == s.ok && (ok ==> end == s.end)
    {
      hide HasBit, SetBits, AbsentAreDefault, ReadGroups, TakeText, From;
      ok, end := false, p;
      match schema[number - 1]
      case Int64 =>
        var n := ParseVarint(From(data, p), 10);
        if n == Failure {
          SetField(number - 1, IntValue(0));
          return;
        }
        SetField(number - 1, IntValue(n.value));
        ok, end := true, p + n.length;
      case Text =>
        // the field counts as present before its string is read
        SetField(number - 1, GetField(number - 1));
        var text := ParseText(data, limit, start, p);
        if text.NoSize? {
          return;
        }
        SetField(number - 1, TextValue(text.bytes));
        if text.Whole? {
          ok, end := true, text.end;
        }
      case Enum(limit) =>
        var n := ParseVarint(From(data, p), 10);
        if n == Failure {
          return;
        }
        if Enumerator(n.value) < limit {
          SetField(number - 1, EnumValue(Enumerator(n.value)));
        } else {
          AddUnknown([VarintRecord(number, n.value)]);
        }
        ok, end := true, p + n.length;
    }

    /** One round of the parse loop: a tag and what follows it. */
    method ParseRecord(data: seq<octet>, limit: nat, ptr: nat, depth: nat) returns (ok: bool, end: nat)
      requires Shaped() && ptr < |data|
      modifies this`values, this`hasBits, this`unknown
      ensures Shaped()
      ensures var s := TakeRecord(schema, old(View()), data, limit, ptr, depth);
              View() == s.value && ok == s.ok && (ok ==> end == s.end)
    {
      hide ReadTag, TakeBody, TakeField, From, HasBit, AbsentAreDefault;
      ok, end := false, ptr;
      assert View().unknown + [] == View().unknown;
      var t := ParseTag(From(data, ptr));
      if t == Failure {
        return;
      }
      var tag, p := t.value, ptr + t.length;
      var number := tag / 8;
      if 0 < number <= |schema| && tag % 256 == ExpectedTag(schema[number - 1], number) {
        ok, end := ParseField(number, data, limit, ptr, p);
        return;
      }
      NoBody(tag, data, limit, ptr, p, depth);
      // a message that ends on a tag has not ended at its limit, and is refused by the caller
      if tag == 0 || tag % 8 == 4 {
        return;
      }
      var r := ParseBody(number, tag % 8, data, limit, ptr, p, depth);
      match r
      case Took(record, behind) =>
        AddUnknown([record]);
        ok, end := true, behind;
      case Stopped(stored) =>
        AddUnknown(stored);
    }

    /** Parse a message that lies in the data from ptr to limit into this object. */
    method Parse(data: seq<octet>, limit: nat, ptr: nat, depth: nat) returns (ok: bool)
      requires Valid()
      modifies this`values, this`hasBits, this`unknown
      ensures Valid()
      ensures var r := Run(schema, old(View()), data, limit, ptr, depth); View() == r.value && ok == r.ok
    {
      hide HasBit, AbsentAreDefault, WellFormed, TakeRecord;
      var p := ptr;
      while p < |data| && p < limit
        invariant Valid()
        invariant Run(schema, View(), data, limit, p, depth) == Run(schema, old(View()), data, limit, ptr, depth)
        decreases |data| + 16 - p
      {
        TakeRecordKeepsWellFormed(schema, View(), data, limit, p, depth);
        ok, p := ParseRecord(data, limit, p, depth);
        if !ok {
          return;
        }
      }
      ok := p == limit && p <= |data|;
    }

    /** Write the fields that are present, and then the unknown records. */
    method Serialize() returns (out: seq<octet>)
      requires Valid()
      ensures out == Write(View())
    {
      hide HasBit, EncodeAll, FieldRecords, FieldRecord, WellFormed, AbsentAreDefault;
      ghost var m := View();
      out := [];
      for i := 0 to |schema|
        invariant out + EncodeAll(FieldRecords(m.fields, i)) == EncodeAll(FieldRecords(m.fields, 0))
      {
        FieldsSplit(m.fields, i);
        ghost var rest := EncodeAll(FieldRecords(m.fields, i + 1));
        if HasBit(hasBits, masks[i]) {
          assert m.fields[i] == Some(values[i]);
          Regroup(out, Encode(FieldRecord(i + 1, values[i])), rest);
          out := out + Encode(FieldRecord(i + 1, values[i]));
        } else {
          assert m.fields[i] == None;
        }
      }
      FieldsSplit(m.fields, |schema|);
      assert out + [] == out;
      EncodeAllAppend(FieldRecords(m.fields, 0), unknown);
      var rest := SerializeRecords(unknown);
      out := out + rest;
    }

    /** The size of the fields that are present. */
    method RequiredFieldsByteSizeFallback() returns (size: nat)
      requires Shaped()
      ensures size == FieldsSize(View().fields, 0)
    {
      hide HasBit, FieldSize;
      ghost var m := View();
      size := 0;
      for i := 0 to |schema|
        invariant size + FieldsSize(m.fields, i) == FieldsSize(m.fields, 0)
      {
        if HasBit(hasBits, masks[i]) {
          size := size + FieldSize(values[i]);
        }
      }
    }

    /** The size of all fields, without looking at the bits one by one. */
    method AllFieldsByteSize() returns (size: nat)
      requires Shaped() && AllPresent(hasBits, |masks|)
      ensures size == FieldsSize(View().fields, 0)
    {
      hide HasBit, FieldSize, AllPresent;
      PresenceLaws(masks, hasBits);
      ghost var m := View();
      size := 0;
      for i := 0 to |schema|
        invariant size + FieldsSize(m.fields, i) == FieldsSize(m.fields, 0)
      {
        assert HasBit(hasBits, masks[i]);
        size := size + FieldSize(values[i]);
      }
    }

    /** The size of the message. It is cached for the length prefix in front of it. */
    method ByteSizeLong() returns (size: nat)
      requires Valid()
      modifies this`cachedSize
      ensures Valid() && View() == old(View())
      ensures size == cachedSize == |Write(View())|
    {
      hide WellFormed, AllPresent, FieldsSize, RecordsSize, Write;
      SizeIsLength(schema, View());
      if AllPresent(hasBits, |masks|) {
        size := AllFieldsByteSize();
      } else {
        size := RequiredFieldsByteSizeFallback();
      }
      if unknown != [] {
        size := size + RecordsSize(unknown);
      }
      cachedSize := size;
      NoRecordsSize();
    }

    /** Take over the fields that are present in another message. */
    method MergeFieldsFrom(other: LeafMessage)
      requires Shaped() && other.Shaped() && other != this && other.schema == schema && other.masks == masks
      modifies this`values, this`hasBits
      ensures Shaped() && unknown == old(unknown)
      ensures View().fields == MergeFields(old(View()).fields, other.View().fields)
    {
      hide HasBit, SetBits, AbsentAreDefault, Merged, Present, MergeFields;
      ghost var before := values;
      MergedGrows(before, other.values, masks, other.hasBits, 0);
      for i := 0 to |schema|
        invariant hasBits == old(hasBits) && |values| == |schema|
        invariant values == Merged(before, other.values, masks, other.hasBits, i)
      {
        MergedGrows(before, other.values, masks, other.hasBits, i);
        if HasBit(other.hasBits, masks[i]) {
          values := values[i := other.values[i]];
        }
      }
      MergedPresent(schema, before, other.values, masks, hasBits, other.hasBits);
      hasBits := SetBits(hasBits, other.hasBits);
    }

    /** Take over the fields that are present in another message, and its unknown records. */
    method MergeFrom(other: LeafMessage)
      requires Valid() && other.Valid() && other != this && other.schema == schema && other.masks == masks
      modifies this`values, this`hasBits, this`unknown
      ensures Valid() && View() == Merge(old(View()), other.View())
    {
      hide HasBit, SetBits, AnyPresent, AbsentAreDefault, WellFormed;
      ghost var m, n := View(), other.View();
      PresenceLaws(masks, other.hasBits);
      MergeKeepsWellFormed(schema, m, n);
      if AnyPresent(other.hasBits, |masks|) {
        MergeFieldsFrom(other);
      } else {
        assert MergeFields(m.fields, n.fields) == m.fields;
      }
      unknown := unknown + other.unknown;
    }
  }

  /** In front of a zero tag or of the end of a group nothing is stored. */
  lemma NoBody(tag: nat, data: seq<octet>, limit: nat, start: nat, p: nat, depth: nat)
    requires start < |data| && start <= p <= start + 5
    ensures tag == 0 || tag % 8 == 4 ==> TakeBody(tag / 8, tag % 8, data, limit, start, p, depth) == Stopped([])
  {
    hide ReadVarint64, TakeText, TakeGroup, From;
  }
}
