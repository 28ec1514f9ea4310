/** The two messages that hold lists of the others, as values: what their encodings mean, how two of them merge, and
    what parsing and writing have to do with each other. */
module Envelopes {
  import opened Streams
  import opened Varints
  import opened Wire
  import Leaves

  /** The messages of the lists, which have the field numbers from first on. */
  datatype LayoutData = Layout(first: nat, leaves: seq<Leaves.Schema>)

  type Layout = l: LayoutData | 0 < l.first && 0 < |l.leaves| && l.first + |l.leaves| <= 5
    witness Layout(1, [[Leaves.Int64]])

  /** A list of messages for each field, and the records that no field took. */
  datatype Envelope = Envelope(entries: seq<seq<Leaves.Leaf>>, unknown: seq<Record>)

  function Empty(layout: Layout): Envelope {
    Envelope(seq(|layout.leaves|, _ => []), [])
  }

  // ----- reading -----

  /** The list for a record. */
  function Slot(layout: Layout, r: Record): (i: Option<nat>)
    ensures i.Some? ==> i.value < |layout.leaves| && r.DelimitedRecord? && r.num == layout.first + i.value
  {
    if r.DelimitedRecord? && layout.first <= r.num < layout.first + |layout.leaves| then Some(r.num - layout.first)
    else None
  }

  function ParseLeaf(layout: Layout, i: nat, payload: seq<octet>, depth: nat): Option<Leaves.Leaf>
    requires i < |layout.leaves|
  {
    if depth == 0 then None
    else Leaves.Parse(layout.leaves[i], Leaves.Empty(layout.leaves[i]), payload, depth - 1)
  }

  function Append(e: Envelope, i: nat, m: Leaves.Leaf): Envelope
    requires i < |e.entries|
  {
    e.(entries := e.entries[i := e.entries[i] + [m]])
  }

  /** A message for a list is parsed and appended to it; anything else is kept aside. */
  function Apply(layout: Layout, e: Envelope, r: Record, depth: nat): (e': Option<Envelope>)
    requires |e.entries| == |layout.leaves|
    ensures e'.Some? ==> |e'.value.entries| == |layout.leaves|
  {
    match Slot(layout, r)
    case None => Some(e.(unknown := e.unknown + [r]))
    case Some(i) =>
      match ParseLeaf(layout, i, r.payload, depth)
      case None => None
      case Some(m) => Some(Append(e, i, m))
  }

  function ApplyAll(layout: Layout, e: Envelope, rs: seq<Record>, depth: nat): (e': Option<Envelope>)
    requires |e.entries| == |layout.leaves|
    ensures e'.Some? ==> |e'.value.entries| == |layout.leaves|
    decreases |rs|
  {
    if rs == [] then Some(e)
    else
      match Apply(layout, e, rs[0], depth)
      case None => None
      case Some(next) => ApplyAll(layout, next, rs[1..], depth)
  }

  /** Parse an encoding into an envelope that may already hold entries. */
  function Parse(layout: Layout, e: Envelope, data: seq<octet>, depth: nat): (r: Option<Envelope>)
    requires |e.entries| == |layout.leaves|
    ensures r.Some? ==> |r.value.entries| == |layout.leaves|
  {
    match ReadRecords(data, depth)
    case None => None
    case Some(rs) => ApplyAll(layout, e, rs, depth)
  }

  // ----- writing -----

  function ListRecords(num: nat, list: seq<Leaves.Leaf>): seq<Record> {
    if list == [] then [] else [DelimitedRecord(num, Leaves.Write(list[0]))] + ListRecords(num, list[1..])
  }

  /** The records of the lists from index i on. */
  function EntryRecords(layout: Layout, entries: seq<seq<Leaves.Leaf>>, i: nat): seq<Record>
    requires i <= |entries|
    decreases |entries| - i
  {
    if i == |entries| then []
    else ListRecords(layout.first + i, entries[i]) + EntryRecords(layout, entries, i + 1)
  }

  function Records(layout: Layout, e: Envelope): seq<Record> {
    EntryRecords(layout, e.entries, 0) + e.unknown
  }

  function Write(layout: Layout, e: Envelope): seq<octet> {
    EncodeAll(Records(layout, e))
  }

  // ----- well-formed envelopes -----

  ghost predicate AllWellFormed(schema: Leaves.Schema, list: seq<Leaves.Leaf>) {
    forall m :: m in list ==> Leaves.WellFormed(schema, m) && |Leaves.Write(m)| < 0x1_0000_0000
  }

  ghost predicate AllUnknown(layout: Layout, rs: seq<Record>) {
    forall r :: r in rs ==> Slot(layout, r) == None
  }

  ghost predicate WellFormed(layout: Layout, e: Envelope) {
    && |e.entries| == |layout.leaves|
    && (forall i :: 0 <= i < |e.entries| ==> AllWellFormed(layout.leaves[i], e.entries[i]))
    && AllStorable(e.unknown)
    && AllUnknown(layout, e.unknown)
  }

  /** The entries of a list can be parsed where they are. */
  ghost predicate ListFits(list: seq<Leaves.Leaf>, depth: nat) {
    forall m :: m in list ==> depth > 0 && Leaves.LeafFits(m, depth - 1)
  }

  /** The entries of a list are not too long. */
  ghost predicate ListIsShort(list: seq<Leaves.Leaf>) {
    forall m :: m in list ==> |Leaves.Write(m)| <= MAX_SIZE
  }

  /** Everything is small enough to be parsed at the depth. */
  ghost predicate EnvelopeFits(e: Envelope, depth: nat) {
    && (forall i :: 0 <= i < |e.entries| ==> ListIsShort(e.entries[i]) && ListFits(e.entries[i], depth))
    && AllFit(e.unknown, depth)
  }

  /** Every entry has all its fields. */
  predicate Initialized(e: Envelope) {
    forall i :: 0 <= i < |e.entries| ==> forall m :: m in e.entries[i] ==> Leaves.Initialized(m)
  }

  // ----- records in sequence -----

  lemma {:induction false} ApplyAllAppend(layout: Layout, e: Envelope, a: seq<Record>, b: seq<Record>, depth: nat)
    requires |e.entries| == |layout.leaves|
    ensures ApplyAll(layout, e, a + b, depth)
         == match ApplyAll(layout, e, a, depth)
            case None => None
            case Some(next) => ApplyAll(layout, next, b, depth)
    decreases |a|
  {
    hide Apply;
    if a == [] {
      assert a + b == b;
    } else {
      assert (a + b)[1..] == a[1..] + b;
      var next := Apply(layout, e, a[0], depth);
      if next.Some? {
        ApplyAllAppend(layout, next.value, a[1..], b, depth);
      }
    }
  }

  lemma {:induction false} UnknownRecordsStay(layout: Layout, e: Envelope, rs: seq<Record>, depth: nat)
    requires |e.entries| == |layout.leaves| && AllUnknown(layout, rs)
    ensures ApplyAll(layout, e, rs, depth) == Some(e.(unknown := e.unknown + rs))
    decreases |rs|
  {
    hide Slot, ParseLeaf;
    if rs == [] {
      assert e.unknown + rs == e.unknown;
    } else {
      UnknownRecordsStay(layout, e.(unknown := e.unknown + [rs[0]]), rs[1..], depth);
      assert e.unknown + [rs[0]] + rs[1..] == e.unknown + rs;
    }
  }

  // ----- parsing undoes writing -----

  /** The envelope with list i replaced. */
  function WithList(e: Envelope, i: nat, list: seq<Leaves.Leaf>): Envelope
    requires i < |e.entries|
  {
    e.(entries := e.entries[i := list])
  }

  lemma EntryIsTaken(layout: Layout, e: Envelope, i: nat, m: Leaves.Leaf, depth: nat)
    requires |e.entries| == |layout.leaves| && i < |layout.leaves| && Leaves.WellFormed(layout.leaves[i], m)
    ensures Apply(layout, e, DelimitedRecord(layout.first + i, Leaves.Write(m)), depth)
         == if depth > 0 && Leaves.LeafFits(m, depth - 1) then Some(Append(e, i, m)) else None
  {
    hide Leaves.Parse, Leaves.WellFormed, Leaves.LeafFits, Leaves.Write;
    if depth > 0 {
      Leaves.ParseUndoesWrite(layout.leaves[i], m, depth - 1);
    }
  }

  lemma NothingIsTooDeep(depth: nat)
    ensures ListFits([], depth)
  {
  }

  lemma ListFitsSplit(list: seq<Leaves.Leaf>, depth: nat)
    requires list != []
    ensures ListFits(list, depth)
       <==> depth > 0 && Leaves.LeafFits(list[0], depth - 1) && ListFits(list[1..], depth)
  {
    hide Leaves.LeafFits;
    assert forall m :: m in list <==> m == list[0] || m in list[1..];
    assert list[0] in list;
  }

  /** The records of a list are appended to the same list, if all of them can be parsed. */
  lemma {:induction false} ListIsTaken(layout: Layout, e: Envelope, i: nat, list: seq<Leaves.Leaf>, depth: nat)
    requires |e.entries| == |layout.leaves| && i < |layout.leaves| && AllWellFormed(layout.leaves[i], list)
    ensures ApplyAll(layout, e, ListRecords(layout.first + i, list), depth)
         == if ListFits(list, depth) then Some(WithList(e, i, e.entries[i] + list)) else None
    decreases |list|
  {
    hide Apply, Leaves.WellFormed, Leaves.LeafFits, Leaves.Write, ListFits;
    if list == [] {
      assert ListFits(list, depth) by {
        NothingIsTooDeep(depth);
      }
      assert e.entries[i] + list == e.entries[i];
      assert WithList(e, i, e.entries[i]) == e;
    } else {
      var m := list[0];
      EntryIsTaken(layout, e, i, m, depth);
      ListFitsSplit(list, depth);
      ListIsTaken(layout, Append(e, i, m), i, list[1..], depth);
      assert e.entries[i] + [m] + list[1..] == e.entries[i] + list;
      assert WithList(Append(e, i, m), i, e.entries[i] + list) == WithList(e, i, e.entries[i] + list);
    }
  }

  /** The envelope with its lists up to index i only. */
  function Upto(layout: Layout, e: Envelope, i: nat): (u: Envelope)
    requires i <= |e.entries| == |layout.leaves|
    ensures |u.entries| == |layout.leaves|
  {
    Envelope(e.entries[..i] + Empty(layout).entries[i..], [])
  }

  ghost predicate ListsFit(entries: seq<seq<Leaves.Leaf>>, i: nat, depth: nat)
  {
    forall j :: i <= j < |entries| ==> ListFits(entries[j], depth)
  }

  lemma UptoSteps(layout: Layout, e: Envelope, i: nat)
    requires i <= |e.entries| == |layout.leaves|
    ensures i == |e.entries| ==> Upto(layout, e, i) == e.(unknown := [])
    ensures i < |e.entries| ==>
              var u := Upto(layout, e, i); WithList(u, i, u.entries[i] + e.entries[i]) == Upto(layout, e, i + 1)
  {
    var u := Upto(layout, e, i);
    if i < |e.entries| {
      assert u.entries[i] + e.entries[i] == e.entries[i];
      assert WithList(u, i, e.entries[i]).entries == Upto(layout, e, i + 1).entries;
    } else {
      assert u.entries == e.entries;
    }
  }

  lemma EntryRecordsSteps(layout: Layout, entries: seq<seq<Leaves.Leaf>>, i: nat)
    requires i <= |entries|
    ensures i == |entries| ==> EntryRecords(layout, entries, i) == []
    ensures i < |entries| ==>
              EntryRecords(layout, entries, i)
              == ListRecords(layout.first + i, entries[i]) + EntryRecords(layout, entries, i + 1)
  {
    hide ListRecords;
  }

  lemma ListsFitSteps(entries: seq<seq<Leaves.Leaf>>, i: nat, depth: nat)
    requires i <= |entries|
    ensures i == |entries| ==> ListsFit(entries, i, depth)
    ensures i < |entries| ==>
              (ListsFit(entries, i, depth) <==> ListFits(entries[i], depth) && ListsFit(entries, i + 1, depth))
  {
    hide ListFits;
  }

  lemma ListOfWellFormed(layout: Layout, e: Envelope, i: nat)
    requires WellFormed(layout, e)
    ensures |e.entries| == |layout.leaves|
    ensures i < |e.entries| ==> AllWellFormed(layout.leaves[i], e.entries[i])
  {
    hide AllWellFormed, AllUnknown;
  }

  lemma NothingIsApplied(layout: Layout, e: Envelope, depth: nat)
    requires |e.entries| == |layout.leaves|
    ensures ApplyAll(layout, e, [], depth) == Some(e)
  {
  }

  lemma {:induction false} EntriesAreTaken(layout: Layout, e: Envelope, i: nat, depth: nat)
    requires WellFormed(layout, e) && i <= |layout.leaves|
    ensures ApplyAll(layout, Upto(layout, e, i), EntryRecords(layout, e.entries, i), depth)
         == if ListsFit(e.entries, i, depth) then Some(e.(unknown := [])) else None
    decreases |layout.leaves| - i
  {
    hide *;
    ListOfWellFormed(layout, e, i);
    UptoSteps(layout, e, i);
    EntryRecordsSteps(layout, e.entries, i);
    ListsFitSteps(e.entries, i, depth);
    var u := Upto(layout, e, i);
    if i == |layout.leaves| {
      NothingIsApplied(layout, u, depth);
    } else {
      ApplyAllAppend(layout, u, ListRecords(layout.first + i, e.entries[i]), EntryRecords(layout, e.entries, i + 1),
                     depth);
      ListIsTaken(layout, u, i, e.entries[i], depth);
      EntriesAreTaken(layout, e, i + 1, depth);
    }
  }

  lemma {:induction false} ListRecordsFit(num: nat, list: seq<Leaves.Leaf>, depth: nat)
    requires 0 < num < 5
    ensures AllFit(ListRecords(num, list), depth) <==> ListIsShort(list)
    ensures (forall m :: m in list ==> |Leaves.Write(m)| < 0x1_0000_0000) ==> AllStorable(ListRecords(num, list))
  {
    hide Leaves.Write;
    if list == [] {
    } else {
      ListRecordsFit(num, list[1..], depth);
      assert ListRecords(num, list)[1..] == ListRecords(num, list[1..]);
      assert ListIsShort(list) <==> ListIsShort([list[0]]) && ListIsShort(list[1..]);
    }
  }

  lemma {:induction false} EntryRecordsFit(layout: Layout, e: Envelope, i: nat, depth: nat)
    requires WellFormed(layout, e) && i <= |layout.leaves|
    ensures AllFit(EntryRecords(layout, e.entries, i), depth)
       <==> forall j :: i <= j < |e.entries| ==> ListIsShort(e.entries[j])
    ensures AllStorable(EntryRecords(layout, e.entries, i))
    decreases |layout.leaves| - i
  {
    hide AllFit, AllStorable, ListIsShort, ListRecords, AllUnknown, Leaves.WellFormed, Leaves.Write;
    if i == |layout.leaves| {
      NothingFits(depth);
    } else {
      assert AllWellFormed(layout.leaves[i], e.entries[i]);
      var list, others := ListRecords(layout.first + i, e.entries[i]), EntryRecords(layout, e.entries, i + 1);
      ListRecordsFit(layout.first + i, e.entries[i], depth);
      EntryRecordsFit(layout, e, i + 1, depth);
      Leaves.AllFitAppend(list, others, depth);
      Leaves.AllStorableAppend(list, others);
    }
  }

  lemma NothingFits(depth: nat)
    ensures AllFit([], depth) && AllStorable([])
  {
  }

  /** A well-formed envelope is read back exactly, with the order of its entries, the fields that each of them has,
      and the unknown records, if and only if everything in it fits. */
  lemma ParseUndoesWrite(layout: Layout, e: Envelope, depth: nat)
    requires WellFormed(layout, e)
    ensures Parse(layout, Empty(layout), Write(layout, e), depth) == if EnvelopeFits(e, depth) then Some(e) else None
  {
    hide ReadRecords, EncodeAll, ApplyAll, EntryRecords, AllFit, AllStorable, AllUnknown, AllWellFormed, ListFits,
         ListIsShort;
    var entries := EntryRecords(layout, e.entries, 0);
    EntryRecordsFit(layout, e, 0, depth);
    Leaves.AllStorableAppend(entries, e.unknown);
    Leaves.AllFitAppend(entries, e.unknown, depth);
    ReadUndoesEncodeAll(Records(layout, e), depth);
    assert Upto(layout, e, 0) == Empty(layout);
    EntriesAreTaken(layout, e, 0, depth);
    ApplyAllAppend(layout, Empty(layout), entries, e.unknown, depth);
    UnknownRecordsStay(layout, e.(unknown := []), e.unknown, depth);
    assert [] + e.unknown == e.unknown;
  }

  // ----- merging -----

  /** Lists are appended to lists, and unknown records are kept in order. */
  function Merge(e: Envelope, f: Envelope): Envelope
    requires |e.entries| == |f.entries|
  {
    Envelope(seq(|e.entries|, i requires 0 <= i < |e.entries| => e.entries[i] + f.entries[i]), e.unknown + f.unknown)
  }

  lemma MergeKeepsWellFormed(layout: Layout, e: Envelope, f: Envelope)
    requires WellFormed(layout, e) && WellFormed(layout, f)
    ensures WellFormed(layout, Merge(e, f))
  {
    hide AllStorable, Slot, Leaves.WellFormed;
    Leaves.AllStorableAppend(e.unknown, f.unknown);
  }

  /** The lists merged up to index i. */
  function MergedUpto(e: Envelope, f: Envelope, i: nat): Envelope
    requires |e.entries| == |f.entries|
  {
    e.(entries := seq(|e.entries|, k requires 0 <= k < |e.entries| =>
      if k < i then e.entries[k] + f.entries[k] else e.entries[k]))
  }

  lemma MergedUptoEnds(e: Envelope, f: Envelope)
    requires |e.entries| == |f.entries|
    ensures MergedUpto(e, f, 0) == e
    ensures MergedUpto(e, f, |e.entries|).(unknown := e.unknown + f.unknown) == Merge(e, f)
  {
  }

  lemma MergedUptoGrows(e: Envelope, f: Envelope, i: nat)
    requires |e.entries| == |f.entries| && i < |e.entries|
    ensures var m := MergedUpto(e, f, i); WithList(m, i, m.entries[i] + f.entries[i]) == MergedUpto(e, f, i + 1)
  {
  }

  function MergeInto(e: Envelope, f: Option<Envelope>): Option<Envelope>
    requires f.Some? ==> |e.entries| == |f.value.entries|
  {
    match f
    case None => None
    case Some(x) => Some(Merge(e, x))
  }

  lemma MergeWithEmpty(layout: Layout, e: Envelope)
    requires |e.entries| == |layout.leaves|
    ensures Merge(e, Empty(layout)) == e
  {
    assert e.unknown + [] == e.unknown;
    forall i | 0 <= i < |e.entries|
      ensures Merge(e, Empty(layout)).entries[i] == e.entries[i]
    {
      assert e.entries[i] + [] == e.entries[i];
    }
  }

  lemma MergeWithEntry(layout: Layout, e: Envelope, k: nat, m: Leaves.Leaf)
    requires |e.entries| == |layout.leaves| && k < |layout.leaves|
    ensures Merge(e, Append(Empty(layout), k, m)) == Append(e, k, m)
  {
    assert e.unknown + [] == e.unknown;
    forall i | 0 <= i < |e.entries|
      ensures Merge(e, Append(Empty(layout), k, m)).entries[i] == Append(e, k, m).entries[i]
    {
      assert e.entries[i] + [] == e.entries[i];
      assert [] + [m] == [m];
    }
  }

  lemma MergeOfOne(layout: Layout, e: Envelope, r: Record, depth: nat)
    requires |e.entries| == |layout.leaves|
    ensures Apply(layout, e, r, depth) == MergeInto(e, Apply(layout, Empty(layout), r, depth))
  {
    hide ParseLeaf, Append, Merge, Empty;
    var slot := Slot(layout, r);
    if slot.None? {
      MergeWithUnknown(layout, e, r);
    } else if ParseLeaf(layout, slot.value, r.payload, depth).Some? {
      MergeWithEntry(layout, e, slot.value, ParseLeaf(layout, slot.value, r.payload, depth).value);
    }
  }

  lemma MergeWithUnknown(layout: Layout, e: Envelope, r: Record)
    requires |e.entries| == |layout.leaves|
    ensures Merge(e, Empty(layout).(unknown := Empty(layout).unknown + [r])) == e.(unknown := e.unknown + [r])
  {
    MergeWithEmpty(layout, e);
    assert [] + [r] == [r];
  }

  lemma MergeAssociates(e: Envelope, f: Envelope, g: Envelope)
    requires |e.entries| == |f.entries| == |g.entries|
    ensures Merge(Merge(e, f), g) == Merge(e, Merge(f, g))
  {
    assert e.unknown + f.unknown + g.unknown == e.unknown + (f.unknown + g.unknown);
    forall i | 0 <= i < |e.entries|
      ensures e.entries[i] + f.entries[i] + g.entries[i] == e.entries[i] + (f.entries[i] + g.entries[i])
    {
    }
  }

  /** Records applied to an envelope give it merged with what they give on their own. */
  lemma {:induction false} ApplyingIsMerging(layout: Layout, e: Envelope, rs: seq<Record>, depth: nat)
    requires |e.entries| == |layout.leaves|
    ensures ApplyAll(layout, e, rs, depth) == MergeInto(e, ApplyAll(layout, Empty(layout), rs, depth))
    decreases |rs|
  {
    hide Apply;
    if rs == [] {
      MergeWithEmpty(layout, e);
    } else {
      MergeOfOne(layout, e, rs[0], depth);
      var one := Apply(layout, Empty(layout), rs[0], depth);
      if one.Some? {
        hide Merge;
        var rest := ApplyAll(layout, Empty(layout), rs[1..], depth);
        ApplyingIsMerging(layout, Merge(e, one.value), rs[1..], depth);
        ApplyingIsMerging(layout, one.value, rs[1..], depth);
        if rest.Some? {
          MergeAssociates(e, one.value, rest.value);
        }
      }
    }
  }

  /** Parsing two encodings in a row is parsing each of them and merging the results. */
  lemma ParseConcatenation(layout: Layout, a: seq<octet>, b: seq<octet>, depth: nat)
    requires Parse(layout, Empty(layout), a, depth).Some?
    ensures Parse(layout, Empty(layout), a + b, depth)
         == MergeInto(Parse(layout, Empty(layout), a, depth).value, Parse(layout, Empty(layout), b, depth))
  {
    hide ReadRecords, ApplyAll, Merge;
    ReadConcatenation(a, b, depth);
    if ReadRecords(b, depth).Some? {
      var empty, rs := Empty(layout), ReadRecords(b, depth).value;
      ApplyAllAppend(layout, empty, ReadRecords(a, depth).value, rs, depth);
      ApplyingIsMerging(layout, ApplyAll(layout, empty, ReadRecords(a, depth).value, depth).value, rs, depth);
    }
  }

  // ----- sizes -----

  /** The tags, length prefixes and contents of a list. */
  function ListSize(list: seq<Leaves.Leaf>): nat {
    if list == [] then 0 else 1 + LengthDelimitedSize(Leaves.Size(list[0])) + ListSize(list[1..])
  }

  function EntriesSize(entries: seq<seq<Leaves.Leaf>>, i: nat): nat
    requires i <= |entries|
    decreases |entries| - i
  {
    if i == |entries| then 0 else ListSize(entries[i]) + EntriesSize(entries, i + 1)
  }

  function Size(e: Envelope): nat {
    EntriesSize(e.entries, 0) + RecordsSize(e.unknown)
  }

  lemma {:induction false} ListSizeIsLength(schema: Leaves.Schema, num: nat, list: seq<Leaves.Leaf>)
    requires AllWellFormed(schema, list) && 0 < num < 5
    ensures ListSize(list) == |EncodeAll(ListRecords(num, list))|
  {
    hide Leaves.Size, Leaves.Write, Leaves.WellFormed, VarintSize, Varint, Encode;
    if list == [] {
    } else {
      var m := list[0];
      Leaves.SizeIsLength(schema, m);
      EntryLength(num, Leaves.Write(m));
      VarintSizeIsLength(|Leaves.Write(m)|);
      assert ListRecords(num, list)[1..] == ListRecords(num, list[1..]);
      assert EncodeAll(ListRecords(num, list))
          == Encode(DelimitedRecord(num, Leaves.Write(m))) + EncodeAll(ListRecords(num, list[1..]));
      ListSizeIsLength(schema, num, list[1..]);
    }
  }

  lemma EntryLength(num: nat, bytes: seq<octet>)
    requires num < 5
    ensures |Encode(DelimitedRecord(num, bytes))| == 1 + |Varint(|bytes|)| + |bytes|
  {
    hide Varint, Tag;
    SmallTag(num);
  }

  lemma SmallTag(num: nat)
    requires num < 5
    ensures |Tag(num, 2)| == 1
  {
  }

  lemma {:induction false} EntriesSizeIsLength(layout: Layout, e: Envelope, i: nat)
    requires WellFormed(layout, e) && i <= |layout.leaves|
    ensures EntriesSize(e.entries, i) == |EncodeAll(EntryRecords(layout, e.entries, i))|
    decreases |layout.leaves| - i
  {
    hide AllWellFormed, AllStorable, AllUnknown, ListRecords, ListSize;
    if i == |layout.leaves| {
    } else {
      var list, others := ListRecords(layout.first + i, e.entries[i]), EntryRecords(layout, e.entries, i + 1);
      ListSizeIsLength(layout.leaves[i], layout.first + i, e.entries[i]);
      EntriesSizeIsLength(layout, e, i + 1);
      Leaves.EncodeAllAppend(list, others);
    }
  }

  /** The size that is computed without writing is the length of what is written. */
  lemma SizeIsLength(layout: Layout, e: Envelope)
    requires WellFormed(layout, e)
    ensures Size(e) == |Write(layout, e)|
  {
    hide EncodeAll, RecordsSize, EntriesSize, EntryRecords, AllWellFormed, AllUnknown;
    EntriesSizeIsLength(layout, e, 0);
    RecordsSizeIsLength(e.unknown);
    Leaves.EncodeAllAppend(EntryRecords(layout, e.entries, 0), e.unknown);
  }

  // ----- what is parsed can be written and parsed again -----

  lemma {:induction false} ListSizeAppend(list: seq<Leaves.Leaf>, m: Leaves.Leaf)
    ensures ListSize(list + [m]) == ListSize(list) + 1 + LengthDelimitedSize(Leaves.Size(m))
  {
    hide LengthDelimitedSize, Leaves.Size;
    if list == [] {
      assert list + [m] == [m];
      assert [m][1..] == [];
    } else {
      assert (list + [m])[1..] == list[1..] + [m];
      ListSizeAppend(list[1..], m);
    }
  }

  lemma {:induction false} EntriesSizeAppend(entries: seq<seq<Leaves.Leaf>>, k: nat, m: Leaves.Leaf, i: nat)
    requires i <= |entries| && k < |entries|
    ensures EntriesSize(entries[k := entries[k] + [m]], i)
         == EntriesSize(entries, i) + (if i <= k then 1 + LengthDelimitedSize(Leaves.Size(m)) else 0)
    decreases |entries| - i
  {
    hide ListSize, LengthDelimitedSize, Leaves.Size;
    if i == |entries| {
    } else {
      EntriesSizeAppend(entries, k, m, i + 1);
      if i == k {
        ListSizeAppend(entries[k], m);
      }
    }
  }

  /** An entry is well formed, fits, and is not larger than the record it was parsed from. */
  lemma ParsedEntry(layout: Layout, i: nat, r: Record, depth: nat)
    requires Slot(layout, r) == Some(i) && Storable(r) && Fits(r, depth) && ParseLeaf(layout, i, r.payload, depth).Some?
    ensures var m := ParseLeaf(layout, i, r.payload, depth).value;
            && Leaves.WellFormed(layout.leaves[i], m) && depth > 0 && Leaves.LeafFits(m, depth - 1)
            && |Leaves.Write(m)| <= MAX_SIZE
            && 1 + LengthDelimitedSize(Leaves.Size(m)) <= RecordSize(r)
  {
    hide Leaves.Parse, Leaves.WellFormed, Leaves.LeafFits, Leaves.Write, Leaves.Size, VarintSize, Varint;
    var schema := layout.leaves[i];
    var m := ParseLeaf(layout, i, r.payload, depth).value;
    Leaves.ParsedIsRewritable(schema, r.payload, depth - 1);
    Leaves.SizeIsLength(schema, m);
    SmallTag(r.num);
    VarintSizeIsLength(8 * r.num + 2);
    VarintSizeIsLength(|r.payload|);
    VarintSizeIsLength(|Leaves.Write(m)|);
    VarintIsMonotone(|Leaves.Write(m)|, |r.payload|);
  }

  lemma ApplyKeepsWellFormed(layout: Layout, e: Envelope, r: Record, depth: nat)
    requires WellFormed(layout, e) && Storable(r) && Fits(r, depth)
    requires Apply(layout, e, r, depth).Some?
    ensures var f := Apply(layout, e, r, depth).value;
            && WellFormed(layout, f) && (EnvelopeFits(e, depth) ==> EnvelopeFits(f, depth))
            && Size(f) <= Size(e) + RecordSize(r)
  {
    hide AllStorable, AllFit, ParseLeaf, Leaves.WellFormed, Leaves.LeafFits, Leaves.Write, Leaves.Size, RecordSize,
         LengthDelimitedSize, Storable, Fits, ListSize, RecordsSize;
    var slot := Slot(layout, r);
    if slot.Some? {
      ParsedEntry(layout, slot.value, r, depth);
      EntriesSizeAppend(e.entries, slot.value, ParseLeaf(layout, slot.value, r.payload, depth).value, 0);
    } else {
      Leaves.AllStorableAppend(e.unknown, [r]);
      Leaves.AllFitAppend(e.unknown, [r], depth);
      Leaves.OneRecord(r, depth);
      Leaves.RecordsSizeAppend(e.unknown, [r]);
      OneRecordSize(r);
    }
  }

  lemma OneRecordSize(r: Record)
    ensures RecordsSize([r]) == RecordSize(r)
  {
    assert [r][1..] == [];
  }

  lemma {:induction false} ApplyAllKeepsWellFormed(layout: Layout, e: Envelope, rs: seq<Record>, depth: nat)
    requires WellFormed(layout, e) && AllStorable(rs) && AllFit(rs, depth)
    requires ApplyAll(layout, e, rs, depth).Some?
    ensures var f := ApplyAll(layout, e, rs, depth).value;
            && WellFormed(layout, f) && (EnvelopeFits(e, depth) ==> EnvelopeFits(f, depth))
            && Size(f) <= Size(e) + RecordsSize(rs)
    decreases |rs|
  {
    hide Apply, Storable, Fits, EnvelopeFits, Size, RecordSize;
    if rs == [] {
    } else {
      EntriesStay(layout, e);
      ApplyKeepsWellFormed(layout, e, rs[0], depth);
      hide WellFormed;
      ApplyAllKeepsWellFormed(layout, Apply(layout, e, rs[0], depth).value, rs[1..], depth);
    }
  }

  lemma EntriesStay(layout: Layout, e: Envelope)
    requires WellFormed(layout, e)
    ensures |e.entries| == |layout.leaves|
  {
  }

  lemma EmptyIsWellFormed(layout: Layout, depth: nat)
    ensures WellFormed(layout, Empty(layout)) && EnvelopeFits(Empty(layout), depth) && Size(Empty(layout)) == 0
  {
    EmptySize(Empty(layout).entries, 0);
  }

  lemma {:induction false} EmptySize(entries: seq<seq<Leaves.Leaf>>, i: nat)
    requires i <= |entries| && forall j :: 0 <= j < |entries| ==> entries[j] == []
    ensures EntriesSize(entries, i) == 0
    decreases |entries| - i
  {
    if i == |entries| {
    } else {
      EmptySize(entries, i + 1);
    }
  }

  /** Whatever is parsed into a well-formed envelope, it stays well formed. */
  lemma ParseKeepsWellFormed(layout: Layout, e: Envelope, data: seq<octet>, depth: nat)
    requires WellFormed(layout, e) && Parse(layout, e, data, depth).Some?
    ensures WellFormed(layout, Parse(layout, e, data, depth).value)
  {
    hide ReadRecords, ApplyAll, WellFormed, EnvelopeFits;
    RecordsAreRewritable(data, depth);
    EntriesStay(layout, e);
    ApplyAllKeepsWellFormed(layout, e, ReadRecords(data, depth).value, depth);
  }

  /** An envelope that was parsed can be written in no more bytes than it came in, and is parsed again to the same. */
  lemma ParsedIsRewritable(layout: Layout, data: seq<octet>, depth: nat)
    requires Parse(layout, Empty(layout), data, depth).Some?
    ensures var e := Parse(layout, Empty(layout), data, depth).value;
            && WellFormed(layout, e) && EnvelopeFits(e, depth) && |Write(layout, e)| <= |data|
            && Parse(layout, Empty(layout), Write(layout, e), depth) == Some(e)
  {
    hide ReadRecords, ApplyAll, WellFormed, EnvelopeFits, Size, Write;
    var e := Parse(layout, Empty(layout), data, depth).value;
    var rs := ReadRecords(data, depth).value;
    RecordsAreRewritable(data, depth);
    RecordsSizeIsLength(rs);
    EmptyIsWellFormed(layout, depth);
    ApplyAllKeepsWellFormed(layout, Empty(layout), rs, depth);
    SizeIsLength(layout, e);
    ParseUndoesWrite(layout, e, depth);
  }

  // ----- one record at a time -----

  function TakeOne(layout: Layout, e: Envelope, data: seq<octet>, ptr: nat, depth: nat): Option<Envelope>
    requires |e.entries| == |layout.leaves| && ptr <= |data|
  {
    match ReadRecord(data[ptr..], depth)
    case Failure => None
    case Got(r, n) =>
      match Apply(layout, e, r, depth)
      case None => None
      case Some(next) => Parse(layout, next, data[ptr + n..], depth)
  }

  /** Parsing from a position on is taking one record and parsing on from behind it. */
  lemma ParseStep(layout: Layout, e: Envelope, data: seq<octet>, ptr: nat, depth: nat)
    requires |e.entries| == |layout.leaves| && ptr <= |data|
    ensures ptr == |data| ==> Parse(layout, e, data[ptr..], depth) == Some(e)
    ensures ptr < |data| ==> Parse(layout, e, data[ptr..], depth) == TakeOne(layout, e, data, ptr, depth)
  {
    hide Apply, ReadRecord;
    if ptr < |data| && ReadRecord(data[ptr..], depth).Got? {
      var n := ReadRecord(data[ptr..], depth).length;
      assert data[ptr..][n..] == data[ptr + n..];
      var others := ReadRecords(data[ptr + n..], depth);
      if others.Some? {
        var r := ReadRecord(data[ptr..], depth).value;
        assert ([r] + others.value)[1..] == others.value;
      }
    }
  }

  // ----- what a parse leaves behind, whether or not it succeeds -----

  /** A message inside a message, with its length prefix at p. */
  function TakeNested(schema: Leaves.Schema, data: seq<octet>, p: nat, depth: nat): (s: Step<Leaves.Leaf>)
    requires p <= |data| + 16
    ensures s.ok ==> p < s.end <= |data|
  {
    match ReadSize(From(data, p))
    case Failure => Step(Leaves.Empty(schema), p, false)
    case Got(size, k) =>
      if depth == 0 then Step(Leaves.Empty(schema), p, false)
      else
        var r := Leaves.Run(schema, Leaves.Empty(schema), data, p + k + size, p + k, depth - 1);
        Step(r.value, p + k + size, r.ok)
  }

  /** A new entry of list i. It is in the list before anything of it is read. */
  function TakeEntry(layout: Layout, e: Envelope, i: nat, data: seq<octet>, p: nat, depth: nat): (s: Step<Envelope>)
    requires |e.entries| == |layout.leaves| && i < |layout.leaves| && p <= |data| + 16
    ensures |s.value.entries| == |layout.leaves| && (s.ok ==> p < s.end <= |data|)
  {
    var s := TakeNested(layout.leaves[i], data, p, depth);
    Step(Append(e, i, s.value), s.end, s.ok)
  }

  /** One record, of a list or unknown. */
  function TakeRecord(layout: Layout, e: Envelope, data: seq<octet>, ptr: nat, depth: nat): (s: Step<Envelope>)
    requires |e.entries| == |layout.leaves| && ptr < |data|
    ensures |s.value.entries| == |layout.leaves| && (s.ok ==> ptr < s.end <= |data| + 16)
  {
    match ReadTag(From(data, ptr))
    case Failure => Step(e, ptr, false)
    case Got(tag, k) =>
      var number, p := tag / 8, ptr + k;
      if layout.first <= number < layout.first + |layout.leaves| && tag % 256 == 8 * number + 2 then
        TakeEntry(layout, e, number - layout.first, data, p, depth)
      else
        match TakeBody(number, tag % 8, data, |data|, ptr, p, depth)
        case Took(r, end) => Step(e.(unknown := e.unknown + [r]), end, true)
        case Stopped(stored) => Step(e.(unknown := e.unknown + stored), ptr, false)
  }

  /** All records from a position on. */
  function Run(layout: Layout, e: Envelope, data: seq<octet>, ptr: nat, depth: nat): (r: Outcome<Envelope>)
    requires |e.entries| == |layout.leaves|
    ensures |r.value.entries| == |layout.leaves|
    decreases |data| + 16 - ptr
  {
    if ptr >= |data| then Outcome(e, ptr == |data|)
    else
      var s := TakeRecord(layout, e, data, ptr, depth);
      if s.ok then Run(layout, s.value, data, s.end, depth) else Outcome(s.value, false)
  }

  /** The outcome after one step, which is over or is followed by more records. */
  function GoOn(layout: Layout, s: Step<Envelope>, data: seq<octet>, depth: nat): (r: Outcome<Envelope>)
    requires |s.value.entries| == |layout.leaves|
  {
    if s.ok then Run(layout, s.value, data, s.end, depth) else Outcome(s.value, false)
  }

  /** A record of list i at a position is its tag and what comes after it. */
  lemma RunFromTag(layout: Layout, e: Envelope, i: nat, data: seq<octet>, ptr: nat, depth: nat)
    requires |e.entries| == |layout.leaves| && i < |layout.leaves| && ptr < |data|
    requires var t := ReadTag(From(data, ptr)); t.Got? && t.value == 8 * (layout.first + i) + 2
    ensures var t := ReadTag(From(data, ptr));
            Run(layout, e, data, ptr, depth)
            == GoOn(layout, TakeEntry(layout, e, i, data, ptr + t.length, depth), data, depth)
  {
    hide ReadTag, TakeEntry, From;
  }

  lemma EntryWithin(layout: Layout, e: Envelope, i: nat, data: seq<octet>, p: nat, depth: nat)
    requires |e.entries| == |layout.leaves| && i < |layout.leaves| && p <= |data|
    ensures var s, r := TakeEntry(layout, e, i, data, p, depth), ReadBody(layout.first + i, 2, data[p..], depth);
            && (s.ok <==> r.Got? && Apply(layout, e, r.value, depth).Some?)
            && (s.ok ==> s.end == p + r.length && Some(s.value) == Apply(layout, e, r.value, depth))
  {
    hide ReadSize, From, Leaves.Run, Leaves.Parse;
    assert data[p..|data|] == data[p..];
    ReadersWithin(data, |data|, p);
    var size := ReadSize(data[p..]);
    if size.Got? && depth > 0 && p + size.length + size.value <= |data| {
      var begin, limit := p + size.length, p + size.length + size.value;
      assert data[p..][size.length..size.length + size.value] == data[begin..limit];
      Leaves.RunIsParse(layout.leaves[i], Leaves.Empty(layout.leaves[i]), data, limit, begin, depth - 1);
    }
  }

  /** A tag that no list expects is the end of a group, or is in front of a record that no list takes. */
  lemma TagForNoList(layout: Layout, tag: nat, rest: seq<octet>, depth: nat)
    requires !(layout.first <= tag / 8 < layout.first + |layout.leaves| && tag % 256 == 8 * (tag / 8) + 2)
    ensures var r := ReadBody(tag / 8, tag % 8, rest, depth);
            && (tag == 0 || tag % 8 == 4 ==> r == Failure)
            && (r.Got? ==> Slot(layout, r.value) == None)
  {
    hide ReadVarint64, ReadSize, ReadGroup;
  }

  lemma TakeRecordWithin(layout: Layout, e: Envelope, data: seq<octet>, ptr: nat, depth: nat)
    requires |e.entries| == |layout.leaves| && ptr < |data|
    ensures var s, r := TakeRecord(layout, e, data, ptr, depth), ReadRecord(data[ptr..], depth);
            && (s.ok && s.end <= |data| <==> r.Got? && Apply(layout, e, r.value, depth).Some?)
            && (s.ok && s.end <= |data| ==>
                  s.end == ptr + r.length && Some(s.value) == Apply(layout, e, r.value, depth))
  {
    hide ReadTag, ReadBody, TakeBody, TakeEntry, From, ParseLeaf;
    assert data[ptr..|data|] == data[ptr..];
    ReadersWithin(data, |data|, ptr);
    var t := ReadTag(data[ptr..]);
    if t.Got? {
      var number, p := t.value / 8, ptr + t.length;
      assert data[ptr..][t.length..] == data[p..];
      if layout.first <= number < layout.first + |layout.leaves| && t.value % 256 == 8 * number + 2 {
        EntryWithin(layout, e, number - layout.first, data, p, depth);
      } else {
        TagForNoList(layout, t.value, data[p..], depth);
        BodyWithin(number, t.value % 8, data, |data|, |data|, ptr, p, depth);
        assert data[p..|data|] == data[p..];
      }
    }
  }

  /** The outcome is a success exactly when the data can be parsed, and then the object holds what they mean. */
  lemma {:induction false} RunIsParse(layout: Layout, e: Envelope, data: seq<octet>, ptr: nat, depth: nat)
    requires |e.entries| == |layout.leaves| && ptr <= |data|
    ensures Parse(layout, e, data[ptr..], depth)
         == var r := Run(layout, e, data, ptr, depth); if r.ok then Some(r.value) else None
    decreases |data| - ptr
  {
    hide ReadRecord, TakeRecord, Apply, Parse;
    ParseStep(layout, e, data, ptr, depth);
    if ptr == |data| {
    } else {
      TakeRecordWithin(layout, e, data, ptr, depth);
      var s := TakeRecord(layout, e, data, ptr, depth);
      if s.ok && s.end <= |data| {
        RunIsParse(layout, s.value, data, s.end, depth);
      }
    }
  }

  /** However a parse ends, all records that are complete have been taken: the entries in front of a cut are as they
      were sent, and so are the unknown records. */
  lemma {:induction false} CompleteRecordsStay(layout: Layout, e: Envelope, data: seq<octet>, more: seq<octet>,
                                               ptr: nat, depth: nat)
    requires |e.entries| == |layout.leaves| && ptr <= |data| && Parse(layout, e, data[ptr..], depth).Some?
    ensures Run(layout, e, data + more, ptr, depth)
         == Run(layout, Parse(layout, e, data[ptr..], depth).value, data + more, |data|, depth)
    decreases |data| - ptr
  {
    hide ReadRecord, TakeRecord, Apply, Parse;
    ParseStep(layout, e, data, ptr, depth);
    if ptr == |data| {
    } else {
      assert (data + more)[ptr..] == data[ptr..] + more;
      RecordIgnoresRest(data[ptr..], more, depth);
      TakeRecordWithin(layout, e, data + more, ptr, depth);
      var s := TakeRecord(layout, e, data + more, ptr, depth);
      CompleteRecordsStay(layout, s.value, data, more, s.end, depth);
    }
  }

  // ----- the limits of the library -----

  /** The largest size of a message that is written. */
  const MAX_INT := 2147483647

  /** How deeply messages and groups may be nested. */
  const RECURSION_LIMIT := 100

  /** Parse data from scratch, and check that all required fields are there. */
  function FromString(layout: Layout, data: seq<octet>): (r: Outcome<Envelope>)
    ensures |r.value.entries| == |layout.leaves|
  {
    var r := Run(layout, Empty(layout), data, 0, RECURSION_LIMIT);
    Outcome(r.value, r.ok && Initialized(r.value))
  }

  /** The message that data stand for, if they can be parsed and hold all required fields. */
  function ParseFromString(layout: Layout, data: seq<octet>): (r: Option<Envelope>)
    ensures r.Some? ==> |r.value.entries| == |layout.leaves|
  {
    match Parse(layout, Empty(layout), data, RECURSION_LIMIT)
    case None => None
    case Some(e) => if Initialized(e) then Some(e) else None
  }

  /** A successful parse gives the message that the data stand for, and there is one exactly when it succeeds. */
  lemma FromStringIsParse(layout: Layout, data: seq<octet>)
    ensures var r := FromString(layout, data);
            ParseFromString(layout, data) == if r.ok then Some(r.value) else None
  {
    hide Run, Parse, Initialized;
    RunIsParse(layout, Empty(layout), data, 0, RECURSION_LIMIT);
    assert data[0..] == data;
  }
}
