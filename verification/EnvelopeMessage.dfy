/** The object of a message that holds lists of other message objects. Its parser takes records of one list in a row
    without going back to the dispatch, and its serializer relies on sizes that an earlier pass has cached. */
module EnvelopeMessages {
  import opened Sequences
  import opened Streams
  import opened Varints
  import opened Wire
  import Leaves
  import opened Envelopes
  import opened LeafMessages

  // ----- lists of objects as lists of values -----

  ghost function Views(list: seq<LeafMessage>): (views: seq<Leaves.Leaf>)
    requires forall m :: m in list ==> m.Shaped()
    reads list`values, list`hasBits, list`unknown
    ensures |views| == |list|
  {
    if list == [] then [] else Views(list[..|list| - 1]) + [list[|list| - 1].View()]
  }

  lemma {:induction false} ViewAt(list: seq<LeafMessage>, j: nat)
    requires forall m :: m in list ==> m.Shaped()
    requires j < |list|
    ensures Views(list)[j] == list[j].View()
  {
    hide LeafMessage.View, LeafMessage.Shaped;
    if j == |list| - 1 {
    } else {
      ViewAt(list[..|list| - 1], j);
    }
  }

  ghost function Entries(lists: seq<seq<LeafMessage>>): set<LeafMessage> {
    set list, m | list in lists && m in list :: m
  }

  ghost predicate ShapedLists(lists: seq<seq<LeafMessage>>)
    reads Entries(lists)`values, Entries(lists)`hasBits, Entries(lists)`unknown
  {
    forall m :: m in Entries(lists) ==> m.Shaped()
  }

  ghost function ViewLists(lists: seq<seq<LeafMessage>>): (views: seq<seq<Leaves.Leaf>>)
    requires ShapedLists(lists)
    reads Entries(lists)`values, Entries(lists)`hasBits, Entries(lists)`unknown
    ensures |views| == |lists|
  {
    if lists == [] then []
    else
      var last := |lists| - 1;
      FewerEntries(lists);
      ViewLists(lists[..last]) + [Views(lists[last])]
  }

  lemma FewerEntries(lists: seq<seq<LeafMessage>>)
    requires lists != []
    ensures Entries(lists[..|lists| - 1]) <= Entries(lists)
    ensures forall m :: m in lists[|lists| - 1] ==> m in Entries(lists)
  {
    assert lists[|lists| - 1] in lists;
  }

  lemma {:induction false} ViewListAt(lists: seq<seq<LeafMessage>>, i: nat)
    requires ShapedLists(lists) && i < |lists|
    ensures forall m :: m in lists[i] ==> m.Shaped()
    ensures ViewLists(lists)[i] == Views(lists[i])
  {
    hide LeafMessage.Shaped, Views;
    assert lists[i] in lists;
    FewerEntries(lists);
    if i == |lists| - 1 {
    } else {
      ViewListAt(lists[..|lists| - 1], i);
    }
  }

  lemma EntriesOfList(lists: seq<seq<LeafMessage>>, i: nat)
    requires i < |lists|
    ensures forall m :: m in lists[i] ==> m in Entries(lists)
  {
    assert lists[i] in lists;
  }

  lemma EntriesOfLists(lists: seq<seq<LeafMessage>>)
    ensures forall m :: m in Entries(lists) ==> exists i :: 0 <= i < |lists| && m in lists[i]
  {
    forall m | m in Entries(lists)
      ensures exists i :: 0 <= i < |lists| && m in lists[i]
    {
      var list :| list in lists && m in list;
    }
  }

  function Appended(lists: seq<seq<LeafMessage>>, i: nat, leaf: LeafMessage): seq<seq<LeafMessage>>
    requires i < |lists|
  {
    lists[i := lists[i] + [leaf]]
  }

  lemma AppendedEntries(lists: seq<seq<LeafMessage>>, i: nat, leaf: LeafMessage)
    requires i < |lists|
    ensures Entries(Appended(lists, i, leaf)) == Entries(lists) + {leaf}
  {
    var more := Appended(lists, i, leaf);
    assert more[i] in more && leaf in more[i];
    forall m | m in Entries(lists)
      ensures m in Entries(more)
    {
      var k :| 0 <= k < |lists| && m in lists[k];
      assert more[k] in more && m in more[k];
    }
    forall m | m in Entries(more)
      ensures m in Entries(lists) + {leaf}
    {
      var k :| 0 <= k < |more| && m in more[k];
      assert lists[k] in lists;
    }
  }

  /** An object that is appended to a list appends its value. */
  lemma AppendedView(lists: seq<seq<LeafMessage>>, i: nat, leaf: LeafMessage)
    requires ShapedLists(lists) && leaf.Shaped() && i < |lists|
    ensures ShapedLists(Appended(lists, i, leaf))
    ensures ViewLists(Appended(lists, i, leaf)) == ViewLists(lists)[i := ViewLists(lists)[i] + [leaf.View()]]
  {
    hide Entries, Views, LeafMessage.Shaped, LeafMessage.View;
    AppendedEntries(lists, i, leaf);
    var more := Appended(lists, i, leaf);
    forall k | 0 <= k < |lists|
      ensures ViewLists(more)[k] == ViewLists(lists)[i := ViewLists(lists)[i] + [leaf.View()]][k]
    {
      ViewListAt(lists, k);
      ViewListAt(more, k);
      if k == i {
        ViewsAppend(lists[i], leaf);
      }
    }
  }

  lemma ViewsAppend(list: seq<LeafMessage>, leaf: LeafMessage)
    requires (forall m :: m in list ==> m.Shaped()) && leaf.Shaped()
    ensures Views(list + [leaf]) == Views(list) + [leaf.View()]
  {
    hide LeafMessage.Shaped, LeafMessage.View;
    assert (list + [leaf])[..|list|] == list;
  }

  /** Each list holds messages of its type. */
  ghost predicate TypedLists(layout: Layout, masks: seq<seq<bv32>>, lists: seq<seq<LeafMessage>>)
    requires |layout.leaves| == |masks|
    reads Entries(lists)`values, Entries(lists)`hasBits, Entries(lists)`unknown
  {
    && |lists| == |masks|
    && (forall i :: 0 <= i < |masks| ==> ValidMasks(masks[i]) && |masks[i]| == |layout.leaves[i]|)
    && ShapedLists(lists)
    && forall i :: 0 <= i < |lists| ==>
         forall m :: m in lists[i] ==> m.schema == layout.leaves[i] && m.masks == masks[i] && m.Valid()
  }

  /** A list of objects stays well typed when a well-formed object of its type is appended. */
  lemma AppendedTyped(layout: Layout, masks: seq<seq<bv32>>, lists: seq<seq<LeafMessage>>, i: nat, leaf: LeafMessage)
    requires |layout.leaves| == |masks| && TypedLists(layout, masks, lists) && i < |lists|
    requires leaf.Valid() && leaf.schema == layout.leaves[i] && leaf.masks == masks[i]
    ensures TypedLists(layout, masks, Appended(lists, i, leaf))
  {
    hide Entries, ViewLists, Leaves.WellFormed, LeafMessage.View, LeafMessage.Shaped, ShapedLists;
    AppendedView(lists, i, leaf);
  }

  /** The cached size of a message is the number of bytes that its serializer emits. */
  ghost predicate IsCached(m: LeafMessage)
    reads m
  {
    m.Shaped() && m.cachedSize == |Leaves.Write(m.View())|
  }

  /** A tag, the cached size and the bytes of each entry. */
  method SerializeList(num: nat, list: seq<LeafMessage>) returns (out: seq<octet>)
    requires forall m :: m in list ==> m.Shaped() && m.Valid() && IsCached(m)
    ensures out == EncodeAll(ListRecords(num, Views(list)))
  {
    hide Leaves.WellFormed, Leaves.Write, LeafMessage.View, Views, Tag, Varint, EncodeAll, ListRecords;
    ghost var views := Views(list);
    assert views[0..] == views;
    out := [];
    for j := 0 to |list|
      invariant out + EncodeAll(ListRecords(num, views[j..])) == EncodeAll(ListRecords(num, views))
    {
      ViewAt(list, j);
      var m := list[j];
      var bytes := m.Serialize();
      assert views[j..][1..] == views[j + 1..];
      FirstOfList(num, views[j..]);
      ghost var rest := EncodeAll(ListRecords(num, views[j + 1..]));
      Regroup(out, Tag(num, 2) + (Varint(m.cachedSize) + bytes), rest);
      out := out + (Tag(num, 2) + (Varint(m.cachedSize) + bytes));
    }
    EmptyList(num);
    assert out + [] == out;
  }

  lemma EmptyList(num: nat)
    ensures EncodeAll(ListRecords(num, [])) == []
  {
  }

  lemma FirstOfList(num: nat, list: seq<Leaves.Leaf>)
    requires list != []
    ensures EncodeAll(ListRecords(num, list))
         == Tag(num, 2) + (Varint(|Leaves.Write(list[0])|) + Leaves.Write(list[0]))
            + EncodeAll(ListRecords(num, list[1..]))
  {
    hide Leaves.Write, Tag, Varint;
    assert ListRecords(num, list)[1..] == ListRecords(num, list[1..]);
    assert Encode(DelimitedRecord(num, Leaves.Write(list[0])))
        == Tag(num, 2) + (Varint(|Leaves.Write(list[0])|) + Leaves.Write(list[0]));
  }

  method AllAreInitialized(list: seq<LeafMessage>) returns (yes: bool)
    requires forall m :: m in list ==> m.Shaped() && m.Valid()
    ensures yes == forall m :: m in Views(list) ==> Leaves.Initialized(m)
  {
    hide Leaves.WellFormed, LeafMessage.View, Leaves.Initialized, Views;
    ghost var views := Views(list);
    var i := |list|;
    while i > 0
      invariant 0 <= i <= |list|
      invariant forall k :: i <= k < |list| ==> Leaves.Initialized(views[k])
    {
      i := i - 1;
      ViewAt(list, i);
      yes := list[i].IsInitialized();
      if !yes {
        assert views[i] in views;
        return;
      }
    }
    yes := true;
  }

  /** The size of a list, with tags and length prefixes. Each entry caches its own size. */
  method ListByteSize(schema: Leaves.Schema, list: seq<LeafMessage>) returns (size: nat)
    requires forall m :: m in list ==> m.schema == schema && m.Valid()
    modifies list`cachedSize
    ensures forall m :: m in list ==> m.Shaped() && m.Valid()
    ensures size == ListSize(Views(list))
    ensures forall m :: m in list ==> IsCached(m)
  {
    hide Leaves.WellFormed, LengthDelimitedSize, Leaves.Write, LeafMessage.View, Views;
    ghost var views := Views(list);
    assert views[0..] == views;
    size := |list|;
    for j := 0 to |list|
      invariant Views(list) == views
      invariant size + ListSize(views[j..]) == ListSize(views) + |list| - j
      invariant forall k :: 0 <= k < j ==> IsCached(list[k])
    {
      ViewAt(list, j);
      Leaves.SizeIsLength(schema, views[j]);
      assert views[j..][1..] == views[j + 1..];
      var s := list[j].ByteSizeLong();
      size := size + LengthDelimitedSize(s);
    }
  }

  /** Parse an empty message from its length prefix and what follows. */
  method ParseNested(leaf: LeafMessage, data: seq<octet>, p: nat, depth: nat) returns (ok: bool, end: nat)
    requires leaf.Valid() && leaf.View() == Leaves.Empty(leaf.schema) && p <= |data| + 16
    modifies leaf`values, leaf`hasBits, leaf`unknown
    ensures leaf.Shaped() && leaf.Valid()
    ensures var s := TakeNested(leaf.schema, data, p, depth);
            leaf.View() == s.value && ok == s.ok && (ok ==> end == s.end)
  {
    hide Leaves.Run, ReadSize, From, Leaves.WellFormed, LeafMessage.View, LeafMessage.Shaped;
    ok, end := false, p;
    var size := ParseSize(From(data, p));
    if size.Got? && depth > 0 {
      var begin := p + size.length;
      end := begin + size.value;
      ok := leaf.Parse(data, end, begin, depth - 1);
    }
  }

  class EnvelopeMessage {
    const layout: Layout
    const masks: seq<seq<bv32>>
    var lists: seq<seq<LeafMessage>>
    var unknown: seq<Record>
    var cachedSize: nat

    ghost predicate Typed()
      reads this`lists, Entries(lists)`values, Entries(lists)`hasBits, Entries(lists)`unknown
    {
      |layout.leaves| == |masks| && TypedLists(layout, masks, lists)
    }

    /** The message as a value. */
    ghost function View(): (e: Envelope)
      requires Typed()
      reads this`lists, this`unknown, Entries(lists)`values, Entries(lists)`hasBits, Entries(lists)`unknown
      ensures |e.entries| == |layout.leaves|
    {
      Envelope(ViewLists(lists), unknown)
    }

    ghost predicate Valid()
      reads this`lists, this`unknown, Entries(lists)`values, Entries(lists)`hasBits, Entries(lists)`unknown
    {
      Typed() && WellFormed(layout, View())
    }

    constructor (layout: Layout, masks: seq<seq<bv32>>)
      requires |masks| == |layout.leaves|
      requires forall i :: 0 <= i < |masks| ==> ValidMasks(masks[i]) && |masks[i]| == |layout.leaves[i]|
      ensures this.layout == layout && this.masks == masks
      ensures Valid() && View() == Envelopes.Empty(layout) && Entries(lists) == {}
    {
      this.layout := layout;
      this.masks := masks;
      this.lists := seq(|layout.leaves|, _ => []);
      this.unknown := [];
      this.cachedSize := 0;
      new;
      NoViews(layout, lists);
      Envelopes.EmptyIsWellFormed(layout, 0);
    }

    lemma NoViews(layout: Layout, lists: seq<seq<LeafMessage>>)
      requires |lists| == |layout.leaves| && forall i :: 0 <= i < |lists| ==> lists[i] == []
      ensures ShapedLists(lists) && ViewLists(lists) == Envelopes.Empty(layout).entries && Entries(lists) == {}
    {
      forall i | 0 <= i < |lists|
        ensures ViewLists(lists)[i] == []
      {
        ViewListAt(lists, i);
      }
    }

    method Clear()
      requires Typed()
      modifies this`lists, this`unknown
      ensures Valid() && View() == Envelopes.Empty(layout) && Entries(lists) == {}
    {
      lists := seq(|layout.leaves|, _ => []);
      unknown := [];
      NoViews(layout, lists);
      Envelopes.EmptyIsWellFormed(layout, 0);
    }

    /** Add an entry to list i and parse it. It stays in the list if that fails. */
    method ParseMessage(i: nat, data: seq<octet>, p: nat, depth: nat) returns (ok: bool, end: nat)
      requires Typed() && i < |lists| && p <= |data| + 16
      modifies this`lists
      ensures Typed() && |lists| == |old(lists)| && fresh(Entries(lists) - old(Entries(lists)))
      ensures var s := TakeEntry(layout, old(View()), i, data, p, depth);
              View() == s.value && ok == s.ok && (ok ==> end == s.end)
    {
      hide TakeNested, Leaves.WellFormed, TypedLists, ViewLists, LeafMessage.View, LeafMessage.Shaped, ShapedLists,
           Appended;
      ListsAreTyped();
      var leaf := new LeafMessage(layout.leaves[i], masks[i]);
      assert leaf !in Entries(lists);
      hide Entries;
      ghost var before := lists;
      lists := Appended(lists, i, leaf);
      ok, end := ParseNested(leaf, data, p, depth);
      AppendedEntries(before, i, leaf);
      AppendedView(before, i, leaf);
      AppendedTyped(layout, masks, before, i, leaf);
    }

    lemma ListsAreTyped()
      requires Typed()
      ensures |lists| == |masks| == |layout.leaves| && ShapedLists(lists)
      ensures forall i :: 0 <= i < |masks| ==> ValidMasks(masks[i]) && |masks[i]| == |layout.leaves[i]|
    {
    }

    /** Take records of list i in a row, as long as the next byte is their tag. However often that is done, it leaves
        the rest of the data to be parsed to the same outcome as when every record is dispatched on its own. */
    method ParseList(i: nat, data: seq<octet>, p: nat, depth: nat) returns (ok: bool, end: nat)
      requires Typed() && i < |lists| && p <= |data| + 16
      modifies this`lists
      ensures Typed() && fresh(Entries(lists) - old(Entries(lists)))
      ensures ok ==> p < end <= |data|
      ensures GoOn(layout, TakeEntry(layout, old(View()), i, data, p, depth), data, depth)
           == if ok then Run(layout, View(), data, end, depth) else Outcome(View(), false)
    {
      hide TakeEntry, Run, ReadTag, From, TypedLists, ViewLists, Entries;
      var tag := 8 * (layout.first + i) + 2;
      end := p;
      while true
        invariant Typed() && |lists| == |old(lists)| && p <= end <= |data| + 16
        invariant fresh(Entries(lists) - old(Entries(lists)))
        invariant GoOn(layout, TakeEntry(layout, View(), i, data, end, depth), data, depth)
               == GoOn(layout, TakeEntry(layout, old(View()), i, data, p, depth), data, depth)
        decreases |data| + 16 - end
      {
        ghost var before := Entries(lists);
        ok, end := ParseMessage(i, data, end, depth);
        assert fresh(Entries(lists) - before);
        if !ok {
          return;
        }
        ListsAreTyped();
        // near the end of a buffer, data can be there without being known to be available
        var available: bool := *;
        if end == |data| || !available {
          return;
        }
        if data[end] != tag {
          return;
        }
        OneByteTag(data, end, tag);
        RunFromTag(layout, View(), i, data, end, depth);
        end := end + 1;
      }
    }

    lemma OneByteTag(data: seq<octet>, p: nat, tag: nat)
      requires p < |data| && data[p] == tag < 128
      ensures ReadTag(From(data, p)) == Got(tag, 1)
    {
      assert From(data, p)[0] == tag;
    }

    /** Keep records aside. */
    method AddUnknown(rs: seq<Record>)
      requires Typed()
      modifies this`unknown
      ensures Typed() && lists == old(lists) && View() == old(View()).(unknown := old(View()).unknown + rs)
    {
      hide Entries, ViewLists, TypedLists;
      unknown := unknown + rs;
    }

    /** One round of the parse loop: a tag and what follows it, or several records of one list. */
    method ParseSome(data: seq<octet>, ptr: nat, depth: nat) returns (ok: bool, end: nat)
      requires Typed() && ptr < |data|
      modifies this`lists, this`unknown
      ensures Typed() && fresh(Entries(lists) - old(Entries(lists)))
      ensures ok ==> ptr < end <= |data| + 16
      ensures Run(layout, old(View()), data, ptr, depth)
           == if ok then Run(layout, View(), data, end, depth) else Outcome(View(), false)
    {
      hide ReadTag, TakeBody, TakeEntry, From, TypedLists, ViewLists;
      assert forall m :: m in Entries(lists) ==> allocated(m);
      hide Entries;
      ListsAreTyped();
      ghost var e := View();
      assert e.unknown + [] == e.unknown;
      ok, end := false, ptr;
      var t := ParseTag(From(data, ptr));
      if t == Failure {
        return;
      }
      var tag, p := t.value, ptr + t.length;
      var number := tag / 8;
      if layout.first <= number < layout.first + |lists| && tag % 256 == 8 * number + 2 {
        RunFromTag(layout, e, number - layout.first, data, ptr, depth);
        ok, end := ParseList(number - layout.first, data, p, depth);
        return;
      }
      NoBody(tag, data, |data|, ptr, p, depth);
      // a message that ends on a tag has not ended at its limit, and is refused by the caller
      if tag == 0 || tag % 8 == 4 {
        return;
      }
      var r := ParseBody(number, tag % 8, data, |data|, ptr, p, depth);
      match r
      case Took(record, behind) =>
        AddUnknown([record]);
        ok, end := true, behind;
      case Stopped(stored) =>
        AddUnknown(stored);
    }

    /** Parse data into this message. */
    method Parse(data: seq<octet>, depth: nat) returns (ok: bool)
      requires Valid()
      modifies this`lists, this`unknown
      ensures Typed() && (ok ==> Valid()) && fresh(Entries(lists) - old(Entries(lists)))
      ensures var r := Run(layout, old(View()), data, 0, depth); View() == r.value && ok == r.ok
    {
      hide Run, Envelopes.Parse, TypedLists, ViewLists, Entries, WellFormed;
      ghost var e := View();
      var ptr := 0;
      while ptr < |data|
        invariant ptr <= |data| + 16 && Typed() && fresh(Entries(lists) - old(Entries(lists)))
        invariant Run(layout, View(), data, ptr, depth) == Run(layout, e, data, 0, depth)
        decreases |data| + 16 - ptr
      {
        ghost var before := Entries(lists);
        ok, ptr := ParseSome(data, ptr, depth);
        assert fresh(Entries(lists) - before);
        if !ok {
          return;
        }
      }
      RunEnds(layout, View(), data, ptr, depth);
      RunIsParse(layout, e, data, 0, depth);
      assert data[0..] == data;
      ok := ptr == |data|;
      if ok {
        ParseKeepsWellFormed(layout, e, data, depth);
      }
    }

    lemma RunEnds(layout: Layout, e: Envelope, data: seq<octet>, ptr: nat, depth: nat)
      requires |e.entries| == |layout.leaves| && ptr >= |data|
      ensures Run(layout, e, data, ptr, depth) == Outcome(e, ptr == |data|)
    {
    }

    /** Every cached size of an entry is the number of bytes that its serializer emits. */
    ghost predicate AllCached()
      requires Typed()
      reads this`lists, Entries(lists)
    {
      forall m :: m in Entries(lists) ==> IsCached(m)
    }

    /** The sizes of all lists. Each entry caches its own size. */
    method ListsByteSize() returns (size: nat)
      requires Valid()
      modifies Entries(lists)`cachedSize
      ensures Valid() && View() == old(View()) && AllCached()
      ensures size == EntriesSize(View().entries, 0)
    {
      hide Leaves.WellFormed, WellFormed, ListSize, Views, IsCached, LeafMessage.View, LeafMessage.Shaped, ViewLists;
      ghost var e := View();
      size := 0;
      for i := 0 to |lists|
        invariant Typed() && View() == e
        invariant size + EntriesSize(e.entries, i) == EntriesSize(e.entries, 0)
        invariant forall k, m :: 0 <= k < i && m in lists[k] ==> IsCached(m)
      {
        ViewListAt(lists, i);
        assert forall m :: m in Entries(lists) ==> allocated(m);
        EntriesOfList(lists, i);
        var s := ListByteSize(layout.leaves[i], lists[i]);
        size := size + s;
      }
      EntriesOfLists(lists);
    }

    /** The size of the message, with all tags and length prefixes. Each entry caches its own size, and then this
        message does. */
    method ByteSizeLong() returns (size: nat)
      requires Valid()
      modifies this`cachedSize, Entries(lists)`cachedSize
      ensures Valid() && View() == old(View()) && AllCached()
      ensures size == cachedSize == |Write(layout, View())|
    {
      hide WellFormed, Write, RecordsSize, EntriesSize, ViewLists, TypedLists;
      Envelopes.SizeIsLength(layout, View());
      NoRecordsSize();
      size := ListsByteSize();
      if unknown != [] {
        size := size + RecordsSize(unknown);
      }
      cachedSize := size;
    }

    /** Write list i, with the cached sizes as length prefixes. */
    method SerializeListAt(i: nat) returns (out: seq<octet>)
      requires Valid() && AllCached() && i < |lists|
      ensures Valid() && AllCached() && View() == old(View())
      ensures out == EncodeAll(ListRecords(layout.first + i, View().entries[i]))
    {
      hide EncodeAll, Leaves.WellFormed, WellFormed, ListRecords, Views, IsCached, LeafMessage.View, AllUnknown,
           AllWellFormed;
      ghost var e := View();
      ViewListAt(lists, i);
      EntriesOfList(lists, i);
      assert forall m :: m in Entries(lists) ==> allocated(m);
      out := SerializeList(layout.first + i, lists[i]);
    }

    lemma EntriesSplit(entries: seq<seq<Leaves.Leaf>>, i: nat)
      requires i <= |entries|
      ensures i == |entries| ==> EncodeAll(EntryRecords(layout, entries, i)) == []
      ensures i < |entries| ==>
                EncodeAll(EntryRecords(layout, entries, i))
                == EncodeAll(ListRecords(layout.first + i, entries[i]))
                   + EncodeAll(EntryRecords(layout, entries, i + 1))
    {
      hide EncodeAll, ListRecords, EntryRecords;
      EntryRecordsSteps(layout, entries, i);
      if i == |entries| {
        NothingToEncode();
      } else {
        Leaves.EncodeAllAppend(ListRecords(layout.first + i, entries[i]), EntryRecords(layout, entries, i + 1));
      }
    }

    /** Write all lists. */
    method SerializeLists() returns (out: seq<octet>)
      requires Valid() && AllCached()
      ensures Valid() && AllCached() && View() == old(View())
      ensures out == EncodeAll(EntryRecords(layout, View().entries, 0))
    {
      hide EncodeAll, EntryRecords, ListRecords, WellFormed, AllCached, TypedLists, ViewLists, Entries;
      ghost var e := View();
      out := [];
      for i := 0 to |lists|
        invariant Valid() && View() == e && AllCached()
        invariant out + EncodeAll(EntryRecords(layout, e.entries, i)) == EncodeAll(EntryRecords(layout, e.entries, 0))
      {
        EntriesSplit(e.entries, i);
        ListsAreTyped();
        var bytes := SerializeListAt(i);
        Regroup(out, bytes, EncodeAll(EntryRecords(layout, e.entries, i + 1)));
        out := out + bytes;
      }
      ListsAreTyped();
      EntriesSplit(e.entries, |lists|);
      assert out + [] == out;
    }

    /** Write the lists, and then the unknown records. */
    method Serialize() returns (out: seq<octet>)
      requires Valid() && AllCached()
      ensures out == Write(layout, View())
    {
      hide EncodeAll, EntryRecords, WellFormed, ViewLists, TypedLists;
      out := SerializeLists();
      Leaves.EncodeAllAppend(EntryRecords(layout, View().entries, 0), unknown);
      assert forall m :: m in Entries(lists) ==> allocated(m);
      var rest := SerializeRecords(unknown);
      out := out + rest;
    }

    lemma NothingToEncode()
      ensures EncodeAll([]) == []
    {
    }

    /** Every entry has all its required fields. */
    method IsInitialized() returns (yes: bool)
      requires Valid()
      ensures yes == Envelopes.Initialized(View())
    {
      hide Leaves.WellFormed, WellFormed, Leaves.Initialized, Views;
      ghost var e := View();
      for i := 0 to |lists|
        invariant Typed() && View() == e
        invariant forall k, m :: 0 <= k < i && m in e.entries[k] ==> Leaves.Initialized(m)
      {
        ViewListAt(lists, i);
        EntriesOfList(lists, i);
        assert forall m :: m in Entries(lists) ==> allocated(m);
        yes := AllAreInitialized(lists[i]);
        if !yes {
          return;
        }
      }
      yes := true;
    }

    /** Serialize: the size pass comes first, and a message over the limit of the library is refused. */
    method SerializeToString() returns (ok: bool, out: seq<octet>)
      requires Valid()
      modifies this`cachedSize, Entries(lists)`cachedSize
      ensures Valid() && View() == old(View())
      ensures ok == (|Write(layout, View())| <= MAX_INT)
      ensures out == if ok then Write(layout, View()) else []
    {
      hide WellFormed, Write, TypedLists, ViewLists;
      var size := ByteSizeLong();
      ok, out := false, [];
      if size > MAX_INT {
        return;
      }
      ok := true;
      out := Serialize();
    }

    /** Replace the message by what data hold. That succeeds if they can be parsed and all required fields are there;
        otherwise the message holds what was parsed up to then. */
    method ParseFromString(data: seq<octet>) returns (ok: bool)
      requires Typed()
      modifies this`lists, this`unknown
      ensures Typed() && (ok ==> Valid())
      ensures var r := FromString(layout, data); View() == r.value && ok == r.ok
      ensures Envelopes.ParseFromString(layout, data) == if ok then Some(View()) else None
    {
      hide WellFormed, Run, Envelopes.Initialized, Envelopes.ParseFromString, TypedLists, ViewLists;
      FromStringIsParse(layout, data);
      Clear();
      ok := Parse(data, RECURSION_LIMIT);
      if ok {
        ok := IsInitialized();
      }
    }

    /** Append a copy of one object to list i. */
    method AddCopy(i: nat, m: LeafMessage)
      requires Typed() && i < |lists|
      requires m.Valid() && m.schema == layout.leaves[i] && m.masks == masks[i]
      modifies this`lists
      ensures Typed() && |lists| == |old(lists)|
      ensures View() == Append(old(View()), i, m.View())
    {
      hide Leaves.WellFormed, TypedLists, ViewLists, LeafMessage.View, LeafMessage.Shaped, ShapedLists, Appended,
           Leaves.Merge;
      ListsAreTyped();
      var leaf := new LeafMessage(layout.leaves[i], masks[i]);
      assert leaf !in Entries(lists);
      hide Entries;
      ghost var before := lists;
      leaf.MergeFrom(m);
      Leaves.MergeIntoEmpty(layout.leaves[i], m.View());
      lists := Appended(lists, i, leaf);
      AppendedEntries(before, i, leaf);
      AppendedView(before, i, leaf);
      AppendedTyped(layout, masks, before, i, leaf);
    }

    /** Append copies of all objects of a list to list i. */
    method MergeList(i: nat, list: seq<LeafMessage>)
      requires Typed() && i < |lists|
      requires forall m :: m in list ==> m.Shaped() && m.Valid() && m.schema == layout.leaves[i] && m.masks == masks[i]
      modifies this`lists
      ensures Typed() && |lists| == |old(lists)|
      ensures View() == WithList(old(View()), i, old(View()).entries[i] + old(Views(list)))
    {
      hide Leaves.WellFormed, TypedLists, ViewLists, Entries, LeafMessage.View, Views;
      ghost var e, views := View(), Views(list);
      assert e.entries[i] + views[..0] == e.entries[i];
      assert WithList(e, i, e.entries[i]) == e;
      for j := 0 to |list|
        invariant Typed() && |lists| == |old(lists)|
        invariant Views(list) == views && View() == WithList(e, i, e.entries[i] + views[..j])
      {
        ViewAt(list, j);
        AddCopy(i, list[j]);
        assert e.entries[i] + views[..j] + [views[j]] == e.entries[i] + views[..j + 1];
        WithListTwice(e, i, e.entries[i] + views[..j], e.entries[i] + views[..j + 1]);
      }
      assert views[..|list|] == views;
    }

    /** Append copies of the entries in list i of another message. */
    method MergeListFrom(other: EnvelopeMessage, i: nat)
      requires Typed() && other.Typed() && other != this && other.layout == layout && other.masks == masks
      requires i < |lists| == |other.lists|
      modifies this`lists
      ensures Typed() && |lists| == |old(lists)| && unknown == old(unknown)
      ensures View() == WithList(old(View()), i, old(View()).entries[i] + old(other.View()).entries[i])
    {
      hide Leaves.WellFormed, LeafMessage.View, Views;
      ViewListAt(other.lists, i);
      EntriesOfList(other.lists, i);
      assert forall m :: m in Entries(other.lists) ==> allocated(m);
      MergeList(i, other.lists[i]);
    }

    /** Append copies of the entries of another message, and its unknown records. */
    method MergeFrom(other: EnvelopeMessage)
      requires Valid() && other.Valid() && other != this && other.layout == layout && other.masks == masks
      modifies this`lists, this`unknown
      ensures Valid() && View() == Merge(old(View()), old(other.View()))
    {
      hide WellFormed, TypedLists, ViewLists, Merge;
      ghost var e, f := View(), other.View();
      MergeKeepsWellFormed(layout, e, f);
      MergedUptoEnds(e, f);
      ListsAreTyped();
      other.ListsAreTyped();
      for i := 0 to |other.lists|
        invariant Typed() && |lists| == |old(lists)| && other.Typed() && other.View() == f && unknown == old(unknown)
        invariant View() == MergedUpto(e, f, i)
      {
        assert forall m :: m in Entries(other.lists) ==> allocated(m);
        MergeListFrom(other, i);
        MergedUptoGrows(e, f, i);
      }
      unknown := unknown + other.unknown;
    }

    lemma WithListTwice(e: Envelope, i: nat, a: seq<Leaves.Leaf>, b: seq<Leaves.Leaf>)
      requires i < |e.entries|
      ensures WithList(WithList(e, i, a), i, b) == WithList(e, i, b)
    {
    }
  }
}
