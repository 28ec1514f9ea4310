/** How the two programs hand over an encoding. The sender sends all of its bytes, but the receiver gives its buffer to
    the parser as a C string, which ends at the first zero byte. The receiver of a request stops when the parse
    fails. */
module Delivery {
  import opened Varints
  import opened Wire
  import opened Streams
  import Leaves
  import opened Envelopes
  import opened AuthProtocol
  import opened EnvelopeMessages

  // ----- the buffer and the text in it -----

  /** The size of the buffer on either side. */
  const BUFFER_SIZE := 16348

  /** The buffer after bytes were received into it: they overwrite the front of what was there before. */
  function Buffer(bytes: seq<octet>, before: seq<octet>): (buffer: seq<octet>)
    requires |before| == BUFFER_SIZE
    ensures |buffer| == BUFFER_SIZE
  {
    if |bytes| <= BUFFER_SIZE then bytes + before[|bytes|..] else bytes[..BUFFER_SIZE]
  }

  /** The characters of a C string that starts at the front of a buffer. */
  function CString(buffer: seq<octet>): (text: seq<octet>)
    requires 0 in buffer
    ensures |text| < |buffer| && text == buffer[..|text|] && buffer[|text|] == 0 && 0 !in text
  {
    if buffer[0] == 0 then [] else [buffer[0]] + CString(buffer[1..])
  }

  /** The text that is handed to the parser, if the buffer has a zero byte to end it. */
  function TextIn(bytes: seq<octet>, before: seq<octet>): Option<seq<octet>>
    requires |before| == BUFFER_SIZE
  {
    if 0 in Buffer(bytes, before) then Some(CString(Buffer(bytes, before))) else None
  }

  /** The bytes fit the buffer, have no zero byte among them, and one right behind them. */
  predicate Terminated(bytes: seq<octet>, before: seq<octet>)
    requires |before| == BUFFER_SIZE
  {
    |bytes| < BUFFER_SIZE && 0 !in bytes && before[|bytes|] == 0
  }

  /** There is a zero byte among the bytes or right behind them, within the buffer. */
  predicate EndsInMessage(bytes: seq<octet>, before: seq<octet>)
    requires |before| == BUFFER_SIZE
  {
    0 in bytes[..if |bytes| < BUFFER_SIZE then |bytes| else BUFFER_SIZE] || Terminated(bytes, before)
  }

  lemma {:induction false} CStringAppend(bytes: seq<octet>, behind: seq<octet>)
    requires 0 in behind
    ensures 0 in bytes ==> |CString(bytes + behind)| < |bytes|
    ensures 0 !in bytes ==> CString(bytes + behind) == bytes + CString(behind)
  {
    if bytes == [] {
      assert bytes + behind == behind;
    } else if bytes[0] != 0 {
      assert (bytes + behind)[1..] == bytes[1..] + behind;
      CStringAppend(bytes[1..], behind);
    }
  }

  /** The text is the bytes, or is cut off at a zero byte among them, or has other bytes behind. */
  lemma TextOfBytes(bytes: seq<octet>, before: seq<octet>)
    requires |before| == BUFFER_SIZE
    ensures Terminated(bytes, before) ==> TextIn(bytes, before) == Some(bytes)
    ensures EndsInMessage(bytes, before) ==> TextIn(bytes, before).Some? && TextIn(bytes, before).value <= bytes
    ensures EndsInMessage(bytes, before) && !Terminated(bytes, before) ==>
              var text := TextIn(bytes, before).value;
              |text| < |bytes| && bytes[|text|] == 0 && 0 !in text
    ensures !EndsInMessage(bytes, before) && TextIn(bytes, before).Some? ==>
              bytes < TextIn(bytes, before).value
  {
    if |bytes| < BUFFER_SIZE {
      assert bytes[..|bytes|] == bytes;
      var behind := before[|bytes|..];
      assert behind[0] == before[|bytes|];
      assert Buffer(bytes, before) == bytes + behind;
      if 0 in bytes {
        assert 0 in bytes + behind;
        CStringInFront(bytes, behind);
      } else if 0 in behind {
        CStringAppend(bytes, behind);
        assert bytes + [] == bytes;
      }
    } else {
      var front := bytes[..BUFFER_SIZE];
      assert Buffer(bytes, before) == front;
      if 0 in front {
        assert bytes[|CString(front)|] == front[|CString(front)|];
      }
    }
  }

  lemma CStringInFront(bytes: seq<octet>, behind: seq<octet>)
    requires 0 in bytes
    ensures 0 in bytes + behind
    ensures var text := CString(bytes + behind); |text| < |bytes| && text == bytes[..|text|] && bytes[|text|] == 0
  {
    var k :| 0 <= k < |bytes| && bytes[k] == 0;
    assert (bytes + behind)[k] == 0;
    var text := CString(bytes + behind);
    assert forall i :: 0 <= i < |text| ==> (bytes + behind)[i] == text[i] != 0;
    assert text == (bytes + behind)[..|text|] == bytes[..|text|];
  }

  // ----- when a parse reports success with the message -----

  /** How many entries and unknown records there are in the lists from index i on. */
  function Count(entries: seq<seq<Leaves.Leaf>>, i: nat): nat
    requires i <= |entries|
    decreases |entries| - i
  {
    if i == |entries| then 0 else |entries[i]| + Count(entries, i + 1)
  }

  lemma {:induction false} CountAppend(entries: seq<seq<Leaves.Leaf>>, k: nat, m: Leaves.Leaf, i: nat)
    requires i <= |entries| && k < |entries|
    ensures Count(entries[k := entries[k] + [m]], i) == Count(entries, i) + (if i <= k then 1 else 0)
    decreases |entries| - i
  {
    if i == |entries| {
    } else {
      CountAppend(entries, k, m, i + 1);
    }
  }

  lemma {:induction false} EveryRecordCounts(layout: Layout, e: Envelope, rs: seq<Record>, depth: nat)
    requires |e.entries| == |layout.leaves| && ApplyAll(layout, e, rs, depth).Some?
    ensures var f := ApplyAll(layout, e, rs, depth).value;
            Count(f.entries, 0) + |f.unknown| == Count(e.entries, 0) + |e.unknown| + |rs|
    decreases |rs|
  {
    hide ParseLeaf;
    if rs == [] {
    } else {
      var slot := Slot(layout, rs[0]);
      if slot.Some? {
        CountAppend(e.entries, slot.value, ParseLeaf(layout, slot.value, rs[0].payload, depth).value, 0);
      }
      EveryRecordCounts(layout, Apply(layout, e, rs[0], depth).value, rs[1..], depth);
    }
  }

  /** Bytes that follow an encoding are never without effect. */
  lemma MoreBytesAreNoticed(layout: Layout, e: Envelope, bytes: seq<octet>, more: seq<octet>, depth: nat)
    requires Parse(layout, Empty(layout), bytes, depth) == Some(e) && more != []
    ensures Parse(layout, Empty(layout), bytes + more, depth) != Some(e)
  {
    hide Apply, ReadRecord, Count;
    ReadConcatenation(bytes, more, depth);
    var first, second := ReadRecords(bytes, depth).value, ReadRecords(more, depth);
    if second.Some? {
      ApplyAllAppend(layout, Empty(layout), first, second.value, depth);
      if ApplyAll(layout, e, second.value, depth).Some? {
        EveryRecordCounts(layout, e, second.value, depth);
      }
    }
  }

  /** The parse reports success with the message that was sent if and only if its encoding has no zero byte, is shorter
      than the buffer, and has a zero byte behind it: a cut-off encoding is shorter than any encoding of the message,
      and bytes behind it change the message. */
  lemma ReportedExactly(layout: Layout, e: Envelope, before: seq<octet>)
    requires WellFormed(layout, e) && Envelopes.Initialized(e) && EnvelopeFits(e, RECURSION_LIMIT)
    requires |before| == BUFFER_SIZE
    ensures var text := TextIn(Write(layout, e), before);
            (text.Some? && FromString(layout, text.value) == Outcome(e, true)) <==> Terminated(Write(layout, e), before)
  {
    hide WellFormed, Envelopes.Initialized, EnvelopeFits, Parse, Write, FromString, TextIn, Terminated, EndsInMessage;
    var bytes := Write(layout, e);
    TextOfBytes(bytes, before);
    ParseUndoesWrite(layout, e, RECURSION_LIMIT);
    if TextIn(bytes, before).Some? {
      var text := TextIn(bytes, before).value;
      FromStringIsParse(layout, text);
      if Terminated(bytes, before) {
      } else if EndsInMessage(bytes, before) {
        if Parse(layout, Empty(layout), text, RECURSION_LIMIT).Some? {
          ParsedIsRewritable(layout, text, RECURSION_LIMIT);
        }
      } else {
        assert text == bytes + text[|bytes|..];
        MoreBytesAreNoticed(layout, e, bytes, text[|bytes|..], RECURSION_LIMIT);
      }
    }
  }

  // ----- requests -----

  /** The request that the server goes on with. */
  function Handled(bytes: seq<octet>, before: seq<octet>): Option<Envelope>
    requires |before| == BUFFER_SIZE
  {
    match TextIn(bytes, before)
    case None => None
    case Some(text) => ParseFromString(REQUEST, text)
  }

  /** The loop that finds the end of a C string. */
  method ReadCString(buffer: array<octet>) returns (text: seq<octet>)
    requires 0 in buffer[..]
    ensures text == CString(buffer[..])
  {
    ghost var all := buffer[..];
    var n := 0;
    while buffer[n] != 0
      invariant n <= |CString(all)|
      decreases buffer.Length - n
    {
      assert all[n] != 0;
      n := n + 1;
    }
    assert forall i :: 0 <= i < |CString(all)| ==> all[i] == CString(all)[i] != 0;
    text := buffer[..n];
  }

  /** The server parses what is in its buffer, and goes on with the request only if that succeeds. */
  method ReceiveRequest(buffer: array<octet>) returns (success: bool, request: EnvelopeMessage)
    requires 0 in buffer[..]
    ensures request.Typed() && request.layout == REQUEST
    ensures ParseFromString(REQUEST, CString(buffer[..])) == if success then Some(request.View()) else None
  {
    hide FromString, Envelopes.ParseFromString, CString, WellFormed, TypedLists, ViewLists;
    var text := ReadCString(buffer);
    request := NewRequest();
    success := request.ParseFromString(text);
  }

  /** The server handles the request that was sent if and only if its encoding has no zero byte, is shorter than the
      buffer, and has a zero byte behind it. */
  lemma DeliveredExactly(e: Envelope, before: seq<octet>)
    requires WellFormed(REQUEST, e) && Envelopes.Initialized(e) && EnvelopeFits(e, RECURSION_LIMIT)
    requires |before| == BUFFER_SIZE
    ensures Handled(Write(REQUEST, e), before) == Some(e) <==> Terminated(Write(REQUEST, e), before)
  {
    hide WellFormed, Envelopes.Initialized, EnvelopeFits, Write, TextIn, Terminated, FromString, ParseFromString;
    ReportedExactly(REQUEST, e, before);
    var text := TextIn(Write(REQUEST, e), before);
    if text.Some? {
      FromStringIsParse(REQUEST, text.value);
    }
  }

  // ----- encodings with zero bytes -----

  lemma {:induction false} FieldIsWritten(fields: seq<Option<Leaves.Value>>, i: nat, k: nat, b: octet)
    requires i <= k < |fields| && fields[k].Some? && b in Encode(Leaves.FieldRecord(k + 1, fields[k].value))
    ensures b in EncodeAll(Leaves.FieldRecords(fields, i))
    decreases k - i
  {
    hide Encode, Leaves.FieldRecord;
    if fields[i].Some? {
      assert Leaves.FieldRecords(fields, i)[1..] == Leaves.FieldRecords(fields, i + 1);
    } else {
      assert Leaves.FieldRecords(fields, i) == Leaves.FieldRecords(fields, i + 1);
    }
    if i < k {
      FieldIsWritten(fields, i + 1, k, b);
    }
  }

  lemma LeafIsWritten(m: Leaves.Leaf, k: nat, b: octet)
    requires k < |m.fields| && m.fields[k].Some? && b in Encode(Leaves.FieldRecord(k + 1, m.fields[k].value))
    ensures b in Leaves.Write(m)
  {
    hide EncodeAll, Encode, Leaves.FieldRecord, Leaves.FieldRecords;
    FieldIsWritten(m.fields, 0, k, b);
    Leaves.EncodeAllAppend(Leaves.FieldRecords(m.fields, 0), m.unknown);
  }

  lemma {:induction false} EntryIsWritten(num: nat, list: seq<Leaves.Leaf>, m: Leaves.Leaf, b: octet)
    requires m in list && b in Leaves.Write(m)
    ensures b in EncodeAll(ListRecords(num, list))
  {
    hide Leaves.Write, Tag, Varint;
    var first := DelimitedRecord(num, Leaves.Write(list[0]));
    assert ListRecords(num, list)[1..] == ListRecords(num, list[1..]);
    assert EncodeAll(ListRecords(num, list)) == Encode(first) + EncodeAll(ListRecords(num, list[1..]));
    if m == list[0] {
      assert Encode(first) == Tag(num, 2) + (Varint(|Leaves.Write(m)|) + Leaves.Write(m));
    } else {
      EntryIsWritten(num, list[1..], m, b);
    }
  }

  lemma {:induction false} ListIsWritten(layout: Layout, entries: seq<seq<Leaves.Leaf>>, i: nat, k: nat,
                                         m: Leaves.Leaf, b: octet)
    requires i <= k < |entries| && m in entries[k] && b in Leaves.Write(m)
    ensures b in EncodeAll(EntryRecords(layout, entries, i))
    decreases k - i
  {
    hide Leaves.Write, EncodeAll, ListRecords;
    Leaves.EncodeAllAppend(ListRecords(layout.first + i, entries[i]), EntryRecords(layout, entries, i + 1));
    if i < k {
      ListIsWritten(layout, entries, i + 1, k, m, b);
    } else {
      EntryIsWritten(layout.first + i, entries[i], m, b);
    }
  }

  /** A number zero, an enumerator zero and an empty string are each written with a zero byte. */
  predicate WrittenWithZero(v: Leaves.Value) {
    v == Leaves.IntValue(0) || v == Leaves.EnumValue(0) || v == Leaves.TextValue([])
  }

  lemma ZeroInRecord(num: nat, v: Leaves.Value)
    requires WrittenWithZero(v)
    ensures 0 in Encode(Leaves.FieldRecord(num, v))
  {
    hide Tag;
    var r := Leaves.FieldRecord(num, v);
    assert Varint(0) == [0];
    assert Encode(r) == Tag(num, WireType(r)) + Body(r);
    assert Body(r)[0] == 0;
  }

  /** If any field of any entry is such a value, no parse of what arrives reports success with the message, whatever
      else the message holds. */
  lemma ZeroFieldIsNotDelivered(layout: Layout, e: Envelope, i: nat, m: Leaves.Leaf, k: nat, before: seq<octet>)
    requires WellFormed(layout, e) && Envelopes.Initialized(e) && EnvelopeFits(e, RECURSION_LIMIT)
    requires |before| == BUFFER_SIZE
    requires i < |e.entries| && m in e.entries[i]
    requires k < |m.fields| && m.fields[k].Some? && WrittenWithZero(m.fields[k].value)
    ensures var text := TextIn(Write(layout, e), before);
            text.Some? ==> FromString(layout, text.value) != Outcome(e, true)
  {
    hide WellFormed, Envelopes.Initialized, EnvelopeFits, EncodeAll, EntryRecords, FromString, TextIn, WrittenWithZero,
         Leaves.FieldRecord, Leaves.Write, Encode;
    ZeroInRecord(k + 1, m.fields[k].value);
    LeafIsWritten(m, k, 0);
    ListIsWritten(layout, e.entries, 0, i, m, 0);
    Leaves.EncodeAllAppend(EntryRecords(layout, e.entries, 0), e.unknown);
    assert 0 in Write(layout, e);
    ReportedExactly(layout, e, before);
  }
}
