/** What the client makes of a response. It does not care whether the parse succeeds, and goes on with whatever the
    object holds; that can be right although the response was cut off, and can be wrong. */
module Responses {
  import opened Varints
  import opened Wire
  import opened Streams
  import Leaves
  import opened Envelopes
  import opened AuthProtocol
  import opened EnvelopeMessages
  import opened Delivery

  // ----- the client -----

  datatype Status = InvalidCredential | AccountExists | InvalidPassword | InternalServerError

  /** What the client makes of a response: the return codes 1 to 4, with the creation date or the status that it
      keeps, or nothing at all. */
  datatype Reaction =
    | NoAnswer
    | LoggedIn(creationDate: seq<octet>)
    | LoginFailed(status: Status)
    | Created
    | CreationFailed(status: Status)

  /** A string as the program copies it, by way of a C string. */
  function UpToZero(bytes: seq<octet>): seq<octet> {
    if 0 in bytes then CString(bytes) else bytes
  }

  /** The lists are looked at in the order of their numbers, and only the first entry of a list counts. */
  function React(e: Envelope): Reaction
    requires |e.entries| == 4
  {
    if e.entries[0] != [] then LoggedIn(CreationDate(e.entries[0][0]))
    else if e.entries[1] != [] then LoginFailed(LoginStatus(e.entries[1][0]))
    else if e.entries[2] != [] then Created
    else if e.entries[3] != [] then CreationFailed(CreationStatus(e.entries[3][0]))
    else NoAnswer
  }

  function CreationDate(m: Leaves.Leaf): seq<octet> {
    if |m.fields| == 3 && m.fields[2].Some? && m.fields[2].value.TextValue? then UpToZero(m.fields[2].value.bytes)
    else []
  }

  /** The number of the reason of a failure, which is zero when it is absent. */
  function Reason(m: Leaves.Leaf): nat {
    if |m.fields| == 2 && m.fields[1].Some? && m.fields[1].value.EnumValue? then m.fields[1].value.n else 0
  }

  function LoginStatus(m: Leaves.Leaf): Status {
    if Reason(m) == INVALID_CREDENTIALS then InvalidCredential else InternalServerError
  }

  function CreationStatus(m: Leaves.Leaf): Status {
    if Reason(m) == ACCOUNT_ALREADY_EXISTS then AccountExists
    else if Reason(m) == INVALID_PASSWORD then InvalidPassword
    else InternalServerError
  }

  lemma DateOf(m: Leaves.Leaf, date: Leaves.Value)
    requires Leaves.WellFormed(AUTHENTICATE_WEB_SUCCESS, m) && date == Leaves.Get(AUTHENTICATE_WEB_SUCCESS, m, 2)
    ensures date.TextValue? && CreationDate(m) == UpToZero(date.bytes)
  {
    assert UpToZero([]) == [];
  }

  /** What the client looks at and what it keeps. */
  method ReactTo(response: EnvelopeMessage) returns (reaction: Reaction)
    requires response.Typed() && response.layout == RESPONSE
    ensures reaction == React(response.View())
  {
    hide Entries, Views, Leaves.Write, AllWellFormed;
    ghost var e := response.View();
    var lists := response.lists;
    ViewListAt(lists, 0); ViewListAt(lists, 1); ViewListAt(lists, 2); ViewListAt(lists, 3);
    if |lists[0]| != 0 {
      ViewAt(lists[0], 0);
      var date := lists[0][0].GetField(2);
      DateOf(e.entries[0][0], date);
      return LoggedIn(UpToZero(date.bytes));
    }
    if |lists[1]| != 0 {
      ViewAt(lists[1], 0);
      var reason := lists[1][0].GetField(1);
      return LoginFailed(if reason.n == INVALID_CREDENTIALS then InvalidCredential else InternalServerError);
    }
    if |lists[2]| != 0 {
      return Created;
    }
    if |lists[3]| != 0 {
      ViewAt(lists[3], 0);
      var reason := lists[3][0].GetField(1);
      return CreationFailed(if reason.n == ACCOUNT_ALREADY_EXISTS then AccountExists
                            else if reason.n == INVALID_PASSWORD then InvalidPassword
                            else InternalServerError);
    }
    return NoAnswer;
  }

  /** The client parses what is in its buffer, does not care whether that succeeds, and looks at the object. */
  method ReceiveResponse(buffer: array<octet>) returns (reaction: Reaction)
    requires 0 in buffer[..]
    ensures reaction == React(FromString(RESPONSE, CString(buffer[..])).value)
  {
    hide FromString, Envelopes.ParseFromString, CString, React, WellFormed, TypedLists, ViewLists;
    var text := ReadCString(buffer);
    var response := NewResponse();
    var success := response.ParseFromString(text);
    assert forall m :: m in Entries(response.lists) ==> allocated(m);
    reaction := ReactTo(response);
  }

  // ----- every response is told apart, however it is cut off -----

  /** The first list with an entry. */
  function FirstList(entries: seq<seq<Leaves.Leaf>>, i: nat): (k: nat)
    requires i <= |entries|
    ensures i <= k <= |entries| && (k < |entries| ==> entries[k] != [])
    ensures forall j :: i <= j < k ==> entries[j] == []
    decreases |entries| - i
  {
    if i == |entries| || entries[i] != [] then i else FirstList(entries, i + 1)
  }

  /** The return code that tells the kind of the answer. */
  function Code(r: Reaction): nat {
    match r
    case LoggedIn(_) => 1
    case LoginFailed(_) => 2
    case Created => 3
    case CreationFailed(_) => 4
    case NoAnswer => 5
  }

  lemma CodeIsFirstList(e: Envelope)
    requires |e.entries| == 4
    ensures Code(React(e)) == FirstList(e.entries, 0) + 1
  {
  }

  predicate HasSlot(layout: Layout, rs: seq<Record>, i: nat) {
    exists r :: r in rs && Slot(layout, r) == Some(i)
  }

  lemma {:induction false} SlotsOfRecords(layout: Layout, entries: seq<seq<Leaves.Leaf>>, i: nat, r: Record)
    requires i <= |entries| == |layout.leaves| && r in EntryRecords(layout, entries, i)
    ensures Slot(layout, r).Some? && entries[Slot(layout, r).value] != []
    decreases |entries| - i
  {
    hide EntryRecords, ListRecords, Leaves.Write;
    EntryRecordsSteps(layout, entries, i);
    if r in ListRecords(layout.first + i, entries[i]) {
      RecordOfList(layout.first + i, entries[i], r);
    } else {
      SlotsOfRecords(layout, entries, i + 1, r);
    }
  }

  lemma {:induction false} RecordOfList(num: nat, list: seq<Leaves.Leaf>, r: Record)
    requires r in ListRecords(num, list)
    ensures list != [] && r.DelimitedRecord? && r.num == num
  {
    hide Leaves.Write;
    if r in ListRecords(num, list[1..]) {
      RecordOfList(num, list[1..], r);
    }
  }

  lemma NoRecords(num: nat)
    ensures ListRecords(num, []) == []
  {
  }

  lemma FirstOfList(num: nat, list: seq<Leaves.Leaf>)
    requires list != []
    ensures ListRecords(num, list) != [] && ListRecords(num, list)[0] == DelimitedRecord(num, Leaves.Write(list[0]))
  {
    hide Leaves.Write;
  }

  lemma {:induction false} FirstRecord(layout: Layout, entries: seq<seq<Leaves.Leaf>>, i: nat)
    requires i <= |entries| == |layout.leaves| && FirstList(entries, i) < |entries|
    ensures EntryRecords(layout, entries, i) != []
         && Slot(layout, EntryRecords(layout, entries, i)[0]) == Some(FirstList(entries, i))
    decreases |entries| - i
  {
    hide EntryRecords, ListRecords, Leaves.Write;
    EntryRecordsSteps(layout, entries, i);
    if entries[i] == [] {
      NoRecords(layout.first + i);
      FirstRecord(layout, entries, i + 1);
    } else {
      FirstOfList(layout.first + i, entries[i]);
    }
  }

  lemma {:induction false} RunKeepsEntries(layout: Layout, e: Envelope, data: seq<octet>, ptr: nat, depth: nat)
    requires |e.entries| == |layout.leaves|
    ensures var v := Run(layout, e, data, ptr, depth).value;
            forall i :: 0 <= i < |e.entries| && e.entries[i] != [] ==> v.entries[i] != []
    decreases |data| + 16 - ptr
  {
    hide ReadTag, ReadSize, From, TakeBody, Leaves.Run;
    if ptr < |data| && TakeRecord(layout, e, data, ptr, depth).ok {
      var s := TakeRecord(layout, e, data, ptr, depth);
      RunKeepsEntries(layout, s.value, data, s.end, depth);
    }
  }

  /** All records are for lists, and they can be parsed. */
  ghost predicate ListRecordsOnly(layout: Layout, rs: seq<Record>, depth: nat) {
    AllStorable(rs) && AllFit(rs, depth) && forall r :: r in rs ==> Slot(layout, r).Some?
  }

  lemma TagOfListRecord(layout: Layout, r: Record)
    requires Slot(layout, r).Some?
    ensures Encode(r)[0] == 8 * r.num + 2
  {
    hide Body;
    assert Varint(8 * r.num + 2) == [8 * r.num + 2];
  }

  lemma OneByteTag(data: seq<octet>, p: nat, tag: nat)
    requires p < |data| && data[p] == tag < 128
    ensures ReadTag(From(data, p)) == Got(tag, 1)
  {
    assert From(data, p)[0] == tag;
  }

  /** In data that are cut off, a record of a list adds an entry to its list; if that succeeds, all of it was there. */
  lemma FirstOfCut(layout: Layout, e: Envelope, r: Record, rest: seq<octet>, data: seq<octet>, ptr: nat, depth: nat)
    requires |e.entries| == |layout.leaves| && ptr < |data|
    requires Slot(layout, r).Some? && Storable(r) && Fits(r, depth)
    requires data[ptr..] <= Encode(r) + rest
    ensures var i, s := Slot(layout, r).value, TakeRecord(layout, e, data, ptr, depth);
            && s.value.entries[i] != []
            && (forall j :: 0 <= j < |e.entries| && j != i ==> s.value.entries[j] == e.entries[j])
            && (s.ok ==> s.end == ptr + |Encode(r)| <= |data| && data[s.end..] <= rest)
  {
    hide ReadRecord, Encode, ReadTag, TakeEntry, From, Apply, Leaves.Run, Storable, Fits;
    var i := Slot(layout, r).value;
    var tag := 8 * r.num + 2;
    TagOfListRecord(layout, r);
    assert data[ptr] == data[ptr..][0] == Encode(r)[0];
    OneByteTag(data, ptr, tag);
    EntryIsAppended(layout, e, i, data, ptr + 1, depth);
    var s := TakeRecord(layout, e, data, ptr, depth);
    assert s == TakeEntry(layout, e, i, data, ptr + 1, depth);
    if s.ok {
      TakeRecordWithin(layout, e, data, ptr, depth);
      var full := Encode(r) + rest;
      assert data[ptr..] + full[|data| - ptr..] == full;
      RecordIgnoresRest(data[ptr..], full[|data| - ptr..], depth);
      ReadUndoesEncode(r, rest, depth);
      var n := |Encode(r)|;
      assert data[s.end..] == data[ptr..][n..];
      assert full[n..] == rest;
    }
  }

  lemma EntryIsAppended(layout: Layout, e: Envelope, i: nat, data: seq<octet>, p: nat, depth: nat)
    requires |e.entries| == |layout.leaves| && i < |layout.leaves| && p <= |data| + 16
    ensures var s := TakeEntry(layout, e, i, data, p, depth);
            && s.value.entries[i] != []
            && (forall j :: 0 <= j < |e.entries| && j != i ==> s.value.entries[j] == e.entries[j])
            && (s.ok ==> s.end <= |data|)
  {
    hide ReadSize, From, Leaves.Run;
  }

  lemma {:induction false} RunOfCut(layout: Layout, e: Envelope, rs: seq<Record>, data: seq<octet>, ptr: nat,
                                    depth: nat)
    requires |e.entries| == |layout.leaves| && ptr <= |data|
    requires ListRecordsOnly(layout, rs, depth) && data[ptr..] <= EncodeAll(rs)
    ensures var v := Run(layout, e, data, ptr, depth).value;
            && (forall i :: 0 <= i < |e.entries| && v.entries[i] != [] ==> e.entries[i] != [] || HasSlot(layout, rs, i))
            && (ptr < |data| ==> rs != [] && v.entries[Slot(layout, rs[0]).value] != [])
    decreases |data| - ptr
  {
    hide Encode, TakeRecord, Slot, Storable, Fits;
    if ptr == |data| {
    } else {
      var i := Slot(layout, rs[0]).value;
      assert HasSlot(layout, rs, i);
      FirstOfCut(layout, e, rs[0], EncodeAll(rs[1..]), data, ptr, depth);
      var s := TakeRecord(layout, e, data, ptr, depth);
      if s.ok {
        RunOfCut(layout, s.value, rs[1..], data, s.end, depth);
        RunKeepsEntries(layout, s.value, data, s.end, depth);
        forall j: nat | HasSlot(layout, rs[1..], j)
          ensures HasSlot(layout, rs, j)
        {
          var r :| r in rs[1..] && Slot(layout, r) == Some(j);
          assert r in rs;
        }
      }
    }
  }

  /** What the object of the client holds after the bytes of a response have arrived. */
  function Held(bytes: seq<octet>, before: seq<octet>): (e: Envelope)
    requires |before| == BUFFER_SIZE && TextIn(bytes, before).Some?
    ensures |e.entries| == 4
  {
    FromString(RESPONSE, TextIn(bytes, before).value).value
  }

  lemma ResponseRecords(e: Envelope, depth: nat)
    requires WellFormed(RESPONSE, e) && EnvelopeFits(e, depth) && e.unknown == []
    ensures var rs := EntryRecords(RESPONSE, e.entries, 0);
            ListRecordsOnly(RESPONSE, rs, depth) && Write(RESPONSE, e) == EncodeAll(rs)
  {
    hide Leaves.WellFormed, Leaves.Write, EntryRecords, AllStorable, AllFit, ListIsShort, ListFits;
    var rs := EntryRecords(RESPONSE, e.entries, 0);
    EntryRecordsFit(RESPONSE, e, 0, depth);
    forall r | r in rs
      ensures Slot(RESPONSE, r).Some?
    {
      SlotsOfRecords(RESPONSE, e.entries, 0, r);
    }
    assert rs + [] == rs;
  }

  lemma FirstByteIsTag(layout: Layout, rs: seq<Record>, depth: nat)
    requires ListRecordsOnly(layout, rs, depth) && rs != []
    ensures EncodeAll(rs) != [] && EncodeAll(rs)[0] != 0
  {
    hide Encode;
    TagOfListRecord(layout, rs[0]);
  }

  /** Wherever a response is cut off, and although the parse may fail, the client can tell which kind of answer it is:
      it looks at the first entry of the first list that the response has an entry in. */
  lemma KindIsSeen(e: Envelope, before: seq<octet>)
    requires WellFormed(RESPONSE, e) && EnvelopeFits(e, RECURSION_LIMIT) && e.unknown == []
    requires |before| == BUFFER_SIZE && EndsInMessage(Write(RESPONSE, e), before)
    requires React(e) != NoAnswer
    ensures TextIn(Write(RESPONSE, e), before).Some?
    ensures Code(React(Held(Write(RESPONSE, e), before))) == Code(React(e))
  {
    hide WellFormed, EnvelopeFits, Write, EncodeAll, EntryRecords, Run, ListRecordsOnly, TextIn, EndsInMessage, React,
         Terminated, Slot, Envelopes.Initialized, HasSlot;
    var bytes, rs := Write(RESPONSE, e), EntryRecords(RESPONSE, e.entries, 0);
    EntriesStay(RESPONSE, e);
    ResponseRecords(e, RECURSION_LIMIT);
    TextOfBytes(bytes, before);
    var text := TextIn(bytes, before).value;
    CodeIsFirstList(e);
    ReactionHasEntry(e);
    FirstRecord(RESPONSE, e.entries, 0);
    FirstByteIsTag(RESPONSE, rs, RECURSION_LIMIT);
    assert text != [];
    assert text[0..] == text;
    RunOfCut(RESPONSE, Empty(RESPONSE), rs, text, 0, RECURSION_LIMIT);
    var v := Held(bytes, before);
    CodeIsFirstList(v);
    var k := FirstList(e.entries, 0);
    forall j | 0 <= j < 4 && v.entries[j] != []
      ensures e.entries[j] != []
    {
      assert HasSlot(RESPONSE, rs, j);
      SlotHasEntry(e, j);
    }
  }

  lemma ReactionHasEntry(e: Envelope)
    requires |e.entries| == 4 && React(e) != NoAnswer
    ensures FirstList(e.entries, 0) < 4
  {
  }

  lemma SlotHasEntry(e: Envelope, j: nat)
    requires |e.entries| == 4 && HasSlot(RESPONSE, EntryRecords(RESPONSE, e.entries, 0), j)
    ensures j < 4 && e.entries[j] != []
  {
    hide EntryRecords;
    var r :| r in EntryRecords(RESPONSE, e.entries, 0) && Slot(RESPONSE, r) == Some(j);
    SlotsOfRecords(RESPONSE, e.entries, 0, r);
  }

  // ----- the answers to failed requests -----

  /** The failure that the server reports for request n. */
  function Failure(n: nat, reason: nat): Leaves.Leaf {
    Leaves.Leaf([Some(Leaves.IntValue(n)), Some(Leaves.EnumValue(reason))], [])
  }

  /** A response with one entry in one of the lists of failures, which are 1 and 3. */
  function Answer(list: nat, m: Leaves.Leaf): Envelope
    requires list == 1 || list == 3
  {
    if list == 1 then Envelope([[], [m], [], []], []) else Envelope([[], [], [], [m]], [])
  }

  function FailureSchema(list: nat): Leaves.Schema {
    if list == 1 then AUTHENTICATE_WEB_FAILURE else CREATE_ACCOUNT_WEB_FAILURE
  }

  /** The encoding up to the reason: a tag, the length of the entry, and its first field with the number. */
  function UpToReason(list: nat, n: nat): seq<octet>
    requires (list == 1 || list == 3) && n < 0x1_0000_0000_0000_0000
  {
    hide Log2Floor, Power128;
    VarintSizeIsLength(n);
    [8 * list + 10, |Varint(n)| + 3, 8] + Varint(n) + [16]
  }

  lemma ByteIsVarint(b: nat)
    requires b < 128
    ensures Varint(b) == [b]
  {
  }

  lemma FailureIsWritten(n: nat, reason: nat)
    requires n < 0x1_0000_0000_0000_0000 && reason < 128
    ensures Leaves.Write(Failure(n, reason)) == [8] + Varint(n) + [16, reason]
  {
    hide Varint;
    var a, b := VarintRecord(1, n), VarintRecord(2, reason);
    Leaves.NumbersAreWritten(Failure(n, reason), n, reason);
    Leaves.TwoRecords(AUTHENTICATE_WEB_FAILURE, a, b, 0);
    hide EncodeAll;
    ByteIsVarint(8);
    ByteIsVarint(16);
    ByteIsVarint(reason);
    assert Encode(a) == [8] + Varint(n);
    assert Encode(b) == [16] + [reason];
  }

  lemma AnswerIsWritten(list: nat, n: nat, reason: nat)
    requires (list == 1 || list == 3) && n < 0x1_0000_0000_0000_0000 && reason < 128
    ensures Write(RESPONSE, Answer(list, Failure(n, reason))) == UpToReason(list, n) + [reason]
  {
    hide Varint, Log2Floor, Power128, Leaves.Write;
    var m := Failure(n, reason);
    var e, r := Answer(list, m), DelimitedRecord(list + 1, Leaves.Write(m));
    FailureIsWritten(n, reason);
    VarintSizeIsLength(n);
    ByteIsVarint(8 * list + 10);
    ByteIsVarint(|Varint(n)| + 3);
    assert Encode(r) == [8 * list + 10] + ([|Varint(n)| + 3] + Leaves.Write(m));
    OneEntry(list, m);
    Leaves.OneRecord(r, 0);
    assert Records(RESPONSE, e) == [r];
  }

  lemma OneEntry(list: nat, m: Leaves.Leaf)
    requires list == 1 || list == 3
    ensures EntryRecords(RESPONSE, Answer(list, m).entries, 0) == [DelimitedRecord(list + 1, Leaves.Write(m))]
  {
    hide Leaves.Write;
    var entries := Answer(list, m).entries;
    assert [m][1..] == [];
    assert ListRecords(list + 1, [m]) == [DelimitedRecord(list + 1, Leaves.Write(m))];
    assert EntryRecords(RESPONSE, entries, 4) == [];
    assert EntryRecords(RESPONSE, entries, 3) == ListRecords(4, entries[3]);
    assert EntryRecords(RESPONSE, entries, 2) == EntryRecords(RESPONSE, entries, 3);
    assert EntryRecords(RESPONSE, entries, 1) == ListRecords(2, entries[1]) + EntryRecords(RESPONSE, entries, 2);
    assert EntryRecords(RESPONSE, entries, 0) == EntryRecords(RESPONSE, entries, 1);
  }

  lemma {:induction false} OnlyZeroHasZero(n: nat)
    ensures 0 in Varint(n) <==> n == 0
  {
    if n < 128 {
      assert Varint(n) == [n];
    } else {
      OnlyZeroHasZero(n / 128);
    }
  }

  lemma VarintAt(data: seq<octet>, p: nat, n: nat)
    requires n < 0x1_0000_0000_0000_0000
    requires p + |Varint(n)| <= |data| && data[p..p + |Varint(n)|] == Varint(n)
    ensures ReadVarint64(From(data, p)) == Got(n, |Varint(n)|)
  {
    hide Varint;
    var rest := From(data, p + |Varint(n)|);
    assert From(data, p) == Varint(n) + rest;
    ReadUndoesVarint64(n, rest);
  }

  lemma OneByteSize(data: seq<octet>, p: nat, size: nat)
    requires p < |data| && data[p] == size < 128
    ensures ReadSize(From(data, p)) == Got(size, 1)
  {
    assert From(data, p)[0] == size;
  }

  /** Behind the end of the data the parser reads a zero. */
  lemma ZeroBehind(data: seq<octet>)
    ensures ReadVarint64(From(data, |data|)) == Got(0, 1)
  {
    assert From(data, |data|)[0] == 0;
  }

  /** The first field of a failure is read where it is. */
  lemma NumberIsTaken(schema: Leaves.Schema, m: Leaves.Leaf, data: seq<octet>, limit: nat, ptr: nat, k: nat, n: nat,
                      depth: nat)
    requires |schema| == 2 == |m.fields| && schema[0] == Leaves.Int64 && m.unknown == []
    requires ptr < |data| && data[ptr] == 8 && ReadVarint64(From(data, ptr + 1)) == Got(n, k)
    ensures Leaves.TakeRecord(schema, m, data, limit, ptr, depth)
         == Step(Leaves.Set(m, 0, Leaves.IntValue(n)), ptr + 1 + k, true)
  {
    hide ReadTag, ReadVarint64, From, TakeBody;
    OneByteTag(data, ptr, 8);
  }

  /** The reason is read from behind the data, where there is a zero. */
  lemma ReasonIsTaken(schema: Leaves.Schema, m: Leaves.Leaf, data: seq<octet>, limit: nat, depth: nat)
    requires |schema| == 2 == |m.fields| && schema[1].Enum? && schema[1].limit > 0
    requires data != [] && data[|data| - 1] == 16
    ensures Leaves.TakeRecord(schema, m, data, limit, |data| - 1, depth)
         == Step(Leaves.Set(m, 1, Leaves.EnumValue(0)), |data| + 1, true)
  {
    hide ReadTag, ReadVarint64, From, TakeBody;
    OneByteTag(data, |data| - 1, 16);
    ZeroBehind(data);
  }

  lemma RunStep(schema: Leaves.Schema, m: Leaves.Leaf, data: seq<octet>, limit: nat, ptr: nat, depth: nat)
    requires |m.fields| == |schema|
    ensures ptr >= |data| && limit > |data| ==> Leaves.Run(schema, m, data, limit, ptr, depth) == Outcome(m, false)
    ensures ptr < |data| && ptr < limit && Leaves.TakeRecord(schema, m, data, limit, ptr, depth).ok ==>
              var s := Leaves.TakeRecord(schema, m, data, limit, ptr, depth);
              Leaves.Run(schema, m, data, limit, ptr, depth) == Leaves.Run(schema, s.value, data, limit, s.end, depth)
  {
    hide Leaves.TakeRecord;
  }

  lemma FailureAt(data: seq<octet>, ptr: nat, number: seq<octet>)
    requires ptr <= |data| && data[ptr..] == [8] + number + [16]
    ensures |data| == ptr + |number| + 2
    ensures data[ptr] == 8 && data[|data| - 1] == 16 && data[ptr + 1..ptr + 1 + |number|] == number
  {
    var tail := data[ptr..];
    assert tail[0] == 8 && tail[|tail| - 1] == 16 && tail[1..1 + |number|] == number;
  }

  /** A failure whose reason is cut off has reason zero. */
  lemma FailureWithoutReason(schema: Leaves.Schema, data: seq<octet>, ptr: nat, n: nat, depth: nat)
    requires schema == AUTHENTICATE_WEB_FAILURE || schema == CREATE_ACCOUNT_WEB_FAILURE
    requires n < 0x1_0000_0000_0000_0000 && ptr <= |data| && data[ptr..] == [8] + Varint(n) + [16]
    ensures Leaves.Run(schema, Leaves.Empty(schema), data, |data| + 1, ptr, depth) == Outcome(Failure(n, 0), false)
  {
    hide Varint, ReadVarint64, From, Leaves.TakeRecord, Leaves.Run;
    var m, limit, k := Leaves.Empty(schema), |data| + 1, |Varint(n)|;
    FailureAt(data, ptr, Varint(n));
    VarintAt(data, ptr + 1, n);
    NumberIsTaken(schema, m, data, limit, ptr, k, n, depth);
    RunStep(schema, m, data, limit, ptr, depth);
    var m1 := Leaves.Set(m, 0, Leaves.IntValue(n));
    ReasonIsTaken(schema, m1, data, limit, depth);
    RunStep(schema, m1, data, limit, |data| - 1, depth);
    var m2 := Leaves.Set(m1, 1, Leaves.EnumValue(0));
    RunStep(schema, m2, data, limit, |data| + 1, depth);
    assert m2 == Failure(n, 0);
  }

  /** A failure that is cut off before its number has number zero and no reason. */
  lemma FailureWithoutNumber(schema: Leaves.Schema, data: seq<octet>, limit: nat, depth: nat)
    requires schema == AUTHENTICATE_WEB_FAILURE || schema == CREATE_ACCOUNT_WEB_FAILURE
    requires data != [] && data[|data| - 1] == 8 && limit > |data|
    ensures Leaves.Run(schema, Leaves.Empty(schema), data, limit, |data| - 1, depth)
         == Outcome(Leaves.Leaf([Some(Leaves.IntValue(0)), None], []), false)
  {
    hide ReadVarint64, From, Leaves.TakeRecord, Leaves.Run;
    var m := Leaves.Empty(schema);
    ZeroBehind(data);
    NumberIsTaken(schema, m, data, limit, |data| - 1, 1, 0, depth);
    RunStep(schema, m, data, limit, |data| - 1, depth);
    RunStep(schema, Leaves.Set(m, 0, Leaves.IntValue(0)), data, limit, |data| + 1, depth);
    assert Leaves.Set(m, 0, Leaves.IntValue(0)) == Leaves.Leaf([Some(Leaves.IntValue(0)), None], []);
  }

  /** A response whose only entry cannot be parsed to its end holds what was parsed of it. */
  lemma OnlyEntry(list: nat, data: seq<octet>, size: nat, m: Leaves.Leaf, depth: nat)
    requires (list == 1 || list == 3) && depth > 0
    requires |data| >= 2 && data[0] == 8 * list + 10 && data[1] == size < 128
    requires var schema := FailureSchema(list);
             Leaves.Run(schema, Leaves.Empty(schema), data, 2 + size, 2, depth - 1) == Outcome(m, false)
    ensures Run(RESPONSE, Empty(RESPONSE), data, 0, depth) == Outcome(Answer(list, m), false)
  {
    hide ReadTag, ReadSize, From, Leaves.Run, Leaves.Empty, Run;
    OneByteTag(data, 0, 8 * list + 10);
    OneByteSize(data, 1, size);
    RunFromTag(RESPONSE, Empty(RESPONSE), list, data, 0, depth);
    assert [] + [m] == [m];
    assert Append(Empty(RESPONSE), list, m).entries == Answer(list, m).entries;
  }

  /** What the client's object holds when a failure has arrived. */
  function FailureHeld(list: nat, n: nat, reason: nat): Envelope
    requires list == 1 || list == 3
  {
    Answer(list, if n != 0 then Failure(n, reason) else Leaves.Leaf([Some(Leaves.IntValue(0)), None], []))
  }

  lemma FailureCutAtReason(list: nat, n: nat)
    requires (list == 1 || list == 3) && n < 0x1_0000_0000_0000_0000
    ensures FromString(RESPONSE, UpToReason(list, n)) == Outcome(Answer(list, Failure(n, 0)), false)
  {
    hide Varint, Run, Leaves.Run, Log2Floor, Power128;
    VarintSizeIsLength(n);
    var data := UpToReason(list, n);
    assert data[2..] == [8] + Varint(n) + [16];
    FailureWithoutReason(FailureSchema(list), data, 2, n, RECURSION_LIMIT - 1);
    OnlyEntry(list, data, |Varint(n)| + 3, Failure(n, 0), RECURSION_LIMIT);
  }

  lemma FailureCutAtNumber(list: nat)
    requires list == 1 || list == 3
    ensures FromString(RESPONSE, [8 * list + 10, 4, 8]) == Outcome(FailureHeld(list, 0, 0), false)
  {
    hide Run, Leaves.Run;
    var data := [8 * list + 10, 4, 8];
    FailureWithoutNumber(FailureSchema(list), data, 6, RECURSION_LIMIT - 1);
    OnlyEntry(list, data, 4, Leaves.Leaf([Some(Leaves.IntValue(0)), None], []), RECURSION_LIMIT);
  }

  lemma AnswerIsShort(list: nat, m: Leaves.Leaf)
    requires (list == 1 || list == 3) && |Leaves.Write(m)| <= MAX_SIZE
    ensures forall i :: 0 <= i < 4 ==> ListIsShort(Answer(list, m).entries[i])
  {
    hide Leaves.Write;
  }

  lemma FailureIsComplete(list: nat, n: nat, reason: nat)
    requires (list == 1 || list == 3) && n < 0x1_0000_0000_0000_0000 && reason < FailureSchema(list)[1].limit
    ensures var e := Answer(list, Failure(n, reason));
            WellFormed(RESPONSE, e) && Envelopes.Initialized(e) && EnvelopeFits(e, RECURSION_LIMIT)
  {
    hide Varint, Log2Floor, Power128, Leaves.Write, EnvelopeFits, ListIsShort;
    var m := Failure(n, reason);
    var e := Answer(list, m);
    FailureIsWritten(n, reason);
    VarintSizeIsLength(n);
    assert Leaves.WellFormed(FailureSchema(list), m);
    hide Leaves.WellFormed;
    AnswerIsShort(list, m);
    KnownMessageFits(RESPONSE, e, RECURSION_LIMIT);
  }

  /** The text ends at the first zero. */
  lemma CutAtZero(bytes: seq<octet>, before: seq<octet>, stop: nat)
    requires |before| == BUFFER_SIZE && stop < |bytes| < BUFFER_SIZE && bytes[stop] == 0
    requires forall i :: 0 <= i < stop ==> bytes[i] != 0
    ensures TextIn(bytes, before) == Some(bytes[..stop])
  {
    hide TextIn;
    TextOfBytes(bytes, before);
    assert 0 in bytes && bytes[..|bytes|] == bytes;
    var text := TextIn(bytes, before).value;
    assert forall i :: 0 <= i < |text| ==> bytes[i] == text[i] != 0;
    assert text == bytes[..stop];
  }

  /** The bytes up to the first zero of a failure. */
  lemma TextOfFailure(list: nat, n: nat, reason: nat, before: seq<octet>)
    requires (list == 1 || list == 3) && n < 0x1_0000_0000_0000_0000 && reason < 128
    requires |before| == BUFFER_SIZE
    requires n != 0 && reason != 0 ==> Terminated(UpToReason(list, n) + [reason], before)
    ensures TextIn(UpToReason(list, n) + [reason], before)
         == Some(if n == 0 then [8 * list + 10, 4, 8] else if reason == 0 then UpToReason(list, n)
                 else UpToReason(list, n) + [reason])
  {
    hide Varint, Log2Floor, Power128, TextIn;
    VarintSizeIsLength(n);
    var bytes := UpToReason(list, n) + [reason];
    TextOfBytes(bytes, before);
    if n == 0 || reason == 0 {
      var stop := if n == 0 then 3 else |bytes| - 1;
      NoZeroBefore(list, n, reason, stop);
      assert bytes[stop] == 0 by {
        ByteIsVarint(0);
      }
      CutAtZero(bytes, before, stop);
      assert bytes[..stop] == UpToReason(list, n)[..stop];
      if n == 0 {
        ByteIsVarint(0);
        assert UpToReason(list, 0)[..3] == [8 * list + 10, 4, 8];
      }
    }
  }

  lemma NoZeroBefore(list: nat, n: nat, reason: nat, stop: nat)
    requires (list == 1 || list == 3) && n < 0x1_0000_0000_0000_0000
    requires stop == if n == 0 then 3 else |UpToReason(list, n)|
    ensures stop <= |UpToReason(list, n)|
    ensures forall i :: 0 <= i < stop ==> UpToReason(list, n)[i] != 0
  {
    hide Varint, Log2Floor, Power128;
    VarintSizeIsLength(n);
    OnlyZeroHasZero(n);
  }

  /** A failure arrives like this, on its way from the server to the client. The parse reports success exactly when
      neither the number of the request nor the reason is zero. But the object holds what was sent exactly when the
      number is not zero: a reason zero is cut off and read again from behind the data. And the client comes to the
      status that was meant exactly when the number is not zero or the reason is. */
  lemma FailureIsSeen(list: nat, n: nat, reason: nat, before: seq<octet>)
    requires (list == 1 || list == 3) && n < 0x1_0000_0000_0000_0000 && reason < FailureSchema(list)[1].limit
    requires |before| == BUFFER_SIZE
    requires EndsInMessage(Write(RESPONSE, Answer(list, Failure(n, reason))), before)
    ensures var e := Answer(list, Failure(n, reason));
            var text := TextIn(Write(RESPONSE, e), before);
            && text.Some?
            && var held := FromString(RESPONSE, text.value);
               && (held.ok <==> n != 0 && reason != 0)
               && (held.value == e <==> n != 0)
               && (React(held.value) == React(e) <==> n != 0 || reason == 0)
  {
    hide Varint, Write, Run, TextIn, WellFormed, EnvelopeFits, Terminated, EndsInMessage, Envelopes.Initialized,
         UpToReason, FromString;
    AnswerIsWritten(list, n, reason);
    FailureEnds(list, n, reason, before);
    TextOfFailure(list, n, reason, before);
    FailureIsComplete(list, n, reason);
    ReportedExactly(RESPONSE, Answer(list, Failure(n, reason)), before);
    FailureCutAtNumber(list);
    FailureCutAtReason(list, n);
  }

  lemma FailureEnds(list: nat, n: nat, reason: nat, before: seq<octet>)
    requires (list == 1 || list == 3) && n < 0x1_0000_0000_0000_0000 && reason < 128
    requires |before| == BUFFER_SIZE
    requires EndsInMessage(UpToReason(list, n) + [reason], before)
    ensures n != 0 && reason != 0 <==> Terminated(UpToReason(list, n) + [reason], before)
  {
    hide Varint, Log2Floor, Power128;
    VarintSizeIsLength(n);
    OnlyZeroHasZero(n);
    var bytes := UpToReason(list, n) + [reason];
    assert bytes[..|bytes|] == bytes;
    assert bytes[|bytes| - 1] == reason;
    assert bytes[3..3 + |Varint(n)|] == Varint(n);
  }

  /** In particular the answer to wrong credentials, whose reason is zero, is never reported as a success, and is
      understood all the same. */
  lemma InvalidCredentialsAreSeen(n: nat, before: seq<octet>)
    requires n < 0x1_0000_0000_0000_0000 && |before| == BUFFER_SIZE
    ensures var bytes := Write(RESPONSE, Answer(1, Failure(n, INVALID_CREDENTIALS)));
            && TextIn(bytes, before).Some?
            && !FromString(RESPONSE, TextIn(bytes, before).value).ok
            && React(Held(bytes, before)) == LoginFailed(InvalidCredential)
  {
    hide Varint, Write, TextIn, FromString, UpToReason;
    AnswerIsWritten(1, n, 0);
    var bytes := UpToReason(1, n) + [0];
    ShortAnswer(1, n, 0);
    assert bytes[|bytes| - 1] == 0 && bytes[..|bytes|] == bytes;
    FailureIsSeen(1, n, 0, before);
  }

  lemma ShortAnswer(list: nat, n: nat, reason: nat)
    requires (list == 1 || list == 3) && n < 0x1_0000_0000_0000_0000 && reason < 128
    ensures |UpToReason(list, n) + [reason]| < BUFFER_SIZE
  {
    hide Varint, Log2Floor, Power128;
    VarintSizeIsLength(n);
  }
}
