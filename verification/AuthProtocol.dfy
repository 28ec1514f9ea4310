/** The messages of the authentication protocol, and what becomes of a request or a response that is sent: serialized
    on one side and parsed on the other. */
module AuthProtocol {
  import opened Varints
  import opened Wire
  import Leaves
  import opened Envelopes
  import opened LeafMessages
  import opened EnvelopeMessages

  // ----- the messages -----

  const CREATE_ACCOUNT_WEB: Leaves.Schema := [Leaves.Int64, Leaves.Text, Leaves.Text]
  const CREATE_ACCOUNT_WEB_SUCCESS: Leaves.Schema := [Leaves.Int64, Leaves.Int64]
  const CREATE_ACCOUNT_WEB_FAILURE: Leaves.Schema := [Leaves.Int64, Leaves.Enum(3)]
  const AUTHENTICATE_WEB: Leaves.Schema := [Leaves.Int64, Leaves.Text, Leaves.Text]
  const AUTHENTICATE_WEB_SUCCESS: Leaves.Schema := [Leaves.Int64, Leaves.Int64, Leaves.Text]
  const AUTHENTICATE_WEB_FAILURE: Leaves.Schema := [Leaves.Int64, Leaves.Enum(2)]

  const REQUEST: Layout := Layout(3, [CREATE_ACCOUNT_WEB, AUTHENTICATE_WEB])
  const RESPONSE: Layout := Layout(1, [AUTHENTICATE_WEB_SUCCESS, AUTHENTICATE_WEB_FAILURE,
                                       CREATE_ACCOUNT_WEB_SUCCESS, CREATE_ACCOUNT_WEB_FAILURE])

  // The reasons of the failures.

  const INVALID_CREDENTIALS := 0
  const ACCOUNT_ALREADY_EXISTS := 0
  const INVALID_PASSWORD := 1

  // The bits of the fields, in the order of their numbers.

  const TWO_NUMBERS: seq<bv32> := [1, 2]
  const NUMBER_AND_TWO_STRINGS: seq<bv32> := [4, 1, 2]
  const TWO_NUMBERS_AND_STRING: seq<bv32> := [2, 4, 1]

  method NewRequest() returns (request: EnvelopeMessage)
    ensures fresh(request) && request.layout == REQUEST
    ensures request.Valid() && request.View() == Envelopes.Empty(REQUEST)
  {
    request := new EnvelopeMessage(REQUEST, [NUMBER_AND_TWO_STRINGS, NUMBER_AND_TWO_STRINGS]);
  }

  method NewResponse() returns (response: EnvelopeMessage)
    ensures fresh(response) && response.layout == RESPONSE
    ensures response.Valid() && response.View() == Envelopes.Empty(RESPONSE)
  {
    response := new EnvelopeMessage(RESPONSE, [TWO_NUMBERS_AND_STRING, TWO_NUMBERS, TWO_NUMBERS, TWO_NUMBERS]);
  }

  // ----- sending a message -----

  /** Serialize a message and parse the bytes into another. The other one ends up the same, or refuses, which it does
      exactly when a required field is missing or something in the message does not fit. */
  method Transfer(x: EnvelopeMessage, y: EnvelopeMessage) returns (sent: bool, received: bool)
    requires x != y && x.Valid() && y.Typed() && x.layout == y.layout
    modifies x`cachedSize, Entries(x.lists)`cachedSize, y`lists, y`unknown
    ensures x.Valid() && x.View() == old(x.View())
    ensures sent == (|Write(x.layout, x.View())| <= MAX_INT)
    ensures received == (sent && Envelopes.Initialized(x.View()) && EnvelopeFits(x.View(), RECURSION_LIMIT))
    ensures received ==> y.Valid() && y.View() == x.View()
  {
    hide WellFormed, EnvelopeFits, Envelopes.Initialized, Write, TypedLists, ViewLists;
    ghost var e := x.View();
    var bytes;
    received := false;
    assert forall m :: m in Entries(x.lists) + Entries(y.lists) ==> allocated(m);
    sent, bytes := x.SerializeToString();
    if sent {
      RoundTrip(x.layout, e);
      assert forall m :: m in Entries(x.lists) ==> allocated(m);
      received := y.ParseFromString(bytes);
    }
  }

  /** What is parsed from the encoding of a well-formed message with all its required fields is the message, if and
      only if everything in it fits. */
  lemma RoundTrip(layout: Layout, e: Envelope)
    requires WellFormed(layout, e)
    ensures ParseFromString(layout, Write(layout, e))
         == if EnvelopeFits(e, RECURSION_LIMIT) && Envelopes.Initialized(e) then Some(e) else None
  {
    hide WellFormed, EnvelopeFits, Envelopes.Initialized, Write, Parse;
    ParseUndoesWrite(layout, e, RECURSION_LIMIT);
  }

  // ----- numbers that are taken for reasons -----

  /** A failure with a reason of up to 64 bits is taken for one with a known reason when its low 32 bits are one, and
      is then written in the bytes it came in exactly when it has no others; otherwise it gets shorter. */
  lemma FailureReasonsWrap(schema: Leaves.Schema, id: nat, n: nat, depth: nat)
    requires schema == AUTHENTICATE_WEB_FAILURE || schema == CREATE_ACCOUNT_WEB_FAILURE
    requires id < 0x1_0000_0000_0000_0000 && n < 0x1_0000_0000_0000_0000
    requires Leaves.Enumerator(n) < schema[1].limit
    ensures var bytes := Leaves.NumbersOnly(id, n);
            var m := Leaves.Parse(schema, Leaves.Empty(schema), bytes, depth);
            && m.Some? && m.value.fields[1] == Some(Leaves.EnumValue(Leaves.Enumerator(n)))
            && (Leaves.Write(m.value) == bytes <==> n < 0x1_0000_0000)
            && (n >= 0x1_0000_0000 ==> |Leaves.Write(m.value)| < |bytes|)
  {
    hide Leaves.Parse, Leaves.NumbersOnly, Leaves.Write;
    Leaves.EnumeratorsWrap(schema, id, n, depth);
  }

  /** For instance, reason 2^32 is taken for invalid credentials, and is not written again as it came. */
  lemma LargeReasonIsInvalidCredentials(id: nat)
    requires id < 0x1_0000_0000_0000_0000
    ensures var bytes := Leaves.NumbersOnly(id, 0x1_0000_0000);
            var m := Leaves.Parse(AUTHENTICATE_WEB_FAILURE, Leaves.Empty(AUTHENTICATE_WEB_FAILURE), bytes, 0);
            && m.Some? && m.value.fields[1] == Some(Leaves.EnumValue(INVALID_CREDENTIALS))
            && |Leaves.Write(m.value)| < |bytes|
  {
    hide Leaves.Parse, Leaves.NumbersOnly, Leaves.Write;
    FailureReasonsWrap(AUTHENTICATE_WEB_FAILURE, id, 0x1_0000_0000, 0);
  }

  // ----- which messages fit -----

  /** Nothing was kept aside, as in every message that a program fills in itself. */
  ghost predicate AllKnown(e: Envelope) {
    e.unknown == [] && forall i :: 0 <= i < |e.entries| ==> forall m :: m in e.entries[i] ==> m.unknown == []
  }

  lemma {:induction false} FieldIsShorter(fields: seq<Option<Leaves.Value>>, i: nat, k: nat)
    requires i <= k < |fields| && fields[k].Some?
    ensures Leaves.FieldSize(fields[k].value) <= Leaves.FieldsSize(fields, i)
    decreases k - i
  {
    if i == k {
    } else {
      FieldIsShorter(fields, i + 1, k);
    }
  }

  lemma ShortLeafFits(m: Leaves.Leaf, depth: nat)
    requires m.unknown == [] && Leaves.Size(m) <= MAX_SIZE
    ensures Leaves.LeafFits(m, depth)
  {
    hide VarintSize;
    forall i | 0 <= i < |m.fields| && m.fields[i].Some? && m.fields[i].value.TextValue?
      ensures |m.fields[i].value.bytes| <= MAX_SIZE
    {
      FieldIsShorter(m.fields, 0, i);
    }
  }

  lemma {:induction false} EntryIsShorter(list: seq<Leaves.Leaf>, m: Leaves.Leaf)
    requires m in list
    ensures Leaves.Size(m) < ListSize(list)
  {
    hide VarintSize, Leaves.Size;
    if m == list[0] {
    } else {
      EntryIsShorter(list[1..], m);
    }
  }

  lemma {:induction false} ListIsShorter(entries: seq<seq<Leaves.Leaf>>, i: nat, k: nat)
    requires i <= k < |entries|
    ensures ListSize(entries[k]) <= EntriesSize(entries, i)
    decreases k - i
  {
    hide ListSize;
    if i == k {
    } else {
      ListIsShorter(entries, i + 1, k);
    }
  }

  /** A message with no unknown records fits exactly when none of its entries is too long. */
  lemma KnownMessageFits(layout: Layout, e: Envelope, depth: nat)
    requires WellFormed(layout, e) && AllKnown(e) && depth > 0
    ensures EnvelopeFits(e, depth) <==> forall i :: 0 <= i < |e.entries| ==> ListIsShort(e.entries[i])
  {
    hide Leaves.WellFormed, Leaves.LeafFits, Leaves.Write, Leaves.Size, AllStorable;
    forall i, m | 0 <= i < |e.entries| && m in e.entries[i] && |Leaves.Write(m)| <= MAX_SIZE
      ensures Leaves.LeafFits(m, depth - 1)
    {
      assert AllWellFormed(layout.leaves[i], e.entries[i]);
      Leaves.SizeIsLength(layout.leaves[i], m);
      ShortLeafFits(m, depth - 1);
    }
    if forall i :: 0 <= i < |e.entries| ==> ListIsShort(e.entries[i]) {
      forall i | 0 <= i < |e.entries|
        ensures ListFits(e.entries[i], depth)
      {
        assert ListIsShort(e.entries[i]);
      }
    }
  }

  /** In particular it fits when all of it is not longer than one entry may be. */
  lemma ShortMessageFits(layout: Layout, e: Envelope, depth: nat)
    requires WellFormed(layout, e) && AllKnown(e) && depth > 0
    requires |Write(layout, e)| <= MAX_SIZE
    ensures EnvelopeFits(e, depth)
  {
    hide Leaves.WellFormed, Leaves.LeafFits, Leaves.Write, Leaves.Size, Write, ListSize, EntriesSize, AllStorable,
         EnvelopeFits;
    SizeIsLength(layout, e);
    forall i, m | 0 <= i < |e.entries| && m in e.entries[i]
      ensures |Leaves.Write(m)| <= MAX_SIZE
    {
      assert AllWellFormed(layout.leaves[i], e.entries[i]);
      ListIsShorter(e.entries, 0, i);
      EntryIsShorter(e.entries[i], m);
      Leaves.SizeIsLength(layout.leaves[i], m);
    }
    KnownMessageFits(layout, e, depth);
  }

  // ----- the largest messages -----

  function LongText(n: nat): (text: seq<octet>)
    ensures |text| == n
  {
    seq(n, _ => 0)
  }

  /** A request to create an account with a very long mail address. */
  function LongRequest(): Envelope {
    Envelope([[LongEntry(2147483630)], []], [])
  }

  function LongEntry(n: nat): Leaves.Leaf {
    Leaves.Leaf([Some(Leaves.IntValue(1)), Some(Leaves.TextValue(LongText(n))), Some(Leaves.TextValue([]))], [])
  }

  lemma FiveBytes(n: nat)
    requires 0x1000_0000 <= n < 0x8000_0000
    ensures VarintSize(n) == 5
  {
    hide VarintSize;
    VarintSizeIsLength(n);
    assert |Varint(n)| == 1 + |Varint(n / 128)|;
    assert |Varint(n / 128)| == 1 + |Varint(n / 128 / 128)|;
    assert |Varint(n / 128 / 128)| == 1 + |Varint(n / 128 / 128 / 128)|;
    assert |Varint(n / 128 / 128 / 128)| == 1 + |Varint(n / 128 / 128 / 128 / 128)|;
  }

  lemma LongEntrySize(n: nat)
    requires 0x1000_0000 <= n < 0x8000_0000
    ensures Leaves.Size(LongEntry(n)) == n + 10
  {
    hide LongText, VarintSize;
    FiveBytes(n);
    SmallSizes();
    var m := LongEntry(n);
    assert Leaves.FieldsSize(m.fields, 2) == 2;
    assert Leaves.FieldsSize(m.fields, 1) == n + 6 + 2;
  }

  lemma SmallSizes()
    ensures VarintSize(0) == 1 && VarintSize(1) == 1
  {
  }

  lemma LongEntryIsWellFormed(n: nat)
    requires n < 0x8000_0000
    ensures Leaves.WellFormed(CREATE_ACCOUNT_WEB, LongEntry(n)) && Leaves.Initialized(LongEntry(n))
  {
    hide LongText;
  }

  lemma LongRequestSize()
    ensures Size(LongRequest()) == 2147483646
  {
    hide Leaves.Size, LongEntry, VarintSize;
    LongEntrySize(2147483630);
    FiveBytes(2147483640);
    var e := LongRequest();
    assert ListSize(e.entries[0]) == 2147483646;
    assert ListSize(e.entries[1]) == 0;
    assert EntriesSize(e.entries, 1) == 0;
    assert RecordsSize(e.unknown) == 0;
  }

  lemma LongRequestIsWellFormed()
    ensures WellFormed(REQUEST, LongRequest()) && Envelopes.Initialized(LongRequest())
  {
    hide Leaves.WellFormed, Leaves.Initialized, Leaves.Write, Leaves.Size, LongEntry;
    LongEntryIsWellFormed(2147483630);
    LongEntrySize(2147483630);
    Leaves.SizeIsLength(CREATE_ACCOUNT_WEB, LongEntry(2147483630));
  }

  /** Some messages can be serialized but not parsed: the size of an entry may come closer to the limit of the library
      than the parser allows. */
  lemma LargestRequestsAreRefused()
    ensures var e := LongRequest();
            && WellFormed(REQUEST, e) && Envelopes.Initialized(e) && |Write(REQUEST, e)| <= MAX_INT
            && ParseFromString(REQUEST, Write(REQUEST, e)) == None
  {
    hide WellFormed, Envelopes.Initialized, Size, Write, ParseFromString, Leaves.Size, Leaves.Write, LongEntry;
    var e, m := LongRequest(), LongEntry(2147483630);
    LongRequestIsWellFormed();
    LongRequestSize();
    SizeIsLength(REQUEST, e);
    LongEntryIsWellFormed(2147483630);
    LongEntrySize(2147483630);
    Leaves.SizeIsLength(CREATE_ACCOUNT_WEB, m);
    assert e.entries[0] == [m] && m in e.entries[0];
    assert !ListIsShort(e.entries[0]);
    RoundTrip(REQUEST, e);
  }
}
