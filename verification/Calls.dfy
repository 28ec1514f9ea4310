/** What a caller can do with a hash object over and over, and what it must be told. */
module Calls {
  import opened Bytes

  datatype Call = AddCall(data: seq<byte>) | ReadCall | ResetCall

  /** The message at each read: what was added since the last reset, however it was split into calls and however often
      the digest was read in between. */
  function MessagesRead(message: seq<byte>, calls: seq<Call>): seq<seq<byte>>
    decreases |calls|
  {
    if calls == [] then []
    else
      match calls[0]
      case AddCall(data) => MessagesRead(message + data, calls[1..])
      case ReadCall => [message] + MessagesRead(message, calls[1..])
      case ResetCall => MessagesRead([], calls[1..])
  }

  /** One call and the calls after it. */
  lemma MessagesReadStep(message: seq<byte>, calls: seq<Call>, i: nat)
    requires i <= |calls|
    ensures i == |calls| ==> MessagesRead(message, calls[i..]) == []
    ensures i < |calls| ==>
              MessagesRead(message, calls[i..])
              == match calls[i]
                 case AddCall(data) => MessagesRead(message + data, calls[i + 1..])
                 case ReadCall => [message] + MessagesRead(message, calls[i + 1..])
                 case ResetCall => MessagesRead([], calls[i + 1..])
  {
    if i < |calls| {
      assert calls[i..][0] == calls[i] && calls[i..][1..] == calls[i + 1..];
    }
  }
}
