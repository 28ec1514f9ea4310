/** The incremental hash object: bytes are buffered until a block is full, and the digest can be read at any time. */
module Hashers {
  import opened Bytes
  import opened Calls
  import opened Words
  import opened HexText
  import opened MerkleDamgard
  import Md5
  import Sha1
  import Sha256

  class Hasher {
    const algorithm: HashMethod
    const hash: array<word>
    const buffer: array<byte>
    var bufferSize: nat
    var numBytes: nat

    /** The bytes already compressed since the last reset. */
    ghost var processed: seq<byte>

    /** Every byte added since the last reset. */
    ghost function Message(): seq<byte>
      requires bufferSize <= buffer.Length
      reads this, buffer
    {
      processed + buffer[..bufferSize]
    }

    /** The chaining value is the fold over the full blocks so far, and the buffer holds the rest. */
    ghost predicate Consistent()
      reads this, hash, buffer
    {
      && hash.Length == algorithm.Values()
      && buffer.Length == 64
      && bufferSize <= 64
      && |processed| % 64 == 0
      && numBytes == Wrap64(|processed|)
      && hash[..] == Blocks(algorithm, algorithm.Initial(), processed)
    }

    ghost predicate Valid()
      reads this, hash, buffer
    {
      Consistent() && bufferSize < 64
    }

    constructor (m: HashMethod)
      ensures Valid() && fresh(hash) && fresh(buffer)
      ensures algorithm == m && Message() == []
    {
      algorithm := m;
      hash := new word[m.Values()];
      buffer := new byte[64];
      new;
      Reset();
    }

    method Reset()
      requires hash.Length == algorithm.Values() && buffer.Length == 64
      modifies this, hash
      ensures Valid() && Message() == []
    {
      numBytes := 0;
      bufferSize := 0;
      processed := [];
      var initial := algorithm.Initial();
      CopyInitial(initial);
      assert buffer[..0] == [];
    }

    method CopyInitial(initial: seq<word>)
      requires hash.Length == |initial|
      modifies hash
      ensures hash[..] == initial
    {
      for i := 0 to hash.Length
        invariant forall j :: 0 <= j < i ==> hash[j] == initial[j]
      {
        hash[i] := initial[i];
      }
    }

    method ProcessBlock(data: seq<byte>)
      requires hash.Length == algorithm.Values() && |data| == 64
      modifies hash
      ensures hash[..] == algorithm.Compress(old(hash[..]), data)
    {
      match algorithm
      case MD5 => Md5.ProcessBlock(hash, data);
      case SHA1 => Sha1.ProcessBlock(hash, data);
      case SHA256 => Sha256.ProcessBlock(hash, data);
    }

    /** Append one byte to the buffer. */
    method Push(x: byte)
      requires Valid()
      modifies this`bufferSize, buffer
      ensures Consistent() && bufferSize == old(bufferSize) + 1
      ensures Message() == old(Message()) + [x]
    {
      buffer[bufferSize] := x;
      bufferSize := bufferSize + 1;
    }

    /** Compress a block when nothing is buffered. */
    method Absorb(block: seq<byte>)
      requires Valid() && bufferSize == 0 && |block| == 64
      modifies this`numBytes, this`processed, hash
      ensures Valid()
      ensures Message() == old(Message()) + block
    {
      hide Blocks, HashMethod.Compress, HashMethod.Initial, Wrap64;
      BlocksGrow(algorithm, algorithm.Initial(), processed, block);
      ProcessBlock(block);
      WrappedSums(|processed|, 64);
      numBytes := Wrap64(numBytes + 64);
      processed := processed + block;
    }

    /** Compress the buffer when it is full. */
    method Flush()
      requires Consistent() && bufferSize == 64
      modifies this, hash
      ensures Valid() && bufferSize == 0
      ensures Message() == old(Message())
    {
      hide Blocks;
      bufferSize := 0;
      Absorb(buffer[..]);
    }

    /** Move bytes into a partly filled buffer until it is full or the data ends. */
    method TopUp(data: seq<byte>) returns (current: nat)
      requires Valid()
      modifies this`bufferSize, buffer
      ensures Consistent() && current <= |data| && bufferSize <= 64
      ensures current == |data| || bufferSize == 64
      ensures Message() == old(Message()) + data[..current]
    {
      ghost var msg := Message();
      hide Message, Blocks;
      current := 0;
      while current < |data| && bufferSize < 64
        invariant current <= |data|
        invariant Consistent() && Message() == msg + data[0..current]
      {
        Push(data[current]);
        AddPiece(msg, data, 0, current, 1);
        current := current + 1;
      }
    }

    /** Compress full blocks straight from the data. */
    method AbsorbBlocks(data: seq<byte>, start: nat) returns (current: nat)
      requires Valid() && bufferSize == 0 && start <= |data|
      modifies this`numBytes, this`processed, hash
      ensures Valid() && start <= current <= |data| < current + 64
      ensures Message() == old(Message()) + data[start..current]
    {
      hide *;
      ghost var msg := Message();
      assert msg + data[start..start] == msg;
      current := start;
      while |data| - current >= 64
        invariant start <= current <= |data|
        invariant Valid() && bufferSize == 0
        invariant Message() == msg + data[start..current]
      {
        Absorb(data[current..current + 64]);
        AddPiece(msg, data, start, current, 64);
        current := current + 64;
      }
    }

    /** Buffer the bytes that do not fill a block. */
    method Keep(data: seq<byte>, start: nat)
      requires Valid() && bufferSize == 0 && start <= |data| < start + 64
      modifies this`bufferSize, buffer
      ensures Valid() && Message() == old(Message()) + data[start..]
    {
      ghost var msg := Message();
      assert msg + [] == msg;
      hide Message, Consistent;
      var current := start;
      while current < |data|
        invariant start <= current <= |data| && bufferSize == current - start <= buffer.Length
        invariant Valid() && Message() == msg + data[start..current]
      {
        Push(data[current]);
        AddPiece(msg, data, start, current, 1);
        current := current + 1;
      }
    }

    /** Add any number of bytes. */
    method Add(data: seq<byte>)
      requires Valid()
      modifies this, hash, buffer
      ensures Valid() && Message() == old(Message()) + data
    {
      ghost var msg := Message();
      assert msg + [] == msg;
      hide Message, Consistent;
      var current := 0;
      if bufferSize > 0 {
        current := TopUp(data);
      }
      if bufferSize == 64 {
        Flush();
      }
      ghost var start := current;
      // no more data ?
      if current == |data| {
        return;
      }
      current := AbsorbBlocks(data, current);
      Keep(data, current);
      Reassemble(msg, data, start, current);
    }

    /** Pad what is in the buffer to one or two blocks and compress them. */
    method ProcessBuffer()
      requires Valid()
      modifies hash, buffer
      ensures hash[..] == Blocks(algorithm, algorithm.Initial(), Padded(algorithm, old(Message())))
      ensures buffer[..bufferSize] == old(buffer[..bufferSize])
    {
      hide HoldsPadding, Blocks, Padded, Filled, HashMethod.Compress;
      ghost var h, rest := hash[..], buffer[..bufferSize];
      var paddedLength := PaddedLength();
      var extra := new byte[64];
      assert buffer[..bufferSize] == rest;
      WritePadding(extra, paddedLength);
      assert hash[..] == h;
      LastBlocks(algorithm, processed, rest, buffer[..], extra[..]);
      CompressPadding(extra, paddedLength);
    }

    method CompressPadding(extra: array<byte>, paddedLength: nat)
      requires hash.Length == algorithm.Values() && buffer.Length == extra.Length == 64
      modifies hash
      ensures paddedLength <= 64 ==> hash[..] == algorithm.Compress(old(hash[..]), buffer[..])
      ensures paddedLength > 64 ==>
                hash[..] == algorithm.Compress(algorithm.Compress(old(hash[..]), buffer[..]), extra[..])
    {
      hide HashMethod.Compress;
      ProcessBlock(buffer[..]);
      if paddedLength > 64 {
        ProcessBlock(extra[..]);
      }
    }

    /** Where the length goes: the bits in the buffer, plus the one bit that is always appended, rounded
        up to 448 modulo 512. */
    method PaddedLength() returns (paddedLength: nat)
      requires bufferSize < 64
      ensures paddedLength == if bufferSize < 56 then 56 else 120
    {
      paddedLength := bufferSize * 8;
      paddedLength := paddedLength + 1;
      var lower11Bits := paddedLength % 512;
      if lower11Bits <= 448 {
        paddedLength := paddedLength + (448 - lower11Bits);
      } else {
        paddedLength := paddedLength + (512 + 448 - lower11Bits);
      }
      paddedLength := paddedLength / 8;
    }

    /** Write the one bit, the zeros and the length into the buffer. */
    method PadOneBlock(msgBits: nat, ghost length: nat, ghost second: seq<byte>)
      requires buffer.Length == 64 && bufferSize < 56 && msgBits == BitLength(length)
      modifies buffer
      ensures HoldsPadding(algorithm, length, old(buffer[..bufferSize]), buffer[..], second)
      ensures buffer[..bufferSize] == old(buffer[..bufferSize])
    {
      ghost var rest := buffer[..bufferSize];
      FillBuffer();
      WriteLength(buffer, 56, msgBits);
      ShortPadding(algorithm, length, rest, buffer[..], second);
    }

    /** Write the one bit and zeros into the buffer, and zeros and the length into extra. */
    method PadTwoBlocks(extra: array<byte>, msgBits: nat, ghost length: nat)
      requires buffer.Length == extra.Length == 64 && 56 <= bufferSize < 64 && extra != buffer
      requires msgBits == BitLength(length)
      modifies buffer, extra
      ensures HoldsPadding(algorithm, length, old(buffer[..bufferSize]), buffer[..], extra[..])
      ensures buffer[..bufferSize] == old(buffer[..bufferSize])
    {
      ghost var rest := buffer[..bufferSize];
      FillBuffer();
      ghost var first := buffer[..];
      FillExtra(extra, 120);
      WriteLength(extra, 56, msgBits);
      LongPadding(algorithm, length, rest, first, extra[..]);
    }

    method WritePadding(extra: array<byte>, paddedLength: nat)
      requires buffer.Length == extra.Length == 64 && bufferSize < 64 && extra != buffer
      requires numBytes == Wrap64(|processed|)
      requires paddedLength == if bufferSize < 56 then 56 else 120
      modifies buffer, extra
      ensures HoldsPadding(algorithm, |processed| + bufferSize, old(buffer[..bufferSize]), buffer[..], extra[..])
      ensures buffer[..bufferSize] == old(buffer[..bufferSize])
    {
      hide *;
      WrappedSums(|processed|, bufferSize);
      var msgBits := Wrap64(8 * (numBytes + bufferSize));
      if paddedLength < 64 {
        ghost var second := extra[..];
        PadOneBlock(msgBits, |processed| + bufferSize, second);
        assert extra[..] == second;
      } else {
        PadTwoBlocks(extra, msgBits, |processed| + bufferSize);
      }
    }

    /** The one bit and as many zeros as the buffer holds. The buffer is never full here, so the bit always goes
        into it. */
    method FillBuffer()
      requires buffer.Length == 64 && bufferSize < 64
      modifies buffer
      ensures buffer[..] == Filled(old(buffer[..bufferSize]))
    {
      buffer[bufferSize] := 128;
      var i := bufferSize + 1;
      while i < 64
        invariant bufferSize < i <= 64
        invariant buffer[..i] == old(buffer[..bufferSize]) + [0x80] + Zeros(i - bufferSize - 1)
      {
        buffer[i] := 0;
        i := i + 1;
      }
    }

    method FillExtra(extra: array<byte>, paddedLength: nat)
      requires extra.Length == 64 <= paddedLength <= 128
      modifies extra
      ensures extra[..paddedLength - 64] == Zeros(paddedLength - 64)
    {
      var i := 64;
      while i < paddedLength
        invariant 64 <= i <= paddedLength
        invariant extra[..i - 64] == Zeros(i - 64)
      {
        extra[i - 64] := 0;
        i := i + 1;
      }
    }

    /** Write the length in bits into the last eight bytes. */
    method WriteLength(target: array<byte>, i: nat, msgBits: nat)
      requires i + 8 == target.Length
      modifies target
      ensures target[..i] == old(target[..i]) && target[i..] == LengthBytes(algorithm, msgBits)
    {
      hide LengthBytes;
      var bytes := LengthBytes(algorithm, msgBits);
      for j := 0 to 8
        invariant target[..i] == old(target[..i])
        invariant target[i..i + j] == bytes[..j]
      {
        target[i + j] := bytes[j];
      }
    }

    /** The digest of everything added so far; the hasher can go on afterwards. */
    method GetDigest() returns (digest: seq<byte>)
      requires Valid()
      modifies hash, buffer
      ensures Valid() && Message() == old(Message())
      ensures digest == Digest(algorithm, Message())
    {
      hide Blocks, Padded, StoreWords;
      var oldHash := hash[..];
      ProcessBuffer();
      digest := StoreAndRestore(oldHash);
    }

    /** Write the words of the chaining value out, putting the old ones back. */
    method StoreAndRestore(oldHash: seq<word>) returns (digest: seq<byte>)
      requires |oldHash| == hash.Length
      modifies hash
      ensures hash[..] == oldHash
      ensures digest == StoreWords(algorithm, old(hash[..]))
    {
      hide HashMethod.StoreWord;
      ghost var final := hash[..];
      digest := [];
      for i := 0 to hash.Length
        invariant digest == StoreWords(algorithm, final[..i])
        invariant forall j :: 0 <= j < i ==> hash[j] == oldHash[j]
        invariant forall j :: i <= j < hash.Length ==> hash[j] == final[j]
      {
        StoreWordsAppend(algorithm, final[..i], hash[i]);
        assert final[..i] + [hash[i]] == final[..i + 1];
        digest := digest + algorithm.StoreWord(hash[i]);
        hash[i] := oldHash[i];
      }
      assert final[..hash.Length] == final;
    }

    /** The digest as text. */
    method GetHash() returns (text: string)
      requires Valid()
      modifies hash, buffer
      ensures Valid() && Message() == old(Message())
      ensures text == Hex(Digest(algorithm, Message()))
    {
      hide Hex, Digest, Blocks;
      var rawHash := GetDigest();
      text := ToHex(rawHash);
    }

    /** Hash one message from scratch. */
    method Compute(data: seq<byte>) returns (text: string)
      requires Valid()
      modifies this, hash, buffer
      ensures Valid() && text == Hex(Digest(algorithm, data))
    {
      hide Hex, Digest, Blocks;
      Reset();
      Add(data);
      assert [] + data == data;
      text := GetHash();
    }
  }

  // ----- whole runs -----

  /** Every read returns the text of the digest of the message at that time. */
  method Run(hasher: Hasher, calls: seq<Call>) returns (answers: seq<string>)
    requires hasher.Valid()
    modifies hasher, hasher.hash, hasher.buffer
    ensures hasher.Valid()
    ensures var messages := MessagesRead(old(hasher.Message()), calls);
            && |answers| == |messages|
            && forall k :: 0 <= k < |messages| ==> answers[k] == Hex(Digest(hasher.algorithm, messages[k]))
  {
    hide Hex, Digest, Blocks, MessagesRead, Hasher.Message, HashMethod.Initial, HashMethod.Values, Wrap64;
    ghost var messages := MessagesRead(hasher.Message(), calls);
    ghost var done: seq<seq<byte>> := [];
    assert calls[0..] == calls;
    answers := [];
    for i := 0 to |calls|
      invariant hasher.Valid() && done + MessagesRead(hasher.Message(), calls[i..]) == messages
      invariant |answers| == |done|
      invariant forall k :: 0 <= k < |done| ==> answers[k] == Hex(Digest(hasher.algorithm, done[k]))
    {
      MessagesReadStep(hasher.Message(), calls, i);
      match calls[i]
      case AddCall(data) => hasher.Add(data);
      case ReadCall =>
        ghost var message := hasher.Message();
        var text := hasher.GetHash();
        answers := answers + [text];
        done := done + [message];
      case ResetCall => hasher.Reset();
    }
    MessagesReadStep(hasher.Message(), calls, |calls|);
  }
}
