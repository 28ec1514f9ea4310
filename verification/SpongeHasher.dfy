/** The incremental Keccak and SHA-3 hash object: bytes are buffered until a block is full, and the digest can be read
    at any time. */
module SpongeHashers {
  import opened Bytes
  import opened Calls
  import opened HexText
  import opened Keccak
  import opened Sequences
  import opened Sponge
  import MerkleDamgard

  class SpongeHasher {
    const family: Family
    const width: Width
    const blockSize: nat
    const hash: array<lane>
    const buffer: array<byte>
    var bufferSize: nat
    var numBytes: nat

    /** The bytes already absorbed since the last reset. */
    ghost var processed: seq<byte>

    /** Every byte added since the last reset. */
    ghost function Message(): seq<byte>
      requires bufferSize <= buffer.Length
      reads this, buffer
    {
      processed + buffer[..bufferSize]
    }

    /** The state has absorbed the full blocks so far, and the buffer holds the rest. */
    ghost predicate Consistent()
      reads this, hash, buffer
    {
      && hash.Length == 25
      && buffer.Length == 144
      && blockSize == width.Rate()
      && bufferSize <= blockSize
      && width.Rest(|processed|) == 0
      && numBytes == MerkleDamgard.Wrap64(|processed|)
      && hash[..] == Absorb(width, Blank(), processed)
    }

    ghost predicate Valid()
      reads this, hash, buffer
    {
      Consistent() && bufferSize < blockSize
    }

    constructor (f: Family, w: Width)
      ensures Valid() && fresh(hash) && fresh(buffer)
      ensures family == f && width == w && Message() == []
    {
      family := f;
      width := w;
      blockSize := 200 - 2 * w.DigestBytes();
      hash := new lane[25];
      buffer := new byte[144];
      new;
      Reset();
    }

    method Reset()
      requires hash.Length == 25 && buffer.Length == 144 && blockSize == width.Rate()
      modifies this, hash
      ensures Valid() && Message() == []
    {
      for i := 0 to 25
        invariant forall j :: 0 <= j < i ==> hash[j] == 0
      {
        hash[i] := 0;
      }
      numBytes := 0;
      bufferSize := 0;
      processed := [];
      assert hash[..] == Blank();
    }

    /** Mix a block into the first lanes of the state, and permute it. */
    method ProcessBlock(data: seq<byte>)
      requires hash.Length == 25 && blockSize == |data| == width.Rate()
      modifies hash
      ensures hash[..] == AbsorbBlock(old(hash[..]), data)
    {
      hide Xor, LoadLane, Permutation, Width.Rate;
      MixIn(data);
      PermuteInPlace(hash);
    }

    method MixIn(data: seq<byte>)
      requires hash.Length == 25 && blockSize == |data| <= 200 && blockSize % 8 == 0
      modifies hash
      ensures hash[..] == Mix(old(hash[..]), data)
    {
      hide Xor, LoadLane;
      for i := 0 to blockSize / 8
        invariant forall j :: 0 <= j < i ==> hash[j] == Xor(old(hash[j]), LoadLane(data, j))
        invariant forall j :: i <= j < 25 ==> hash[j] == old(hash[j])
      {
        hash[i] := Xor(hash[i], LoadLane(data, i));
      }
    }

    /** Append one byte to the buffer. */
    method Push(x: byte)
      requires Valid()
      modifies this`bufferSize, buffer
      ensures Consistent() && bufferSize == old(bufferSize) + 1
      ensures Message() == old(Message()) + [x]
    {
      hide Absorb;
      RateFits(width);
      buffer[bufferSize] := x;
      bufferSize := bufferSize + 1;
    }

    lemma RateFits(w: Width)
      ensures w.Rate() <= 144
    {
    }

    /** Absorb a block when nothing is buffered. */
    method AbsorbOne(block: seq<byte>)
      requires Valid() && bufferSize == 0 && |block| == blockSize
      modifies this`numBytes, this`processed, hash
      ensures Valid()
      ensures Message() == old(Message()) + block
    {
      hide Absorb, AbsorbBlock, MerkleDamgard.Wrap64, Width.Rest, Width.Rate;
      AbsorbGrows(width, Blank(), processed, block);
      OneMoreBlock(width, |processed|);
      ProcessBlock(block);
      MerkleDamgard.WrappedSums(|processed|, blockSize);
      numBytes := MerkleDamgard.Wrap64(numBytes + blockSize);
      processed := processed + block;
    }

    lemma OneMoreBlock(w: Width, n: nat)
      requires w.Rest(n) == 0
      ensures w.Rest(n + w.Rate()) == 0
    {
      hide Width.Rest, Width.Rate;
      MissingFills(w, n);
    }

    /** Absorb the buffer when it is full. */
    method Flush()
      requires Consistent() && bufferSize == blockSize
      modifies this, hash
      ensures Valid() && bufferSize == 0
      ensures Message() == old(Message())
    {
      hide Absorb;
      bufferSize := 0;
      AbsorbOne(buffer[..blockSize]);
    }

    /** Move bytes into a partly filled buffer until it is full or the data ends. */
    method TopUp(data: seq<byte>) returns (current: nat)
      requires Valid()
      modifies this`bufferSize, buffer
      ensures Consistent() && current <= |data| && bufferSize <= blockSize
      ensures current == |data| || bufferSize == blockSize
      ensures Message() == old(Message()) + data[..current]
    {
      ghost var msg := Message();
      hide Message, Absorb;
      current := 0;
      while current < |data| && bufferSize < blockSize
        invariant current <= |data|
        invariant Consistent() && Message() == msg + data[0..current]
      {
        Push(data[current]);
        AddPiece(msg, data, 0, current, 1);
        current := current + 1;
      }
    }

    lemma BlockIsNotEmpty()
      requires Valid()
      ensures blockSize > 0
    {
    }

    /** Absorb full blocks straight from the data. */
    method AbsorbBlocks(data: seq<byte>, start: nat) returns (current: nat)
      requires Valid() && bufferSize == 0 && start <= |data|
      modifies this`numBytes, this`processed, hash
      ensures Valid() && start <= current <= |data| < current + blockSize
      ensures Message() == old(Message()) + data[start..current]
    {
      hide *;
      ghost var msg := Message();
      assert msg + [] == msg;
      BlockIsNotEmpty();
      current := start;
      while |data| - current >= blockSize
        invariant start <= current <= |data|
        invariant Valid() && bufferSize == 0
        invariant Message() == msg + data[start..current]
      {
        AbsorbOne(data[current..current + blockSize]);
        AddPiece(msg, data, start, current, blockSize);
        current := current + blockSize;
      }
    }

    /** Buffer the bytes that do not fill a block. */
    method Keep(data: seq<byte>, start: nat)
      requires Valid() && bufferSize == 0 && start <= |data| < start + blockSize
      modifies this`bufferSize, buffer
      ensures Valid() && Message() == old(Message()) + data[start..]
    {
      ghost var msg := Message();
      assert msg + [] == msg;
      RateFits(width);
      hide Message, Consistent;
      var current := start;
      while current < |data|
        invariant start <= current <= |data| && bufferSize == current - start <= buffer.Length
        invariant Valid() && Message() == msg + data[start..current]
      {
        Push(data[current]);
        AddPiece(msg, data, start, current, 1);
        current := current + 1;
      }
    }

    /** Add any number of bytes. */
    method Add(data: seq<byte>)
      requires Valid()
      modifies this, hash, buffer
      ensures Valid() && Message() == old(Message()) + data
    {
      hide Message, Absorb, Width.Rate, Width.Rest;
      RateFits(width);
      ghost var msg := Message();
      assert msg + [] == msg;
      hide Consistent;
      var current := 0;
      if bufferSize > 0 {
        current := TopUp(data);
      }
      if bufferSize == blockSize {
        Flush();
      }
      ghost var start := current;
      // no more data ?
      if current == |data| {
        return;
      }
      current := AbsorbBlocks(data, current);
      Keep(data, current);
      Reassemble(msg, data, start, current);
    }

    /** Pad what is in the buffer to a block and absorb it. */
    method ProcessBuffer()
      requires Valid()
      modifies hash, buffer
      ensures hash[..] == Absorb(width, Blank(), Padded(family, width, old(Message())))
      ensures buffer[..bufferSize] == old(buffer[..bufferSize])
    {
      hide Absorb, AbsorbBlock, Padded, Padding;
      ghost var rest := buffer[..bufferSize];
      LastBlock(family, width, processed, rest);
      RateFits(width);
      ghost var before := hash[..];
      WritePadding();
      assert hash[..] == before;
      ProcessBlock(buffer[..blockSize]);
    }

    /** What is left of a message and its padding fill one block. */
    lemma LastBlock(f: Family, w: Width, full: seq<byte>, rest: seq<byte>)
      requires w.Rest(|full|) == 0 && |rest| < w.Rate()
      ensures Absorb(w, Blank(), Padded(f, w, full + rest))
           == AbsorbBlock(Absorb(w, Blank(), full), rest + Padding(f.Suffix(), w.Rate() - |rest|))
    {
      hide *;
      RestAfter(w, |full|, |rest|);
      PaddedUnfold(f, w, full + rest);
      MissingUnfold(w, |full + rest|);
      var pad := Padding(f.Suffix(), w.Rate() - |rest|);
      Regroup(full, rest, pad);
      AbsorbGrows(w, Blank(), full, rest + pad);
    }

    lemma MissingUnfold(w: Width, length: nat)
      ensures Missing(w, length) == w.Rate() - w.Rest(length)
    {
    }

    lemma RestAfter(w: Width, full: nat, rest: nat)
      requires w.Rest(full) == 0 && rest < w.Rate()
      ensures w.Rest(full + rest) == rest
    {
      match w
      case Bits224 => Modulo144(full, rest);
      case Bits256 => Modulo136(full, rest);
      case Bits384 => Modulo104(full, rest);
      case Bits512 => Modulo72(full, rest);
    }

    lemma Modulo144(full: nat, rest: nat)
      requires full % 144 == 0 && rest < 144
      ensures (full + rest) % 144 == rest
    {
    }

    lemma Modulo136(full: nat, rest: nat)
      requires full % 136 == 0 && rest < 136
      ensures (full + rest) % 136 == rest
    {
    }

    lemma Modulo104(full: nat, rest: nat)
      requires full % 104 == 0 && rest < 104
      ensures (full + rest) % 104 == rest
    {
    }

    lemma Modulo72(full: nat, rest: nat)
      requires full % 72 == 0 && rest < 72
      ensures (full + rest) % 72 == rest
    {
    }

    /** The suffix, and zeros to the end of the block. */
    method FillBlock()
      requires bufferSize < blockSize <= buffer.Length
      modifies buffer
      ensures buffer[..blockSize]
           == old(buffer[..bufferSize]) + [family.Suffix()] + Zeros(blockSize - bufferSize - 1)
    {
      hide Family.Suffix;
      var offset := bufferSize;
      buffer[offset] := family.Suffix();
      offset := offset + 1;
      while offset < blockSize
        invariant bufferSize < offset <= blockSize
        invariant buffer[..offset]
               == old(buffer[..bufferSize]) + [family.Suffix()] + Zeros(offset - bufferSize - 1)
      {
        buffer[offset] := 0;
        offset := offset + 1;
      }
    }

    /** The padding. The last one bit falls into the byte of the suffix when only one byte is left. */
    method WritePadding()
      requires bufferSize < blockSize <= buffer.Length
      modifies buffer
      ensures buffer[..blockSize] == old(buffer[..bufferSize]) + Padding(family.Suffix(), blockSize - bufferSize)
      ensures buffer[..bufferSize] == old(buffer[..bufferSize])
    {
      hide Family.Suffix, Padding;
      ghost var rest := buffer[..bufferSize];
      FillBlock();
      ghost var filled := buffer[..blockSize];
      buffer[blockSize - 1] := buffer[blockSize - 1] | 0x80;
      assert buffer[..blockSize] == filled[blockSize - 1 := filled[blockSize - 1] | 0x80];
      MarkLast(rest, family.Suffix(), blockSize - bufferSize, filled);
      assert buffer[..bufferSize] == buffer[..blockSize][..bufferSize];
    }

    lemma MarkLast(rest: seq<byte>, suffix: byte, q: nat, filled: seq<byte>)
      requires q > 0 && filled == rest + [suffix] + Zeros(q - 1)
      ensures var last := |filled| - 1; filled[last := filled[last] | 0x80] == rest + Padding(suffix, q)
    {
    }

    /** The text of the digest of everything added so far; the hasher can go on afterwards. */
    method GetHash() returns (text: string)
      requires Valid()
      modifies hash, buffer
      ensures Valid() && Message() == old(Message())
      ensures text == Hex(Digest(family, width, Message()))
    {
      hide Hex, Absorb, Padded, Squeezed;
      var oldHash := hash[..];
      ProcessBuffer();
      text := Squeeze();
      Restore(oldHash);
    }

    method Restore(oldHash: seq<lane>)
      requires |oldHash| == hash.Length
      modifies hash
      ensures hash[..] == oldHash
    {
      for i := 0 to hash.Length
        invariant forall j :: 0 <= j < i ==> hash[j] == oldHash[j]
      {
        hash[i] := oldHash[i];
      }
    }

    /** The bytes of whole lanes, and then of half a lane when the width is no multiple of 64 bits. */
    method Squeeze() returns (text: string)
      requires hash.Length == 25
      ensures text == Hex(Squeezed(hash[..], width.DigestBytes()))
    {
      hide Hex, ByteAt;
      var bits := 8 * width.DigestBytes();
      var hashLength := bits / 64;
      text := "";
      for i := 0 to hashLength
        invariant text == Hex(Squeezed(hash[..], 8 * i))
      {
        for j := 0 to 8
          invariant text == Hex(Squeezed(hash[..], 8 * i + j))
        {
          NextByte(hash[..], i, j);
          text := text + HexByte(ByteAt(hash[i], 8 * j));
        }
      }
      var remainder := bits - hashLength * 64;
      var processed := 0;
      while processed < remainder
        invariant processed % 8 == 0 && processed <= remainder
        invariant text == Hex(Squeezed(hash[..], 8 * hashLength + processed / 8))
      {
        NextByte(hash[..], hashLength, processed / 8);
        text := text + HexByte(ByteAt(hash[hashLength], processed));
        processed := processed + 8;
      }
    }

    lemma NextByte(a: State, i: nat, j: nat)
      requires i < 25 && j < 8
      ensures Hex(Squeezed(a, 8 * i + j + 1)) == Hex(Squeezed(a, 8 * i + j)) + HexByte(ByteAt(a[i], 8 * j))
    {
      hide Hex, HexByte, ByteAt;
      var s := Squeezed(a, 8 * i + j);
      var b := ByteAt(a[i], 8 * j);
      HexGrows(s, b);
      assert Squeezed(a, 8 * i + j + 1) == s + [b];
    }

    /** Hash one message from scratch. */
    method Compute(data: seq<byte>) returns (text: string)
      requires Valid()
      modifies this, hash, buffer
      ensures Valid() && text == Hex(Digest(family, width, data))
    {
      hide Hex, Digest, Absorb;
      Reset();
      Add(data);
      assert [] + data == data;
      text := GetHash();
    }
  }

  // ----- whole runs -----

  /** Every read returns the text of the digest of the message at that time. */
  method Run(hasher: SpongeHasher, calls: seq<Call>) returns (answers: seq<string>)
    requires hasher.Valid()
    modifies hasher, hasher.hash, hasher.buffer
    ensures hasher.Valid()
    ensures var messages := MessagesRead(old(hasher.Message()), calls);
            && |answers| == |messages|
            && forall k :: 0 <= k < |messages| ==> answers[k] == Hex(Digest(hasher.family, hasher.width, messages[k]))
  {
    hide Hex, Digest, Absorb, MessagesRead, SpongeHasher.Message;
    ghost var messages := MessagesRead(hasher.Message(), calls);
    ghost var done: seq<seq<byte>> := [];
    assert calls[0..] == calls;
    answers := [];
    for i := 0 to |calls|
      invariant hasher.Valid() && done + MessagesRead(hasher.Message(), calls[i..]) == messages
      invariant |answers| == |done|
      invariant forall k :: 0 <= k < |done| ==> answers[k] == Hex(Digest(hasher.family, hasher.width, done[k]))
    {
      MessagesReadStep(hasher.Message(), calls, i);
      match calls[i]
      case AddCall(data) => hasher.Add(data);
      case ReadCall =>
        ghost var message := hasher.Message();
        var text := hasher.GetHash();
        answers := answers + [text];
        done := done + [message];
      case ResetCall => hasher.Reset();
    }
    MessagesReadStep(hasher.Message(), calls, |calls|);
  }
}
