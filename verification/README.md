# Hash library and wire codec of the authentication server

This project models two parts of the repository and proves what they promise.

The **hash library** of the authentication server offers CRC-32, MD5, SHA-1, SHA-256, Keccak, SHA-3 and HMAC as
objects that take a message in pieces of any size. Each of them gets its speed from code that no longer looks like the
definition it implements: tables that swallow eight bytes at once, unrolled rounds with rotated register names, a
message schedule that is extended when it is needed, a chain of assignments through one temporary. For each of them
there is a definition that follows the published standard (section 8 of RFC 1952, RFC 1321, FIPS 180-4, FIPS 202 and
RFC 2104), a model of the code with the same loops, buffers and branches, and the proof that the two agree on all
inputs. On top of that stand results that neither shows by itself: CRC-32 is the remainder of a polynomial division and
finds every error burst of up to 32 bits; the steps of the compression functions and the whole Keccak permutation can
be run backwards; padding can be undone; reading a digest never disturbs a run.

The **wire codec** carries requests and responses between the chat server and the authentication server. The model has
the records of the Protocol Buffers encoding, the eight messages of the protocol, their dispatch loops, their size
passes with cached sizes, their serializers and their merges. Parsing undoes serializing, parsing two encodings in a
row is merging, cached sizes are right, and whatever was parsed from any bytes can be written in no more bytes and is
parsed to the same again.

The parser does not look before it reads: it takes a record from memory, past the end of its message and past the end
of the data, and only then notices that it went too far. What it took stays in the object. The model says for every
input what the object holds afterwards, also when the parse fails: the records that were complete, and of the last one
what the library stores, read from the bytes that follow or from the zeros of its patch buffer
(`LeafMessages.LeafMessage.Parse`, `EnvelopeMessages.EnvelopeMessage.ParseFromString`). That this never turns a cut
encoding into a success is a theorem (`Leaves.RunIsParse`, `Envelopes.RunIsParse`).

Three results say where the code falls short, and exactly when.

- Parsing undoes serializing if and only if everything in a message fits the parser's limits. An entry may be
  serialized that is up to ten bytes too long to be parsed (`AuthProtocol.RoundTrip`, `AuthProtocol.KnownMessageFits`,
  `AuthProtocol.LargestRequestsAreRefused`).
- Both programs hand the received buffer to the parser as a C string. The parse reports success with the message that
  was sent if and only if its encoding has no zero byte, is shorter than the buffer of 16348 bytes, and has a zero byte
  behind it (`Delivery.ReportedExactly`). The server stops when the parse fails, so for requests this decides whether
  they are handled (`Delivery.DeliveredExactly`). The client goes on. Wherever a response was cut off, the client can
  still tell which kind of answer it is (`Responses.KindIsSeen`). For an answer that reports a failure, a reason zero is
  cut off and then read again from behind the data: the parse is reported as failed although the object holds exactly
  what was sent. The client comes to the right status if and only if the number of the request is not zero or the reason
  is (`Responses.FailureIsSeen`). So the answer to wrong credentials, whose reason is zero, always fails to parse and is
  always understood (`Responses.InvalidCredentialsAreSeen`).
- An enumerator is accepted by its low 32 bits. A failure whose reason has 64 bits is written again in the bytes it came
  in if and only if the reason is below 2^32, and in fewer bytes otherwise; reason 2^32 is taken for invalid credentials
  (`Leaves.EnumeratorsWrap`, `AuthProtocol.FailureReasonsWrap`, `AuthProtocol.LargeReasonIsInvalidCredentials`).

Where comments in the repository and its code disagree, the model follows the code. The comment on the initial values
of SHA-256 names RFC 1321; the values are those of section 5.3.3 of FIPS 180-4. The comment on reading a Keccak or
SHA-3 digest speaks of 16 characters; it has twice as many as the digest has bytes. The comment in the HMAC header asks
for a digest buffer of the block size; the code uses the digest size. The branch of the padding code that puts the one
bit into the extra block is never taken, because the buffer is never full when a digest is read; that invariant is part
of `Hashers.Hasher.Valid`.

## How it is laid out

| file | holds |
|---|---|
| Sequences, Bytes, Hex, Words | sequences, bytes, hexadecimal text, 32-bit words and byte order |
| Crc32, CrcErrors, CrcDivision | CRC-32: tables and object, error detection, polynomial division |
| Md5, Sha1, Sha256 | the compression functions: standard, unrolled code, inverse |
| MerkleDamgard, Hasher, Calls | padding and the fold over blocks, the object of MD5, SHA-1 and SHA-256, and runs of calls |
| Hmac | keyed hashing |
| Keccak, KeccakTables, KeccakBijective | the permutation in place, the origin of its tables, its inverse |
| Sponge, SpongeHasher | padding and absorbing, and the object of Keccak and SHA-3 |
| Varint, Wire, Stream | varints and records, and how they are read from memory |
| Leaves, Envelopes | the messages as values: meaning, merging, sizes, round trips, what any parse leaves behind |
| LeafMessage, EnvelopeMessage | the message objects with has-bits, lists and cached sizes |
| AuthProtocol, Delivery, Responses | the eight messages, what becomes of one that is sent, and what the client makes of a response |

Words and lanes are bit vectors of 32 and 64 bits, so additions and shifts wrap as in the code. The byte counters wrap
at 64 bits explicitly. Sums and products of sizes are unbounded, and limits are written out where the code has them.
Many proofs hide the definitions of the word operations and use only the laws that are stated for them. The platform is
little-endian.

## Model

| member | source | states |
|---|---|---|
| `Crc32.PolynomialIsEntry128` | 6016_Project2_AuthenServer/source/hash-library/crc32.cpp:72 | entry 128 of the first table is the reflected polynomial, so the recurrence and the bit-serial register shift by the same one |
| `Crc32.LookupIsAdvance` | 6016_Project2_AuthenServer/source/hash-library/crc32.cpp:35-55 | entry i of table k is i after 8 * (k + 1) shifts of the bit-serial register, for every table of the recurrence |
| `Crc32.AdvanceIsLinear` | 6016_Project2_AuthenServer/source/hash-library/crc32.cpp:35-41 | shifting any number of zero bits in respects exclusive or |
| `Crc32.AdvanceByte` | 6016_Project2_AuthenServer/source/hash-library/crc32.cpp:376-378 | a shift by eight bits and one table entry are eight shifts of the register |
| `Crc32.TailStep` | 6016_Project2_AuthenServer/source/hash-library/crc32.cpp:373-378 | the step of the tail loop feeds the eight bits of one byte into the register |
| `Crc32.EightByteStep` | 6016_Project2_AuthenServer/source/hash-library/crc32.cpp:344-369 | the eight lookups of the main loop, with the old register mixed into the first word, feed eight bytes into the register |
| `Crc32.FeedIsAffine` | 6016_Project2_AuthenServer/source/hash-library/crc32.cpp:339-379 | feeding bits is shifting the old register exclusive or feeding them into zero, for any number of bits |
| `Crc32.RegisterAppends` | 6016_Project2_AuthenServer/source/hash-library/crc32.cpp:339-379 | feeding two pieces one after the other is feeding their concatenation, from any register |
| `Crc32.Crc.Reset` | 6016_Project2_AuthenServer/source/hash-library/crc32.cpp:23-26 | after a reset the object holds the checksum of the empty message |
| `Crc32.Crc.Add` | 6016_Project2_AuthenServer/source/hash-library/crc32.cpp:339-379 | whatever the lengths of the pieces, the object holds the bit-by-bit CRC-32 of everything added since the reset |
| `Crc32.Crc.GetBytes` | 6016_Project2_AuthenServer/source/hash-library/crc32.cpp:407-413 | the four bytes of the checksum, most significant first |
| `Crc32.Crc.GetHash` | 6016_Project2_AuthenServer/source/hash-library/crc32.cpp:383-403 | the eight hexadecimal digits are those of the four bytes |
| `CrcDivision.RegisterIsRemainder` | 6016_Project2_AuthenServer/source/hash-library/crc32.cpp:35-41 | for every starting register and every bit string, the dividend is quotient times polynomial plus register, coefficient by coefficient over the field with two elements: the register is the remainder |
| `CrcErrors.FeedIsInjective` | 6016_Project2_AuthenServer/source/hash-library/crc32.cpp:373-378 | feeding the same bits keeps different registers different |
| `CrcErrors.WindowIsInjective` | 6016_Project2_AuthenServer/source/hash-library/crc32.cpp:373-378 | from one register, different strings of at most 32 bits leave different registers |
| `CrcErrors.BurstsAreDetected` | 6016_Project2_AuthenServer/source/hash-library/crc32.cpp:339-379 | two bit strings of equal length that differ only inside a window of at most 32 bits leave different registers, at any position and from any register |
| `CrcErrors.FourByteErrorsAreDetected` | 6016_Project2_AuthenServer/source/hash-library/crc32.cpp:339-379 | two messages that differ only inside a window of at most four bytes have different checksums |
| `Words.RightUndoesLeft` | 6016_Project2_AuthenServer/source/hash-library/md5.cpp:58-61 | rotating right undoes rotating left by the same amount |
| `Words.LeftUndoesRight` | 6016_Project2_AuthenServer/source/hash-library/sha256.cpp:42-45 | rotating left undoes rotating right by the same amount |
| `Words.SwapLittleIsBig` | 6016_Project2_AuthenServer/source/hash-library/sha256.cpp:47-60 | swapping the bytes of a word loaded on a little-endian machine gives the big-endian word |
| `Words.LoadUndoesStore` | 6016_Project2_AuthenServer/source/hash-library/sha256.cpp:372-393 | a word stored in either byte order is loaded back |
| `HexText.ToHex` | 6016_Project2_AuthenServer/source/hash-library/sha256.cpp:351-368 | the loop with the digit table gives two lower-case digits for each byte |
| `HexText.HexIsInjective` | 6016_Project2_AuthenServer/source/hash-library/sha256.cpp:351-368 | different digests have different texts |
| `Sha256.MixFunctions` | 6016_Project2_AuthenServer/source/hash-library/sha256.cpp:63-75 | the two mix functions are Sigma1 + Ch and Sigma0 + Maj, although the majority is written differently |
| `Sha256.Line` | 6016_Project2_AuthenServer/source/hash-library/sha256.cpp:107-114 | one unrolled line, which writes two of eight registers and leaves the renaming to the next line, is one step of the standard |
| `Sha256.FourLines` | 6016_Project2_AuthenServer/source/hash-library/sha256.cpp:107-110 | four lines with rotated register names are four steps, after which the two halves of the registers have exchanged their names |
| `Sha256.EightLines` | 6016_Project2_AuthenServer/source/hash-library/sha256.cpp:106-114 | eight lines with their literal constants and rotated register names are eight steps, after which every register has its own name again |
| `Sha256.LoadWords` | 6016_Project2_AuthenServer/source/hash-library/sha256.cpp:92-102 | the first sixteen schedule words are the big-endian words of the block |
| `Sha256.Extend` | 6016_Project2_AuthenServer/source/hash-library/sha256.cpp:126-131 | schedule words are added eight at a time, when they are needed, and agree with the full schedule |
| `Sha256.MixRounds` | 6016_Project2_AuthenServer/source/hash-library/sha256.cpp:106-226 | the 64 unrolled lines and the lazily extended schedule compute the 64 steps of section 6.2.2 of FIPS 180-4 |
| `Sha256.ProcessBlock` | 6016_Project2_AuthenServer/source/hash-library/sha256.cpp:80-237 | the chaining value becomes the compression of its old value and the block |
| `Sha256.UnroundInverts` | 6016_Project2_AuthenServer/source/hash-library/sha256.cpp:106-226 | a step can be undone, and is undone only by this |
| `Sha256.RoundsAreBijective` | 6016_Project2_AuthenServer/source/hash-library/sha256.cpp:106-226 | for a fixed block, any number of steps is a bijection on the registers, with an explicit inverse |
| `Sha1.MixFunctions` | 6016_Project2_AuthenServer/source/hash-library/sha1.cpp:40-53 | the rewritten mix functions are Ch, Parity and Maj |
| `Sha1.Line` | 6016_Project2_AuthenServer/source/hash-library/sha1.cpp:106-110 | one line of a loop is one step of the standard under rotated names |
| `Sha1.LoadWords` | 6016_Project2_AuthenServer/source/hash-library/sha1.cpp:87-100 | the array holds the 80 schedule words |
| `Sha1.TwentySteps` | 6016_Project2_AuthenServer/source/hash-library/sha1.cpp:102-111 | a loop of four times five lines is twenty steps |
| `Sha1.MixRounds` | 6016_Project2_AuthenServer/source/hash-library/sha1.cpp:102-144 | the four loops compute the 80 steps of section 6.1.2 of FIPS 180-4 |
| `Sha1.ProcessBlock` | 6016_Project2_AuthenServer/source/hash-library/sha1.cpp:78-152 | the chaining value becomes the compression of its old value and the block |
| `Sha1.UnroundInverts` | 6016_Project2_AuthenServer/source/hash-library/sha1.cpp:102-144 | a step can be undone, in both directions |
| `Sha1.RoundsAreBijective` | 6016_Project2_AuthenServer/source/hash-library/sha1.cpp:102-144 | for a fixed block, any number of steps is a bijection on the registers |
| `Md5.MixFunctions` | 6016_Project2_AuthenServer/source/hash-library/md5.cpp:38-56 | the rewritten mix functions are F, G, H and I of RFC 1321 |
| `Md5.Line` | 6016_Project2_AuthenServer/source/hash-library/md5.cpp:101-136 | one unrolled line is one indexed step of RFC 1321 under rotated names |
| `Md5.RoundOne` | 6016_Project2_AuthenServer/source/hash-library/md5.cpp:101-136 | the first sixteen lines, with their literal words, shifts and constants, are steps 0 to 15 of RFC 1321 |
| `Md5.RoundTwo` | 6016_Project2_AuthenServer/source/hash-library/md5.cpp:138-157 | the next sixteen lines, with their literal numbers, are steps 16 to 31, whose words are numbered 1 + 5 * i modulo 16 |
| `Md5.RoundThree` | 6016_Project2_AuthenServer/source/hash-library/md5.cpp:159-178 | the next sixteen lines, with their literal numbers, are steps 32 to 47, whose words are numbered 5 + 3 * i modulo 16 |
| `Md5.RoundFour` | 6016_Project2_AuthenServer/source/hash-library/md5.cpp:180-199 | the last sixteen lines, with their literal numbers, are steps 48 to 63, whose words are numbered 7 * i modulo 16 |
| `Md5.ProcessBlock` | 6016_Project2_AuthenServer/source/hash-library/md5.cpp:83-206 | the chaining value becomes the compression of its old value and the block |
| `Md5.UnstepInverts` | 6016_Project2_AuthenServer/source/hash-library/md5.cpp:101-199 | a step can be undone, in both directions |
| `Md5.StepsAreBijective` | 6016_Project2_AuthenServer/source/hash-library/md5.cpp:101-199 | for a fixed block, any number of steps is a bijection on the registers |
| `MerkleDamgard.BlocksAppend` | 6016_Project2_AuthenServer/source/hash-library/sha256.cpp:264-273 | compressing a whole number of blocks and then more data is compressing the concatenation |
| `MerkleDamgard.PaddingLayout` | 6016_Project2_AuthenServer/source/hash-library/sha256.cpp:285-347 | the rest of a message, the one bit, the zeros and the length lie in one block when the rest is shorter than 56 bytes, and in two otherwise |
| `MerkleDamgard.WrappedSums` | 6016_Project2_AuthenServer/source/hash-library/sha256.cpp:330 | wrapping the byte counter at 64 bits before turning it into bits makes no difference to the written length |
| `MerkleDamgard.LastBlocks` | 6016_Project2_AuthenServer/source/hash-library/sha256.cpp:285-347 | compressing the one or two blocks that hold the padding finishes the fold over the padded message |
| `MerkleDamgard.LengthRoundTrip` | 6016_Project2_AuthenServer/source/hash-library/sha256.cpp:330-341 | the eight length bytes, in the byte order of the method, stand for the length in bits |
| `MerkleDamgard.PaddingIsInjective` | 6016_Project2_AuthenServer/source/hash-library/sha256.cpp:285-347 | the padded message determines the message, for messages of every length, also where the length wraps around |
| `Hashers.Hasher.Reset` | 6016_Project2_AuthenServer/source/hash-library/sha256.cpp:23-37 | the object holds the empty message, and its chaining value is the initial one |
| `Hashers.Hasher.TopUp` | 6016_Project2_AuthenServer/source/hash-library/sha256.cpp:245-252 | bytes move into a partly filled buffer until it is full or the data ends |
| `Hashers.Hasher.Flush` | 6016_Project2_AuthenServer/source/hash-library/sha256.cpp:254-260 | a full buffer is compressed, and the message stays the same |
| `Hashers.Hasher.AbsorbBlocks` | 6016_Project2_AuthenServer/source/hash-library/sha256.cpp:266-273 | full blocks are compressed straight from the data |
| `Hashers.Hasher.Keep` | 6016_Project2_AuthenServer/source/hash-library/sha256.cpp:275-280 | what does not fill a block is buffered, and the buffer is not full afterwards |
| `Hashers.Hasher.Add` | 6016_Project2_AuthenServer/source/hash-library/sha256.cpp:241-281 | the message grows by the data, while the chaining value stays the fold over the full blocks and the buffer the rest |
| `Hashers.Hasher.PaddedLength` | 6016_Project2_AuthenServer/source/hash-library/sha256.cpp:285-306 | the computation in bits puts the length at byte 56 of the first or the second block |
| `Hashers.Hasher.WritePadding` | 6016_Project2_AuthenServer/source/hash-library/sha256.cpp:308-341 | the buffer and the extra block hold the rest of the message and its padding, and the buffered bytes are untouched |
| `Hashers.Hasher.ProcessBuffer` | 6016_Project2_AuthenServer/source/hash-library/sha256.cpp:285-347 | the chaining value is the fold over the padded message |
| `Hashers.Hasher.StoreAndRestore` | 6016_Project2_AuthenServer/source/hash-library/sha256.cpp:380-392 | the words are written out in the byte order of the method while the old chaining value is put back |
| `Hashers.Hasher.GetDigest` | 6016_Project2_AuthenServer/source/hash-library/sha256.cpp:372-393 | the digest of everything added since the reset; the message is the same afterwards |
| `Hashers.Hasher.GetHash` | 6016_Project2_AuthenServer/source/hash-library/sha256.cpp:351-368 | its hexadecimal text |
| `Hashers.Hasher.Compute` | 6016_Project2_AuthenServer/source/hash-library/sha256.cpp:397-402 | hashing one message does not depend on what the object was used for before |
| `Hashers.Run` | 6016_Project2_AuthenServer/source/hash-library/sha256.cpp:241-393 | over every run of additions, reads and resets, each read returns the digest of what was added since the last reset, however it was split and however often it was read |
| `Hmac.PrepareKey` | 6016_Project2_AuthenServer/source/hash-library/hmac.h:37-52 | the key, or the digest of a key that is too long, filled up with zeros |
| `Hmac.XorAll` | 6016_Project2_AuthenServer/source/hash-library/hmac.h:54-56 | every byte of the key buffer is masked in place |
| `Hmac.MaskTwice` | 6016_Project2_AuthenServer/source/hash-library/hmac.h:65-67 | masking the already masked buffer with the combined mask gives the outer key |
| `Hmac.Compute` | 6016_Project2_AuthenServer/source/hash-library/hmac.h:35-75 | the text is the code of section 2 of RFC 2104, for every key and message and each of the three hash methods |
| `Hmac.ZeroExtendedKeys` | 6016_Project2_AuthenServer/source/hash-library/hmac.h:40-45 | two keys that fit a block give the same block key exactly when one is the other with zeros appended |
| `Hmac.ZeroExtensionKeepsCode` | 6016_Project2_AuthenServer/source/hash-library/hmac.h:37-45 | appending zeros to a key up to the block size changes no code |
| `Hmac.LongKeyIsItsDigest` | 6016_Project2_AuthenServer/source/hash-library/hmac.h:46-52 | a key longer than a block and its digest give the same code |
| `Keccak.Coefficients` | 6016_Project2_AuthenServer/source/hash-library/keccak.cpp:106-109 | the five parities of the sheets |
| `Keccak.ThetaInPlace` | 6016_Project2_AuthenServer/source/hash-library/keccak.cpp:106-119 | the two loops over the array are theta of section 3.2.1 of FIPS 202 |
| `Keccak.ChainIsSingleCycle` | 6016_Project2_AuthenServer/source/hash-library/keccak.cpp:124-149 | the chain goes through the lanes 1 to 24, each exactly once |
| `Keccak.PiFollowsChain` | 6016_Project2_AuthenServer/source/hash-library/keccak.cpp:124-149 | pi takes each lane of the chain to the next one |
| `Keccak.Move` | 6016_Project2_AuthenServer/source/hash-library/keccak.cpp:126 | after t + 1 assignments of the chain, exactly the lanes written so far hold what rho and pi put there, and the temporary holds the old value of the lane just written |
| `Keccak.RhoPiInPlace` | 6016_Project2_AuthenServer/source/hash-library/keccak.cpp:121-149 | the chain of 24 assignments through one temporary is rho followed by pi, as simultaneous mappings |
| `Keccak.ChiInPlace` | 6016_Project2_AuthenServer/source/hash-library/keccak.cpp:151-163 | the loop over the planes with two temporaries is chi |
| `Keccak.RoundInPlace` | 6016_Project2_AuthenServer/source/hash-library/keccak.cpp:104-167 | one pass of the loop body is the round: theta, rho, pi, chi and iota |
| `Keccak.PermuteInPlace` | 6016_Project2_AuthenServer/source/hash-library/keccak.cpp:104-167 | the 24 passes are the permutation |
| `KeccakTables.WalkIsChain` | 6016_Project2_AuthenServer/source/hash-library/keccak.cpp:124-149 | the order of the chain is the walk of section 3.2.2 of FIPS 202, which ends where it began |
| `KeccakTables.OffsetsFollowWalk` | 6016_Project2_AuthenServer/source/hash-library/keccak.cpp:126-149 | the lane after t steps is rotated by (t + 1) * (t + 2) / 2 modulo 64 places |
| `KeccakTables.RoundConstantsFromRegister` | 6016_Project2_AuthenServer/source/hash-library/keccak.cpp:38-49 | the table of round constants is the one that the shift register of section 3.2.5 of FIPS 202 generates |
| `KeccakBijective.MixedTwice` | 6016_Project2_AuthenServer/source/hash-library/keccak.cpp:106-119 | mixing neighbouring sheets twice is mixing sheets at twice the distance with twice the rotation |
| `KeccakBijective.UnThetaInverts` | 6016_Project2_AuthenServer/source/hash-library/keccak.cpp:106-119 | theta has an inverse, on both sides |
| `KeccakBijective.UnRhoInverts` | 6016_Project2_AuthenServer/source/hash-library/keccak.cpp:121-149 | rho has an inverse, on both sides |
| `KeccakBijective.UnPiInverts` | 6016_Project2_AuthenServer/source/hash-library/keccak.cpp:121-149 | pi has an inverse, on both sides |
| `KeccakBijective.UnChiInverts` | 6016_Project2_AuthenServer/source/hash-library/keccak.cpp:151-163 | chi has an inverse, on both sides |
| `KeccakBijective.UnRoundInverts` | 6016_Project2_AuthenServer/source/hash-library/keccak.cpp:104-167 | a round has an inverse, on both sides |
| `KeccakBijective.PermutationIsBijective` | 6016_Project2_AuthenServer/source/hash-library/keccak.cpp:104-167 | the whole permutation is a bijection on all states of 25 lanes, with an explicit inverse |
| `Sponge.MixIsBytewise` | 6016_Project2_AuthenServer/source/hash-library/sha3.cpp:100-103 | mixing a block in lane by lane is the exclusive or of the state with the block followed by zeros, byte by byte |
| `Sponge.AbsorbAppend` | 6016_Project2_AuthenServer/source/hash-library/sha3.cpp:198-206 | absorbing a whole number of blocks and then more data is absorbing the concatenation |
| `Sponge.PaddingIsTenStarOne` | 6016_Project2_AuthenServer/source/hash-library/sha3.cpp:219-233 | read as bits, the padded message is the message, the domain bits of section 6.1 of FIPS 202 (none for Keccak) and pad10*1 of section 5.1, at all four rates |
| `Sponge.PaddingIsInjective` | 6016_Project2_AuthenServer/source/hash-library/keccak.cpp:216-232 | the padded message determines the message and the family: at equal rate no message padded for Keccak is one padded for SHA-3 |
| `SpongeHashers.SpongeHasher.Reset` | 6016_Project2_AuthenServer/source/hash-library/sha3.cpp:27-34 | the object holds the empty message and a blank state |
| `SpongeHashers.SpongeHasher.MixIn` | 6016_Project2_AuthenServer/source/hash-library/sha3.cpp:100-103 | as many lanes as the block has are mixed with its little-endian words |
| `SpongeHashers.SpongeHasher.ProcessBlock` | 6016_Project2_AuthenServer/source/hash-library/sha3.cpp:92-170 | the state becomes the permutation of the state with the block mixed in |
| `SpongeHashers.SpongeHasher.Add` | 6016_Project2_AuthenServer/source/hash-library/sha3.cpp:174-215 | the message grows by the data, while the state has absorbed the full blocks and the buffer holds the rest |
| `SpongeHashers.SpongeHasher.WritePadding` | 6016_Project2_AuthenServer/source/hash-library/sha3.cpp:219-230 | suffix, zeros and the last bit fill the block, also when only one byte is left for both |
| `SpongeHashers.SpongeHasher.ProcessBuffer` | 6016_Project2_AuthenServer/source/hash-library/sha3.cpp:219-233 | the state has absorbed the padded message |
| `SpongeHashers.SpongeHasher.Squeeze` | 6016_Project2_AuthenServer/source/hash-library/sha3.cpp:249-275 | the text of the first bytes of the state, including the half lane of the 224-bit width |
| `SpongeHashers.SpongeHasher.GetHash` | 6016_Project2_AuthenServer/source/hash-library/sha3.cpp:237-282 | the text of the sponge over everything added since the reset; the message is the same afterwards |
| `SpongeHashers.SpongeHasher.Compute` | 6016_Project2_AuthenServer/source/hash-library/sha3.cpp:286-291 | hashing one message does not depend on what the object was used for before |
| `SpongeHashers.Run` | 6016_Project2_AuthenServer/source/hash-library/sha3.cpp:174-282 | over every run of additions, reads and resets, each read returns the digest of what was added since the last reset, for both families and all four widths |
| `Varints.ReadUndoesWrite` | dev/inc/google/protobuf/parse_context.cc:327-338 | a varint is read back, whatever follows it, if and only if it is not longer than the reader allows |
| `Varints.WrittenIsShortest` | dev/inc/google/protobuf/parse_context.cc:288-295 | no encoding of a number is shorter than the one that is written |
| `Varints.VarintSizeIsLength` | dev/inc/google/protobuf/io/coded_stream.h:1744-1752 | the size formula with a multiplication by nine gives the length of the varint, for every 64-bit number |
| `Varints.ParseVarint` | dev/inc/google/protobuf/parse_context.cc:327-338 | adding each byte minus one, modulo 2^64, cancels the continuation bits and gives the value of the groups |
| `Varints.ParseTag` | dev/inc/google/protobuf/parse_context.cc:340-349 | the loop that wraps at 32 bits gives the low 32 bits of the groups, for up to five bytes |
| `Varints.ParseSize` | dev/inc/google/protobuf/parse_context.cc:351-370 | the four-step loop and the last byte with its two tests accept exactly the sizes up to 16 below the largest 32-bit integer, and give their value |
| `Wire.ReadUndoesBody` | dev/inc/google/protobuf/parse_context.h:882-927 | what follows the tag of a record is read back exactly when it fits: payloads up to the size limit, groups up to the nesting limit |
| `Wire.ReadUndoesGroup` | dev/inc/google/protobuf/parse_context.h:929-945 | nested groups are read back up to the tag that ends them, exactly when all their records fit |
| `Wire.ReadUndoesEncodeAll` | dev/inc/google/protobuf/wire_format.cc:192-232 | a sequence of records is read back if and only if all of them fit |
| `Wire.SerializeRecords` | dev/inc/google/protobuf/wire_format.cc:192-232 | the loop over the unknown records emits their encodings in order |
| `Wire.ReadConcatenation` | dev/inc/google/protobuf/parse_context.h:929-945 | the records of two pieces in a row are those of the first and then those of the second |
| `Wire.RecordsAreRewritable` | dev/inc/google/protobuf/wire_format.cc:192-232 | records that were read can be stored and read again, and are not written longer than they were read |
| `Wire.RecordsSizeIsLength` | dev/inc/google/protobuf/wire_format.cc:266-306 | the computed size of unknown records is the number of bytes they are written in |
| `Streams.ParseText` | dev/inc/google/protobuf/parse_context.h:327-345 | reading a string through the two buffers takes what lies in memory, zeros behind the data included, or leaves the part that could be copied, depending on where its record started and where its message should end |
| `Streams.ParseBody` | dev/inc/google/protobuf/parse_context.h:881-922 | an unknown record is taken from memory, or what of it is stored when the parser gives up: nothing, an empty or cut string, a group with some of its records |
| `Streams.ParseGroup` | dev/inc/google/protobuf/parse_context.h:927-945 | the loop over the records of a group stores every record up to the closing tag, and also those before a failure |
| `Streams.BodyWithin` | dev/inc/google/protobuf/parse_context.h:77-116 | a record read from memory with other bytes behind it is the record that its own stretch of bytes means, exactly when the reading does not go beyond the stretch |
| `Streams.TakenIsStorable` | dev/inc/google/protobuf/parse_context.h:881-922 | whatever is stored of an unknown record, whole or not, has the number and wire type of its tag and can be written |
| `Leaves.EnumeratorsWrap` | Proto/gen-cpp/AuthProtocol.pb.cc:1042-1052 | a number of 64 bits is taken for an enumerator exactly when its low 32 bits are one; the message is written in the bytes it came in exactly when the number has no other bits or is kept aside, and in fewer bytes otherwise |
| `Leaves.ParseUndoesWrite` | Proto/gen-cpp/AuthProtocol.pb.cc:466-569 | a well-formed message is read back exactly, absent fields and unknown records included, if and only if its strings and unknown records fit |
| `Leaves.ParseConcatenation` | Proto/gen-cpp/AuthProtocol.pb.cc:1027-1078 | parsing two encodings in a row is parsing each and merging: the later field wins, unknown records and foreign enumerators are kept in order |
| `Leaves.ApplyingIsMerging` | Proto/gen-cpp/AuthProtocol.pb.cc:1154-1173 | parsing into a message that already holds fields is merging with what is parsed into an empty one |
| `Leaves.SizeIsLength` | Proto/gen-cpp/AuthProtocol.pb.cc:571-622 | the computed size is the number of bytes written |
| `Leaves.ParsedIsRewritable` | Proto/gen-cpp/AuthProtocol.pb.cc:1027-1106 | every message that was parsed, from any bytes, is written in no more bytes than it came in and is parsed again to the same |
| `Leaves.RunIsParse` | Proto/gen-cpp/AuthProtocol.pb.cc:466-528 | reading from memory succeeds exactly when the bytes of the message can be parsed, and then gives what they mean, so bytes behind the message never change a success |
| `Leaves.CompleteRecordsStay` | Proto/gen-cpp/AuthProtocol.pb.cc:466-528 | however a parse ends, it has taken the records that are complete: the fields in front of a cut are as they were sent |
| `Leaves.RunKeepsWellFormed` | Proto/gen-cpp/AuthProtocol.pb.cc:466-528 | whatever bytes are parsed, and however that ends, the message stays well formed |
| `LeafMessages.PresenceLaws` | Proto/gen-cpp/AuthProtocol.pb.cc:364-366 | the mask tests hold exactly when all required bits are set, and when any is |
| `LeafMessages.LeafMessage.Clear` | Proto/gen-cpp/AuthProtocol.pb.cc:446-464 | no field is present and nothing is kept aside |
| `LeafMessages.LeafMessage.IsInitialized` | Proto/gen-cpp/AuthProtocol.pb.cc:662-665 | true exactly when every required field is present |
| `LeafMessages.LeafMessage.ParseField` | Proto/gen-cpp/AuthProtocol.pb.cc:473-507 | the value after an expected tag is taken, and an enumerator out of range is kept aside with its full 64-bit value; on failure a number becomes zero, a string holds the part that could be copied, and both count as present |
| `LeafMessages.LeafMessage.ParseRecord` | Proto/gen-cpp/AuthProtocol.pb.cc:469-521 | one round of the dispatch loop takes one record from memory as the schema says, or stops and leaves what was stored of it |
| `LeafMessages.LeafMessage.Parse` | Proto/gen-cpp/AuthProtocol.pb.cc:466-528 | for any bytes, any limit and any end of the data, the object holds exactly the records taken, a cut one included, and stays well formed; the result says whether the message ended at its limit and within the data |
| `LeafMessages.LeafMessage.Serialize` | Proto/gen-cpp/AuthProtocol.pb.cc:530-569 | the fields that are present, in the order of their numbers, and then the unknown records |
| `LeafMessages.LeafMessage.RequiredFieldsByteSizeFallback` | Proto/gen-cpp/AuthProtocol.pb.cc:571-595 | the sizes of the fields that are present |
| `LeafMessages.LeafMessage.AllFieldsByteSize` | Proto/gen-cpp/AuthProtocol.pb.cc:599-613 | when all bits are set, the sum that looks at none of them is the same |
| `LeafMessages.LeafMessage.ByteSizeLong` | Proto/gen-cpp/AuthProtocol.pb.cc:596-622 | on both paths the returned and the cached size are the number of bytes that the serializer emits |
| `LeafMessages.LeafMessage.MergeFieldsFrom` | Proto/gen-cpp/AuthProtocol.pb.cc:637-650 | the values and bits of the fields that are present in the other message are taken over, and no others |
| `LeafMessages.LeafMessage.MergeFrom` | Proto/gen-cpp/AuthProtocol.pb.cc:631-652 | the fields that are present in the other message and its unknown records are taken over, and no others |
| `Envelopes.ParseUndoesWrite` | Proto/gen-cpp/AuthProtocol.pb.cc:2189-2272 | a well-formed request or response is read back exactly, with the order of the entries and the fields that each has, if and only if everything in it fits |
| `Envelopes.ParseConcatenation` | Proto/gen-cpp/AuthProtocol.pb.cc:2420-2499 | parsing two encodings in a row is parsing each and merging: repeated entries are appended |
| `Envelopes.ApplyingIsMerging` | Proto/gen-cpp/AuthProtocol.pb.cc:2593-2606 | parsing into an envelope is merging with what is parsed into an empty one |
| `Envelopes.SizeIsLength` | Proto/gen-cpp/AuthProtocol.pb.cc:2547-2584 | the computed size, with all tags and length prefixes, is the number of bytes written |
| `Envelopes.ParsedIsRewritable` | Proto/gen-cpp/AuthProtocol.pb.cc:2420-2545 | every envelope that was parsed, from any bytes, is written in no more bytes than it came in and is parsed again to the same |
| `Envelopes.RunIsParse` | Proto/gen-cpp/AuthProtocol.pb.cc:2420-2499 | reading from memory succeeds exactly when the data can be parsed, and then gives the envelope that they mean |
| `Envelopes.CompleteRecordsStay` | Proto/gen-cpp/AuthProtocol.pb.cc:2420-2499 | however a parse ends, it has taken the records that are complete: the entries in front of a cut are as they were sent |
| `Envelopes.FromStringIsParse` | dev/inc/google/protobuf/message_lite.cc:138-150 | the parse reports success exactly when the data mean an envelope with all required fields, and then the object holds it |
| `EnvelopeMessages.ParseNested` | dev/inc/google/protobuf/parse_context.cc:267-286 | a message is parsed from its length prefix, which may reach beyond the data, at one level less of nesting |
| `EnvelopeMessages.EnvelopeMessage.ParseMessage` | Proto/gen-cpp/AuthProtocol.pb.cc:2443-2447 | a new entry is added and parsed, and stays in the list with what was parsed of it when that fails |
| `EnvelopeMessages.EnvelopeMessage.ParseList` | Proto/gen-cpp/AuthProtocol.pb.cc:2428-2438 | however often the same-tag loop goes round before it gives control back, the parse comes to the same outcome as with one record at a time, success or not |
| `EnvelopeMessages.EnvelopeMessage.ParseSome` | Proto/gen-cpp/AuthProtocol.pb.cc:2422-2489 | one round of the dispatch loop, which may take several records of one list, leaves the rest to be parsed to the same outcome, success or not |
| `EnvelopeMessages.EnvelopeMessage.Parse` | Proto/gen-cpp/AuthProtocol.pb.cc:2420-2499 | for any data, the object holds exactly the entries and records taken, a partial last entry included, and the result says whether the data ended with a record |
| `EnvelopeMessages.EnvelopeMessage.Clear` | Proto/gen-cpp/AuthProtocol.pb.cc:2178-2187 | no entries and nothing kept aside |
| `EnvelopeMessages.ListByteSize` | Proto/gen-cpp/AuthProtocol.pb.cc:2281-2286 | one tag byte for each entry, and its length prefix and contents; each entry caches its own size |
| `EnvelopeMessages.SerializeList` | Proto/gen-cpp/AuthProtocol.pb.cc:2250-2256 | the entries of a list with the cached sizes as length prefixes |
| `EnvelopeMessages.AllAreInitialized` | dev/inc/google/protobuf/generated_message_util.h:113-119 | the loop from the last entry down finds out whether all have their required fields |
| `EnvelopeMessages.EnvelopeMessage.ByteSizeLong` | Proto/gen-cpp/AuthProtocol.pb.cc:2274-2297 | afterwards every entry has cached the number of bytes that its own serializer emits, and the total is the length of the output |
| `EnvelopeMessages.EnvelopeMessage.Serialize` | Proto/gen-cpp/AuthProtocol.pb.cc:2244-2272 | with the sizes cached, the output is the encoding, so all length prefixes are right |
| `EnvelopeMessages.EnvelopeMessage.IsInitialized` | Proto/gen-cpp/AuthProtocol.pb.cc:2326-2332 | true exactly when every entry has all its required fields |
| `EnvelopeMessages.EnvelopeMessage.MergeFrom` | Proto/gen-cpp/AuthProtocol.pb.cc:2306-2317 | copies of the other entries are appended list by list, and unknown records are kept in order |
| `EnvelopeMessages.EnvelopeMessage.SerializeToString` | dev/inc/google/protobuf/message_lite.cc:445-466 | the encoding, unless it is longer than the largest 32-bit integer |
| `EnvelopeMessages.EnvelopeMessage.ParseFromString` | dev/inc/google/protobuf/message_lite.cc:138-150 | the old contents are gone; the parse succeeds exactly when the bytes mean an envelope with all required fields, and when it does not the object holds what was parsed up to then |
| `AuthProtocol.NewRequest` | Proto/AuthProtocol.proto:53-56 | an empty request, with the lists for account creation and authentication at numbers 3 and 4 |
| `AuthProtocol.NewResponse` | Proto/AuthProtocol.proto:58-63 | an empty response, with its four lists at numbers 1 to 4 |
| `AuthProtocol.Transfer` | 6016_Project2_ChatServer/source/TCP/cTCP_Client.cpp:92-95 | serializing one object and parsing all bytes into another makes the two equal, or is refused exactly when a field is missing or something does not fit |
| `AuthProtocol.RoundTrip` | Proto/gen-cpp/AuthProtocol.pb.cc:2189-2272 | parsing from a string undoes serializing, for every request and response with all required fields that fits |
| `AuthProtocol.FailureReasonsWrap` | Proto/gen-cpp/AuthProtocol.pb.cc:1042-1052 | for both failure messages, a reason of 64 bits is taken for the one in its low 32 bits, and the message is written again in the same bytes exactly when the reason is below 2^32, and in fewer otherwise |
| `AuthProtocol.LargeReasonIsInvalidCredentials` | Proto/gen-cpp/AuthProtocol.pb.cc:1962-1968 | for instance, reason 2^32 is taken for invalid credentials |
| `AuthProtocol.KnownMessageFits` | dev/inc/google/protobuf/parse_context.cc:351-370 | without unknown records, a message fits exactly when no entry is longer than the parser's limit |
| `AuthProtocol.ShortMessageFits` | dev/inc/google/protobuf/parse_context.cc:351-370 | in particular when all of it is not longer than that |
| `AuthProtocol.LargestRequestsAreRefused` | dev/inc/google/protobuf/parse_context.cc:361-368 | a request that is serialized but cannot be parsed: its one entry is within sixteen bytes of the limit |
| `Delivery.ReportedExactly` | dev/inc/google/protobuf/message_lite.cc:138-150 | handed over as a C string, a message is parsed with success and as it was sent if and only if its encoding has no zero byte, is shorter than the buffer of 16348 bytes, and has a zero byte behind it |
| `Delivery.ReceiveRequest` | 6016_Project2_AuthenServer/source/TCP/cTCPServer.cpp:66-87 | the server goes on with what the C string in its buffer means, and only if that can be parsed and holds all required fields |
| `Delivery.DeliveredExactly` | 6016_Project2_AuthenServer/source/TCP/cTCPServer.cpp:66-87 | the server handles the request that was sent if and only if its encoding has no zero byte, is shorter than the buffer, and has a zero byte behind it |
| `Delivery.ZeroFieldIsNotDelivered` | 6016_Project2_AuthenServer/source/TCP/cTCPServer.cpp:82 | when any field of a message is zero, the first enumerator or the empty string, no parse of what arrives reports success with that message |
| `Responses.ReactTo` | 6016_Project2_ChatServer/source/TCP/cTCP_Client.cpp:125-168 | the client looks at the first entry of the first list that has one, and an absent field reads as its default |
| `Responses.ReceiveResponse` | 6016_Project2_ChatServer/source/TCP/cTCP_Client.cpp:103-168 | the client reacts to what the object holds after the parse of its buffer, whether or not that succeeded |
| `Responses.RunOfCut` | Proto/gen-cpp/AuthProtocol.pb.cc:2420-2499 | wherever an encoding is cut off, the object gets an entry in the list of its first record, and gets entries only in lists that the message has entries in |
| `Responses.KindIsSeen` | 6016_Project2_ChatServer/source/TCP/cTCP_Client.cpp:115-168 | wherever a response without unknown records is cut off, the client comes to the return code that it comes to for the response that was sent |
| `Responses.FailureIsSeen` | 6016_Project2_AuthenServer/source/TCP/cTCPServer.cpp:112-124 | for both kinds of failure, every request number and every reason: the parse reports success exactly when neither is zero, the object holds what was sent exactly when the number is not zero, and the client comes to the status that was meant exactly when the number is not zero or the reason is |
| `Responses.InvalidCredentialsAreSeen` | 6016_Project2_AuthenServer/source/TCP/cTCPServer.cpp:112-117 | the answer to wrong credentials, whose reason is zero, is never reported as a success, and the client takes it for invalid credentials all the same |

## Left out

- Hashers.Hasher: one class stands for MD5, SHA1 and SHA256, whose `add`, `processBuffer` and `getHash` differ only in constants and byte order; the method is a constant of the object.
- SpongeHashers.SpongeHasher: one class stands for Keccak and SHA3, which differ only in the suffix byte.
- LeafMessages.LeafMessage: one class stands for the six messages with plain fields, driven by their schema, where the generated code repeats the same text with other tags, bits and names.
- EnvelopeMessages.EnvelopeMessage: one class stands for Request and Response in the same way.
- EnvelopeMessages.EnvelopeMessage.Parse: after a failed parse every entry is well formed, but nothing is said of how long an entry can be, so serializing or merging such an object is not covered.
- Delivery.Handled: when the buffer has no zero byte, the C string goes on into memory behind it; that is not modelled, and counts as not handled.
- Responses.KindIsSeen: with bytes other than zero behind the encoding, the client parses those too; what it then sees depends on what the buffer held before.
- EnvelopeMessages.EnvelopeMessage.ParseList: whether more data is known to be available is a free choice, so that the stream's buffer seams need not be modelled.
- Leaves.WellFormed: strings and unknown payloads are below 2^32 bytes, as the lengths of the library are; longer ones would have truncated lengths.
- Crc32.Lookup: the tables are defined by the recurrence that generated them; the 2048 literals are not repeated.
- Data and blocks are passed as sequences of bytes, not as pointers, so a caller's data that overlaps an object's own buffer is not captured.
- The big-endian branches, the byte-swap intrinsics and the choice of platform.
- Cryptographic strength: nothing here says that collisions or preimages are hard to find.
- The sockets, `select` loops, partial reads and the main programs; only the hand-over of a received buffer to the parser and what the client makes of the result are modelled.
- The database access, the generation of salts and the command-line program for digests.
- Arenas, descriptors, reflection, default instances, swapping, moving and UTF-8 checks of the generated messages.
- The second and third copies of the generated code, which are the same as the one modelled.
