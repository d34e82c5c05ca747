# ScriptChunk: the script-element codec of dogecoinj, in Dafny

This project models `ScriptChunk`, one element of a Bitcoin-style script program. A chunk is
either a bare opcode or a data push. It is an immutable triple: `opcode`, nullable `data`,
and `startLocationInProgram`, which is -1 when the chunk was not parsed from a program. The
model covers five parts of the chunk:

- **classification**: `isOpCode` (opcode above `OP_PUSHDATA4`) and `isPushData` (opcode at most
  `OP_16`);
- **the minimal-push check** `isShortestPossiblePushData`, the "Push operations" rule of BIP 62,
  written as a first-match table over the payload;
- **the serialiser** `write`, which appends one of these wire forms to an output stream:
  - a bare opcode byte;
  - a direct push, `[n] ++ data`;
  - `OP_PUSHDATA1` with a 1-byte length;
  - `OP_PUSHDATA2` with a 2-byte little-endian length;
  - `OP_PUSHDATA4` with a 4-byte little-endian length;
- **value semantics**: `equals` and `hashCode` over all three fields;
- **the start-location accessor**.

Layout, one module per file:

| file | module | contents |
|---|---|---|
| `wrappers.dfy` | `Wrappers` | `Option`, `Result` and `Outcome` |
| `java_types.dfy` | `JavaTypes` | Java `int` (`Int32`, with 32-bit wrap-around `Wrap`), the signed Java `byte` (`JByte`), the wire `Octet`, and the conversions `OutputStream` applies |
| `java_arrays.dfy` | `JavaArrays` | `Arrays.equals` and `Arrays.hashCode` on a nullable `byte[]` |
| `utils.dfy` | `Utils` | little-endian length prefixes, including `Utils.uint32ToByteStreamLE` |
| `streams.dfy` | `Streams` | the output stream, as a class `ByteSink` whose `written` sequence each write appends to |
| `script_op_codes.dfy` | `ScriptOpCodes` | the opcode constants the codec uses |
| `script_chunk.dfy` | `Script` | the chunk datatype and its operations |
| `script_chunk_properties.dfy` | `ScriptChunkProperties` | the lemmas, plus a reference reader `ParseChunk` that inverts the wire form |

The Java exceptions are modelled as values, not as preconditions. `Exception` has three cases:

- `IllegalState` for a failed `checkState`;
- `NullPointer` for `data.length` read on a null array;
- `Unimplemented` for the defensive `RuntimeException`.

`write` is modelled twice. `ScriptChunk.Write` is an imperative method that performs the source's
sequence of `stream.write` calls on a `ByteSink`. `ScriptChunk.Encode` is the function that says
which bytes come out. The method's contract ties the sink's new contents to `Encode`. Its
data-push branch is the separate method `ScriptChunk.WriteDataPush`, which keeps each proof
small. The
properties of the wire form are proved about `Encode`.

Two conversions follow Java:

- `OutputStream.write(int)` writes the low 8 bits of its argument, so an opcode is emitted as
  `opcode % 256`.
- Payload bytes are signed Java bytes, and they are written as `b & 0xFF`.

### Behaviour the model keeps as the code has it

- **The 0x81 payload.** `isShortestPossiblePushData` compares the signed byte `b` with the int
  `0x81` (129). A Java byte is at most 127, so this comparison is never true. As a result, the
  one-byte payload 0x81 (the byte -127) passes the check only with opcode 1, as a two-byte
  direct push. BIP 62 requires `OP_1NEGATE` for that payload. The model keeps the code's
  behaviour. `Bip62Agreement` proves that, up to 520 bytes, this payload is the only one on
  which the code and the BIP differ.
- **Oversized payloads.** BIP 62 permits no push of more than 520 bytes (MAX_SCRIPT_ELEMENT_SIZE),
  so it never uses `OP_PUSHDATA4`. The code's table still names `OP_PUSHDATA2` for 521..65535
  bytes and `OP_PUSHDATA4` beyond, and `write` accepts an `OP_PUSHDATA2` chunk of up to 65535
  bytes. `OversizedPushDivergence` states this second difference.
- **Small numbers carry no data.** A single payload byte 1..16 passes the check only under
  `OP_1`..`OP_16`. Those opcodes lie above `OP_PUSHDATA4`, so `write` refuses them when data is
  attached. Such a chunk can only be written as the bare number opcode.
- **Failures write nothing.** Every check in `write` comes before the first byte is written, so
  a failing call leaves the stream unchanged.
- **The `else` branch.** `OP_1NEGATE` and `OP_1`..`OP_16` are above `OP_PUSHDATA4`. They are
  therefore written by the `isOpCode` branch, not by the final small-number branch. That branch
  is reached only by a null-data chunk with an opcode of at most `OP_PUSHDATA4`.
- **Round trips are not universal.** Such a null-data chunk is written as its opcode's low byte
  alone, and a reader takes that byte as a push header:
  - `OP_0` without data reads back as an empty push;
  - an opcode from 1 to `OP_PUSHDATA4` without data reads back as a push whose payload (or
    length prefix) is taken from whatever bytes follow, and fails only when too few follow;
  - a negative opcode without data is written as its low byte (-1 as 0xFF) and reads back as a
    different opcode.
  An opcode chunk above 0xFF is likewise written as its low byte. `EncodeParseRoundTrip`
  therefore covers pushes with data, and opcode chunks whose opcode fits in a byte.
- **Equality includes the parse position.** `equals` and `hashCode` include
  `startLocationInProgram`, so the same element parsed at two offsets gives two unequal chunks.

## Model

| member | source | states |
|---|---|---|
| `Script.ScriptChunk.IsShortestPossiblePushData` | core/src/main/java/com/google/dogecoin/script/ScriptChunk.java:85-105 | a non-pushdata chunk fails its `checkState`; null data fails on `data.length`; otherwise the result is true exactly when the opcode is the one opcode `MinimalPushOpcode` assigns to the payload |
| `Script.MinimalPushOpcode` | core/src/main/java/com/google/dogecoin/script/ScriptChunk.java:87-104 | the opcode the table demands is always a pushdata opcode (OP_0..OP_16); it is OP_0 exactly for the empty payload; it is above OP_PUSHDATA4 only for a one-byte payload |
| `Script.PushPrefix` | core/src/main/java/com/google/dogecoin/script/ScriptChunk.java:113-131 | the push header starts with the opcode; "Unimplemented" is reached exactly for opcodes above OP_PUSHDATA4; write never reaches it, because it calls `PushPrefix` only for the four push zones at or below OP_PUSHDATA4 |
| `Script.ScriptChunk.Encode` | core/src/main/java/com/google/dogecoin/script/ScriptChunk.java:107-136 | the only exception write can throw is a failed `checkState` (the "Unimplemented" branch is unreachable); the first byte written is always the opcode's low byte; a payload is written last and unchanged |
| `Script.ScriptChunk.Write` | core/src/main/java/com/google/dogecoin/script/ScriptChunk.java:107-136 | on success the stream gains exactly the bytes `Encode` gives; on failure it returns the same exception and leaves the stream unchanged |
| `Script.ScriptChunk.WriteDataPush` | core/src/main/java/com/google/dogecoin/script/ScriptChunk.java:111-132 | the data branch of write: when the length fits the push form, the stream gains the header `PushPrefix` gives followed by the payload; otherwise it fails with the same exception and the stream is unchanged |
| `Script.ScriptChunk.GetStartLocationInProgram` | core/src/main/java/com/google/dogecoin/script/ScriptChunk.java:77-80 | succeeds exactly when the start location is non-negative, and then returns it; otherwise fails its `checkState` |
| `Script.ScriptChunk.IsOpCode` | core/src/main/java/com/google/dogecoin/script/ScriptChunk.java:66-68 | a chunk is not an opcode chunk exactly when its opcode is in one of the four push forms write dispatches on (below OP_PUSHDATA1, or OP_PUSHDATA1, 2 or 4); partner lemma `Classification` |
| `Script.ScriptChunk.IsPushData` | core/src/main/java/com/google/dogecoin/script/ScriptChunk.java:73-75 | a chunk is pushdata exactly when its opcode is in the push forms or among OP_1NEGATE..OP_16; partner lemma `Classification` |
| `Script.NewChunkAt` | core/src/main/java/com/google/dogecoin/script/ScriptChunk.java:53-57 | the three-argument constructor keeps all three fields, and a non-negative start location reads back through the getter |
| `Script.NewChunk` | core/src/main/java/com/google/dogecoin/script/ScriptChunk.java:49-51 | the two-argument constructor keeps opcode and data and sets the start location to -1, so asking for it fails; partner lemma `UnplacedChunkDiffersFromPlaced` |
| `Script.ScriptChunk.Equals` | core/src/main/java/com/google/dogecoin/script/ScriptChunk.java:157-168 | equal exactly when opcode, start location and data (byte-wise, null equal only to null) all match, that is, when the two triples are the same value |
| `Script.ScriptChunk.HashCode` | core/src/main/java/com/google/dogecoin/script/ScriptChunk.java:170-176 | the wrapping 31-multiplier fold equals the exact polynomial `961*opcode + 31*hash(data) + start` reduced once to 32 bits, where hash(data) is the exact array-hash polynomial (0 for null) |
| `JavaArrays.ArraysEquals` | core/src/main/java/com/google/dogecoin/script/ScriptChunk.java:165 | `Arrays.equals` on nullable byte arrays holds exactly when the two are the same value |
| `JavaArrays.ArraysHashCode` | core/src/main/java/com/google/dogecoin/script/ScriptChunk.java:173 | `Arrays.hashCode` is 0 for null, and otherwise is `HashPolynomial` (the unwrapped fold that starts at 1 and takes `31 * h + a[i]` byte by byte) reduced to 32 bits |
| `JavaArrays.HashFold` | core/src/main/java/com/google/dogecoin/script/ScriptChunk.java:173 | folding `31*h + b` with wrap-around at every step gives the same int as wrapping the exact polynomial once |
| `Utils.Uint32ToBytesLE` | core/src/main/java/com/google/dogecoin/script/ScriptChunk.java:128 | the 4-byte little-endian encoding of a length below 2^32 reads back as that length |
| `Utils.LittleEndianRoundTrip` | core/src/main/java/com/google/dogecoin/script/ScriptChunk.java:116-128 | reading back `width` little-endian bytes recovers any length below 256^width, the decoding side of the 1-, 2- and 4-byte prefixes |
| `Streams.ByteSink.Write` | core/src/main/java/com/google/dogecoin/script/ScriptChunk.java:110 | `stream.write(int)` appends the low 8 bits of its argument and nothing else |
| `Streams.ByteSink.WriteArray` | core/src/main/java/com/google/dogecoin/script/ScriptChunk.java:132 | `stream.write(data)` appends every payload byte, in order, as `b & 0xFF` |
| `Streams.ByteSink.WriteOctets` | core/src/main/java/com/google/dogecoin/script/ScriptChunk.java:128 | the bytes the foreign length writer produces are appended in order |
| `ScriptChunkProperties.Classification` | core/src/main/java/com/google/dogecoin/script/ScriptChunk.java:66-75 | every chunk is an opcode chunk or a pushdata chunk; both hold exactly for OP_1NEGATE..OP_16, so neither predicate is the other's complement |
| `ScriptChunkProperties.PushPrefixForm` | core/src/main/java/com/google/dogecoin/script/ScriptChunk.java:113-128 | every header write emits is the opcode followed by the length in 0, 1, 2 or 4 little-endian bytes; a direct push's length equals its opcode, and any other length fits its prefix width |
| `ScriptChunkProperties.EncodeShape` | core/src/main/java/com/google/dogecoin/script/ScriptChunk.java:107-135 | the six output shapes and their lengths: `[opcode]` for opcode and null-data chunks; `[n]++data` (1+n); `[0x4c,n]++data` (2+n); `[0x4d,n&0xFF,n>>8]++data` (3+n); `[0x4e]++LE32(n)++data` (5+n) |
| `ScriptChunkProperties.EncodeFailure` | core/src/main/java/com/google/dogecoin/script/ScriptChunk.java:108-128 | write fails if and only if an opcode chunk carries data, a direct push's length differs from its opcode, or the length exceeds 0xFF, 0xFFFF or MAX_SCRIPT_ELEMENT_SIZE for PUSHDATA1, 2 or 4 |
| `ScriptChunkProperties.EncodeParseRoundTrip` | core/src/main/java/com/google/dogecoin/script/ScriptChunk.java:116-132 | reading back the written bytes, followed by anything, recovers the opcode and payload; the length prefix decodes to `data.length`, and exactly the written bytes are consumed |
| `ScriptChunkProperties.ShortestPushIsUnique` | core/src/main/java/com/google/dogecoin/script/ScriptChunk.java:87-104 | for every payload exactly one opcode makes the check true, and it is a pushdata opcode |
| `ScriptChunkProperties.Pushdata4NeverWritten` | core/src/main/java/com/google/dogecoin/script/ScriptChunk.java:100-104 | the OP_PUSHDATA4 row "can never be used": it is demanded only for payloads over 0xFFFF bytes, and write refuses such a chunk because the payload exceeds MAX_SCRIPT_ELEMENT_SIZE |
| `ScriptChunkProperties.MinimalPushIsShortestEncoding` | core/src/main/java/com/google/dogecoin/script/ScriptChunk.java:85-105 | for payloads of at most 0xFFFF bytes (other than a single byte 1..16), the opcode the check accepts is written successfully and writes the fewest bytes; the check is true exactly when a chunk's encoding has that minimum length |
| `ScriptChunkProperties.SmallNumberPush` | core/src/main/java/com/google/dogecoin/script/ScriptChunk.java:89-92 | a single byte b in 1..16 is minimal only under OP_1+b-1; write refuses that chunk with data but writes it as one bare byte without data; the direct push `[1, b]` is not minimal |
| `ScriptChunkProperties.Bip62Agreement` | core/src/main/java/com/google/dogecoin/script/ScriptChunk.java:89-94 | for payloads of at most 520 bytes, the opcode the check demands equals the BIP 62 minimal opcode except on the single byte 0x81; above 520 bytes BIP 62 permits no push at all |
| `ScriptChunkProperties.OversizedPushDivergence` | core/src/main/java/com/google/dogecoin/script/ScriptChunk.java:100-123 | for a payload over 520 bytes, where BIP 62 permits no push, the check still demands OP_PUSHDATA2 (up to 65535 bytes) or OP_PUSHDATA4, accepts that chunk as minimal, and write emits the PUSHDATA2 form |
| `ScriptChunkProperties.NegativeOneDivergence` | core/src/main/java/com/google/dogecoin/script/ScriptChunk.java:93-94 | the payload 0x81 is minimal with opcode 1 and written as `[1, 0x81]`; it is not minimal with OP_1NEGATE, which BIP 62 demands and which writes one byte |
| `ScriptChunkProperties.EqualsIsEquivalence` | core/src/main/java/com/google/dogecoin/script/ScriptChunk.java:157-168 | equals is reflexive, symmetric and transitive |
| `ScriptChunkProperties.EqualChunksHashEqual` | core/src/main/java/com/google/dogecoin/script/ScriptChunk.java:157-176 | equal chunks have equal hash codes |
| `ScriptChunkProperties.UnplacedChunkDiffersFromPlaced` | core/src/main/java/com/google/dogecoin/script/ScriptChunk.java:49-57 | a chunk from the two-argument constructor equals another such chunk with the same fields, and never equals the same opcode and data built at a non-negative start location |
| `ScriptChunkProperties.StartLocationDistinguishes` | core/src/main/java/com/google/dogecoin/script/ScriptChunk.java:164 | chunks that differ only in start location are unequal |

## Left out

- `toString` (ScriptChunk.java:138-154) is not modelled. It needs the opcode name tables, hex
  encoding and `Script.decodeFromOpN`, and none of these is part of this model.
- `equalsOpCode` (ScriptChunk.java:59-61) is not modelled. It is the single comparison
  `c.opcode == op`, which Dafny states directly.
- Object identity and the `getClass()` test in `equals` (ScriptChunk.java:158-159) are not
  modelled. A chunk is a value here, and `Equals` takes another chunk.
- `Utils.uint32ToByteStreamLE` is not part of this model. It is taken to write the 4 low-order
  bytes of its argument, least significant first.
- `Script.MAX_SCRIPT_ELEMENT_SIZE` is not part of this model. It is the named constant 520, the
  element-size limit of Bitcoin script. `PushPrefixForm` and the round trip use that it is below
  2^32, so the length fits the 4-byte prefix; `Pushdata4NeverWritten` uses that it is below
  65536; the BIP 62 reference uses it as the largest push that standard permits.
- The parser `Script.parse` is not part of this model. `ParseChunk` is an independent reader of
  the wire form, written only to state the round trip.
- `IOException` and the stream's own failures are not modelled. The stream is a byte sequence
  that every write appends to.
- The Java limit of 2^31-1 on array lengths is not modelled. No modelled behaviour depends on
  it.
- Concurrency is not modelled. Chunks are immutable, and the stream belongs to one caller.
- `CoinSelector` and `CoinSelection` (the wallet package) are not modelled. The first is an
  interface, and its selection policy is in a class that is not part of this model. The second
  is a two-field holder with no behaviour.
- ScriptChunkProperties.EncodeParseRoundTrip: this is weaker than a round trip for every
  written chunk. A null-data chunk with an opcode of at most `OP_PUSHDATA4` is written as one
  byte that a reader takes as a push header, and an opcode outside 0..0xFF is written as its low
  byte only, so those cases are excluded.
