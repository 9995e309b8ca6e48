# SLDC decoder model

A Dafny model of `SLDC::Extract`, `SLDC::AddByte` and `SLDC::SetControl` in
`SLDC.cpp`. Together they form the decompressor for Streaming Lossless Data
Compression (SLDC, standardised as ECMA-321), the format LTO tape drives use.
The decoder walks a most-significant-bit-first view of the compressed
record. Before each unit it looks for an escape: a `0xFF` byte followed by a
set bit, which introduces a four-bit control symbol. Any other unit is
decoded by the rules of the current state:

- Scheme 1: a clear flag bit and a literal byte, or a set flag bit and a
  match. A match is a unary size class, a count field, a 10-bit
  displacement, and a byte-by-byte copy from the 1024-byte history.
- Scheme 2: the byte as it stands. A `0xFF` byte carries one more bit.
- Skip: one bit, with no output.
- No state yet: a fatal error.

Output is appended to the caller's vector, which the source never clears.
When the loop ends, the last four bytes of that vector (the trailer) are
dropped.

## Layout

| file | module | contents |
|---|---|---|
| `bits.dfy` | `Bits` | bit view of a byte buffer (`BitsOf`), big-endian fields (`Field`, `ByteAt`, `NibbleAt`), their round trips |
| `history.dfy` | `HistoryBuffer` | the 1024-slot ring with a write cursor; `Get(d)` reads slot `d mod 1024` |
| `matches.dfy` | `Matches` | parsing a Scheme 1 match (`ParseMatch`), the match encoder used as a specification device (`MatchBits`), the copy (`Copy`) and its sliding-window meaning |
| `engine.dfy` | `Sldc` | the engine record, `AddByte`, `SetControl`, one loop iteration (`Step`), the loop (`Run`), `Decode` and `Extract` |
| `streams.dfy` | `Streams` | token streams and Scheme 2 byte streams, and how the loop decodes them |
| `records.dfy` | `Records` | whole records (open a scheme, a stream, end the record) and their round trips through `Decode` and `Extract` |

`Decode` runs on a bit sequence. `Extract` runs on bytes: it is `Decode`
applied to `BitsOf(data)`. Both take `prior`, the bytes the caller's vector
holds on entry. On success the output is `prior` followed by everything
emitted, less its last four bytes. The source reports failure as a `false` return.
Here it is `Failed(why)`, and `why` names the branch that failed:

- `WentTooFar`: the lookahead guard fired outside End/Skip.
- `UnknownState`: a unit was dispatched before any scheme was selected.
- `ReadsPastEnd`: a unit would read past the buffer, or the diagnostic dump
  after an unrecognised control symbol would.
- `TrailerMissing`: the vector held fewer than four bytes in all when the trailer was to be dropped.

The last two cases are undefined behaviour in the source.

The header that defines the control-symbol codes is not part of this model.
The mapping from a four-bit code to a control symbol is therefore a
parameter, `classify: nibble -> Control`. The value `Unrecognised` stands for
every code that the source's `switch` sends to its `default` branch.

The bit reader and the history class are declared in a header that is not
part of this model. They are modelled from their use in `SLDC.cpp`:

- Bits are read most significant first, and a field may start at any bit
  offset.
- The history is a ring of 1024 slots with a write cursor.
- A reset history (`SLDC.cpp:12`) has its cursor at slot 0 and every slot
  set to 0. The zero fill is an assumption about the unseen `Reset`: the
  source shows only the call.
- `Get(d)` reads slot `d mod 1024`, whatever the cursor. This absolute
  addressing is the only reading under which the copy loop at
  `SLDC.cpp:78-81` makes sense. It reads `Get(displacement + j)` after `j`
  writes of its own.

How the loop ends:

- The loop ends normally when the cursor reaches the end of the buffer
  exactly, in any state (`for (i = 0; i < size;)`).
- Only when fewer than nine bits remain does the guard at `SLDC.cpp:16-24`
  demand the End or Skip state.

## Model

| member | source | states |
|---|---|---|
| `Bits.FieldIsUIntOf` | SLDC.cpp:58-63 | a count field accumulated one bit at a time, most significant bit first, is the big-endian value of the bits it covers |
| `Bits.UIntBitsRoundTrip` | SLDC.cpp:58-63 | writing a value that fits in `w` bits and reading it back gives the value |
| `Bits.UIntOfRoundTrip` | SLDC.cpp:58-63 | reading `w` bits and writing the value back at width `w` gives the bits |
| `Bits.ByteAtAllOnes` | SLDC.cpp:26-27 | the byte at any bit offset reads `0xFF` exactly when its eight bits are all set |
| `Bits.BitsOfAligned` | SLDC.cpp:10 | the aligned bytes of the bit view of a buffer read back the buffer's bytes |
| `HistoryBuffer.Empty` | SLDC.cpp:12 | after a reset the write cursor is at slot 0; every position reads 0, the assumed zero fill of `Reset` |
| `HistoryBuffer.Add` | SLDC.cpp:117 | adding a byte writes it at the cursor, moves the cursor on one slot (wrapping after 1024), and leaves every other slot unchanged |
| `HistoryBuffer.AddAllWindow` | SLDC.cpp:78-81 | after a run of bytes is added, each of the last 1024 of them sits in the slot it was written to |
| `HistoryBuffer.AddAllBeyond` | SLDC.cpp:78-81 | after a run of bytes is added, a slot no byte of the run reached keeps its byte |
| `HistoryBuffer.HistoryOfRecent` | SLDC.cpp:78-81 | a ring filled from empty holds each of its last 1024 bytes at its absolute position mod 1024 |
| `Matches.LeadingOnes` | SLDC.cpp:47-55 | the size class is the number of ones after the flag bit, at most four; fewer than four means a clear bit ends the run |
| `Matches.ClassWidthValue` | SLDC.cpp:7-8 | a match of size class `p` occupies `2p + 13` bits for `p < 4` and 23 bits for `p = 4`, where no terminating zero is read |
| `Matches.ParseMatchLayout` | SLDC.cpp:46-57 | a match overruns exactly when the unit of its size class does not fit; the ones of the class, and the terminating zero below class 4, are where the parse found them |
| `Matches.ParseMatchFields` | SLDC.cpp:58-76 | the count is `2^(p+1)` plus the count field of `matchDigits[p]` bits, so `2 <= count <= 287`; the displacement is the 10-bit field that follows and is below 1024; the out-of-range report fires exactly when `p = 4` and the count field is at least 240 |
| `Matches.Displacement` | SLDC.cpp:72-76 | the byte shifted left by two plus the next two bits is the 10-bit displacement field, below 1024 |
| `Matches.CountAboveMaxIsEscape` | SLDC.cpp:64-70 | a parsed match has a count above 271 exactly when its first nine bits are all set, which is an escape; so the out-of-range report can never fire on a unit the loop dispatches |
| `Matches.ParseMatchBits` | SLDC.cpp:44-76 | parsing the bits of a match unit gives back its count and displacement, and consumes exactly the unit's width |
| `Matches.MatchBitsOfParse` | SLDC.cpp:44-76 | the bits a parsed match consumed are exactly the bits of the match unit with the parsed count and displacement |
| `Matches.ParseMatch` | SLDC.cpp:44-76 | a match that fits has a size class of at most 4, lies within the buffer, and is `2p + 13` bits long for size class `p < 4` and 23 bits for `p = 4` |
| `Matches.Copy` | SLDC.cpp:78-81 | a match copy emits exactly `count` bytes |
| `Matches.CopyReads` | SLDC.cpp:78-81 | byte `j` of a copy is read at absolute position `displacement + j` from the history as it stands after the copy's own first `j` bytes were added |
| `Matches.CopyRepeats` | SLDC.cpp:78-81 | a copy reads the history up to where it catches up with the write cursor, then repeats its own bytes with the period of that distance |
| `Matches.CopyFollowsOutput` | SLDC.cpp:78-81 | when the history holds the output since the last reset and the displacement names the byte `k` back, every copied byte equals the output byte `k` places before it, so self-overlapping copies run |
| `Sldc.Start` | SLDC.cpp:10-12 | every decode starts at bit 0 in the unknown state, with nothing emitted yet and a reset history, which reads 0 everywhere under the assumed zero fill |
| `Sldc.EscapeIsNineOnes` | SLDC.cpp:26-27 | an escape is exactly nine set bits |
| `Sldc.AddByte` | SLDC.cpp:115-119 | a byte is appended to the output and added to the history; cursor and states are unchanged |
| `Sldc.EmitOneAtATime` | SLDC.cpp:78-81 | emitting a run is `AddByte` on its bytes in order |
| `Sldc.ApplyControl` | SLDC.cpp:127-176 | SCHEME1 and RESET1 select Scheme 1, SCHEME2 and RESET2 select Scheme 2, FILEMARK, FLUSH and any other code select Skip, EOR and END select End; only the four scheme symbols update the last valid state; only RESET1 and RESET2 clear the history; the output is untouched |
| `Sldc.SetControl` | SLDC.cpp:121-179 | a control unit moves the cursor by exactly 13 bits, leaves the output alone and never leaves the state unknown; it fails exactly when it is cut short by the buffer end, or when its symbol is unrecognised and the dump at `SLDC.cpp:173` reads past the end |
| `Sldc.DumpOverruns` | SLDC.cpp:181-191 | the dump's 96-bit window, centred on the position raised to at least 48, reaches past the end exactly when the buffer is shorter than 96 bits or fewer than 48 bits follow the position |
| `Sldc.Scheme1Unit` | SLDC.cpp:35-83 | a Scheme 1 unit keeps the state, extends the output, and consumes 9 bits for a literal or 13, 15, 17, 19 or 23 for a match; it fails only when a match runs past the buffer |
| `Sldc.Scheme2Unit` | SLDC.cpp:85-89 | a Scheme 2 unit emits the byte at the cursor unchanged and consumes 9 bits for `0xFF` and 8 otherwise |
| `Sldc.Step` | SLDC.cpp:14-103 | one iteration: it finishes exactly at the buffer end, in End, or in Skip within the last eight bits; it fails with "went too far" exactly within the last eight bits in another state; it fails with "unknown state" exactly on a non-escape unit before any scheme; otherwise the cursor moves forward by a unit width and stays within the buffer |
| `Sldc.Run` | SLDC.cpp:14-104 | the loop terminates because every continuing step moves the cursor forward (measure `|bits| - cursor`); when it stops, the stop condition holds and the output only grew |
| `Sldc.Decode` | SLDC.cpp:5-112 | an empty input only drops the trailer from the caller's bytes; one of at most eight bits goes too far; a longer one fails in the unknown state exactly when it does not open with an escape; it succeeds exactly when the loop stops with at least four bytes in the caller's bytes and the emitted ones together, and the output is then those bytes less the last four |
| `Sldc.Extract` | SLDC.cpp:5-113 | the byte-level entry point: an empty buffer drops four of the caller's bytes, or fails when it holds fewer; a single byte goes too far; a longer buffer fails in the unknown state exactly when it does not start with `0xFF` followed by a byte of at least `0x80` |
| `Sldc.DropTrailer` | SLDC.cpp:106-110 | with at least four bytes in the caller's vector the last four are dropped and the rest kept in order; with fewer it fails as `TrailerMissing` with the number of bytes held |
| `Sldc.ControlUnit` | SLDC.cpp:26-30 | escape priority: an escape is handled as a control symbol in every state short of End, moving the cursor by 13, or failing when its symbol is unrecognised and the dump reads past the end |
| `Sldc.UnrecognisedInShortBuffer` | SLDC.cpp:170-174 | a buffer of 2 to 11 bytes opening with an escape to an unrecognised symbol fails as `ReadsPastEnd`, because the dump reads 96 bits |
| `Sldc.LiteralUnit` | SLDC.cpp:37-43 | a clear flag bit in Scheme 1 emits the byte in the next eight bits to the output and history and moves the cursor by 9 |
| `Sldc.MatchUnit` | SLDC.cpp:44-82 | a set flag bit in Scheme 1 that is not an escape is a match whose count lies in 2..271 and which emits the copy of `count` bytes from its displacement |
| `Sldc.Scheme2ByteUnit` | SLDC.cpp:85-89 | in Scheme 2 a non-escape unit emits its byte unchanged, moving 9 bits for `0xFF` and 8 otherwise |
| `Sldc.SkipUnit` | SLDC.cpp:91-94 | in Skip a non-escape unit moves the cursor by one bit and changes neither output nor history |
| `Streams.ReadControlUnit` | SLDC.cpp:123 | the bits of a control unit are an escape, and the nibble after it reads back the unit's symbol code |
| `Streams.LiteralStep` | SLDC.cpp:37-43 | the bits of a literal token are decoded as its byte |
| `Streams.ReferenceParses` | SLDC.cpp:44-76 | the bits of a match token are never taken for an escape and parse back to the token's count and displacement |
| `Streams.TokenStep` | SLDC.cpp:35-83 | one Scheme 1 token is decoded as the bytes it stands for, which are appended to output and history, and the cursor moves past exactly its bits |
| `Streams.RunTokens` | SLDC.cpp:14-104 | a Scheme 1 token stream followed by more bits is decoded as its reference meaning: each literal adds its byte, each match adds its copy from the history of what came before |
| `Streams.Scheme2Step` | SLDC.cpp:85-89 | the bits of one Scheme 2 byte are decoded as that byte |
| `Streams.RunScheme2` | SLDC.cpp:14-104 | a Scheme 2 byte stream followed by more bits is decoded as those same bytes, each added to the history in order |
| `Records.OpenRecord` | SLDC.cpp:129-153 | a record opening with SCHEME1/RESET1 or SCHEME2/RESET2 continues 13 bits in, in that scheme, with an empty history |
| `Records.CloseRecord` | SLDC.cpp:161-168 | an EOR or END control unit stops the loop right after it with the output as it was |
| `Records.DecodeKeepsPrior` | SLDC.cpp:104-112 | when the loop emits at least four bytes, the caller's bytes come through unchanged, followed by the emitted bytes less the trailer |
| `Records.Scheme1RoundTrip` | SLDC.cpp:5-113 | decoding a Scheme 1 record appends the reference meaning of its tokens to the caller's bytes and drops the last four bytes, whatever follows the closing control unit; with fewer than four bytes in all it fails for want of a trailer |
| `Records.Scheme2RoundTrip` | SLDC.cpp:5-113 | decoding a Scheme 2 record appends its bytes to the caller's bytes and drops the last four, whatever follows the closing control unit; with fewer than four bytes in all it fails for want of a trailer |
| `Records.ExtractScheme1` | SLDC.cpp:5-113 | when the tokens' reference meaning is at least four bytes long, a byte buffer whose bits are a Scheme 1 record is decompressed into the caller's vector as its bytes followed by that meaning less the trailer |
| `Records.ExtractScheme2` | SLDC.cpp:5-113 | when the record carries at least four bytes, a byte buffer whose bits are a Scheme 2 record is decompressed into the caller's vector as its bytes followed by the record's bytes less the trailer |

## Left out

- The text `SLDC::Dump` and the `fprintf` diagnostics print (`SLDC.cpp:20`, `68-69`, `98-99`, `172-173`, `181-191`). The bits `Dump` reads are modelled only where they decide the outcome. After an unrecognised control symbol (`SLDC.cpp:170-174`), `Dump` reads the 96 bits around the position. These can lie past the buffer, which is undefined behaviour, and the model fails with `ReadsPastEnd` there (`DumpOverruns`). The dump before the unknown-state failure (`SLDC.cpp:98-99`) is not modelled: that branch fails with `UnknownState` anyway, even when the dump reads past the end. The out-of-range report at `SLDC.cpp:66-70` is modelled only as the predicate `CountOutOfRange`, whose firing condition is proved unreachable after the escape check.
- The numeric values of the control-symbol codes. They live in a header that is not part of this model, so they are the parameter `classify`.
- The internals of the bit-set and history classes. They live in a header that is not part of this model and are modelled from their use in `SLDC.cpp`, as described above.
- Reads past the end of the buffer. The source reads them without a check, which is undefined behaviour: a match can need up to 23 bits and a control unit 13, but the loop guard leaves only 9. The model fails with `ReadsPastEnd` instead.
- `pop_back` on a vector holding fewer than four bytes in all, counting those it held on entry (`SLDC.cpp:107-110`). This is undefined behaviour; the model fails with `TrailerMissing`.
- Sldc.Extract: a failed call returns only the reason. The source returns `false` and leaves in the caller's vector its earlier bytes plus whatever was emitted before the failure; the model does not return those partial bytes, because the loop's failure outcome carries no engine.
- The wrap-around of the unsigned guard `i >= size - 8` when `size` is between 1 and 7. `Extract` can never produce such a size, since its bit count is a multiple of 8. `Decode` on raw bits of that length fails with `WentTooFar` instead of reading past the end.
- The initial value of the last valid state. The source never sets it in `Extract`; it only feeds a diagnostic. The model starts it at `Unknown`.
- The compression direction. No encoder exists in the source. `MatchBits`, `TokensBits`, `Scheme2Bits` and the record builders exist only to state round trips.
- A record with no closing control unit that ends exactly at the buffer end. The source accepts it (see above), but no round-trip lemma covers it: the stream lemmas require at least one bit after the stream.
