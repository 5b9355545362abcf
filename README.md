# QFS3 decompression, modelled in Dafny

This project models the QFS3 decompressor of the EA resource editor, together with the
little helpers around it. QFS3 is the Huffman-coded format some Need for Speed files are
packed in. A QFS3 stream holds:

- a 2-byte magic;
- the 3-byte big-endian size of the output;
- the escape byte;
- a bit stream, read most significant bit first. It starts with one "two-mode integer"
  per tree level (that level's code count plus 4), then one per alphabet entry (how many
  unused byte values to skip, plus 3), then the coded body.

In the body each canonical code selects an alphabet entry. The escape byte introduces
one of three things:

- a repeat of the last output byte;
- a raw 8-bit byte;
- an end marker.

The modules follow the files of the program:

| module | file | what it holds |
|---|---|---|
| `Bits` | (shared) | Shifts, masks and bit reading over a byte sequence. |
| `BufferUtils` | `buffer_utils.py` | The fixed-width integer readers, as functions over the stream and a cursor. |
| `OutputBuffer` | `qfs3pbsjt.py` | The growable output (`bytearray`) as a class, with `append_to_output` and `reuse_output_byte` as methods on it. `qfs3.py` and `qfs3pbs.py` define the same two helpers line for line (lines 20-26 of each), so these members model theirs as well. |
| `Qfs3Window` | `qfs3pbsjt.py` | The 32-bit bit window: `refill_buf`, and `count_bits` with its zero-counting loop, as methods proved against the window invariant and against `VarintRead`, the value the reader yields at a bit position. |
| `Qfs3Tree` | `qfs3pbsjt.py` | The canonical-Huffman level tables, the length search and the symbol lookup, with the canonical decoding property proved. |
| `Qfs3Alphabet` | `qfs3pbsjt.py` | The alphabet's skip loop (`(char_value + 1) & 0xFF` until `val` unused values have passed). |
| `Qfs3Format` | `qfs3pbsjt.py` | What `uncompress` computes, stated over the whole input: `TreeFrom`, `AlphabetFrom`, `Step`, `Run` and `Decoded`, each for either lookup. There are step lemmas for literals, repeats, raw bytes and the end marker, stated for the corrected lookup, and `GuardsAgree` says where the two lookups make the same round. |
| `Qfs3Decoder` | `qfs3pbsjt.py` | The decoder object: its fields (`sub_ptr`, `huff_table_codes`, `huff_chars_per_level`, `depth_table`) and the loops of `uncompress`, as methods proved to compute `Qfs3Format.Decoded`. `Uncompress` takes a `Guard`: with `AsWritten` it makes the symbol lookup exactly as the source writes it (lines 140 and 144-148), with `Corrected` the lookup with the two fixes under "Findings". |
| `RunningSum` | `qfs3.py`, `qfs3pbs.py` | The 0x32FB and 0x34FB running-sum passes over the output, proved to be undone by differencing. |
| `Qfs3Drafts` | `qfs3.py`, `qfs3pbs.py` | The earlier register-level decoders' accumulator (`read_next`, `accumulate_if_needed`), the header's 0x100 size flag, the overrun check, and Loop 3 of `qfs3pbs.py`, which fills the 256-entry value and length tables. |
| `Palette` | `palette.block-ui.component.ts` | `lpad`. |

Integer widths are written out where the source masks:
- `& 0xFFFFFFFF` is `% 2^32`.
- `& 0xFFFF` is `% 2^16`.
- `& 0xFF` is `% 256`.

One shift of the source is left unmasked on purpose: `buf << 1` after an end marker
(`qfs3pbsjt.py:164`). The stray bit it leaves above the window is modelled, and so is
its effect on the next lookup.

Where Python's `buffer.read(1)` returns nothing at the end of the stream, the model
reads a 0 byte and does not move, as `int.from_bytes(b"")` gives 0.

## Model

| member | source | states |
|---|---|---|
| `BufferUtils.Take` | buffer_utils.py:9 | `buffer.read(n)` yields the next n bytes, the rest of the stream when fewer are left, or nothing past its end. |
| `BufferUtils.ReadInt` | buffer_utils.py:8-9 | The value is below 2^32, the cursor moves past the bytes read, and with four bytes available their encoding in the given byte order is exactly those bytes. |
| `BufferUtils.Read3Int` | buffer_utils.py:12-13 | The same for three bytes: the value is below 2^24 and encodes the three bytes. |
| `BufferUtils.ReadSignedInt` | buffer_utils.py:16-17 | The value lies in [-2^31, 2^31). With four bytes it is the unsigned little-endian int, less 2^32 when it reaches 2^31. |
| `BufferUtils.ReadShort` | buffer_utils.py:20-23 | The value is below 2^16. Two bytes encode it. A lone last byte is zero-padded, reading as b little-endian and 256·b big-endian. An exhausted stream reads 0. |
| `BufferUtils.ReadSignedShort` | buffer_utils.py:25-26 | The value lies in [-2^15, 2^15). With two bytes it is the unsigned little-endian short, less 2^16 when it reaches 2^15. |
| `BufferUtils.ReadByte` | buffer_utils.py:29-30 | The value is the byte at the cursor and the cursor advances by one. At the end the value is 0 and the cursor stays. |
| `BufferUtils.ReadSignedByte` | buffer_utils.py:33-34 | The value lies in [-128, 128): `read_byte`, less 256 from 128 on, with the same cursor. |
| `BufferUtils.ReadVector3` | buffer_utils.py:37-39 | Three coordinates. With six bytes available the cursor moves six bytes. |
| `BufferUtils.Vector3Layout` | buffer_utils.py:37-39 | The list holds the signed shorts at offsets 0, 4 and 2, in that order (x, z, y), each times the factor. With factor 1 each lies in the short range. |
| `BufferUtils.SignedBound` | buffer_utils.py:25-26 | Two's complement on at most two bytes lies in the short range. On two bytes it is the unsigned value, shifted down by 2^16 from 2^15 on. |
| `BufferUtils.SignedIntBound` | buffer_utils.py:16-17 | The same on at most four bytes, with bound 2^31 and shift 2^32. |
| `BufferUtils.ToFromBytes` | buffer_utils.py:8-9 | Encoding a decoded n-byte sequence in the same byte order gives the bytes back. |
| `BufferUtils.FromToBytes` | buffer_utils.py:8-9 | Decoding the n-byte encoding of a value below 256^n gives the value back. |
| `BufferUtils.FromBigReversed` | buffer_utils.py:9 | Big-endian decoding is little-endian decoding of the reversed bytes. |
| `OutputBuffer.ByteArray.constructor` | resources/eac/compressions/qfs3pbsjt.py:59 | A new output buffer is empty. |
| `OutputBuffer.AppendToOutput` | resources/eac/compressions/qfs3pbsjt.py:17-18 | `value.to_bytes(1)` succeeds exactly for 0..255 and appends that one byte. Otherwise the buffer is unchanged (OverflowError). |
| `OutputBuffer.ReuseOutputByte` | resources/eac/compressions/qfs3pbsjt.py:20-23 | It fails exactly on an empty buffer (`buffer[-1]`). Otherwise it appends `length` copies of the last byte, none for a length below 1. |
| `OutputBuffer.Repeat` | resources/eac/compressions/qfs3pbsjt.py:22-23 | n copies: the length is n and every entry is the value. |
| `OutputBuffer.RepeatAdd` | resources/eac/compressions/qfs3pbsjt.py:22-23 | A run of a + b copies is a run of a copies followed by one of b. |
| `OutputBuffer.RepeatDrop` | resources/eac/compressions/qfs3pbs.py:274-278 | Dropping k of n copies leaves n - k copies. Loop 3 fills its runs with this. |
| `OutputBuffer.Written` | resources/eac/compressions/qfs3pbsjt.py:17-23 | One helper call keeps the buffer before it as a prefix, and a call the helper refuses (OverflowError, or IndexError on an empty buffer) leaves it as it was. `RoundWrites` proves that `AppendToOutput` and `ReuseOutputByte` leave exactly this buffer. |
| `OutputBuffer.Applied` | resources/eac/compressions/qfs3pbsjt.py:17-23 | A series of helper calls up to the first one refused keeps the buffer before it as a prefix, and is the whole series' output when every call is accepted. |
| `OutputBuffer.ReplayGrows` | resources/eac/compressions/qfs3pbsjt.py:17-23 | Output is never taken back: the buffer before a series of helper calls is a prefix of the buffer after it. |
| `OutputBuffer.ReplayAppend` | resources/eac/compressions/qfs3pbsjt.py:17-23 | Two series of calls one after the other: the second starts from the buffer the first leaves, and both are accepted exactly when their concatenation is. |
| `Qfs3Window.WindowBound` | resources/eac/compressions/qfs3pbsjt.py:29 | A window that satisfies the invariant fits in 32 bits. |
| `Qfs3Window.RefillStep` | resources/eac/compressions/qfs3pbsjt.py:26-29 | One refill round takes the next stream byte in right below the bits the window holds. The window invariant holds at one byte further with 8 fewer bits missing. |
| `Qfs3Window.RefillBuf` | resources/eac/compressions/qfs3pbsjt.py:25-30 | `refill_buf` keeps the window invariant. It leaves fewer than 8 bits missing and does not move the bit position. It changes nothing when fewer than 8 bits are missing. |
| `Qfs3Window.ShiftStep` | resources/eac/compressions/qfs3pbsjt.py:38 | `(buf << k) & 0xFFFFFFFF` consumes k bits: the invariant holds with k more bits missing. |
| `Qfs3Window.TopBit` | resources/eac/compressions/qfs3pbsjt.py:33 | `buf >> 31` is the stream bit at the current position. |
| `Qfs3Window.PeekBits` | resources/eac/compressions/qfs3pbsjt.py:46 | `buf >> (32 - n)` is the next n stream bits the window holds, followed by zeros where it runs short. |
| `Qfs3Window.ZeroRun` | resources/eac/compressions/qfs3pbsjt.py:35-43 | When a 1 bit lies ahead, the zero-counting loop stops at it. |
| `Qfs3Window.ZeroRunZeros` | resources/eac/compressions/qfs3pbsjt.py:35-43 | Every bit the zero run passes over is 0. |
| `Qfs3Window.CountBits` | resources/eac/compressions/qfs3pbsjt.py:32-56 | `count_bits` yields `VarintRead` at the current position and consumes exactly its width, leaving a refilled window. It fails exactly when the code is wider than 32 bits, where the source's negative shift raises. |
| `Qfs3Window.CountLong` | resources/eac/compressions/qfs3pbsjt.py:33-50 | The long mode, entered on a 0 bit, yields the same value and width as `VarintRead`. |
| `Qfs3Window.LongTail` | resources/eac/compressions/qfs3pbsjt.py:44-50 | After z zeros: the 1 and the z + 2 payload bits are consumed, and the value is 2^(z+2) plus the payload. |
| `Qfs3Window.LongValue` | resources/eac/compressions/qfs3pbsjt.py:46-47 | Once the 1 is consumed, `buf >> (32 - len_val)` plus `1 << len_val` is the long-mode value. |
| `Qfs3Window.VarintShort` | resources/eac/compressions/qfs3pbsjt.py:51-55 | Short mode: a leading 1 yields 4 plus the next two bits, in 4..7, and takes three bits. |
| `Qfs3Window.VarintRange` | resources/eac/compressions/qfs3pbsjt.py:32-56 | Every value is at least 4. Short values lie in 4..7 and take 3 bits. After z zeros a value lies in [2^(z+2), 2^(z+3)) and takes 2z + 3 bits. |
| `Qfs3Window.VarintMatchesGamma` | resources/eac/compressions/qfs3pbsjt.py:44-50 | With at most 22 leading zeros, the window holds the whole payload and `count_bits` agrees with an unlimited bit reader. |
| `Qfs3Window.TopSetDoubled` | resources/eac/compressions/qfs3pbsjt.py:163-164 | The unmasked `buf << 1` on a window whose top bit is 1 puts a bit at 2^32 above the shifted window. |
| `Qfs3Window.StrayBitShifted` | resources/eac/compressions/qfs3pbsjt.py:150 | That stray bit is gone after the next masked shift. |
| `Qfs3Tree.DepthTable` | resources/eac/compressions/qfs3pbsjt.py:84-98 | The depth table starts with 0. Each level holds the end of its codes, left-aligned to 16 bits and masked, or 0 for a level without codes. The last entry is overwritten by the sentinel 0xFFFFFFFF. |
| `Qfs3Tree.CodeTable` | resources/eac/compressions/qfs3pbsjt.py:76-77 | Each level read holds its first canonical code less the number of shorter codes. Every other entry keeps its initial 0. |
| `Qfs3Tree.FirstIsCodeSpace` | resources/eac/compressions/qfs3pbsjt.py:76-82 | The first code of length L, built by `huff_key = (huff_key << 1) + val`, is the code space all shorter codes fill at length L. |
| `Qfs3Tree.FirstAtLeastBelow` | resources/eac/compressions/qfs3pbsjt.py:77 | `huff_key - value_count` is never negative. |
| `Qfs3Tree.BelowMonotone` | resources/eac/compressions/qfs3pbsjt.py:83 | The running `value_count` only grows. |
| `Qfs3Tree.PrefixLevels` | resources/eac/compressions/qfs3pbsjt.py:75-91 | Reading a further level leaves the earlier levels' first codes, counts and depth entries as they were. |
| `Qfs3Tree.LevelsInOrder` | resources/eac/compressions/qfs3pbsjt.py:87 | Left-aligned to 16 bits, every level ends at or before any later level starts. |
| `Qfs3Tree.DepthEntryUnmasked` | resources/eac/compressions/qfs3pbsjt.py:85-88 | Within the code space, a level that does not stop the loop has a depth entry equal to its unmasked end. |
| `Qfs3Tree.StopMeansComplete` | resources/eac/compressions/qfs3pbsjt.py:95-96 | When `val_check` masks to 0 the codes fill the code space exactly: Kraft's equality. |
| `Qfs3Tree.Search` | resources/eac/compressions/qfs3pbsjt.py:139-141 | The corrected length search: the first level whose depth entry lies strictly above the top 16 window bits, with every level before it at or below them. |
| `Qfs3Tree.SearchAsWritten` | resources/eac/compressions/qfs3pbsjt.py:139-141 | The search as written: the first level whose entry is not below the top 16 bits, with every level before it strictly below them. |
| `Qfs3Tree.LookupSymbol` | resources/eac/compressions/qfs3pbsjt.py:138-148 | The corrected lookup. It yields a level and a rank that indexes the alphabet, or aborts. It never indexes past the alphabet. |
| `Qfs3Tree.SearchPassesLevel` | resources/eac/compressions/qfs3pbsjt.py:140-141 | In a tree within the code space, a window at or above the first code of length L is at or above the depth entry of every shorter level, so the search passes them. |
| `Qfs3Tree.DecodeCanonical` | resources/eac/compressions/qfs3pbsjt.py:138-143 | Canonical decoding. For a tree the loop reads that stays within the code space, a window whose top L bits are the code of rank r is searched to level L, and the code minus the code-table entry is r. |
| `Qfs3Tree.LookupCanonical` | resources/eac/compressions/qfs3pbsjt.py:138-148 | The same through the whole lookup: the 32-bit window starting with code r yields symbol r with its length. |
| `Qfs3Tree.LookupOutcome` | resources/eac/compressions/qfs3pbsjt.py:142-148 | The lookup yields the level the search finds and the rank `(val - codes[L]) & 0xFF`, or aborts when that rank is outside the alphabet. |
| `Qfs3Tree.LookupAsWritten` | resources/eac/compressions/qfs3pbsjt.py:138-148 | The lookup as written. A symbol it yields is a level of the tree and an entry of the alphabet. It may also raise IndexError. |
| `Qfs3Tree.SearchesAgree` | resources/eac/compressions/qfs3pbsjt.py:139-141 | Where the top 16 window bits equal no depth entry, the search as written and the corrected search find the same level. |
| `Qfs3Tree.LookupsAgree` | resources/eac/compressions/qfs3pbsjt.py:138-148 | Under the same condition, the lookup as written equals the corrected one, except that it raises IndexError where the corrected one aborts. |
| `Qfs3Tree.LookupAsWrittenOutcome` | resources/eac/compressions/qfs3pbsjt.py:142-148 | As written, a rank equal to the alphabet size passes the guard and raises IndexError. |
| `Qfs3Tree.StrayWindowSearch` | resources/eac/compressions/qfs3pbsjt.py:98 | A window at or above 2^16 passes every level but the last, whose entry is the sentinel. |
| `Qfs3Tree.SearchAsWrittenStopsEarly` | resources/eac/compressions/qfs3pbsjt.py:140 | The counts [0, 1, 2] with window 0x8000: the search as written stops at level 1, while the code there has length 2. |
| `Qfs3Tree.RankGuardAsWrittenMisses` | resources/eac/compressions/qfs3pbsjt.py:144-148 | One code of length 1 over 15 levels, window 0xC0000000: the guard as written lets rank 1 = `len(char_table)` through (IndexError), and the corrected lookup aborts. |
| `Qfs3Alphabet.Succ` | resources/eac/compressions/qfs3pbsjt.py:111 | `(char_value + 1) & 0xFF` stays a byte value. |
| `Qfs3Alphabet.CycAdd` | resources/eac/compressions/qfs3pbsjt.py:111 | Stepping i times from v is v + i modulo 256. |
| `Qfs3Alphabet.CycCovers` | resources/eac/compressions/qfs3pbsjt.py:110-113 | Within 256 steps from any value, every byte value comes round. |
| `Qfs3Alphabet.RoomWhenShort` | resources/eac/compressions/qfs3pbsjt.py:110-113 | A table of fewer than 256 entries misses some byte value (pigeonhole), so the skip loop can end. |
| `Qfs3Alphabet.DistinctBound` | resources/eac/compressions/qfs3pbsjt.py:103-117 | A table of distinct byte values has at most 256 entries. |
| `Qfs3Alphabet.GapFrom` | resources/eac/compressions/qfs3pbsjt.py:110-113 | It counts the steps from v to the first value not in the table: every value passed is in the table and the one reached is not. |
| `Qfs3Alphabet.NextFree` | resources/eac/compressions/qfs3pbsjt.py:110-113 | The first unused value after v is a byte value not in the table. |
| `Qfs3Alphabet.Skip` | resources/eac/compressions/qfs3pbsjt.py:110-113 | k unused values after v is a byte value, and for k >= 1 it is not in the table. |
| `Qfs3Alphabet.SkipStep` | resources/eac/compressions/qfs3pbsjt.py:110-113 | One step of the skip loop uses up one of the count exactly when it lands on an unused value, and otherwise shortens the distance to the next unused value. |
| `Qfs3Alphabet.SkipUnused` | resources/eac/compressions/qfs3pbsjt.py:110-113 | The skip loop ends at `Skip(table, char_value, val)`. For val >= 1 that is a byte value not yet in the table. |
| `Qfs3Format.OutSize` | resources/eac/compressions/qfs3pbsjt.py:63 | The output size, header bytes 2-4 big-endian, is below 2^24. |
| `Qfs3Format.HeaderWindow` | resources/eac/compressions/qfs3pbsjt.py:73 | After the header the window holds the 32 stream bits from bit 48 (bytes 6-9, big-endian), with nothing missing. |
| `Qfs3Format.ExtendLevels` | resources/eac/compressions/qfs3pbsjt.py:93-96 | Appending a level to levels none of which stops the tree loop leaves none of them stopping it. |
| `Qfs3Format.TreeFrom` | resources/eac/compressions/qfs3pbsjt.py:75-97 | The tree levels read are a tree the loop can read: 15 levels, or up to the first level whose `val_check` masks to 0. They extend the levels given and end further on in the stream. |
| `Qfs3Format.AlphabetFrom` | resources/eac/compressions/qfs3pbsjt.py:103-117 | A parsed alphabet has exactly `value_count` entries, between 1 and 256, all distinct byte values, extending the entries given. So an empty alphabet never parses, and parsing always moves the cursor on. |
| `Qfs3Format.Escape` | resources/eac/compressions/qfs3pbsjt.py:160-176 | Every continuing escape strictly extends the output and leaves a clean, refilled window. The end marker leaves its flag bit as a stray bit above the window. `RepeatStep`, `RawEscape` and `EndMarkerStep` state each case exactly. |
| `Qfs3Format.AfterEscape` | resources/eac/compressions/qfs3pbsjt.py:155-160 | What follows the escape symbol either strictly extends the output with a clean window, or is the end marker with a stray bit. |
| `Qfs3Format.Find` | resources/eac/compressions/qfs3pbsjt.py:138-148 | The lookup the tables call for, as written or corrected. A symbol found is a level of the tree and an entry of the alphabet. |
| `Qfs3Format.Step` | resources/eac/compressions/qfs3pbsjt.py:137-176 | One inner round with either lookup. A round that continues strictly extends the output and leaves a clean window. One that reaches the end marker leaves a stray bit. A rank equal to the alphabet size raises `RankPastAlphabet` (the IndexError at line 148); only the lookup as written lets one through. The lemmas below pin down each kind of round. |
| `Qfs3Format.GuardsAgree` | resources/eac/compressions/qfs3pbsjt.py:138-148 | Where the top 16 window bits equal no depth entry, a round with the lookup as written is the round with the corrected lookup. The one exception is a rank equal to the alphabet size: as written it raises `RankPastAlphabet`, corrected it abandons the loop. |
| `Qfs3Format.Run` | resources/eac/compressions/qfs3pbsjt.py:128-177 | The body loop returns an extension of the output it started from. |
| `Qfs3Format.Advance` | resources/eac/compressions/qfs3pbsjt.py:128-136 | One round of the outer loop, with the loop after it, returns an extension of the output it started from. |
| `Qfs3Format.RunContinue` | resources/eac/compressions/qfs3pbsjt.py:148-153 | A round that continues hands over to the loop at the new output and cursor. |
| `Qfs3Format.RunEndMarker` | resources/eac/compressions/qfs3pbsjt.py:129-134 | After an end marker the loop returns once the output has reached `out_size` (both the `>` and the `==` branch return it). Otherwise it goes on. |
| `Qfs3Format.RunStops` | resources/eac/compressions/qfs3pbsjt.py:144-147 | An abandoned lookup returns the output so far, and a fault is raised. |
| `Qfs3Format.CodeFound` | resources/eac/compressions/qfs3pbsjt.py:138-148 | At a refilled window holding the canonical code of entry r, the lookup finds entry r with its length. |
| `Qfs3Format.LiteralStep` | resources/eac/compressions/qfs3pbsjt.py:148-153 | The code of a non-escape entry appends that entry and consumes exactly the code. |
| `Qfs3Format.EscapeRound` | resources/eac/compressions/qfs3pbsjt.py:154-160 | With either lookup, the escape symbol followed by the integer k hands over to Escape after the code and the integer. |
| `Qfs3Format.RepeatStep` | resources/eac/compressions/qfs3pbsjt.py:175-176 | The escape, then an integer k > 4, appends k - 4 copies of the last byte. |
| `Qfs3Format.RawByteStep` | resources/eac/compressions/qfs3pbsjt.py:170-174 | The escape, the integer 4 and a 0 bit append the next 8 stream bits as one byte. |
| `Qfs3Format.RawEscape` | resources/eac/compressions/qfs3pbsjt.py:161-174 | Escape with 4 and a 0 flag bit appends the byte after the flag and moves 9 bits on. |
| `Qfs3Format.EndMarkerStep` | resources/eac/compressions/qfs3pbsjt.py:161-169 | The escape, the integer 4 and a 1 bit are the end marker: nothing is appended and the flag bit stays above the window. |
| `Qfs3Format.StrayLookup` | resources/eac/compressions/qfs3pbsjt.py:164 | With the stray bit above the window, a lookup that finds a symbol finds it at the last level. |
| `Qfs3Format.StrayTop` | resources/eac/compressions/qfs3pbsjt.py:138 | With the stray bit, `buf >> 16` lies in [2^16, 2^17). |
| `Qfs3Decoder.Consume` | resources/eac/compressions/qfs3pbsjt.py:150-152 | Shifting out n bits and refilling leaves a window refilled at the position n bits on. A stray bit is dropped on the way. |
| `Qfs3Decoder.TracksRefilled` | resources/eac/compressions/qfs3pbsjt.py:152 | A refilled window stands for the cursor at its bit position. |
| `Qfs3Decoder.FlagBit` | resources/eac/compressions/qfs3pbsjt.py:161-174 | The flag bit after the escape's integer 4 does what `Escape` with k = 4 says: it appends the raw byte, or stops at the end marker. |
| `Qfs3Decoder.RawByte` | resources/eac/compressions/qfs3pbsjt.py:171 | `((buf << 1) >> 24) & 0xFF` is the 8 stream bits after the flag. |
| `Qfs3Decoder.EscapeTail` | resources/eac/compressions/qfs3pbsjt.py:159-176 | The escape's integer and what follows it do what `AfterEscape` says, to both the output and the window. |
| `Qfs3Decoder.RepeatLast` | resources/eac/compressions/qfs3pbsjt.py:175-176 | An escape integer above 4 does what `Escape` says: `fill_length` copies of the last byte, leaving a refilled window, or the fault `NothingToRepeat` on an empty output. |
| `Qfs3Decoder.Qfs3Compression.constructor` | resources/eac/compressions/qfs3pbsjt.py:8-15 | A new instance has `sub_ptr` 0, sixteen 0 codes, and `[0]` for the counts and the depth table. |
| `Qfs3Decoder.Qfs3Compression.ReadTree` | resources/eac/compressions/qfs3pbsjt.py:67-100 | The tree loop reads `TreeFrom` at the window's position. On success its fields hold the counts, `CodeTable` and `DepthTable` of the tree, `value_count` is the number of codes, and the window is refilled past the tree. |
| `Qfs3Decoder.Qfs3Compression.TreeRound` | resources/eac/compressions/qfs3pbsjt.py:75-90 | One round of the tree loop agrees with `TreeFrom`: either the fault it meets, or one more level. After 15 levels, or a level with codes and a zero `val_check`, the levels read are the whole tree; otherwise `TreeFrom` goes on from them. The tables stay in step with the counts. |
| `Qfs3Decoder.Qfs3Compression.AddLevel` | resources/eac/compressions/qfs3pbsjt.py:79-96 | One round of the tree loop keeps the tables in step with the counts read, and the loop stops exactly when the level has codes and `val_check` is 0. |
| `Qfs3Decoder.Qfs3Compression.ReadAlphabet` | resources/eac/compressions/qfs3pbsjt.py:103-117 | The alphabet loop reads `AlphabetFrom` at the window's position and leaves the window refilled past it. |
| `Qfs3Decoder.Qfs3Compression.DecodeBody` | resources/eac/compressions/qfs3pbsjt.py:124-136 | The outer body loop computes `Body`, and what it returns is the output buffer. |
| `Qfs3Decoder.Qfs3Compression.InnerLoop` | resources/eac/compressions/qfs3pbsjt.py:137-176 | The inner loop runs rounds of `Run`, until an end marker (after which `Run` goes on from the marker), an abandoned lookup (where `Run` returns the output) or a fault. |
| `Qfs3Decoder.Qfs3Compression.RunRound` | resources/eac/compressions/qfs3pbsjt.py:138-176 | One inner round, stated as the step it takes in `Run`. |
| `Qfs3Decoder.Qfs3Compression.Uncompress` | resources/eac/compressions/qfs3pbsjt.py:58-177 | `uncompress` on a new instance returns `Decoded(data, fuel, guard)`: header, tree, alphabet and body. With `AsWritten` this is the source's own lookup, including its IndexError. |
| `Qfs3Decoder.ReadLevel` | resources/eac/compressions/qfs3pbsjt.py:78-83 | One tree level read agrees with `TreeFrom`: either the fault it meets, or the count it reads, 4 less than the integer. |
| `Qfs3Decoder.TreeFromStep` | resources/eac/compressions/qfs3pbsjt.py:78-96 | `TreeFrom` after one level: the count read is the integer minus 4, and the levels stop or continue as the loop's tests say. |
| `Qfs3Decoder.ReadEntry` | resources/eac/compressions/qfs3pbsjt.py:108-114 | One alphabet entry agrees with `AlphabetFrom`. The value stored is new and a byte value. Writing into an empty alphabet raises. |
| `Qfs3Decoder.AlphabetFromStep` | resources/eac/compressions/qfs3pbsjt.py:108-114 | `AlphabetFrom` after one entry: the entry is `Skip` of the integer minus 3, and the rest is read on from there. |
| `Qfs3Decoder.FindSymbolAsWritten` | resources/eac/compressions/qfs3pbsjt.py:138-148 | The length search (`huff_key > depth_table[L]`) and the rank guard (`val > len`) as written compute `LookupAsWritten`, including the IndexError. |
| `Qfs3Decoder.FindSymbol` | resources/eac/compressions/qfs3pbsjt.py:138-147 | The corrected length search and rank guard compute `LookupSymbol`. |
| `Qfs3Decoder.DecodeRound` | resources/eac/compressions/qfs3pbsjt.py:138-176 | One inner round does `Step` to the output and the window. An abandoned lookup leaves both as they were. |
| `Qfs3Decoder.LevelTablesInit` | resources/eac/compressions/qfs3pbsjt.py:13-15 | The fields of a new instance are the tables of no level read. |
| `Qfs3Decoder.LevelTablesStep` | resources/eac/compressions/qfs3pbsjt.py:75-96 | One tree-loop round keeps codes, counts and depth entries equal to the tables of the levels read, with `huff_key` the next first code. |
| `Qfs3Decoder.LevelTablesFinal` | resources/eac/compressions/qfs3pbsjt.py:98 | After the loop, with the sentinel written over the last entry, the fields are `CodeTable` and `DepthTable` of the tree, and `value_count` its number of codes. |
| `RunningSum.SumToIs` | resources/eac/compressions/qfs3.py:421 | The 0x32FB accumulator after i bytes is the sum of those bytes. |
| `RunningSum.SumSumToIs` | resources/eac/compressions/qfs3.py:414-418 | The 0x34FB second accumulator is the sum of the running sums. |
| `RunningSum.SingleToIs` | resources/eac/compressions/qfs3.py:419-423 | What the 0x32FB loop writes over i bytes is the running sum of those bytes modulo 256. |
| `RunningSum.DoubleToIs` | resources/eac/compressions/qfs3.py:413-418 | What the 0x34FB loop writes is the running sum of the running sums modulo 256. |
| `RunningSum.SingleRunningSum` | resources/eac/compressions/qfs3.py:419-423 | When the output holds `output_length` bytes, the first `output_length` become their running sums modulo 256 and the rest stay. Otherwise IndexError, after the whole output is rewritten. The same loop is at `qfs3pbs.py:404-408`. |
| `RunningSum.DoubleRunningSum` | resources/eac/compressions/qfs3.py:413-418 | The same for the double running sum. The same loop is at `qfs3pbs.py:398-403`. |
| `RunningSum.PostDecode` | resources/eac/compressions/qfs3.py:413-423 | Magic 0x34FB applies the double sum and 0x32FB the single sum, both failing exactly when the output is short. Any other magic leaves the output as it is. |
| `RunningSum.DeltaPrefix` | resources/eac/compressions/qfs3.py:419-423 | Differencing neighbouring running sums modulo 256 gives back the values modulo 256. |
| `RunningSum.DeltaSingleSum` | resources/eac/compressions/qfs3.py:419-423 | Differencing undoes the 0x32FB transform. |
| `RunningSum.DeltaDoubleSum` | resources/eac/compressions/qfs3.py:413-418 | Differencing the 0x34FB transform gives the 0x32FB transform, so differencing twice undoes it. |
| `Qfs3Drafts.Qfs3Compression.constructor` | resources/eac/compressions/qfs3pbs.py:12-18 | A new instance has a zero accumulator and bit count, and two 256-entry tables of zeros. |
| `Qfs3Drafts.Qfs3Compression.ReadNext` | resources/eac/compressions/qfs3.py:28-29 | `read_next` moves the accumulator up 16 bits and puts the next big-endian short below them. The old accumulator is the new one divided by 2^16. The same method is at `qfs3pbs.py:28-29`. |
| `Qfs3Drafts.Qfs3Compression.AccumulateIfNeeded` | resources/eac/compressions/qfs3.py:31-35 | With a negative bit count it reads a short, rebuilds esi as the accumulator shifted by the missing bits, and adds 16 to the count, which is then non-negative. Otherwise nothing changes. The same method is at `qfs3pbs.py:31-35`. |
| `Qfs3Drafts.Qfs3Compression.ReadHeader` | resources/eac/compressions/qfs3.py:54-65 | The header result never carries the size flag. With the flag set, the 4-byte size is read into the accumulator and edx, with esi = size << 8 and 8 bits available. Without it, the magic and the next short form the accumulator, and edx is unchanged. |
| `Qfs3Drafts.SizeFlagCleared` | resources/eac/compressions/qfs3.py:59-65 | On a 16-bit header, `& 0x100` tests bit 8, and `& 0xFEFF` clears exactly that bit and nothing else. |
| `Qfs3Drafts.FlagOfHighByte` | resources/eac/compressions/qfs3pbs.py:57-63 | The flag of a header with high byte hi is the low bit of hi, and clearing it takes 1 off hi. |
| `Qfs3Drafts.CheckOverrun` | resources/eac/compressions/qfs3.py:303-304 | The check raises exactly when the output buffer is longer than the header's length. The same check is at `qfs3pbs.py:288-289`. |
| `Qfs3Drafts.OverrunPersists` | resources/eac/compressions/qfs3.py:303-304 | A buffer that trips the check makes every buffer it is a prefix of trip it too. No prefix of a buffer within the header's length trips it. |
| `Qfs3Drafts.Rounds` | resources/eac/compressions/qfs3.py:301-319 | The decode rounds as far as the output goes: the check at the top of each round, then the round's helper calls up to the first one that raises. The buffer only grows. |
| `Qfs3Drafts.RoundsEnd` | resources/eac/compressions/qfs3.py:301-319 | The rounds finish only when every helper call is accepted, and then the buffer holds all the calls' output. With every call accepted no helper raises, and the check raises exactly when the buffer before the last round trips it. When the check raises, the buffer trips it. |
| `Qfs3Drafts.GuardedRounds` | resources/eac/compressions/qfs3.py:301-319 | The round loop on the output buffer ends as `Rounds` says: all rounds run, the overrun check raises, or a helper call raises. The buffer is the one `Rounds` gives. |
| `Qfs3Drafts.RoundWrites` | resources/eac/compressions/qfs3.py:306-316 | One round's helper calls succeed exactly when every call is accepted, and leave the buffer up to the first refused call. |
| `Qfs3Drafts.CallHelper` | resources/eac/compressions/qfs3.py:20-25 | One call of `append_to_output` or `reuse_output_byte` succeeds exactly when the call is accepted (a byte value, or a non-empty buffer), and leaves exactly the buffer `Written` gives. |
| `Qfs3Drafts.Qfs3Compression.WriteRun` | resources/eac/compressions/qfs3pbs.py:274-278 | `width` entries from `start` get the symbol and its tag, and nothing else changes. It fails (IndexError) exactly when the run passes entry 256, after writing the entries before it. |
| `Qfs3Drafts.Qfs3Compression.FillTables` | resources/eac/compressions/qfs3pbs.py:232-284 | Loop 3 resets the length table to 0x40. With `count_loop1 >= 1` it succeeds exactly when the symbols and the 256 entries suffice, and then the tables are `ValueSlots` and `LengthSlots` over the unwritten rest, with `unk_9` the level of the last escape symbol. |
| `Qfs3Drafts.Qfs3Compression.FillLevel` | resources/eac/compressions/qfs3pbs.py:244-284 | One level of Loop 3 takes the tables, the input index and `unk_9` from the start of the level to the start of the next. |
| `Qfs3Drafts.Qfs3Compression.FillSymbols` | resources/eac/compressions/qfs3pbs.py:252-278 | The inner loop counts down `table_110[level]` symbols, taking the tables from the start of the level to its end. |
| `Qfs3Drafts.Qfs3Compression.FillSymbol` | resources/eac/compressions/qfs3pbs.py:265-278 | One symbol: it is read (IndexError past the end of `index_table_0`), tagged with its level or 0x60, and spread. |
| `Qfs3Drafts.Qfs3Compression.PlaceRun` | resources/eac/compressions/qfs3pbs.py:272-278 | The `1 << count_loop3` entries of one symbol take the tables one symbol further, or fail when they do not fit. |
| `Qfs3Drafts.SymbolSlots` | resources/eac/compressions/qfs3pbs.py:265-278 | In the finished tables, each of the 2^(8-L) entries after everything written before symbol r of level L holds that symbol, with its tag in the length table. The top 8 bits of a code select its symbol directly. |
| `Qfs3Drafts.EscapeTags` | resources/eac/compressions/qfs3pbs.py:268-271 | A length entry is 0x60 exactly where the value entry is `char_count`. Every other written length entry is a code length 1..8. |
| `Qfs3Drafts.EscapeLevelFound` | resources/eac/compressions/qfs3pbs.py:269-270 | `unk_9` stays 0 exactly when no symbol read so far equals `char_count`, and is at most 8. |
| `Qfs3Drafts.ValueKept` | resources/eac/compressions/qfs3pbs.py:274-278 | An entry once written in the value table is never rewritten later in the loop. |
| `Qfs3Drafts.LengthKept` | resources/eac/compressions/qfs3pbs.py:274-278 | The same for the length table. |
| `Qfs3Drafts.SlotsGrow` | resources/eac/compressions/qfs3pbs.py:278 | `out_table_idx` only grows over the loop. |
| `Qfs3Drafts.StartGrows` | resources/eac/compressions/qfs3pbs.py:266 | `in_table_idx` only grows from level to level. |
| `Qfs3Drafts.LevelDone` | resources/eac/compressions/qfs3pbs.py:253-261 | Once a level's count runs out, the position is the start of the next level, with the same tables, counts and `unk_9`. |
| `Qfs3Drafts.RunPlaced` | resources/eac/compressions/qfs3pbs.py:274-278 | Writing one symbol's runs over the tables of a position gives the tables of the next position. |
| `Qfs3Drafts.RunOverflows` | resources/eac/compressions/qfs3pbs.py:274-276 | A run that does not fit means the counts ask for more than 256 entries in all. |
| `Palette.LPad` | frontend/src/app/components/editor/eac/palette.block-ui/palette.block-ui.component.ts:17-21 | The result is the pad string k times followed by the string, for the least k that reaches `length`. A string already long enough comes back unchanged. |
| `Palette.PadCountUnique` | frontend/src/app/components/editor/eac/palette.block-ui/palette.block-ui.component.ts:17-21 | With a non-empty pad string the least such k is unique, so LPad's contract fixes its result. |
| `Palette.RepeatGrows` | frontend/src/app/components/editor/eac/palette.block-ui/palette.block-ui.component.ts:19 | Padding more times never gives a shorter string, so the loop's length test is monotone. |

## Left out

- Qfs3Decoder.Qfs3Compression.Uncompress: requires a new instance. The source keeps `huff_chars_per_level` and `depth_table` across calls and appends to them, so a second call on the same instance reads stale levels. That reuse is not modelled.
- Qfs3Decoder.Qfs3Compression.Uncompress: the body loop is given a number of rounds (`fuel`) and yields no verdict once they run out. The source loops until an end marker, and on a stream without one it never ends.
- Qfs3Decoder.Qfs3Compression.Uncompress: inputs on which the source never returns are reported as the fault `Hang`. This covers a two-mode integer with no 1 bit left in the stream, and an alphabet whose skip loop finds no unused byte value.
- Qfs3Format.LiteralStep, `RepeatStep`, `RawByteStep` and `EndMarkerStep` are stated for the corrected lookup only. With the lookup as written they carry over through `GuardsAgree` wherever the top 16 window bits equal no depth entry. On the inputs in "Findings" the two lookups part ways, and no step lemma is given for that case.
- Qfs3Drafts.GuardedRounds: a round is given as the list of helper calls it makes. Which calls those are depends on the bit stream and on the tables of Loops 1, 2 and 4, which are not modelled. The rounds are also given as a finite list, where the source loops until the end of the stream.
- Qfs3Drafts.Qfs3Compression.FillTables: when Loop 3 raises IndexError, the contract does not describe the partly written tables.
- Palette.LPad: requires a non-empty pad string or a string already long enough, because otherwise the source's loop never ends. `length` is a JavaScript number and is modelled as an integer.
- The `print` calls, the unused `file_header` and `input_length` of `qfs3pbsjt.py`, and `compress` are not modelled.
- File I/O is replaced by the byte sequence and a cursor.
- `read_utf_bytes` (`buffer_utils.py:4-5`) is not modelled, because UTF-8 decoding is out of scope.
- The `size_koeff` factor of `read_vector3_as_list` is modelled as an integer. A floating-point factor is not.
- `library/utils` (the `read_short` and `read_int` of `qfs3.py` and `qfs3pbs.py`) is not part of this model. The `BufferUtils` readers stand in for them.
- `library/utils/asm_runner.py` and `resources/eac/compressions/base.py` are not part of this model. Registers such as `esi` and `edx` are plain unbounded integers, as in Python, without any truncation the register class might apply.
- Loops 1, 2 and 4 of `qfs3.py` and `qfs3pbs.py` are not modelled: they build their tables through the emulated registers and the virtual memory of `AsmRunner`. Loop 3 takes their results (`table_110`, `index_table_0`, `count_loop1`) as parameters. `ReadHeader` stops where Loop 1's set-up begins (`qfs3.py:66`).
- In Loop 3, `(1 << count_loop3) <= 0` is never true, and `huff_table_ptr_len <= val_shift` always holds because `val_shift` is 4 times the level. So the loop is modelled level by level, ending after level 8, and the never-taken branches are left out.
- `Qfs3Drafts.FlagOfHighByte` states the flag for any header. It is not tied to the magic values a real file carries.

## Findings

| source | as written | input that shows it | evidently intended | confidence | as-written member | corrected member |
|---|---|---|---|---|---|---|
| resources/eac/compressions/qfs3pbsjt.py:140 | `while huff_key > depth_table[L]` stops at a level whose depth entry equals the top 16 window bits. That entry is the first code past the level. | Counts [0, 1, 2] (code 0, codes 10 and 11), window 0x80000000 (code 10). The search stops at level 1 and consumes 1 bit instead of 2. | Continue while `huff_key >= depth_table[L]`, so that the search stops at the first level whose entry lies above the window. | not executed | `Qfs3Tree.SearchAsWrittenStopsEarly` (on `Qfs3Tree.SearchAsWritten`) | `Qfs3Tree.Search`, with canonical decoding proved in `Qfs3Tree.DecodeCanonical`; `Uncompress` with `Corrected` |
| resources/eac/compressions/qfs3pbsjt.py:144-148 | `if(val>len(char_table))` lets `val == len(char_table)` through, and `char_table[val]` then raises IndexError. | One code of length 1 over 15 levels (alphabet of 1), window 0xC0000000. The search reaches the sentinel level 15 and the rank is 1. | `if(val>=len(char_table))`: abort before indexing. | not executed | `Qfs3Tree.RankGuardAsWrittenMisses` (on `Qfs3Tree.LookupAsWritten`) | `Qfs3Tree.LookupSymbol`, whose contract rules out IndexError; `Uncompress` with `Corrected` |
