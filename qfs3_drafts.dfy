/** The two earlier QFS3 decoders, qfs3.py and qfs3pbs.py, transcribe the original
    assembly register by register. Their byte-output helpers are the ones in
    OutputBuffer and their end-of-stream transforms the ones in RunningSum. This module
    holds what is theirs alone:
    - the bit accumulator, which is refilled a big-endian short at a time;
    - the header's "compressed size present" flag (0x100), which is cleared once the
      size has been read;
    - the overrun check at the top of each decode round;
    - Loop 3 of qfs3pbs.py, which spreads the symbols of each code length over a
      256-entry lookup table together with their lengths. */
module Qfs3Drafts {
  import opened Bits
  import opened BufferUtils
  import opened OutputBuffer

  /** Header bit: a 4-byte compressed size follows the magic. */
  const SIZE_FLAG: nat := 0x100
  /** What an unwritten entry of the length table holds. */
  const UNSET_LENGTH: nat := 0x40
  /** The length-table entry of the escape symbol (the symbol equal to char_count). */
  const ESCAPE_TAG: nat := 0x60
  /** Entries in each lookup table. */
  const TABLE_SIZE: nat := 256

  // ---------------------------------------------------------------------
  // The header's size flag

  /** `file_header & 0x100` is set. */
  predicate HasSizeFlag(header: nat)
  {
    And(header, SIZE_FLAG) != 0
  }

  /** `file_header & 0xFEFF` */
  function ClearSizeFlag(header: nat): nat
  {
    And(header, 0xFEFF)
  }

  /** On a 16-bit header, clearing the flag takes away exactly the flag bit and leaves it
      unset. */
  lemma SizeFlagCleared(header: nat)
    requires header < 0x1_0000
    ensures HasSizeFlag(header) <==> Shr(header, 8) % 2 == 1
    ensures ClearSizeFlag(header) < 0x1_0000 && !HasSizeFlag(ClearSizeFlag(header))
    ensures HasSizeFlag(header) ==> ClearSizeFlag(header) == header - SIZE_FLAG
    ensures !HasSizeFlag(header) ==> ClearSizeFlag(header) == header
  {
    Pow2Byte();
    Pow2Short();
    AndPow2(header, 8);
    AndAllBut(header, 0xFEFF, 8, 16);
    AndPow2Removed(header, 8);
    AndBit(header, 8);
  }

  /** The flag of a 16-bit header with high byte hi is the low bit of hi. */
  lemma FlagOfHighByte(hi: nat, lo: nat)
    requires hi < 256 && lo < 256
    ensures HasSizeFlag(256 * hi + lo) <==> hi % 2 == 1
    ensures HasSizeFlag(256 * hi + lo) ==> ClearSizeFlag(256 * hi + lo) == 256 * (hi - 1) + lo
    ensures !HasSizeFlag(256 * hi + lo) ==> ClearSizeFlag(256 * hi + lo) == 256 * hi + lo
  {
    Pow2Byte();
    ShlByte(hi);
    ShrOfSplit(hi, lo, 8);
    SizeFlagCleared(256 * hi + lo);
  }

  // ---------------------------------------------------------------------
  // The overrun check

  /** `len(uncompressed) > self.output_length`: the round raises. */
  predicate Overrun(written: nat, outputLength: nat)
  {
    written > outputLength
  }

  /** The check on the output buffer, at the top of each decode round. */
  method CheckOverrun(uncompressed: ByteArray, outputLength: nat) returns (raised: bool)
    ensures raised <==> Overrun(|uncompressed.bytes|, outputLength)
  {
    raised := |uncompressed.bytes| > outputLength;
  }

  /** Once a buffer trips the check, every buffer it is a prefix of trips it too; a
      buffer within the header's length has no prefix that trips it. */
  lemma OverrunPersists(before: seq<byte>, after: seq<byte>, outputLength: nat)
    requires before <= after
    ensures Overrun(|before|, outputLength) ==> Overrun(|after|, outputLength)
    ensures |after| <= outputLength ==> !Overrun(|before|, outputLength) && !Overrun(|after|, outputLength)
  {
  }

  /** How the decode rounds end, as far as the output goes: all rounds run, the check
      raises, or a helper call raises (IndexError or OverflowError). */
  datatype Ending = Finished | Overran | HelperFailed

  /** The helper calls of all the rounds, one round after the other. */
  function Flatten(rounds: seq<seq<Write>>): seq<Write>
    decreases |rounds|
  {
    if rounds == [] then [] else rounds[0] + Flatten(rounds[1..])
  }

  /** The decode rounds from the buffer `bytes`, as far as the output goes: each round
      makes the check, raising if the buffer is longer than the header's length, and
      then its helper calls, raising at the first one refused. */
  function Rounds(bytes: seq<byte>, rounds: seq<seq<Write>>, outputLength: nat): (r: (Ending, seq<byte>))
    ensures bytes <= r.1
    decreases |rounds|
  {
    if rounds == [] then (Finished, bytes)
    else if Overrun(|bytes|, outputLength) then (Overran, bytes)
    else if !AllAccepted(bytes, rounds[0]) then (HelperFailed, Applied(bytes, rounds[0]))
    else
      ReplayGrows(bytes, rounds[0]);
      Rounds(Replay(bytes, rounds[0]), rounds[1..], outputLength)
  }

  /** What the rounds come to. They finish only when every helper call is accepted, and
      then the buffer holds all the calls' output. When every call is accepted no
      helper raises, and, since output only grows, the check raises exactly when the
      buffer before the last round trips it. When the check raises, the buffer trips
      it. */
  lemma {:induction false} RoundsEnd(bytes: seq<byte>, rounds: seq<seq<Write>>, outputLength: nat)
    ensures Rounds(bytes, rounds, outputLength).0 == Finished ==>
      AllAccepted(bytes, Flatten(rounds)) && Rounds(bytes, rounds, outputLength).1 == Replay(bytes, Flatten(rounds))
    ensures AllAccepted(bytes, Flatten(rounds)) ==> Rounds(bytes, rounds, outputLength).0 != HelperFailed
    ensures AllAccepted(bytes, Flatten(rounds)) ==>
      (Rounds(bytes, rounds, outputLength).0 == Overran <==>
       |rounds| > 0 && Overrun(|Replay(bytes, Flatten(rounds[..|rounds| - 1]))|, outputLength))
    ensures Rounds(bytes, rounds, outputLength).0 == Overran ==> Overrun(|Rounds(bytes, rounds, outputLength).1|, outputLength)
    decreases |rounds|
  {
    if rounds != [] {
      var n := |rounds|;
      ReplayAppend(bytes, rounds[0], Flatten(rounds[1..]));
      ReplayGrows(bytes, Flatten(rounds[..n - 1]));
      OverrunPersists(bytes, Replay(bytes, Flatten(rounds[..n - 1])), outputLength);
      if !Overrun(|bytes|, outputLength) && AllAccepted(bytes, rounds[0]) {
        RoundsEnd(Replay(bytes, rounds[0]), rounds[1..], outputLength);
        if n > 1 {
          assert rounds[..n - 1][0] == rounds[0];
          assert rounds[..n - 1][1..] == rounds[1..][..n - 2];
          ReplayAppend(bytes, rounds[0], Flatten(rounds[1..][..n - 2]));
        } else {
          assert rounds[..n - 1] == [];
        }
      }
    }
  }

  /** The check on the output buffer at the top of each decode round, then the round's
      helper calls, until the rounds run out or something raises. */
  method GuardedRounds(uncompressed: ByteArray, outputLength: nat, rounds: seq<seq<Write>>) returns (ending: Ending)
    modifies uncompressed
    ensures (ending, uncompressed.bytes) == Rounds(old(uncompressed.bytes), rounds, outputLength)
  {
    var i := 0;
    while i < |rounds|
      invariant 0 <= i <= |rounds|
      invariant Rounds(old(uncompressed.bytes), rounds, outputLength) == Rounds(uncompressed.bytes, rounds[i..], outputLength)
    {
      var raised := CheckOverrun(uncompressed, outputLength);
      if raised {
        return Overran;
      }
      var ok := RoundWrites(uncompressed, rounds[i]);
      if !ok {
        return HelperFailed;
      }
      assert rounds[i..][1..] == rounds[i + 1..];
      i := i + 1;
    }
    ending := Finished;
  }

  /** The helper calls of one round (up to four `append_to_output` calls, or one
      `reuse_output_byte`), stopping at the first one that raises. */
  method RoundWrites(uncompressed: ByteArray, writes: seq<Write>) returns (ok: bool)
    modifies uncompressed
    ensures ok <==> AllAccepted(old(uncompressed.bytes), writes)
    ensures uncompressed.bytes == Applied(old(uncompressed.bytes), writes)
  {
    ghost var start := uncompressed.bytes;
    var j := 0;
    while j < |writes|
      invariant 0 <= j <= |writes|
      invariant AllAccepted(start, writes) == AllAccepted(uncompressed.bytes, writes[j..])
      invariant Applied(start, writes) == Applied(uncompressed.bytes, writes[j..])
    {
      ghost var before := uncompressed.bytes;
      assert writes[j..][0] == writes[j] && writes[j..][1..] == writes[j + 1..];
      ok := CallHelper(uncompressed, writes[j]);
      if !ok {
        assert Applied(before, writes[j..]) == before;
        return;
      }
      assert AllAccepted(before, writes[j..]) == AllAccepted(uncompressed.bytes, writes[j + 1..]);
      assert Applied(before, writes[j..]) == Applied(uncompressed.bytes, writes[j + 1..]);
      j := j + 1;
    }
    ok := true;
  }

  /** One helper call: `append_to_output` or `reuse_output_byte`. */
  method CallHelper(uncompressed: ByteArray, w: Write) returns (ok: bool)
    modifies uncompressed
    ensures ok <==> Accepted(old(uncompressed.bytes), w)
    ensures uncompressed.bytes == Written(old(uncompressed.bytes), w)
  {
    match w {
      case Append(v) =>
        ok := AppendToOutput(uncompressed, v);
      case ReuseLast(n) =>
        ok := ReuseOutputByte(uncompressed, n);
    }
  }

  // ---------------------------------------------------------------------
  // Loop 3: the lookup tables, level by level
  //
  // counts[L] (table_110 in the source) is the number of symbols with an L-bit code;
  // the symbols come in order from `symbols` (index_table_0). Each symbol of level L
  // fills 2^(8 - L) consecutive entries: the value table gets the symbol, the length
  // table gets L, or ESCAPE_TAG for the symbol equal to char_count. A position
  // (level, r) means: the levels below `level` and r symbols of `level` are done.

  /** The code lengths run from 1 to 8; a position at level 9 is the end. */
  predicate Position(counts: seq<nat>, level: nat, r: nat)
  {
    |counts| == 16 && 1 <= level <= 9 && (level <= 8 ==> r <= counts[level]) && (level == 9 ==> r == 0)
  }

  /** Symbols of the levels below `level`. */
  function LevelStart(counts: seq<nat>, level: nat): nat
    requires |counts| == 16 && 1 <= level <= 9
  {
    if level == 1 then 0 else LevelStart(counts, level - 1) + counts[level - 1]
  }

  /** A position whose symbols have all been read. */
  predicate Within(counts: seq<nat>, symbols: seq<nat>, level: nat, r: nat)
  {
    Position(counts, level, r) && LevelStart(counts, level) + r <= |symbols|
  }

  /** Entries per symbol of level L: `1 << count_loop3` with count_loop3 == 8 - L. */
  function Width(level: nat): nat
    requires 1 <= level <= 8
  {
    Pow2(8 - level)
  }

  /** The length-table entry of a symbol at a level. */
  function Tag(symbol: nat, level: nat, charCount: nat): nat
  {
    if symbol == charCount then ESCAPE_TAG else level
  }

  /** The number of table entries written up to a position. */
  function SlotCount(counts: seq<nat>, level: nat, r: nat): nat
    requires Position(counts, level, r)
    decreases level, r
  {
    if r > 0 then SlotCount(counts, level, r - 1) + Width(level)
    else if level == 1 then 0
    else SlotCount(counts, level - 1, counts[level - 1])
  }

  /** The value-table entries written up to a position. */
  function ValueSlots(counts: seq<nat>, symbols: seq<nat>, level: nat, r: nat): (s: seq<nat>)
    requires Within(counts, symbols, level, r)
    ensures |s| == SlotCount(counts, level, r)
    decreases level, r
  {
    if r > 0 then
      ValueSlots(counts, symbols, level, r - 1) + Repeat(symbols[LevelStart(counts, level) + r - 1], Width(level))
    else if level == 1 then []
    else ValueSlots(counts, symbols, level - 1, counts[level - 1])
  }

  /** The length-table entries written up to a position. */
  function LengthSlots(counts: seq<nat>, symbols: seq<nat>, charCount: nat, level: nat, r: nat): (s: seq<nat>)
    requires Within(counts, symbols, level, r)
    ensures |s| == SlotCount(counts, level, r)
    decreases level, r
  {
    if r > 0 then
      var tag := Tag(symbols[LevelStart(counts, level) + r - 1], level, charCount);
      LengthSlots(counts, symbols, charCount, level, r - 1) + Repeat(tag, Width(level))
    else if level == 1 then []
    else LengthSlots(counts, symbols, charCount, level - 1, counts[level - 1])
  }

  /** unk_9 at a position: the level of the last symbol read that equals char_count,
      or 0 when there was none. */
  function EscapeLevel(counts: seq<nat>, symbols: seq<nat>, charCount: nat, level: nat, r: nat): nat
    requires Within(counts, symbols, level, r)
    decreases level, r
  {
    if r > 0 then
      if symbols[LevelStart(counts, level) + r - 1] == charCount then level
      else EscapeLevel(counts, symbols, charCount, level, r - 1)
    else if level == 1 then 0
    else EscapeLevel(counts, symbols, charCount, level - 1, counts[level - 1])
  }

  /** Position order: (level, r) comes no later than (level2, r2). */
  predicate NoLater(level: nat, r: nat, level2: nat, r2: nat)
  {
    level < level2 || (level == level2 && r <= r2)
  }

  // ---------------------------------------------------------------------
  // What the tables are

  /** Symbols are read in order: a later position has read more of them. */
  lemma {:induction false} StartGrows(counts: seq<nat>, level: nat, level2: nat)
    requires |counts| == 16 && 1 <= level <= level2 <= 9
    ensures LevelStart(counts, level) <= LevelStart(counts, level2)
    decreases level2 - level
  {
    if level < level2 {
      StartGrows(counts, level + 1, level2);
    }
  }

  /** Entries are written in order: a later position has written more of them. */
  lemma {:induction false} SlotsGrow(counts: seq<nat>, level: nat, r: nat)
    requires Position(counts, level, r)
    ensures SlotCount(counts, level, r) <= SlotCount(counts, 9, 0)
    decreases 9 - level, if level <= 8 then counts[level] - r else 0
  {
    if level <= 8 {
      if r < counts[level] {
        SlotsGrow(counts, level, r + 1);
      } else {
        SlotsGrow(counts, level + 1, 0);
      }
    }
  }

  /** Earlier entries are never rewritten: entry k of the value table at a position is
      still entry k at any later position. */
  lemma {:induction false} ValueKept(counts: seq<nat>, symbols: seq<nat>, level: nat, r: nat,
                                     level2: nat, r2: nat, k: nat)
    requires Within(counts, symbols, level2, r2) && Position(counts, level, r)
    requires NoLater(level, r, level2, r2)
    ensures Within(counts, symbols, level, r)
    ensures k < |ValueSlots(counts, symbols, level, r)| ==>
      k < |ValueSlots(counts, symbols, level2, r2)| &&
      ValueSlots(counts, symbols, level2, r2)[k] == ValueSlots(counts, symbols, level, r)[k]
    decreases level2, r2
  {
    if level == level2 && r == r2 {
    } else if r2 > 0 {
      ValueKept(counts, symbols, level, r, level2, r2 - 1, k);
    } else {
      ValueKept(counts, symbols, level, r, level2 - 1, counts[level2 - 1], k);
    }
  }

  /** The same for the length table. */
  lemma {:induction false} LengthKept(counts: seq<nat>, symbols: seq<nat>, charCount: nat,
                                      level: nat, r: nat, level2: nat, r2: nat, k: nat)
    requires Within(counts, symbols, level2, r2) && Position(counts, level, r)
    requires NoLater(level, r, level2, r2)
    ensures Within(counts, symbols, level, r)
    ensures k < |LengthSlots(counts, symbols, charCount, level, r)| ==>
      k < |LengthSlots(counts, symbols, charCount, level2, r2)| &&
      LengthSlots(counts, symbols, charCount, level2, r2)[k] == LengthSlots(counts, symbols, charCount, level, r)[k]
    decreases level2, r2
  {
    if level == level2 && r == r2 {
    } else if r2 > 0 {
      LengthKept(counts, symbols, charCount, level, r, level2, r2 - 1, k);
    } else {
      LengthKept(counts, symbols, charCount, level, r, level2 - 1, counts[level2 - 1], k);
    }
  }

  /** Symbol r of level L is the value of the 2^(8 - L) entries that follow everything
      written before it, and its length-table entries all hold L (or the escape tag):
      the top 8 bits of a code select its symbol directly. */
  lemma SymbolSlots(counts: seq<nat>, symbols: seq<nat>, charCount: nat, level: nat, r: nat, x: nat)
    requires Within(counts, symbols, 9, 0)
    requires 1 <= level <= 8 && r < counts[level] && x < Width(level)
    ensures |ValueSlots(counts, symbols, 9, 0)| == |LengthSlots(counts, symbols, charCount, 9, 0)| == SlotCount(counts, 9, 0)
    ensures LevelStart(counts, level) + r < |symbols|
    ensures SlotCount(counts, level, r) + x < SlotCount(counts, 9, 0)
    ensures ValueSlots(counts, symbols, 9, 0)[SlotCount(counts, level, r) + x]
         == symbols[LevelStart(counts, level) + r]
    ensures LengthSlots(counts, symbols, charCount, 9, 0)[SlotCount(counts, level, r) + x]
         == Tag(symbols[LevelStart(counts, level) + r], level, charCount)
  {
    StartGrows(counts, level + 1, 9);
    SymbolValue(counts, symbols, level, r, x);
    SymbolTag(counts, symbols, charCount, level, r, x);
  }

  /** The value-table half of SymbolSlots. */
  lemma SymbolValue(counts: seq<nat>, symbols: seq<nat>, level: nat, r: nat, x: nat)
    requires Within(counts, symbols, 9, 0) && Within(counts, symbols, level, r + 1)
    requires 1 <= level <= 8 && r < counts[level] && x < Width(level)
    ensures SlotCount(counts, level, r) + x < SlotCount(counts, 9, 0)
    ensures ValueSlots(counts, symbols, 9, 0)[SlotCount(counts, level, r) + x]
         == symbols[LevelStart(counts, level) + r]
  {
    var k := SlotCount(counts, level, r) + x;
    ValueRunEntry(counts, symbols, level, r, x);
    assert k < |ValueSlots(counts, symbols, level, r + 1)|;
    ValueKept(counts, symbols, level, r + 1, 9, 0, k);
  }

  /** Entry x of the run that symbol r of level L writes in the value table. */
  lemma ValueRunEntry(counts: seq<nat>, symbols: seq<nat>, level: nat, r: nat, x: nat)
    requires Within(counts, symbols, level, r + 1)
    requires 1 <= level <= 8 && x < Width(level)
    ensures SlotCount(counts, level, r) + x < |ValueSlots(counts, symbols, level, r + 1)|
    ensures ValueSlots(counts, symbols, level, r + 1)[SlotCount(counts, level, r) + x]
         == symbols[LevelStart(counts, level) + r]
  {
  }

  /** The length-table half of SymbolSlots. */
  lemma SymbolTag(counts: seq<nat>, symbols: seq<nat>, charCount: nat, level: nat, r: nat, x: nat)
    requires Within(counts, symbols, 9, 0) && Within(counts, symbols, level, r + 1)
    requires 1 <= level <= 8 && r < counts[level] && x < Width(level)
    ensures SlotCount(counts, level, r) + x < SlotCount(counts, 9, 0)
    ensures LengthSlots(counts, symbols, charCount, 9, 0)[SlotCount(counts, level, r) + x]
         == Tag(symbols[LevelStart(counts, level) + r], level, charCount)
  {
    var k := SlotCount(counts, level, r) + x;
    LengthRunEntry(counts, symbols, charCount, level, r, x);
    assert k < |LengthSlots(counts, symbols, charCount, level, r + 1)|;
    LengthKept(counts, symbols, charCount, level, r + 1, 9, 0, k);
  }

  /** Entry x of the run that symbol r of level L writes in the length table. */
  lemma LengthRunEntry(counts: seq<nat>, symbols: seq<nat>, charCount: nat, level: nat, r: nat, x: nat)
    requires Within(counts, symbols, level, r + 1)
    requires 1 <= level <= 8 && x < Width(level)
    ensures SlotCount(counts, level, r) + x < |LengthSlots(counts, symbols, charCount, level, r + 1)|
    ensures LengthSlots(counts, symbols, charCount, level, r + 1)[SlotCount(counts, level, r) + x]
         == Tag(symbols[LevelStart(counts, level) + r], level, charCount)
  {
  }

  /** A length-table entry is the escape tag exactly where the value table holds
      char_count; every other written entry is a code length from 1 to 8. */
  lemma {:induction false} EscapeTags(counts: seq<nat>, symbols: seq<nat>, charCount: nat, level: nat, r: nat)
    requires Within(counts, symbols, level, r)
    ensures |LengthSlots(counts, symbols, charCount, level, r)| == |ValueSlots(counts, symbols, level, r)|
    ensures forall j :: 0 <= j < |ValueSlots(counts, symbols, level, r)| ==>
      (LengthSlots(counts, symbols, charCount, level, r)[j] == ESCAPE_TAG <==> ValueSlots(counts, symbols, level, r)[j] == charCount) &&
      (LengthSlots(counts, symbols, charCount, level, r)[j] == ESCAPE_TAG || 1 <= LengthSlots(counts, symbols, charCount, level, r)[j] <= 8)
    decreases level, r
  {
    if r > 0 {
      EscapeTags(counts, symbols, charCount, level, r - 1);
    } else if level > 1 {
      EscapeTags(counts, symbols, charCount, level - 1, counts[level - 1]);
    }
  }

  /** unk_9 stays 0 exactly when no symbol read so far equals char_count, and is
      otherwise a code length. */
  lemma {:induction false} EscapeLevelFound(counts: seq<nat>, symbols: seq<nat>, charCount: nat, level: nat, r: nat)
    requires Within(counts, symbols, level, r)
    ensures EscapeLevel(counts, symbols, charCount, level, r) == 0
        <==> charCount !in symbols[..LevelStart(counts, level) + r]
    ensures EscapeLevel(counts, symbols, charCount, level, r) <= 8
    decreases level, r
  {
    var n := LevelStart(counts, level) + r;
    if r > 0 {
      EscapeLevelFound(counts, symbols, charCount, level, r - 1);
      assert symbols[..n] == symbols[..n - 1] + [symbols[n - 1]];
    } else if level > 1 {
      EscapeLevelFound(counts, symbols, charCount, level - 1, counts[level - 1]);
    }
  }

  /** One symbol of Loop 3, value table: writing the symbol's run over the table as it
      stands at (level, r) gives the table at (level, r + 1). */
  lemma ValueStep(counts: seq<nat>, symbols: seq<nat>, level: nat, r: nat, original: seq<nat>,
                  values: seq<nat>, table: seq<nat>, o: nat, w: nat)
    requires 1 <= level <= 8 && Within(counts, symbols, level, r) && |original| == TABLE_SIZE
    requires r < counts[level] && LevelStart(counts, level) + r < |symbols|
    requires o == SlotCount(counts, level, r) && w == Width(level) && o + w <= TABLE_SIZE
    requires values == ValueSlots(counts, symbols, level, r) + original[o..]
    requires table == values[..o] + Repeat(symbols[LevelStart(counts, level) + r], w) + values[o + w..]
    ensures Within(counts, symbols, level, r + 1) && SlotCount(counts, level, r + 1) == o + w
    ensures table == ValueSlots(counts, symbols, level, r + 1) + original[o + w..]
  {
    ValueAppend(counts, symbols, level, r);
    SpliceKeep(ValueSlots(counts, symbols, level, r), Repeat(symbols[LevelStart(counts, level) + r], w), original, values, table, o, w);
  }

  /** Once all symbols of level L are read, the tables, the counts and unk_9 are those of
      the start of level L + 1. */
  lemma LevelDone(counts: seq<nat>, symbols: seq<nat>, charCount: nat, level: nat)
    requires |counts| == 16 && 1 <= level <= 8 && Within(counts, symbols, level, counts[level])
    ensures Within(counts, symbols, level + 1, 0)
    ensures LevelStart(counts, level + 1) == LevelStart(counts, level) + counts[level]
    ensures SlotCount(counts, level + 1, 0) == SlotCount(counts, level, counts[level])
    ensures ValueSlots(counts, symbols, level + 1, 0) == ValueSlots(counts, symbols, level, counts[level])
    ensures LengthSlots(counts, symbols, charCount, level + 1, 0) == LengthSlots(counts, symbols, charCount, level, counts[level])
    ensures EscapeLevel(counts, symbols, charCount, level + 1, 0) == EscapeLevel(counts, symbols, charCount, level, counts[level])
  {
  }

  /** One symbol of Loop 3, both tables: its runs written over the tables at (level, r)
      give the tables at (level, r + 1). */
  lemma RunPlaced(counts: seq<nat>, symbols: seq<nat>, charCount: nat, level: nat, r: nat,
                  original: seq<nat>, values: seq<nat>, lengths: seq<nat>,
                  newValues: seq<nat>, newLengths: seq<nat>, o: nat, w: nat, tag: nat)
    requires |original| == TABLE_SIZE && 1 <= level <= 8 && Within(counts, symbols, level, r)
    requires r < counts[level] && LevelStart(counts, level) + r < |symbols|
    requires tag == Tag(symbols[LevelStart(counts, level) + r], level, charCount)
    requires o == SlotCount(counts, level, r) && w == Pow2(8 - level) && o + w <= TABLE_SIZE
    requires values == ValueSlots(counts, symbols, level, r) + original[o..]
    requires lengths == LengthSlots(counts, symbols, charCount, level, r) + Repeat(UNSET_LENGTH, TABLE_SIZE - o)
    requires newValues == values[..o] + Repeat(symbols[LevelStart(counts, level) + r], w) + values[o + w..]
    requires newLengths == lengths[..o] + Repeat(tag, w) + lengths[o + w..]
    ensures Within(counts, symbols, level, r + 1) && o + w == SlotCount(counts, level, r + 1)
    ensures newValues == ValueSlots(counts, symbols, level, r + 1) + original[o + w..]
    ensures newLengths == LengthSlots(counts, symbols, charCount, level, r + 1) + Repeat(UNSET_LENGTH, TABLE_SIZE - (o + w))
  {
    ValueStep(counts, symbols, level, r, original, values, newValues, o, w);
    LengthStep(counts, symbols, charCount, level, r, lengths, newLengths, o, w, tag);
  }

  /** A run that does not fit in the tables means the level table asks for more than
      256 entries in all. */
  lemma RunOverflows(counts: seq<nat>, symbols: seq<nat>, level: nat, r: nat, o: nat)
    requires 1 <= level <= 8 && Within(counts, symbols, level, r)
    requires r < counts[level] && LevelStart(counts, level) + r < |symbols|
    requires o == SlotCount(counts, level, r) && o + Pow2(8 - level) > TABLE_SIZE
    ensures Within(counts, symbols, level, r + 1) && SlotCount(counts, 9, 0) > TABLE_SIZE
  {
    SlotsGrow(counts, level, r + 1);
    ValueAppend(counts, symbols, level, r);
  }

  /** Symbol r of level L appends its run to the value table. */
  lemma ValueAppend(counts: seq<nat>, symbols: seq<nat>, level: nat, r: nat)
    requires 1 <= level <= 8 && Within(counts, symbols, level, r) && r < counts[level]
    requires LevelStart(counts, level) + r < |symbols|
    ensures Within(counts, symbols, level, r + 1)
    ensures ValueSlots(counts, symbols, level, r + 1)
         == ValueSlots(counts, symbols, level, r) + Repeat(symbols[LevelStart(counts, level) + r], Width(level))
  {
  }

  /** One symbol of Loop 3, length table: the symbol's tag run over the table at (level, r)
      gives the table at (level, r + 1). */
  lemma LengthStep(counts: seq<nat>, symbols: seq<nat>, charCount: nat, level: nat, r: nat,
                   lengths: seq<nat>, table: seq<nat>, o: nat, w: nat, tag: nat)
    requires 1 <= level <= 8 && Within(counts, symbols, level, r)
    requires r < counts[level] && LevelStart(counts, level) + r < |symbols|
    requires o == SlotCount(counts, level, r) && w == Width(level) && o + w <= TABLE_SIZE
    requires tag == Tag(symbols[LevelStart(counts, level) + r], level, charCount)
    requires lengths == LengthSlots(counts, symbols, charCount, level, r) + Repeat(UNSET_LENGTH, TABLE_SIZE - o)
    requires table == lengths[..o] + Repeat(tag, w) + lengths[o + w..]
    ensures Within(counts, symbols, level, r + 1)
    ensures table == LengthSlots(counts, symbols, charCount, level, r + 1) + Repeat(UNSET_LENGTH, TABLE_SIZE - (o + w))
  {
    LengthAppend(counts, symbols, charCount, level, r);
    SpliceFill(LengthSlots(counts, symbols, charCount, level, r), Repeat(tag, w), UNSET_LENGTH, TABLE_SIZE, lengths, table, o, w);
  }

  /** Symbol r of level L appends its tag run to the length table. */
  lemma LengthAppend(counts: seq<nat>, symbols: seq<nat>, charCount: nat, level: nat, r: nat)
    requires 1 <= level <= 8 && Within(counts, symbols, level, r) && r < counts[level]
    requires LevelStart(counts, level) + r < |symbols|
    ensures Within(counts, symbols, level, r + 1)
    ensures LengthSlots(counts, symbols, charCount, level, r + 1)
         == LengthSlots(counts, symbols, charCount, level, r) + Repeat(Tag(symbols[LevelStart(counts, level) + r], level, charCount), Width(level))
  {
  }

  /** A run written right after `done` over a table whose other entries come from
      `original`: the entries of `original` after the run stay. */
  lemma SpliceKeep(done: seq<nat>, run: seq<nat>, original: seq<nat>, values: seq<nat>, table: seq<nat>,
                   o: nat, w: nat)
    requires |done| == o && |run| == w && o + w <= |original|
    requires values == done + original[o..]
    requires table == values[..o] + run + values[o + w..]
    ensures table == (done + run) + original[o + w..]
  {
    Splice(done, original[o..], run);
    assert original[o..][w..] == original[o + w..];
  }

  /** A run written right after `done` over a table whose other entries are copies of v:
      the copies after the run stay. */
  lemma SpliceFill(done: seq<nat>, run: seq<nat>, v: nat, n: nat, lengths: seq<nat>, table: seq<nat>,
                   o: nat, w: nat)
    requires |done| == o && |run| == w && o + w <= n
    requires lengths == done + Repeat(v, n - o)
    requires table == lengths[..o] + run + lengths[o + w..]
    ensures table == (done + run) + Repeat(v, n - (o + w))
  {
    Splice(done, Repeat(v, n - o), run);
    RepeatDrop(v, n - o, w);
  }

  /** Writing a run over the entries after `done` keeps `done` and the entries after the run. */
  lemma Splice(done: seq<nat>, rest: seq<nat>, run: seq<nat>)
    requires |run| <= |rest|
    ensures (done + rest)[..|done|] + run + (done + rest)[|done| + |run|..] == (done + run) + rest[|run|..]
  {
    assert (done + rest)[..|done|] == done;
    assert (done + rest)[|done| + |run|..] == rest[|run|..];
  }

  // ---------------------------------------------------------------------
  // The decoder object

  class Qfs3Compression {
    /** The compressed stream and the reader's position in it. */
    var input: seq<byte>
    var pos: nat
    /** self.accumulator: the bits read so far, newest in the low 16. */
    var accumulator: nat
    /** self.available_acc_bits: bits left before the next refill (negative: refill due). */
    var availableAccBits: int
    /** The emulated registers esi and edx. */
    var esi: nat
    var edx: nat
    /** self.out_value_table and self.out_len_table of qfs3pbs.py. */
    var outValueTable: seq<nat>
    var outLenTable: seq<nat>

    /** Both lookup tables have 256 entries. */
    predicate Valid()
      reads this
    {
      |outValueTable| == TABLE_SIZE && |outLenTable| == TABLE_SIZE
    }

    constructor(input: seq<byte>)
      ensures this.input == input && pos == 0
      ensures accumulator == 0 && availableAccBits == 0 && esi == 0 && edx == 0
      ensures outValueTable == Repeat(0, TABLE_SIZE) && outLenTable == Repeat(0, TABLE_SIZE)
      ensures Valid()
    {
      this.input := input;
      pos := 0;
      accumulator := 0;
      availableAccBits := 0;
      esi := 0;
      edx := 0;
      outValueTable := Repeat(0, TABLE_SIZE);
      outLenTable := Repeat(0, TABLE_SIZE);
    }

    /** read_next: the accumulator moves up 16 bits and takes in the next big-endian
        short of the stream (0 past its end) below them. */
    method ReadNext()
      modifies this`accumulator, this`pos
      ensures var short := ReadShort(old(input), old(pos), Big);
        accumulator == old(accumulator) * 0x1_0000 + short.value && pos == short.next
      ensures accumulator / 0x1_0000 == old(accumulator)
    {
      var short := ReadShort(input, pos, Big);
      Pow2Short();
      OrComm(short.value, Shl(accumulator, 16));
      OrDisjoint(accumulator, short.value, 16);
      ShlShort(accumulator);
      accumulator := Or(short.value, Shl(accumulator, 16));
      pos := short.next;
    }

    /** accumulate_if_needed: once the bit count has gone negative, read a short and
        rebuild esi from the accumulator with the bits already used shifted out;
        otherwise nothing happens. */
    method AccumulateIfNeeded()
      modifies this`accumulator, this`pos, this`esi, this`availableAccBits
      ensures old(availableAccBits) >= 0 ==>
        accumulator == old(accumulator) && pos == old(pos) && esi == old(esi) && availableAccBits == old(availableAccBits)
      ensures old(availableAccBits) < 0 ==>
        (var short := ReadShort(old(input), old(pos), Big);
         accumulator == old(accumulator) * 0x1_0000 + short.value && pos == short.next &&
         esi == accumulator * Pow2(-old(availableAccBits)) &&
         availableAccBits == old(availableAccBits) + 16)
      ensures old(availableAccBits) >= -16 ==> availableAccBits >= 0
    {
      if availableAccBits < 0 {
        ReadNext();
        ShlMul(accumulator, -availableAccBits);
        esi := Shl(accumulator, -availableAccBits);
        availableAccBits := availableAccBits + 16;
      }
    }

    /** The start of `uncompress` in qfs3.py: the magic and one more short are read; when
        the magic carries the size flag, a big-endian int follows and replaces the
        accumulator, and the flag is cleared. */
    method ReadHeader() returns (fileHeader: nat)
      modifies this`accumulator, this`pos, this`esi, this`edx, this`availableAccBits
      ensures var magic := ReadShort(old(input), old(pos), Big);
        var second := ReadShort(old(input), magic.next, Big);
        var size := ReadInt(old(input), second.next, Big);
        fileHeader == ClearSizeFlag(magic.value) && !HasSizeFlag(fileHeader) &&
        (HasSizeFlag(magic.value) ==>
          fileHeader == magic.value - SIZE_FLAG && accumulator == size.value && edx == size.value &&
          esi == size.value * 256 && availableAccBits == 8 && pos == size.next) &&
        (!HasSizeFlag(magic.value) ==>
          fileHeader == magic.value && accumulator == magic.value * 0x1_0000 + second.value &&
          esi == accumulator * 0x1_0000 && availableAccBits == 0 && pos == second.next && edx == old(edx))
    {
      availableAccBits := 0;
      var magic := ReadShort(input, pos, Big);
      fileHeader := magic.value;
      accumulator := magic.value;
      pos := magic.next;
      ReadNext();
      ShlShort(accumulator);
      esi := Shl(accumulator, 16);
      SizeFlagCleared(fileHeader);
      if HasSizeFlag(fileHeader) {
        var size := ReadInt(input, pos, Big);
        edx := size.value;
        pos := size.next;
        availableAccBits := 8;
        ShlByte(edx);
        esi := Shl(edx, 8);
        accumulator := edx;
        fileHeader := ClearSizeFlag(fileHeader);
      }
    }

    /** The innermost loop of Loop 3: `width` entries from `start` get the symbol and its
        tag. An entry past the end of the tables raises (IndexError) after the entries
        before it have been written. */
    method WriteRun(symbol: nat, tag: nat, width: nat, start: nat) returns (ok: bool)
      requires Valid() && start <= TABLE_SIZE
      modifies this`outValueTable, this`outLenTable
      ensures Valid()
      ensures ok <==> start + width <= TABLE_SIZE
      ensures ok ==>
        outValueTable == old(outValueTable)[..start] + Repeat(symbol, width) + old(outValueTable)[start + width..] &&
        outLenTable == old(outLenTable)[..start] + Repeat(tag, width) + old(outLenTable)[start + width..]
      ensures !ok ==>
        outValueTable == old(outValueTable)[..start] + Repeat(symbol, TABLE_SIZE - start) &&
        outLenTable == old(outLenTable)[..start] + Repeat(tag, TABLE_SIZE - start)
    {
      var x := 0;
      while x < width
        invariant x <= width && start + x <= TABLE_SIZE && Valid()
        invariant outValueTable == old(outValueTable)[..start] + Repeat(symbol, x) + old(outValueTable)[start + x..]
        invariant outLenTable == old(outLenTable)[..start] + Repeat(tag, x) + old(outLenTable)[start + x..]
      {
        if start + x >= TABLE_SIZE {
          return false;
        }
        outValueTable := outValueTable[start + x := symbol];
        outLenTable := outLenTable[start + x := tag];
        x := x + 1;
      }
      ok := true;
    }

    /** Loop 3 of qfs3pbs.py. The length table is first reset to 0x40 everywhere; then,
        when Loop 1 counted anything, the symbols are read level by level and spread over
        both tables. It fails when the symbols run out or the entries overflow the 256
        of the tables. unk9 is the level of the last symbol equal to char_count. */
    method FillTables(table110: seq<nat>, indexTable0: seq<nat>, charCount: nat, countLoop1: int)
      returns (ok: bool, unk9: nat)
      requires Valid() && |table110| == 16
      modifies this`outValueTable, this`outLenTable
      ensures Valid()
      ensures countLoop1 < 1 ==>
        ok && unk9 == 0 && outValueTable == old(outValueTable) && outLenTable == Repeat(UNSET_LENGTH, TABLE_SIZE)
      ensures countLoop1 >= 1 ==>
        (ok <==> LevelStart(table110, 9) <= |indexTable0| && SlotCount(table110, 9, 0) <= TABLE_SIZE)
      ensures countLoop1 >= 1 && ok ==>
        (var n := SlotCount(table110, 9, 0);
         Within(table110, indexTable0, 9, 0) && n <= TABLE_SIZE &&
         outValueTable == ValueSlots(table110, indexTable0, 9, 0) + old(outValueTable)[n..] &&
         outLenTable == LengthSlots(table110, indexTable0, charCount, 9, 0) + Repeat(UNSET_LENGTH, TABLE_SIZE - n) &&
         unk9 == EscapeLevel(table110, indexTable0, charCount, 9, 0))
    {
      outLenTable := Repeat(UNSET_LENGTH, TABLE_SIZE);
      ok := true;
      unk9 := 0;
      if countLoop1 < 1 {
        return;
      }
      ghost var original := old(outValueTable);
      var level := 1;
      var inIdx := 0;
      var outIdx := 0;
      while level < 9
        invariant Position(table110, level, 0) && Within(table110, indexTable0, level, 0) && Valid()
        invariant inIdx == LevelStart(table110, level)
        invariant outIdx == SlotCount(table110, level, 0) <= TABLE_SIZE
        invariant outValueTable == ValueSlots(table110, indexTable0, level, 0) + original[outIdx..]
        invariant outLenTable == LengthSlots(table110, indexTable0, charCount, level, 0) + Repeat(UNSET_LENGTH, TABLE_SIZE - outIdx)
        invariant unk9 == EscapeLevel(table110, indexTable0, charCount, level, 0)
        invariant ok
      {
        ok, unk9, inIdx, outIdx := FillLevel(table110, indexTable0, charCount, level, unk9, inIdx, outIdx, original);
        if !ok {
          return;
        }
        level := level + 1;
      }
    }

    /** One level of Loop 3: its symbols, in order, each spread over 2^(8 - level) entries. */
    method FillLevel(table110: seq<nat>, indexTable0: seq<nat>, charCount: nat, level: nat,
                     unk9: nat, inIdx: nat, outIdx: nat, ghost original: seq<nat>)
      returns (ok: bool, unk9': nat, inIdx': nat, outIdx': nat)
      requires Valid() && |original| == TABLE_SIZE && 1 <= level <= 8
      requires Within(table110, indexTable0, level, 0) && inIdx == LevelStart(table110, level)
      requires outIdx == SlotCount(table110, level, 0) <= TABLE_SIZE
      requires outValueTable == ValueSlots(table110, indexTable0, level, 0) + original[outIdx..]
      requires outLenTable == LengthSlots(table110, indexTable0, charCount, level, 0) + Repeat(UNSET_LENGTH, TABLE_SIZE - outIdx)
      requires unk9 == EscapeLevel(table110, indexTable0, charCount, level, 0)
      modifies this`outValueTable, this`outLenTable
      ensures Valid()
      ensures !ok ==> !(LevelStart(table110, 9) <= |indexTable0| && SlotCount(table110, 9, 0) <= TABLE_SIZE)
      ensures ok ==>
        Within(table110, indexTable0, level + 1, 0) && inIdx' == LevelStart(table110, level + 1) &&
        outIdx' == SlotCount(table110, level + 1, 0) <= TABLE_SIZE &&
        outValueTable == ValueSlots(table110, indexTable0, level + 1, 0) + original[outIdx'..] &&
        outLenTable == LengthSlots(table110, indexTable0, charCount, level + 1, 0) + Repeat(UNSET_LENGTH, TABLE_SIZE - outIdx') &&
        unk9' == EscapeLevel(table110, indexTable0, charCount, level + 1, 0)
    {
      ok, unk9', inIdx', outIdx' := FillSymbols(table110, indexTable0, charCount, level, unk9, inIdx, outIdx, original);
      if ok {
        LevelDone(table110, indexTable0, charCount, level);
      }
    }

    /** The symbols of one level, counted down from table_110[level] as count_loop3_inner
        does. */
    method FillSymbols(table110: seq<nat>, indexTable0: seq<nat>, charCount: nat, level: nat,
                       unk9: nat, inIdx: nat, outIdx: nat, ghost original: seq<nat>)
      returns (ok: bool, unk9': nat, inIdx': nat, outIdx': nat)
      requires Valid() && |original| == TABLE_SIZE && 1 <= level <= 8
      requires Within(table110, indexTable0, level, 0) && inIdx == LevelStart(table110, level)
      requires outIdx == SlotCount(table110, level, 0) <= TABLE_SIZE
      requires outValueTable == ValueSlots(table110, indexTable0, level, 0) + original[outIdx..]
      requires outLenTable == LengthSlots(table110, indexTable0, charCount, level, 0) + Repeat(UNSET_LENGTH, TABLE_SIZE - outIdx)
      requires unk9 == EscapeLevel(table110, indexTable0, charCount, level, 0)
      modifies this`outValueTable, this`outLenTable
      ensures Valid()
      ensures !ok ==> !(LevelStart(table110, 9) <= |indexTable0| && SlotCount(table110, 9, 0) <= TABLE_SIZE)
      ensures ok ==>
        var r := table110[level];
        Within(table110, indexTable0, level, r) && inIdx' == LevelStart(table110, level) + r &&
        outIdx' == SlotCount(table110, level, r) <= TABLE_SIZE &&
        outValueTable == ValueSlots(table110, indexTable0, level, r) + original[outIdx'..] &&
        outLenTable == LengthSlots(table110, indexTable0, charCount, level, r) + Repeat(UNSET_LENGTH, TABLE_SIZE - outIdx') &&
        unk9' == EscapeLevel(table110, indexTable0, charCount, level, r)
    {
      unk9', inIdx', outIdx' := unk9, inIdx, outIdx;
      var remaining := table110[level];
      var r := 0;
      while remaining > 0
        invariant r + remaining == table110[level] && Valid()
        invariant Within(table110, indexTable0, level, r) && inIdx' == LevelStart(table110, level) + r
        invariant outIdx' == SlotCount(table110, level, r) <= TABLE_SIZE
        invariant outValueTable == ValueSlots(table110, indexTable0, level, r) + original[outIdx'..]
        invariant outLenTable == LengthSlots(table110, indexTable0, charCount, level, r) + Repeat(UNSET_LENGTH, TABLE_SIZE - outIdx')
        invariant unk9' == EscapeLevel(table110, indexTable0, charCount, level, r)
      {
        remaining := remaining - 1;
        ok, unk9', inIdx', outIdx' := FillSymbol(table110, indexTable0, charCount, level, r, unk9', inIdx', outIdx', original);
        if !ok {
          return;
        }
        r := r + 1;
      }
      ok := true;
    }

    /** One symbol of Loop 3: read it (IndexError past the end of index_table_0), tag
        it, and spread it over the next 2^(8 - level) entries of both tables. */
    method FillSymbol(table110: seq<nat>, indexTable0: seq<nat>, charCount: nat, level: nat, r: nat,
                      unk9: nat, inIdx: nat, outIdx: nat, ghost original: seq<nat>)
      returns (ok: bool, unk9': nat, inIdx': nat, outIdx': nat)
      requires Valid() && |original| == TABLE_SIZE && 1 <= level <= 8
      requires Within(table110, indexTable0, level, r) && r < table110[level]
      requires inIdx == LevelStart(table110, level) + r
      requires outIdx == SlotCount(table110, level, r) <= TABLE_SIZE
      requires outValueTable == ValueSlots(table110, indexTable0, level, r) + original[outIdx..]
      requires outLenTable == LengthSlots(table110, indexTable0, charCount, level, r) + Repeat(UNSET_LENGTH, TABLE_SIZE - outIdx)
      requires unk9 == EscapeLevel(table110, indexTable0, charCount, level, r)
      modifies this`outValueTable, this`outLenTable
      ensures Valid()
      ensures !ok ==> !(LevelStart(table110, 9) <= |indexTable0| && SlotCount(table110, 9, 0) <= TABLE_SIZE)
      ensures ok ==>
        Within(table110, indexTable0, level, r + 1) && inIdx' == LevelStart(table110, level) + r + 1 &&
        outIdx' == SlotCount(table110, level, r + 1) <= TABLE_SIZE &&
        outValueTable == ValueSlots(table110, indexTable0, level, r + 1) + original[outIdx'..] &&
        outLenTable == LengthSlots(table110, indexTable0, charCount, level, r + 1) + Repeat(UNSET_LENGTH, TABLE_SIZE - outIdx') &&
        unk9' == EscapeLevel(table110, indexTable0, charCount, level, r + 1)
    {
      unk9', inIdx', outIdx' := unk9, inIdx, outIdx;
      if inIdx >= |indexTable0| {
        StartGrows(table110, level + 1, 9);
        return false, unk9', inIdx', outIdx';
      }
      var symbol := indexTable0[inIdx];
      inIdx' := inIdx + 1;
      var tag := level;
      if charCount == symbol {
        unk9' := level;
        tag := ESCAPE_TAG;
      }
      ok, outIdx' := PlaceRun(table110, indexTable0, charCount, level, r, symbol, tag, outIdx, original);
    }

    /** The inner loop over count_loop3's 2^(8 - level) entries: symbol r of the level
        and its tag go into both tables, from out_idx on. */
    method PlaceRun(table110: seq<nat>, indexTable0: seq<nat>, charCount: nat, level: nat, r: nat,
                    symbol: nat, tag: nat, outIdx: nat, ghost original: seq<nat>)
      returns (ok: bool, outIdx': nat)
      requires Valid() && |original| == TABLE_SIZE && 1 <= level <= 8
      requires Within(table110, indexTable0, level, r) && r < table110[level]
      requires LevelStart(table110, level) + r < |indexTable0|
      requires symbol == indexTable0[LevelStart(table110, level) + r] && tag == Tag(symbol, level, charCount)
      requires outIdx == SlotCount(table110, level, r) <= TABLE_SIZE
      requires outValueTable == ValueSlots(table110, indexTable0, level, r) + original[outIdx..]
      requires outLenTable == LengthSlots(table110, indexTable0, charCount, level, r) + Repeat(UNSET_LENGTH, TABLE_SIZE - outIdx)
      modifies this`outValueTable, this`outLenTable
      ensures Valid() && Within(table110, indexTable0, level, r + 1)
      ensures !ok ==> SlotCount(table110, 9, 0) > TABLE_SIZE
      ensures ok ==>
        outIdx' == SlotCount(table110, level, r + 1) <= TABLE_SIZE &&
        outValueTable == ValueSlots(table110, indexTable0, level, r + 1) + original[outIdx'..] &&
        outLenTable == LengthSlots(table110, indexTable0, charCount, level, r + 1) + Repeat(UNSET_LENGTH, TABLE_SIZE - outIdx')
    {
      var width := Pow2(8 - level);
      ghost var values, lengths := outValueTable, outLenTable;
      ok := WriteRun(symbol, tag, width, outIdx);
      if !ok {
        RunOverflows(table110, indexTable0, level, r, outIdx);
        return false, outIdx;
      }
      outIdx' := outIdx + width;
      RunPlaced(table110, indexTable0, charCount, level, r, original, values, lengths,
                outValueTable, outLenTable, outIdx, width, tag);
    }
  }
}
