/** The QFS3 decoder as it runs: the instance fields it builds the tree into, the loops
    that read the tree levels, the alphabet and the body, each proved to compute what
    the format functions say. */
module Qfs3Decoder {
  import opened Bits
  import opened Qfs3Window
  import opened Qfs3Tree
  import opened Qfs3Alphabet
  import opened OutputBuffer
  import opened Qfs3Format

  /** The window registers (buf, fed, sub) stand for the cursor c: buf is the window at
      c, stray bit included, and sub is c's count of missing bits. */
  predicate Tracks(data: seq<byte>, buf: nat, fed: nat, sub: nat, c: Cursor)
  {
    c.sub == sub && sub <= 8 && 8 * fed + sub >= 32 && Pos(fed, sub) == c.p &&
    buf == Front(data, c)
  }

  /** Consumes n bits (`buf << n` masked to 32 bits, which also drops a stray bit) and
      refills the window. */
  method Consume(data: seq<byte>, buf: nat, fed: nat, sub: nat, n: nat, ghost c: Cursor)
    returns (buf': nat, fed': nat, sub': nat)
    requires Tracks(data, buf, fed, sub, c) && n >= 1
    ensures Tracks(data, buf', fed', sub', At(c.p + n))
  {
    var w := Window(data, c.p, c.sub);
    assert Windowed(data, w, fed, sub);
    if c.stray {
      StrayBitShifted(w, n);
    }
    ShiftStep(data, w, fed, sub, n);
    buf' := Shl(buf, n) % WORD;
    sub' := sub + n;
    sub', buf', fed' := RefillBuf(data, buf', fed, sub');
    WindowedCanonical(data, buf', fed', sub');
  }

  /** A refilled window stands for the cursor At at its position. */
  lemma TracksRefilled(data: seq<byte>, buf: nat, fed: nat, sub: nat)
    requires Windowed(data, buf, fed, sub) && sub < 8
    ensures Pos(fed, sub) >= 0 && Tracks(data, buf, fed, sub, At(Pos(fed, sub) as nat))
  {
    WindowedCanonical(data, buf, fed, sub);
  }

  /** The escape's integer and what follows it (from `fill_length, buf, sub_ptr =
      count_bits(...)` on): a repeat of the last byte for an integer above 4, and the
      flag bit for 4. */
  method EscapeTail(data: seq<byte>, out: ByteArray, buf: nat, fed: nat, sub: nat, ghost p: nat)
    returns (r: Round, buf': nat, fed': nat, sub': nat)
    requires Tracks(data, buf, fed, sub, At(p))
    modifies out
    ensures r == AfterEscape(data, old(out.bytes), p)
    ensures r.Continue? ==> out.bytes == r.out && Tracks(data, buf', fed', sub', r.c)
    ensures r.EndMarker? ==> out.bytes == old(out.bytes) && Tracks(data, buf', fed', sub', r.c)
  {
    assert Windowed(data, buf, fed, sub);
    buf', fed', sub' := buf, fed, sub;
    var p0: nat := Pos(fed, sub);
    if !OneAhead(data, p0) {
      return StepFault(Hang), buf', fed', sub';
    }
    var ok, fillLength;
    ok, fillLength, buf', sub', fed' := CountBits(data, buf, fed, sub);
    if !ok {
      return StepFault(CodeTooWide), buf', fed', sub';
    }
    VarintRange(data, p);
    var p2: nat := Pos(fed', sub');
    fillLength := fillLength - 4;
    if fillLength == 0 {
      r, buf', fed', sub' := FlagBit(data, out, buf', fed', sub', p2);
    } else {
      r := RepeatLast(data, out, buf', fed', sub', fillLength, p2);
    }
  }

  /** After an escape integer above 4: `fill_length` copies of the last output byte,
      which fails on an empty output. */
  method RepeatLast(data: seq<byte>, out: ByteArray, buf: nat, fed: nat, sub: nat, fillLength: nat, p: nat)
    returns (r: Round)
    requires Windowed(data, buf, fed, sub) && sub < 8 && Pos(fed, sub) == p && fillLength > 0
    modifies out
    ensures r == Escape(data, old(out.bytes), p, fillLength + 4)
    ensures r.Continue? ==> out.bytes == r.out && Tracks(data, buf, fed, sub, r.c)
  {
    var ok := ReuseOutputByte(out, fillLength);
    if !ok {
      return StepFault(NothingToRepeat);
    }
    TracksRefilled(data, buf, fed, sub);
    r := Continue(out.bytes, At(p));
  }

  /** After the escape's integer 4: the flag bit is shifted out (`buf << 1`, unmasked);
      a 1 is the end marker, which leaves the window unrefilled, and a 0 is followed by
      a raw byte, appended to the output. */
  method FlagBit(data: seq<byte>, out: ByteArray, buf: nat, fed: nat, sub: nat, p: nat)
    returns (r: Round, buf': nat, fed': nat, sub': nat)
    requires Windowed(data, buf, fed, sub) && sub < 8 && Pos(fed, sub) == p
    modifies out
    ensures r == Escape(data, old(out.bytes), p, 4)
    ensures r.Continue? ==> out.bytes == r.out && Tracks(data, buf', fed', sub', r.c)
    ensures r.EndMarker? ==> out.bytes == old(out.bytes) && Tracks(data, buf', fed', sub', r.c)
  {
    TopBit(data, buf, fed, sub);
    WindowedCanonical(data, buf, fed, sub);
    var flag := Shr(buf, 31);
    ShiftStep(data, buf, fed, sub, 1);
    var shifted := Shl(buf, 1);
    if flag != 0 {
      TopSetDoubled(buf);
      return EndMarker(Cursor(p + 1, sub + 1, true)), shifted, fed, sub + 1;
    }
    RawByte(data, buf, fed, sub);
    var raw := Shr(shifted, 24) % 256;
    var _ := AppendToOutput(out, raw);
    ShlAdd(buf, 1, 8);
    ShiftStep(data, buf, fed, sub, 9);
    buf' := Shl(shifted, 8) % WORD;
    sub', buf', fed' := RefillBuf(data, buf', fed, sub + 9);
    TracksRefilled(data, buf', fed', sub');
    r := Continue(out.bytes, At(p + 9));
  }

  /** After the escape's integer 4 and a 0 flag bit, `(buf << 1) >> 24` masked to 8 bits
      is the byte of stream bits after the flag. */
  lemma RawByte(data: seq<byte>, buf: nat, fed: nat, sub: nat)
    requires Windowed(data, buf, fed, sub) && sub < 8 && Bit(data, Pos(fed, sub)) == 0
    ensures Pos(fed, sub) >= 0
    ensures Shr(Shl(buf, 1), 24) % 256 == BitsVal(data, Pos(fed, sub) + 1, 8)
  {
    var p: nat := Pos(fed, sub);
    assert Shr(Shl(buf, 1), 24) == Shr(buf, 23) by {
      ShrOfShl(buf, 1, 1);
      ShrShr(Shl(buf, 1), 1, 23);
    }
    var b := BitsVal(data, p + 1, 8);
    assert Shr(buf, 23) == BitsVal(data, p, 9) by {
      PeekBits(data, buf, fed, sub, 9);
    }
    assert BitsVal(data, p, 9) == b by {
      BitsValSplit(data, p, 1, 8);
      assert BitsVal(data, p, 1) == 0;
      ShlZero(8);
    }
    assert b < 256 by {
      BitsValBound(data, p + 1, 8);
      Pow2Byte();
    }
  }

  /** How the inner body loop stopped: at an end marker, after an abandoned lookup, or
      with the decoder's final outcome (a fault, or no rounds left). */
  datatype Inner = EndMarkerRead | Abandoned | Stopped(outcome: Outcome)

  class Qfs3Compression {
    /** Bits of the window consumed and not yet refilled. */
    var subPtr: nat
    /** Per code length, the first code minus the number of shorter codes. */
    var huffTableCodes: seq<int>
    /** Per code length, the number of codes (after a leading 0). */
    var huffCharsPerLevel: seq<nat>
    /** Per code length, the end of its codes left-aligned to 16 bits (after a leading 0). */
    var depthTable: seq<nat>

    /** The state a new instance starts in, which uncompress relies on. */
    predicate Fresh()
      reads this
    {
      subPtr == 0 && huffTableCodes == seq(16, _ => 0) && huffCharsPerLevel == [0] && depthTable == [0]
    }

    constructor()
      ensures Fresh()
    {
      subPtr := 0;
      huffTableCodes := seq(16, _ => 0);
      huffCharsPerLevel := [0];
      depthTable := [0];
    }

    /** The tree loop: one two-mode integer per level, the count plus 4, until a level
        with codes fills the 16-bit code space or 15 levels are read; the code and depth
        tables are built on the way and the last depth entry becomes the sentinel. */
    method ReadTree(data: seq<byte>, buf: nat, fed: nat) returns (r: Parse<seq<nat>>, valueCount: nat, buf': nat, fed': nat)
      requires Windowed(data, buf, fed, subPtr) && subPtr < 8
      requires huffTableCodes == seq(16, _ => 0) && huffCharsPerLevel == [0] && depthTable == [0]
      modifies this
      ensures Pos(fed, old(subPtr)) >= 0 && r == TreeFrom(data, Pos(fed, old(subPtr)) as nat, [0])
      ensures r.Parsed? ==> huffCharsPerLevel == r.value && valueCount == Below(r.value, |r.value|)
      ensures r.Parsed? ==> huffTableCodes == CodeTable(r.value) && depthTable == DepthTable(r.value)
      ensures r.Parsed? ==> Windowed(data, buf', fed', subPtr) && subPtr < 8 && Pos(fed', subPtr) == r.next
    {
      WindowedCanonical(data, buf, fed, subPtr);
      LevelTablesInit();
      ghost var target := TreeFrom(data, Pos(fed, subPtr) as nat, [0]);
      var length := 1;
      var huffKey: nat := 0;
      valueCount := 0;
      buf', fed' := buf, fed;
      while length < 16
        invariant 1 <= length <= 16 && |huffCharsPerLevel| == length
        invariant Windowed(data, buf', fed', subPtr) && subPtr < 8 && Pos(fed', subPtr) >= 0
        invariant length < 16 ==> (TreePrefix(huffCharsPerLevel) &&
          target == TreeFrom(data, Pos(fed', subPtr) as nat, huffCharsPerLevel))
        invariant length == 16 ==> target == Parsed(huffCharsPerLevel, Pos(fed', subPtr) as nat)
        invariant LevelTables(huffCharsPerLevel, huffTableCodes, depthTable, huffKey, valueCount)
      {
        var level, valCheck;
        level, valCheck, huffKey, valueCount, buf', fed' := TreeRound(data, buf', fed', huffKey, valueCount, target);
        if level.ParseFault? {
          return ParseFault(level.fault), valueCount, buf', fed';
        }
        var val := level.value;
        length := length + 1;
        if val == 0 {
          continue;
        }
        if valCheck == 0 {
          break;
        }
      }
      LevelTablesFinal(huffCharsPerLevel, huffTableCodes, depthTable, huffKey, valueCount);
      depthTable := depthTable[|depthTable| - 1 := SENTINEL];
      r := Parsed(huffCharsPerLevel, Pos(fed', subPtr) as nat);
    }

    /** One round of the tree loop, up to the length checks: `huff_key <<= 1`, the
        level's code table entry, its count, and the tables grown by it. The loop ends
        after 15 levels, or when the count is not 0 and `val_check` is; `target`, what
        the levels read from here come to, is then the tree read so far. */
    method TreeRound(data: seq<byte>, buf: nat, fed: nat, huffKey: nat, valueCount: nat, ghost target: Parse<seq<nat>>)
      returns (level: Parse<nat>, valCheck: nat, huffKey': nat, valueCount': nat, buf': nat, fed': nat)
      requires Windowed(data, buf, fed, subPtr) && subPtr < 8 && Pos(fed, subPtr) >= 0
      requires TreePrefix(huffCharsPerLevel) && target == TreeFrom(data, Pos(fed, subPtr) as nat, huffCharsPerLevel)
      requires LevelTables(huffCharsPerLevel, huffTableCodes, depthTable, huffKey, valueCount)
      modifies this
      ensures level.ParseFault? ==> target == ParseFault(level.fault)
      ensures level.Parsed? ==>
        |huffCharsPerLevel| == |old(huffCharsPerLevel)| + 1 &&
        Windowed(data, buf', fed', subPtr) && subPtr < 8 && Pos(fed', subPtr) >= 0 &&
        LevelTables(huffCharsPerLevel, huffTableCodes, depthTable, huffKey', valueCount')
      ensures level.Parsed? ==>
        if |huffCharsPerLevel| == 16 || (level.value != 0 && valCheck == 0) then
          target == Parsed(huffCharsPerLevel, Pos(fed', subPtr) as nat)
        else
          TreePrefix(huffCharsPerLevel) && target == TreeFrom(data, Pos(fed', subPtr) as nat, huffCharsPerLevel)
    {
      ghost var counts, codes, limit := huffCharsPerLevel, huffTableCodes, huffKey;
      var length := |huffCharsPerLevel|;
      huffKey', valueCount', valCheck, buf', fed' := Shl(huffKey, 1), valueCount, 0, buf, fed;
      huffTableCodes := huffTableCodes[length := huffKey' - valueCount];
      level, buf', fed', subPtr := ReadLevel(data, buf, fed, subPtr, counts);
      if level.ParseFault? {
        return;
      }
      huffKey', valueCount', valCheck := AddLevel(length, huffKey', valueCount, level.value, codes, limit);
    }

    /** The rest of a tree loop round, after the level's count `val` is read: the count
        is appended, the limit and the number of codes grow by it, and the level's
        depth entry is computed and appended (0 for a level without codes). The code
        table entry of the level was written before the count was read. */
    method AddLevel(length: nat, huffKey: nat, valueCount: nat, val: nat, ghost codes: seq<int>, ghost limit: nat)
      returns (huffKey': nat, valueCount': nat, valCheck: nat)
      requires |huffCharsPerLevel| == length <= MAX_LEVEL
      requires LevelTables(huffCharsPerLevel, codes, depthTable, limit, valueCount)
      requires huffKey == Shl(limit, 1) && huffTableCodes == codes[length := huffKey - valueCount]
      modifies this`huffCharsPerLevel, this`depthTable
      ensures huffCharsPerLevel == old(huffCharsPerLevel) + [val]
      ensures LevelTables(huffCharsPerLevel, huffTableCodes, depthTable, huffKey', valueCount')
      ensures Stops(huffCharsPerLevel, length) <==> val != 0 && valCheck == 0
    {
      LevelTablesStep(huffCharsPerLevel, codes, depthTable, limit, valueCount, val);
      huffCharsPerLevel := huffCharsPerLevel + [val];
      huffKey' := huffKey + val;
      valueCount' := valueCount + val;
      valCheck := 0;
      if val != 0 {
        valCheck := Shl(huffKey', 16 - length) % SHORT;
      }
      depthTable := depthTable + [valCheck];
    }

    /** The alphabet loop: one two-mode integer per entry, the number of unused byte
        values to skip plus 3, until the table holds one entry per code (`char_table`
        is modelled by its filled prefix, `current_char` by its length). */
    method ReadAlphabet(data: seq<byte>, buf: nat, fed: nat, valueCount: nat) returns (r: Parse<seq<nat>>, buf': nat, fed': nat)
      requires Windowed(data, buf, fed, subPtr) && subPtr < 8
      modifies this`subPtr
      ensures Pos(fed, old(subPtr)) >= 0 && r == AlphabetFrom(data, Pos(fed, old(subPtr)) as nat, valueCount, [], 255)
      ensures r.Parsed? ==> Windowed(data, buf', fed', subPtr) && subPtr < 8 && Pos(fed', subPtr) == r.next
    {
      WindowedCanonical(data, buf, fed, subPtr);
      ghost var target := AlphabetFrom(data, Pos(fed, subPtr) as nat, valueCount, [], 255);
      var charTable: seq<nat> := [];
      var charValue: nat := 0xFF;
      buf', fed' := buf, fed;
      while true
        invariant Windowed(data, buf', fed', subPtr) && subPtr < 8 && Pos(fed', subPtr) >= 0
        invariant charValue < 256 && Distinct(charTable) && ByteValues(charTable)
        invariant |charTable| < valueCount || (valueCount == 0 && charTable == [])
        invariant target == AlphabetFrom(data, Pos(fed', subPtr) as nat, valueCount, charTable, charValue)
        decreases valueCount - |charTable|
      {
        var entry;
        entry, buf', fed', subPtr := ReadEntry(data, buf', fed', subPtr, valueCount, charTable, charValue);
        if entry.ParseFault? {
          return ParseFault(entry.fault), buf', fed';
        }
        charValue := entry.value;
        if |charTable| >= valueCount {
          return ParseFault(AlphabetOverrun), buf', fed';
        }
        charTable := charTable + [charValue];
        if |charTable| >= valueCount {
          break;
        }
      }
      r := Parsed(charTable, Pos(fed', subPtr) as nat);
    }

    /** The outer body loop (`while True:` with the length checks): it stops once the
        output has reached the size in the header, or after an abandoned lookup, and
        otherwise runs the inner loop again. The loop is given `fuel` rounds. */
    method DecodeBody(data: seq<byte>, chars: seq<nat>, escape: nat, guard: Guard, outSize: nat, out: ByteArray,
                      buf: nat, fed: nat, fuel: nat) returns (r: Outcome)
      requires Ready(Tables(depthTable, huffTableCodes, chars, escape, guard))
      requires Windowed(data, buf, fed, subPtr) && subPtr < 8 && out.bytes == []
      modifies this`subPtr, out
      ensures Pos(fed, old(subPtr)) >= 0
      ensures r == Body(data, Tables(depthTable, huffTableCodes, chars, escape, guard), outSize, Pos(fed, old(subPtr)) as nat, fuel)
      ensures r.Returned? ==> out.bytes == r.output
    {
      var t := Tables(depthTable, huffTableCodes, chars, escape, guard);
      TracksRefilled(data, buf, fed, subPtr);
      var p: nat := Pos(fed, subPtr);
      ghost var target := Body(data, t, outSize, p, fuel);
      ghost var c := At(p);
      var buf', fed' := buf, fed;
      var rounds := fuel;
      var breakOuter := false;
      while true
        invariant Tracks(data, buf', fed', subPtr, c)
        invariant breakOuter ==> target == Returned(out.bytes)
        invariant !breakOuter ==>
          target == if |out.bytes| >= outSize then Returned(out.bytes) else Run(data, t, outSize, out.bytes, c, rounds)
        decreases rounds, !breakOuter
      {
        if |out.bytes| > outSize {
          break;
        }
        if |out.bytes| == outSize {
          break;
        }
        if breakOuter {
          break;
        }
        var stop;
        stop, buf', fed', rounds, c := InnerLoop(data, t, outSize, out, buf', fed', rounds, c);
        match stop {
          case Stopped(outcome) =>
            return outcome;
          case Abandoned =>
            breakOuter := true;
          case EndMarkerRead =>
        }
      }
      r := Returned(out.bytes);
    }

    /** The inner body loop (the nested `while True:`): rounds until an end marker or an
        abandoned lookup; a fault, or running out of rounds, stops decoding. */
    method InnerLoop(data: seq<byte>, t: Tables, outSize: nat, out: ByteArray, buf: nat, fed: nat, rounds: nat, ghost c: Cursor)
      returns (stop: Inner, buf': nat, fed': nat, rounds': nat, ghost c': Cursor)
      requires Ready(t) && Tracks(data, buf, fed, subPtr, c)
      modifies this`subPtr, out
      ensures stop.Stopped? ==> Run(data, t, outSize, old(out.bytes), c, rounds) == stop.outcome && !stop.outcome.Returned?
      ensures !stop.Stopped? ==> rounds' < rounds && Tracks(data, buf', fed', subPtr, c')
      ensures stop.Abandoned? ==> Run(data, t, outSize, old(out.bytes), c, rounds) == Returned(out.bytes)
      ensures stop.EndMarkerRead? ==> (Run(data, t, outSize, old(out.bytes), c, rounds) ==
        if |out.bytes| >= outSize then Returned(out.bytes) else Run(data, t, outSize, out.bytes, c', rounds'))
    {
      ghost var target := Run(data, t, outSize, out.bytes, c, rounds);
      buf', fed', rounds', c' := buf, fed, rounds, c;
      while true
        invariant Tracks(data, buf', fed', subPtr, c') && rounds' <= rounds
        invariant target == Run(data, t, outSize, out.bytes, c', rounds')
        decreases rounds'
      {
        if rounds' == 0 {
          return Stopped(OutOfFuel), buf', fed', rounds', c';
        }
        var round;
        round, buf', fed' := RunRound(data, t, outSize, out, buf', fed', rounds', c');
        match round {
          case Continue(_, next) =>
            c' := next;
          case EndMarker(next) =>
            return EndMarkerRead, buf', fed', rounds' - 1, next;
          case Abandon =>
            return Abandoned, buf', fed', rounds' - 1, c';
          case StepFault(f) =>
            return Stopped(Raised(f)), buf', fed', rounds', c';
        }
        rounds' := rounds' - 1;
      }
    }

    /** One round of the inner loop, stated as the step it makes in Run: a literal or a
        repeat leaves Run to go on from the new output and cursor, an end marker leaves it
        to go on or return, and an abandoned lookup or a fault ends it. */
    method RunRound(data: seq<byte>, t: Tables, outSize: nat, out: ByteArray, buf: nat, fed: nat, rounds: nat, ghost c: Cursor)
      returns (round: Round, buf': nat, fed': nat)
      requires Ready(t) && Tracks(data, buf, fed, subPtr, c) && rounds > 0
      modifies this`subPtr, out
      ensures round.Continue? ==> (out.bytes == round.out && Tracks(data, buf', fed', subPtr, round.c)
        && Run(data, t, outSize, old(out.bytes), c, rounds) == Run(data, t, outSize, out.bytes, round.c, rounds - 1))
      ensures round.EndMarker? ==> (out.bytes == old(out.bytes) && Tracks(data, buf', fed', subPtr, round.c)
        && Run(data, t, outSize, old(out.bytes), c, rounds) ==
          if |out.bytes| >= outSize then Returned(out.bytes) else Run(data, t, outSize, out.bytes, round.c, rounds - 1))
      ensures round.Abandon? ==> (Run(data, t, outSize, old(out.bytes), c, rounds) == Returned(out.bytes)
        && Tracks(data, buf', fed', subPtr, c))
      ensures round.StepFault? ==> Run(data, t, outSize, old(out.bytes), c, rounds) == Raised(round.fault)
    {
      ghost var before := out.bytes;
      var sub;
      round, buf', fed', sub := DecodeRound(data, t, out, buf, fed, subPtr, c);
      subPtr := sub;
      match round {
        case Continue(more, next) =>
          RunContinue(data, t, outSize, before, c, rounds, more, next);
        case EndMarker(next) =>
          RunEndMarker(data, t, outSize, before, c, rounds, next);
        case Abandon =>
          RunStops(data, t, outSize, before, c, rounds);
        case StepFault(f) =>
          RunStops(data, t, outSize, before, c, rounds);
      }
    }

    /** uncompress: the header, the tree, the alphabet and the body. The header's magic
        (`file_header`) and the `input_length` argument are read or passed but not used.
        With `AsWritten` it makes the lookup the decoder writes, with `Corrected` the
        corrected one. */
    method Uncompress(data: seq<byte>, fuel: nat, guard: Guard) returns (r: Outcome)
      requires Fresh()
      modifies this
      ensures r == Decoded(data, fuel, guard)
    {
      if |data| < HEADER_SIZE {
        return Raised(HeaderTruncated);
      }
      var outSize := FromBig(data[2..5]);
      var charCount := data[5];
      var buf := FromBig(data[6..10]);
      HeaderWindow(data);
      var tree, valueCount, fed;
      tree, valueCount, buf, fed := ReadTree(data, buf, HEADER_SIZE);
      if tree.ParseFault? {
        return Raised(tree.fault);
      }
      var alphabet;
      alphabet, buf, fed := ReadAlphabet(data, buf, fed, valueCount);
      if alphabet.ParseFault? {
        return Raised(alphabet.fault);
      }
      var out := new ByteArray();
      r := DecodeBody(data, alphabet.value, charCount, guard, outSize, out, buf, fed, fuel);
    }
  }

  /** Reads one level of the tree (`val, buf, self.sub_ptr = self.count_bits(...)`
      and `val -= 4`): the count of codes, and where the levels go from there. */
  method ReadLevel(data: seq<byte>, buf: nat, fed: nat, sub: nat, ghost counts: seq<nat>)
    returns (r: Parse<nat>, buf': nat, fed': nat, sub': nat)
    requires Windowed(data, buf, fed, sub) && sub < 8 && TreePrefix(counts)
    ensures Pos(fed, sub) >= 0
    ensures r.ParseFault? ==> TreeFrom(data, Pos(fed, sub) as nat, counts) == ParseFault(r.fault)
    ensures r.Parsed? ==> Windowed(data, buf', fed', sub') && sub' < 8 && Pos(fed', sub') == r.next
    ensures r.Parsed? ==>
      var more := counts + [r.value];
      if |counts| == MAX_LEVEL || Stops(more, |counts|) then TreeFrom(data, Pos(fed, sub) as nat, counts) == Parsed(more, r.next)
      else TreePrefix(more) && TreeFrom(data, Pos(fed, sub) as nat, counts) == TreeFrom(data, r.next, more)
  {
    WindowedCanonical(data, buf, fed, sub);
    var p: nat := Pos(fed, sub);
    buf', fed', sub' := buf, fed, sub;
    if !OneAhead(data, p) {
      return ParseFault(Hang), buf', fed', sub';
    }
    var ok, val;
    ok, val, buf', sub', fed' := CountBits(data, buf, fed, sub);
    if !ok {
      return ParseFault(CodeTooWide), buf', fed', sub';
    }
    TreeFromStep(data, p, counts);
    WindowedCanonical(data, buf', fed', sub');
    r := Parsed(val - 4, Pos(fed', sub') as nat);
  }

  /** One level of TreeFrom: the count read is the integer minus 4, and the levels end
      with it after 15 levels or when it stops the loop, and go on from it otherwise. */
  lemma TreeFromStep(data: seq<byte>, p: nat, counts: seq<nat>)
    requires TreePrefix(counts) && OneAhead(data, p) && VarintRead(data, p).Read?
    ensures VarintRead(data, p).value >= 4
    ensures var more := counts + [VarintRead(data, p).value - 4];
      var next := p + VarintRead(data, p).width;
      if |counts| == MAX_LEVEL || Stops(more, |counts|) then TreeFrom(data, p, counts) == Parsed(more, next)
      else TreePrefix(more) && TreeFrom(data, p, counts) == TreeFrom(data, next, more)
  {
    VarintRange(data, p);
    ExtendLevels(counts, VarintRead(data, p).value - 4);
  }

  /** Reads one alphabet entry (`val, buf, self.sub_ptr = self.count_bits(...)`, then
      the skip loop): the byte value k - 3 unused values past v, k being the integer
      read, and where the alphabet goes from there. */
  method ReadEntry(data: seq<byte>, buf: nat, fed: nat, sub: nat, n: nat, table: seq<nat>, v: nat)
    returns (r: Parse<nat>, buf': nat, fed': nat, sub': nat)
    requires Windowed(data, buf, fed, sub) && sub < 8
    requires v < 256 && Distinct(table) && ByteValues(table) && (|table| < n || (n == 0 && table == []))
    ensures Pos(fed, sub) >= 0
    ensures r.ParseFault? ==> AlphabetFrom(data, Pos(fed, sub) as nat, n, table, v) == ParseFault(r.fault)
    ensures r.Parsed? ==> Windowed(data, buf', fed', sub') && sub' < 8 && Pos(fed', sub') == r.next
    ensures r.Parsed? ==> r.value < 256 && r.value !in table
    ensures r.Parsed? && n == 0 ==> AlphabetFrom(data, Pos(fed, sub) as nat, n, table, v) == ParseFault(AlphabetOverrun)
    ensures r.Parsed? && n > 0 ==>
      var more := table + [r.value];
      Distinct(more) && ByteValues(more) &&
      if |more| >= n then AlphabetFrom(data, Pos(fed, sub) as nat, n, table, v) == Parsed(more, r.next)
      else AlphabetFrom(data, Pos(fed, sub) as nat, n, table, v) == AlphabetFrom(data, r.next, n, more, r.value)
  {
    WindowedCanonical(data, buf, fed, sub);
    var p: nat := Pos(fed, sub);
    buf', fed', sub' := buf, fed, sub;
    if !OneAhead(data, p) {
      return ParseFault(Hang), buf', fed', sub';
    }
    var ok, val;
    ok, val, buf', sub', fed' := CountBits(data, buf, fed, sub);
    if !ok {
      return ParseFault(CodeTooWide), buf', fed', sub';
    }
    if !Room(table) {
      return ParseFault(Hang), buf', fed', sub';
    }
    AlphabetFromStep(data, p, n, table, v);
    var charValue := SkipUnused(table, v, val - 3);
    WindowedCanonical(data, buf', fed', sub');
    r := Parsed(charValue, Pos(fed', sub') as nat);
  }

  /** One entry of AlphabetFrom, once the integer k is read and the table has room: the
      entry is the value k - 3 unused values past v; an empty alphabet has no slot for
      it, and otherwise the alphabet ends with it or goes on from it. */
  lemma AlphabetFromStep(data: seq<byte>, p: nat, n: nat, table: seq<nat>, v: nat)
    requires v < 256 && Distinct(table) && ByteValues(table) && (|table| < n || (n == 0 && table == []))
    requires OneAhead(data, p) && VarintRead(data, p).Read? && Room(table)
    ensures VarintRead(data, p).value >= 4
    ensures var u := Skip(table, v, VarintRead(data, p).value - 3);
      var next, more := p + VarintRead(data, p).width, table + [u];
      u < 256 && u !in table &&
      (n == 0 ==> AlphabetFrom(data, p, n, table, v) == ParseFault(AlphabetOverrun)) &&
      (n > 0 ==> (Distinct(more) && ByteValues(more) &&
        if |more| >= n then AlphabetFrom(data, p, n, table, v) == Parsed(more, next)
        else AlphabetFrom(data, p, n, table, v) == AlphabetFrom(data, next, n, more, u)))
  {
    VarintRange(data, p);
    var u := Skip(table, v, VarintRead(data, p).value - 3);
    if n > 0 && |table + [u]| >= n {
      DistinctBound(table + [u]);
    }
  }

  /** The length search and the rank of the symbol at the front of the window (`huff_key
      = buf >> 16` to the rank check) as the decoder writes them: the search stops at the
      first level whose depth entry is not below the window, and a rank equal to the
      alphabet size passes the `>` guard and indexes past the alphabet. */
  method FindSymbolAsWritten(depth: seq<nat>, codes: seq<int>, n: nat, buf: nat) returns (found: Lookup)
    requires LookupTables(depth, codes) && buf < 2 * WORD
    ensures found == LookupAsWritten(depth, codes, n, buf)
  {
    Pow2Word();
    ShrBound(buf, 17, 16);
    assert Pow2(17) == 0x2_0000 by {
      Pow2Short();
    }
    var huffKey := Shr(buf, 16);
    var readValLen := 1;
    while huffKey > depth[readValLen]
      invariant 1 <= readValLen < |depth|
      invariant SearchAsWritten(depth, huffKey, readValLen) == SearchAsWritten(depth, huffKey, 1)
      decreases |depth| - readValLen
    {
      readValLen := readValLen + 1;
    }
    var v := Shr(buf, 32 - readValLen) - codes[readValLen];
    var rank := v % 256;
    LookupAsWrittenOutcome(depth, codes, n, buf, readValLen, v, v / 256, rank);
    if rank > n {
      return Abort;
    }
    if rank == n {
      return IndexError;
    }
    found := Symbol(readValLen, rank);
  }

  /** The same lookup corrected: the search stops at the first level whose depth entry
      lies above the window, and the rank is checked against the alphabet size with
      `>=`. */
  method FindSymbol(depth: seq<nat>, codes: seq<int>, n: nat, buf: nat) returns (found: Lookup)
    requires LookupTables(depth, codes) && buf < 2 * WORD
    ensures found == LookupSymbol(depth, codes, n, buf)
  {
    Pow2Word();
    ShrBound(buf, 17, 16);
    assert Pow2(17) == 0x2_0000 by {
      Pow2Short();
    }
    var huffKey := Shr(buf, 16);
    var readValLen := 1;
    while huffKey >= depth[readValLen]
      invariant 1 <= readValLen < |depth|
      invariant Search(depth, huffKey, readValLen) == Search(depth, huffKey, 1)
      decreases |depth| - readValLen
    {
      readValLen := readValLen + 1;
    }
    var v := Shr(buf, 32 - readValLen) - codes[readValLen];
    var rank := v % 256;
    LookupOutcome(depth, codes, n, buf, readValLen, v, v / 256, rank);
    if rank >= n {
      return Abort;
    }
    found := Symbol(readValLen, rank);
  }

  /** The lookup the tables call for, at the window buf. */
  method FindIn(t: Tables, buf: nat) returns (found: Lookup)
    requires Ready(t) && buf < 2 * WORD
    ensures found == Find(t, buf)
  {
    if t.guard == AsWritten {
      found := FindSymbolAsWritten(t.depth, t.codes, |t.chars|, buf);
    } else {
      found := FindSymbol(t.depth, t.codes, |t.chars|, buf);
    }
  }

  /** One round of the inner decode loop: the symbol at the front of the window is
      looked up; a literal is appended and its code consumed; the escape's code is
      consumed and EscapeTail reads what follows it. */
  method DecodeRound(data: seq<byte>, t: Tables, out: ByteArray, buf: nat, fed: nat, sub: nat, ghost c: Cursor)
    returns (r: Round, buf': nat, fed': nat, sub': nat)
    requires Ready(t) && Tracks(data, buf, fed, sub, c)
    modifies out
    ensures r == Step(data, t, old(out.bytes), c)
    ensures r.Continue? ==> out.bytes == r.out && Tracks(data, buf', fed', sub', r.c)
    ensures r.EndMarker? ==> out.bytes == old(out.bytes) && Tracks(data, buf', fed', sub', r.c)
    ensures r.Abandon? ==> out.bytes == old(out.bytes) && buf' == buf && fed' == fed && sub' == sub
  {
    var p: nat := Pos(fed, sub);
    buf', fed', sub' := buf, fed, sub;
    var found := FindIn(t, buf);
    if found.IndexError? {
      return StepFault(RankPastAlphabet), buf', fed', sub';
    }
    if !found.Symbol? {
      return Abandon, buf', fed', sub';
    }
    var ch := t.chars[found.rank];
    if ch != t.escape {
      var _ := AppendToOutput(out, ch);
      buf', fed', sub' := Consume(data, buf, fed, sub, found.len, c);
      return Continue(out.bytes, At(p + found.len)), buf', fed', sub';
    }
    buf', fed', sub' := Consume(data, buf, fed, sub, found.len, c);
    r, buf', fed', sub' := EscapeTail(data, out, buf', fed', sub', p + found.len);
  }

  /** The tree loop's tables after the levels `counts` (the leading 0 included):
      `limit` is one past the last code of the last level, `below` the number of codes
      so far, and the code and depth tables hold one entry per level read. */
  predicate LevelTables(counts: seq<nat>, codes: seq<int>, depth: seq<nat>, limit: nat, below: nat)
  {
    1 <= |counts| <= 16 && counts[0] == 0 &&
    limit == Limit(counts, |counts| - 1) && below == Below(counts, |counts|) &&
    |codes| == 16 &&
    (forall L :: 1 <= L < |counts| ==> codes[L] == First(counts, L) - Below(counts, L)) &&
    (forall L :: 0 <= L < 16 && !(1 <= L < |counts|) ==> codes[L] == 0) &&
    |depth| == |counts| && depth[0] == 0 &&
    (forall L :: 1 <= L < |counts| && L <= MAX_LEVEL ==> depth[L] == DepthEntry(counts, L))
  }

  /** The tables of a new instance are those of no level read. */
  lemma LevelTablesInit()
    ensures LevelTables([0], seq(16, _ => 0), [0], 0, 0)
  {
    assert Limit([0], 0) == 0;
  }

  /** One round of the tree loop, reading a level of c codes, keeps the tables in step:
      the level's code table entry is the doubled limit minus the codes so far, and its
      depth entry is the new limit left-aligned to 16 bits, or 0 without codes. */
  lemma LevelTablesStep(counts: seq<nat>, codes: seq<int>, depth: seq<nat>, limit: nat, below: nat, c: nat)
    requires LevelTables(counts, codes, depth, limit, below) && |counts| <= MAX_LEVEL
    ensures var first := Shl(limit, 1);
      var check := if c == 0 then 0 else Shl(first + c, 16 - |counts|) % SHORT;
      LevelTables(counts + [c], codes[|counts| := first - below], depth + [check], first + c, below + c) &&
      check == DepthEntry(counts + [c], |counts|)
  {
    var length, more := |counts|, counts + [c];
    PrefixLevels(counts, more);
    assert more[length - 1] == counts[length - 1] && more[length] == c;
    assert Shl(limit, 1) == 2 * limit;
  }

  /** When the loop ends on a complete tree, its tables are the code table and, with
      the sentinel written over the last entry, the depth table of the counts read. */
  lemma LevelTablesFinal(counts: seq<nat>, codes: seq<int>, depth: seq<nat>, limit: nat, below: nat)
    requires LevelTables(counts, codes, depth, limit, below) && TreeShape(counts)
    ensures codes == CodeTable(counts) && depth[|depth| - 1 := SENTINEL] == DepthTable(counts)
    ensures below == Below(counts, |counts|)
  {
  }
}
