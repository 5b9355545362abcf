/** What the QFS3 decoder computes, stated over the whole input: the header, the tree
    levels, the alphabet and the body, each as a function of the byte stream and a bit
    position in it.

    Layout of a stream: a 2-byte magic, the 3-byte big-endian output size, the escape
    byte, and from byte 6 (bit 48) on a bit stream read most significant bit first:
    one two-mode integer per tree level (the level's code count plus 4), one per
    alphabet entry (the number of unused byte values to skip, plus 3), then the coded
    body. */
module Qfs3Format {
  import opened Bits
  import opened Qfs3Window
  import opened Qfs3Tree
  import opened Qfs3Alphabet
  import opened OutputBuffer

  /** Why decoding fails. */
  datatype Fault =
    | HeaderTruncated   // the input ends inside the 10 header bytes
    | CodeTooWide       // a two-mode integer of more than 32 bits: a negative shift
    | AlphabetOverrun   // an entry is written into an empty alphabet
    | NothingToRepeat   // a repeat before any output: there is no last byte
    | RankPastAlphabet  // a rank equal to the alphabet size: `char_table[val]` raises IndexError
    | Hang              // the decoder loops forever

  /** A part of the stream read up to bit position `next`, or the fault met on the way. */
  datatype Parse<T> = Parsed(value: T, next: nat) | ParseFault(fault: Fault)

  /** The decoder's result: its output, the fault it raises, or, for the body loop that
      has run `fuel` rounds without ending, no verdict. */
  datatype Outcome = Returned(output: seq<byte>) | Raised(fault: Fault) | OutOfFuel

  /** The header takes 10 bytes; the bit stream starts at byte 6. */
  const HEADER_SIZE: nat := 10
  const FIRST_BIT: nat := 48

  /** The output size: header bytes 2-4, big-endian. */
  function OutSize(data: seq<byte>): (n: nat)
    requires |data| >= HEADER_SIZE
    ensures n < 0x100_0000
  {
    FromBigBits(data, 2, 3);
    BitsValBound(data, 16, 24);
    Pow2Top();
    FromBig(data[2..5])
  }

  /** After the header the window holds the 32 stream bits from bit 48: header bytes
      6-9 read big-endian, with no bit consumed. */
  lemma HeaderWindow(data: seq<byte>)
    requires |data| >= HEADER_SIZE
    ensures Windowed(data, FromBig(data[6..10]), HEADER_SIZE, 0)
    ensures Pos(HEADER_SIZE, 0) == FIRST_BIT
  {
    FromBigBits(data, 6, 4);
  }

  // ---------------------------------------------------------------------
  // The tree levels

  /** The levels read so far: the leading 0 and one count per level, none of which
      stopped the loop. */
  predicate TreePrefix(counts: seq<nat>)
  {
    1 <= |counts| <= MAX_LEVEL && counts[0] == 0 &&
    forall L :: 1 <= L < |counts| ==> !Stops(counts, L)
  }

  /** A new level does not change whether the earlier levels stop the loop. */
  lemma ExtendLevels(counts: seq<nat>, c: nat)
    requires TreePrefix(counts)
    ensures forall L :: 1 <= L < |counts| ==> !Stops(counts + [c], L)
  {
    var more := counts + [c];
    forall L | 1 <= L < |counts|
      ensures !Stops(more, L)
    {
      assert counts == more[..|counts|] && more[L] == counts[L] && !Stops(counts, L);
      LevelsOfPrefix(counts, more, L);
    }
  }

  /** The tree levels from bit p on, after the levels `counts`: each level's count is a
      two-mode integer minus 4, and the levels end after 15 of them or at the first
      level that stops the loop. */
  function TreeFrom(data: seq<byte>, p: nat, counts: seq<nat>): (r: Parse<seq<nat>>)
    requires TreePrefix(counts)
    ensures r.Parsed? ==> TreeShape(r.value) && |counts| < |r.value| && r.value[..|counts|] == counts
    ensures r.Parsed? ==> r.next > p
    decreases MAX_LEVEL - |counts|
  {
    if !OneAhead(data, p) then ParseFault(Hang)
    else match VarintRead(data, p)
      case WideCode => ParseFault(CodeTooWide)
      case Read(v, w) =>
        VarintRange(data, p);
        var more := counts + [v - 4];
        ExtendLevels(counts, v - 4);
        if |counts| == MAX_LEVEL || Stops(more, |counts|) then Parsed(more, p + w)
        else
          var r := TreeFrom(data, p + w, more);
          assert r.Parsed? ==> r.value[..|counts|] == r.value[..|more|][..|counts|];
          r
  }

  // ---------------------------------------------------------------------
  // The alphabet

  /** The alphabet entries from bit p on, after the entries `table`, the last value
      reached being v, for a tree of n codes: each entry is the byte value that lies
      k - 3 unused values past the previous one, k being a two-mode integer. */
  function AlphabetFrom(data: seq<byte>, p: nat, n: nat, table: seq<nat>, v: nat): (r: Parse<seq<nat>>)
    requires v < 256 && Distinct(table) && ByteValues(table)
    requires |table| < n || (n == 0 && |table| == 0)
    ensures r.Parsed? ==> |r.value| == n && 1 <= n <= 256
    ensures r.Parsed? ==> Distinct(r.value) && ByteValues(r.value) && |table| < |r.value| && r.value[..|table|] == table
    ensures r.Parsed? ==> r.next > p
    decreases n - |table|
  {
    if !OneAhead(data, p) then ParseFault(Hang)
    else match VarintRead(data, p)
      case WideCode => ParseFault(CodeTooWide)
      case Read(k, w) =>
        VarintRange(data, p);
        if !Room(table) then ParseFault(Hang)
        else
          var u := Skip(table, v, k - 3);
          if n == 0 then ParseFault(AlphabetOverrun)
          else
            var more := table + [u];
            if |more| >= n then
              DistinctBound(more);
              Parsed(more, p + w)
            else
              var r := AlphabetFrom(data, p + w, n, more, u);
              assert r.Parsed? ==> r.value[..|table|] == r.value[..|more|][..|table|];
              r
  }

  // ---------------------------------------------------------------------
  // The body

  /** Which symbol lookup the body loop makes: the one the decoder writes (the search
      stopping at a depth entry equal to the window, the rank guard letting a rank equal
      to the alphabet size through), or the corrected one. */
  datatype Guard = AsWritten | Corrected

  /** The tables the body loop decodes with: depth and code tables from the tree, the
      alphabet, the escape byte from the header, and the lookup it makes. */
  datatype Tables = Tables(depth: seq<nat>, codes: seq<int>, chars: seq<nat>, escape: nat, guard: Guard)

  predicate Ready(t: Tables)
  {
    LookupTables(t.depth, t.codes) && ByteValues(t.chars)
  }

  /** The tables of a tree, with the corrected lookup. */
  function TablesOf(counts: seq<nat>, chars: seq<nat>, escape: nat): Tables
    requires TreeShape(counts)
  {
    Tables(DepthTable(counts), CodeTable(counts), chars, escape, Corrected)
  }

  /** The symbol lookup the tables call for, at the window value b. Every symbol found
      is a level of the tree and an entry of the alphabet. */
  function Find(t: Tables, b: nat): (r: Lookup)
    requires Ready(t) && b < 2 * WORD
    ensures r.Symbol? ==> 1 <= r.len < |t.depth| && r.rank < |t.chars|
  {
    if t.guard == AsWritten then LookupAsWritten(t.depth, t.codes, |t.chars|, b)
    else LookupSymbol(t.depth, t.codes, |t.chars|, b)
  }

  /** Where the body loop stands: the bit position, the number of bits the window
      misses, and whether a stray bit sits above the window (after an end marker that
      did not end the output). */
  datatype Cursor = Cursor(p: nat, sub: nat, stray: bool)

  /** A refilled window at bit p. */
  function At(p: nat): (c: Cursor)
    ensures c.sub < 8
  {
    Cursor(p, Mod8(p), false)
  }

  /** The value of the window at the cursor, stray bit included. */
  function Front(data: seq<byte>, c: Cursor): (b: nat)
    requires c.sub <= 8
    ensures b < 2 * WORD
  {
    WindowSmall(data, c.p, c.sub);
    (if c.stray then WORD else 0) + Window(data, c.p, c.sub)
  }

  datatype Round =
    | Continue(out: seq<byte>, c: Cursor)   // the inner loop goes on
    | EndMarker(c: Cursor)                  // the end marker: back to the length check
    | Abandon                               // a rank outside the alphabet: return
    | StepFault(fault: Fault)

  /** What follows the escape symbol and its integer k, read up to bit p: for k > 4,
      k - 4 copies of the last byte; for k = 4 a flag bit, then an 8-bit raw byte after
      a 0, or the end marker after a 1. */
  function Escape(data: seq<byte>, out: seq<byte>, p: nat, k: nat): (r: Round)
    requires k >= 4
    ensures r.Continue? ==> |r.out| > |out| && r.out[..|out|] == out && r.c.sub < 8 && !r.c.stray
    ensures r.EndMarker? ==> r.c.sub <= 8 && r.c.stray
  {
    if k == 4 then
      if Bit(data, p) == 1 then EndMarker(Cursor(p + 1, Mod8(p) + 1, true))
      else
        BitsValBound(data, p + 1, 8);
        Pow2Byte();
        Continue(out + [BitsVal(data, p + 1, 8) as byte], At(p + 9))
    else if |out| == 0 then StepFault(NothingToRepeat)
    else Continue(out + Repeat(Last(out), k - 4), At(p))
  }

  /** What follows the escape symbol, from bit p: its two-mode integer, then Escape. */
  function AfterEscape(data: seq<byte>, out: seq<byte>, p: nat): (r: Round)
    ensures r.Continue? ==> |r.out| > |out| && r.out[..|out|] == out && r.c.sub < 8 && !r.c.stray
    ensures r.EndMarker? ==> r.c.sub <= 8 && r.c.stray
  {
    if !OneAhead(data, p) then StepFault(Hang)
    else match VarintRead(data, p)
      case WideCode => StepFault(CodeTooWide)
      case Read(v, w) =>
        VarintRange(data, p);
        Escape(data, out, p + w, v)
  }

  /** One round of the inner decode loop: look up the symbol in front of the window;
      a rank past the alphabet abandons the loop, and as written a rank equal to its
      size raises; a literal is appended; the escape is followed by a two-mode integer
      and what Escape says. Every round that continues outputs at least one byte. */
  function Step(data: seq<byte>, t: Tables, out: seq<byte>, c: Cursor): (r: Round)
    requires Ready(t) && c.sub <= 8
    ensures r.Continue? ==> |r.out| > |out| && r.out[..|out|] == out && r.c.sub < 8 && !r.c.stray
    ensures r.EndMarker? ==> r.c.sub <= 8 && r.c.stray
  {
    var found := Find(t, Front(data, c));
    if found.IndexError? then StepFault(RankPastAlphabet)
    else if !found.Symbol? then Abandon
    else
      var p1 := c.p + found.len;
      var ch := t.chars[found.rank];
      if ch != t.escape then Continue(out + [ch as byte], At(p1))
      else AfterEscape(data, out, p1)
  }

  /** The two lookups make the same round unless the top half of the window equals a
      depth entry; where they differ otherwise, the written one raises at a rank equal to
      the alphabet size and the corrected one abandons the loop. */
  lemma GuardsAgree(data: seq<byte>, t: Tables, out: seq<byte>, c: Cursor)
    requires Ready(t) && c.sub <= 8
    requires forall M :: 1 <= M < |t.depth| ==> t.depth[M] != Shr(Front(data, c), 16)
    ensures var written := Step(data, t.(guard := AsWritten), out, c);
            var corrected := Step(data, t.(guard := Corrected), out, c);
            written == corrected || (written == StepFault(RankPastAlphabet) && corrected == Abandon)
  {
    LookupsAgree(t.depth, t.codes, |t.chars|, Front(data, c));
  }

  /** The body loop for at most `fuel` rounds: it returns after an abandoned lookup, or
      after an end marker once the output has reached the size in the header; an end
      marker before that leaves the stray bit in the window and decoding goes on. What
      it returns extends the output it started with. */
  function Run(data: seq<byte>, t: Tables, outSize: nat, out: seq<byte>, c: Cursor, fuel: nat): (r: Outcome)
    requires Ready(t) && c.sub <= 8
    ensures r.Returned? ==> |r.output| >= |out| && r.output[..|out|] == out
    decreases fuel, 1
  {
    if fuel == 0 then OutOfFuel else Advance(data, t, outSize, out, c, fuel)
  }

  /** One round of Run, then Run again with the rounds left. */
  function Advance(data: seq<byte>, t: Tables, outSize: nat, out: seq<byte>, c: Cursor, fuel: nat): (r: Outcome)
    requires Ready(t) && c.sub <= 8 && fuel > 0
    ensures r.Returned? ==> |r.output| >= |out| && r.output[..|out|] == out
    decreases fuel, 0
  {
    match Step(data, t, out, c)
      case Continue(more, next) =>
        var r := Run(data, t, outSize, more, next, fuel - 1);
        assert r.Returned? ==> r.output[..|out|] == r.output[..|more|][..|out|];
        r
      case EndMarker(next) =>
        if |out| >= outSize then Returned(out) else Run(data, t, outSize, out, next, fuel - 1)
      case Abandon => Returned(out)
      case StepFault(f) => Raised(f)
  }

  /** A round that continues: Run goes on from the new output and cursor. */
  lemma RunContinue(data: seq<byte>, t: Tables, outSize: nat, out: seq<byte>, c: Cursor, fuel: nat, more: seq<byte>, next: Cursor)
    requires Ready(t) && c.sub <= 8 && fuel > 0 && Step(data, t, out, c) == Continue(more, next)
    ensures next.sub <= 8 && Run(data, t, outSize, out, c, fuel) == Run(data, t, outSize, more, next, fuel - 1)
  {
  }

  /** An end marker: Run returns once the output has reached the size, and goes on from
      the marker otherwise. */
  lemma RunEndMarker(data: seq<byte>, t: Tables, outSize: nat, out: seq<byte>, c: Cursor, fuel: nat, next: Cursor)
    requires Ready(t) && c.sub <= 8 && fuel > 0 && Step(data, t, out, c) == EndMarker(next)
    ensures next.sub <= 8
    ensures Run(data, t, outSize, out, c, fuel) ==
      if |out| >= outSize then Returned(out) else Run(data, t, outSize, out, next, fuel - 1)
  {
  }

  /** An abandoned lookup ends Run with the output so far; a fault ends it with the fault. */
  lemma RunStops(data: seq<byte>, t: Tables, outSize: nat, out: seq<byte>, c: Cursor, fuel: nat)
    requires Ready(t) && c.sub <= 8 && fuel > 0
    ensures Step(data, t, out, c).Abandon? ==> Run(data, t, outSize, out, c, fuel) == Returned(out)
    ensures Step(data, t, out, c).StepFault? ==> Run(data, t, outSize, out, c, fuel) == Raised(Step(data, t, out, c).fault)
  {
  }

  /** The body from bit p: nothing when the header announces no output, otherwise the
      loop from a refilled window at p. */
  function Body(data: seq<byte>, t: Tables, outSize: nat, p: nat, fuel: nat): Outcome
    requires Ready(t)
  {
    if outSize == 0 then Returned([]) else Run(data, t, outSize, [], At(p), fuel)
  }

  /** The whole decoder: header, tree levels, alphabet and body, the body loop given
      `fuel` rounds and making the lookup `guard` names. */
  function Decoded(data: seq<byte>, fuel: nat, guard: Guard): Outcome
  {
    if |data| < HEADER_SIZE then Raised(HeaderTruncated)
    else match TreeFrom(data, FIRST_BIT, [0])
      case ParseFault(f) => Raised(f)
      case Parsed(counts, p1) =>
        match AlphabetFrom(data, p1, Below(counts, |counts|), [], 255)
          case ParseFault(f) => Raised(f)
          case Parsed(chars, p2) =>
            Body(data, Tables(DepthTable(counts), CodeTable(counts), chars, data[5], guard), OutSize(data), p2, fuel)
  }

  // ---------------------------------------------------------------------
  // Canonical decoding of the body

  /** The stream at bit p holds the canonical code of length L of alphabet entry r, for
      a tree the level loop can read that stays within the code space and an alphabet
      the alphabet loop can build for it. */
  predicate CodeAt(data: seq<byte>, counts: seq<nat>, chars: seq<nat>, p: nat, L: nat, r: nat)
  {
    TreeShape(counts) && NotOversubscribed(counts) &&
    |chars| == Below(counts, |counts|) && Distinct(chars) && ByteValues(chars) &&
    1 <= L < |counts| && Below(counts, L) <= r < Below(counts, L) + counts[L] && r < |chars| &&
    BitsVal(data, p, L) == First(counts, L) + (r - Below(counts, L))
  }

  /** The lookup at a refilled window finds the code in front of it. */
  lemma CodeFound(data: seq<byte>, counts: seq<nat>, chars: seq<nat>, escape: nat, p: nat, L: nat, r: nat)
    requires CodeAt(data, counts, chars, p, L, r)
    ensures LookupSymbol(DepthTable(counts), CodeTable(counts), |chars|, Front(data, At(p))) == Symbol(L, r)
    ensures Find(TablesOf(counts, chars, escape), Front(data, At(p))) == Symbol(L, r)
  {
    var s := Mod8(p);
    WindowSmall(data, p, s);
    WindowPeek(data, p, s, L);
    DistinctBound(chars);
    BelowMonotone(counts, L + 1, |counts|);
    LookupCanonical(counts, L, r, Window(data, p, s));
  }

  /** A literal: the code of a non-escape entry appends that entry and consumes the
      code. */
  lemma LiteralStep(data: seq<byte>, counts: seq<nat>, chars: seq<nat>, escape: nat, out: seq<byte>, p: nat, L: nat, r: nat)
    requires CodeAt(data, counts, chars, p, L, r) && chars[r] != escape
    ensures Step(data, TablesOf(counts, chars, escape), out, At(p)) == Continue(out + [chars[r] as byte], At(p + L))
  {
    CodeFound(data, counts, chars, escape, p, L, r);
  }

  /** The escape symbol followed by a readable integer k hands over to Escape. */
  lemma EscapeRound(data: seq<byte>, t: Tables, out: seq<byte>, p: nat, L: nat, r: nat, k: nat, w: nat)
    requires Ready(t) && r < |t.chars| && t.chars[r] == t.escape
    requires Find(t, Front(data, At(p))) == Symbol(L, r)
    requires OneAhead(data, p + L) && VarintRead(data, p + L) == Read(k, w) && k >= 4
    ensures Step(data, t, out, At(p)) == Escape(data, out, p + L + w, k)
  {
  }

  /** The code of the escape entry followed by an integer k that Gamma reads hands over
      to Escape after the code and the integer. */
  lemma EscapeFound(data: seq<byte>, counts: seq<nat>, chars: seq<nat>, escape: nat, out: seq<byte>,
                    p: nat, L: nat, r: nat, k: nat, w: nat)
    requires CodeAt(data, counts, chars, p, L, r) && chars[r] == escape
    requires OneAhead(data, p + L) && (Bit(data, p + L) == 0 ==> ZeroRun(data, p + L) <= 22)
    requires Gamma(data, p + L) == Read(k, w) && k >= 4
    ensures Step(data, TablesOf(counts, chars, escape), out, At(p)) == Escape(data, out, p + L + w, k)
  {
    CodeFound(data, counts, chars, escape, p, L, r);
    VarintMatchesGamma(data, p + L);
    EscapeRound(data, TablesOf(counts, chars, escape), out, p, L, r, k, w);
  }

  /** The escape followed by the integer k > 4 (read without limit, as Gamma does) appends
      k - 4 copies of the last byte. */
  lemma RepeatStep(data: seq<byte>, counts: seq<nat>, chars: seq<nat>, escape: nat, out: seq<byte>,
                   p: nat, L: nat, r: nat, k: nat, w: nat)
    requires CodeAt(data, counts, chars, p, L, r) && chars[r] == escape
    requires OneAhead(data, p + L) && (Bit(data, p + L) == 0 ==> ZeroRun(data, p + L) <= 22)
    requires Gamma(data, p + L) == Read(k, w) && k > 4 && |out| > 0
    ensures Step(data, TablesOf(counts, chars, escape), out, At(p)) == Continue(out + Repeat(Last(out), k - 4), At(p + L + w))
  {
    EscapeFound(data, counts, chars, escape, out, p, L, r, k, w);
  }

  /** The escape followed by the integer 4 and a 0 bit appends the next 8 bits as a raw
      byte. */
  lemma RawByteStep(data: seq<byte>, counts: seq<nat>, chars: seq<nat>, escape: nat, out: seq<byte>,
                    p: nat, L: nat, r: nat, w: nat)
    requires CodeAt(data, counts, chars, p, L, r) && chars[r] == escape
    requires OneAhead(data, p + L) && (Bit(data, p + L) == 0 ==> ZeroRun(data, p + L) <= 22)
    requires Gamma(data, p + L) == Read(4, w) && Bit(data, p + L + w) == 0
    ensures BitsVal(data, p + L + w + 1, 8) < 256
    ensures Step(data, TablesOf(counts, chars, escape), out, At(p))
            == Continue(out + [BitsVal(data, p + L + w + 1, 8) as byte], At(p + L + w + 9))
  {
    EscapeFound(data, counts, chars, escape, out, p, L, r, 4, w);
    RawEscape(data, out, p + L + w);
  }

  /** Escape with the integer 4 and a 0 flag bit at q appends the byte after it. */
  lemma RawEscape(data: seq<byte>, out: seq<byte>, q: nat)
    requires Bit(data, q) == 0
    ensures BitsVal(data, q + 1, 8) < 256
    ensures Escape(data, out, q, 4) == Continue(out + [BitsVal(data, q + 1, 8) as byte], At(q + 9))
  {
    BitsValBound(data, q + 1, 8);
    Pow2Byte();
  }

  /** The escape followed by the integer 4 and a 1 bit is the end marker; the flag bit is
      shifted out without masking, so it stays above the window. */
  lemma EndMarkerStep(data: seq<byte>, counts: seq<nat>, chars: seq<nat>, escape: nat, out: seq<byte>,
                      p: nat, L: nat, r: nat, w: nat)
    requires CodeAt(data, counts, chars, p, L, r) && chars[r] == escape
    requires OneAhead(data, p + L) && (Bit(data, p + L) == 0 ==> ZeroRun(data, p + L) <= 22)
    requires Gamma(data, p + L) == Read(4, w) && Bit(data, p + L + w) == 1
    ensures Step(data, TablesOf(counts, chars, escape), out, At(p))
            == EndMarker(Cursor(p + L + w + 1, Mod8(p + L + w) + 1, true))
  {
    EscapeFound(data, counts, chars, escape, out, p, L, r, 4, w);
    EndEscape(data, out, p + L + w);
  }

  /** Escape with the integer 4 and a 1 flag bit at q is the end marker, with the flag
      bit left above the window. */
  lemma EndEscape(data: seq<byte>, out: seq<byte>, q: nat)
    requires Bit(data, q) == 1
    ensures Escape(data, out, q, 4) == EndMarker(Cursor(q + 1, Mod8(q) + 1, true))
  {
  }

  /** After an end marker that does not end the output, the stray bit above the window
      sends the next lookup to the last level of the tree. */
  lemma StrayLookup(data: seq<byte>, counts: seq<nat>, chars: seq<nat>, c: Cursor)
    requires TreeShape(counts) && c.sub <= 8 && c.stray
    ensures var found := LookupSymbol(DepthTable(counts), CodeTable(counts), |chars|, Front(data, c));
            found.Symbol? ==> found.len == |counts| - 1
  {
    var w := Window(data, c.p, c.sub);
    WindowSmall(data, c.p, c.sub);
    StrayTop(w);
    StrayWindowSearch(counts, Shr(WORD + w, 16));
  }

  /** The top bits of a window with the stray bit above it lie between the last level's
      bound and the sentinel. */
  lemma StrayTop(w: nat)
    requires w < WORD
    ensures SHORT <= Shr(WORD + w, 16) < 0x2_0000
  {
    Pow2Shl(16, 16);
    Pow2Short();
    Pow2Word();
    ShrAddShl(w, SHORT, 16);
    ShrBound(WORD + w, 17, 16);
    Pow2Shl(8, 9);
    Pow2Byte();
    assert Pow2(17) == 0x2_0000;
  }
}
