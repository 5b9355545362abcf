/** The canonical Huffman level table of the QFS3 decoder.

    The header of a QFS3 stream lists, for each code length L = 1, 2, ..., the number
    of codes of that length. In this module `counts[L]` is that number and `counts[0]`
    is the 0 the table starts with. From the counts the decoder derives, per level:
    the first canonical code, the code table entry (first code minus the number of
    shorter codes, so that a code minus its entry is the symbol's rank) and the depth
    table entry (the 16-bit left-aligned end of the level's codes), and it decodes a
    symbol by searching the depth table for the first level whose end lies above the
    next 16 stream bits. */
module Qfs3Tree {
  import opened Bits

  /** The value written over the last depth table entry. */
  const SENTINEL: nat := 0xFFFF_FFFF

  /** 2^16: `& 0xFFFF` is `% SHORT`. */
  const SHORT: nat := 0x1_0000

  /** The number of levels the tree loop reads at most. */
  const MAX_LEVEL: nat := 15

  /** The first canonical code of length L, by the recurrence of section 3.2.2 of
      RFC 1951: the code after the last code of length L - 1, shifted left once. */
  function First(counts: seq<nat>, L: nat): nat
    requires L <= |counts|
  {
    if L == 0 then 0 else 2 * (First(counts, L - 1) + counts[L - 1])
  }

  /** The number of codes shorter than L. */
  function Below(counts: seq<nat>, L: nat): nat
    requires L <= |counts|
  {
    if L == 0 then 0 else Below(counts, L - 1) + counts[L - 1]
  }

  /** One past the last code of length L. */
  function Limit(counts: seq<nat>, L: nat): nat
    requires L < |counts|
  {
    First(counts, L) + counts[L]
  }

  /** The depth table entry of level L: the end of its codes, left-aligned to 16 bits
      and masked to 16 bits, or 0 for a level without codes. */
  function DepthEntry(counts: seq<nat>, L: nat): nat
    requires 1 <= L <= MAX_LEVEL && L < |counts|
  {
    if counts[L] != 0 then Shl(Limit(counts, L), 16 - L) % SHORT else 0
  }

  /** The tree loop stops after level L: it has codes and its masked end is 0. */
  predicate Stops(counts: seq<nat>, L: nat)
    requires 1 <= L <= MAX_LEVEL && L < |counts|
  {
    counts[L] != 0 && DepthEntry(counts, L) == 0
  }

  /** The counts the tree loop can read: the leading 0, then one count per level up to
      the first level that stops, or 15 levels. */
  predicate TreeShape(counts: seq<nat>)
  {
    2 <= |counts| <= MAX_LEVEL + 1 && counts[0] == 0 &&
    (forall L :: 1 <= L < |counts| - 1 ==> !Stops(counts, L)) &&
    (|counts| == MAX_LEVEL + 1 || Stops(counts, |counts| - 1))
  }

  /** No level runs past the code space: at most 2^L codes of length L or shorter,
      weighted as Kraft's inequality weighs them. */
  predicate NotOversubscribed(counts: seq<nat>)
  {
    forall L :: 1 <= L < |counts| ==> Limit(counts, L) <= Pow2(L)
  }

  /** The depth table after the tree loop: a 0, one entry per level, and the sentinel
      written over the last one. */
  function DepthTable(counts: seq<nat>): (d: seq<nat>)
    requires 2 <= |counts| <= MAX_LEVEL + 1
    ensures |d| == |counts| && d[0] == 0 && d[|d| - 1] == SENTINEL
    ensures forall L :: 1 <= L < |d| - 1 ==> d[L] == DepthEntry(counts, L)
  {
    seq(|counts|, i requires 0 <= i < |counts| =>
      if i == 0 then 0 else if i == |counts| - 1 then SENTINEL else DepthEntry(counts, i))
  }

  /** The code table after the tree loop: first code minus shorter codes per level,
      and the initial zeros elsewhere. */
  function CodeTable(counts: seq<nat>): (c: seq<int>)
    requires |counts| <= MAX_LEVEL + 1
    ensures |c| == 16
    ensures forall L :: 1 <= L < |counts| ==> c[L] == First(counts, L) - Below(counts, L)
    ensures forall L :: 0 <= L < 16 && !(1 <= L < |counts|) ==> c[L] == 0
  {
    seq(16, L requires 0 <= L < 16 =>
      if 1 <= L < |counts| then First(counts, L) - Below(counts, L) else 0)
  }

  // ---------------------------------------------------------------------
  // Length search and symbol lookup

  /** The first level at or after L whose depth entry lies above w. */
  function Search(depth: seq<nat>, w: nat, L: nat): (r: nat)
    requires 1 <= L < |depth| && w < depth[|depth| - 1]
    ensures L <= r < |depth| && w < depth[r]
    ensures forall i :: L <= i < r ==> depth[i] <= w
    decreases |depth| - L
  {
    if w < depth[L] then L else Search(depth, w, L + 1)
  }

  /** The search as the decoder writes it: stop at the first level whose depth entry
      is not below w. */
  function SearchAsWritten(depth: seq<nat>, w: nat, L: nat): (r: nat)
    requires 1 <= L < |depth| && w <= depth[|depth| - 1]
    ensures L <= r < |depth| && w <= depth[r]
    ensures forall i :: L <= i < r ==> depth[i] < w
    decreases |depth| - L
  {
    if w <= depth[L] then L else SearchAsWritten(depth, w, L + 1)
  }

  datatype Lookup =
    | Symbol(len: nat, rank: nat)   // a code of `len` bits for alphabet entry `rank`
    | Abort                         // the rank lies outside the alphabet
    | IndexError                    // the alphabet is indexed past its end

  /** The tables a symbol lookup consults. */
  predicate LookupTables(depth: seq<nat>, codes: seq<int>)
  {
    2 <= |depth| <= 16 && |codes| == 16 && depth[|depth| - 1] == SENTINEL
  }

  /** Looks up the symbol at the front of the window b (a 32-bit window, plus bit 32
      when a stray bit was shifted up): the length search on its top 16 bits, then the
      rank of its top `len` bits, masked to 8 bits. A rank at or past the end of the
      alphabet (n entries) aborts, so every symbol found indexes the alphabet. */
  function LookupSymbol(depth: seq<nat>, codes: seq<int>, n: nat, b: nat): (r: Lookup)
    requires LookupTables(depth, codes) && b < 2 * 0x1_0000_0000
    ensures r.Symbol? ==> 1 <= r.len < |depth| && r.rank < n && r.rank < 256
    ensures r != IndexError
  {
    Pow2Word();
    ShrBound(b, 17, 16);
    Pow2Byte();
    Pow2Shl(8, 9);
    assert Pow2(17) == 0x2_0000 by { Pow2Short(); }
    var L := Search(depth, Shr(b, 16), 1);
    var rank := (Shr(b, 32 - L) - codes[L]) % 256;
    if rank >= n then Abort else Symbol(L, rank)
  }

  /** The lookup as the decoder writes it: the search of SearchAsWritten, and a rank
      equal to the alphabet size passes the guard and indexes past the end. */
  function LookupAsWritten(depth: seq<nat>, codes: seq<int>, n: nat, b: nat): (r: Lookup)
    requires LookupTables(depth, codes) && b < 2 * 0x1_0000_0000
    ensures r.Symbol? ==> 1 <= r.len < |depth| && r.rank < n && r.rank < 256
  {
    Pow2Word();
    ShrBound(b, 17, 16);
    assert Pow2(17) == 0x2_0000 by { Pow2Short(); }
    var L := SearchAsWritten(depth, Shr(b, 16), 1);
    var rank := (Shr(b, 32 - L) - codes[L]) % 256;
    if rank > n then Abort else if rank == n then IndexError else Symbol(L, rank)
  }

  // ---------------------------------------------------------------------
  // The first-code recurrence

  /** The code space the codes shorter than k take up at length L: the sum of
      counts[i] * 2^(L - i) over i < k. */
  function CodeSpace(counts: seq<nat>, L: nat, k: nat): nat
    requires k <= L + 1 && k <= |counts|
  {
    if k == 0 then 0 else CodeSpace(counts, L, k - 1) + Shl(counts[k - 1], L - (k - 1))
  }

  lemma {:induction false} CodeSpaceDouble(counts: seq<nat>, L: nat, k: nat)
    requires k <= L + 1 && k <= |counts|
    ensures CodeSpace(counts, L + 1, k) == 2 * CodeSpace(counts, L, k)
  {
    if k > 0 {
      CodeSpaceDouble(counts, L, k - 1);
    }
  }

  /** The first code of length L is the code space all shorter codes take up at length L
      (the closed form of the recurrence of section 3.2.2 of RFC 1951). */
  lemma {:induction false} FirstIsCodeSpace(counts: seq<nat>, L: nat)
    requires L <= |counts|
    ensures First(counts, L) == CodeSpace(counts, L, L)
  {
    if L > 0 {
      FirstIsCodeSpace(counts, L - 1);
      CodeSpaceDouble(counts, L - 1, L - 1);
      assert Shl(counts[L - 1], 1) == 2 * counts[L - 1];
    }
  }

  /** First codes are at least the number of shorter codes, so code table entries are
      never negative. */
  lemma {:induction false} FirstAtLeastBelow(counts: seq<nat>, L: nat)
    requires L <= |counts|
    ensures First(counts, L) >= Below(counts, L)
  {
    if L > 0 {
      FirstAtLeastBelow(counts, L - 1);
    }
  }

  lemma {:induction false} BelowMonotone(counts: seq<nat>, L: nat, M: nat)
    requires L <= M <= |counts|
    ensures Below(counts, L) <= Below(counts, M)
    decreases M - L
  {
    if L < M {
      BelowMonotone(counts, L, M - 1);
    }
  }

  /** The first code of a level and the number of codes below it depend only on the
      counts of the levels before it. */
  lemma {:induction false} LevelsOfPrefix(counts: seq<nat>, more: seq<nat>, L: nat)
    requires L <= |counts| <= |more| && counts == more[..|counts|]
    ensures First(counts, L) == First(more, L) && Below(counts, L) == Below(more, L)
  {
    if L > 0 {
      LevelsOfPrefix(counts, more, L - 1);
      assert counts[L - 1] == more[L - 1];
    }
  }

  /** Reading a further level leaves the earlier levels' first codes, code counts and
      depth entries as they were. */
  lemma PrefixLevels(counts: seq<nat>, more: seq<nat>)
    requires |counts| <= |more| && counts == more[..|counts|]
    ensures forall L :: 0 <= L <= |counts| ==> First(counts, L) == First(more, L) && Below(counts, L) == Below(more, L)
    ensures forall L :: 1 <= L < |counts| && L <= MAX_LEVEL ==> DepthEntry(counts, L) == DepthEntry(more, L)
  {
    forall L | 0 <= L <= |counts|
      ensures First(counts, L) == First(more, L) && Below(counts, L) == Below(more, L)
    {
      LevelsOfPrefix(counts, more, L);
    }
    forall L | 1 <= L < |counts| && L <= MAX_LEVEL
      ensures DepthEntry(counts, L) == DepthEntry(more, L)
    {
      LevelsOfPrefix(counts, more, L);
      assert counts[L] == more[L];
    }
  }

  // ---------------------------------------------------------------------
  // Ordering of the levels

  /** The end of level L, left-aligned to 16 bits, is where level L + 1 starts. */
  lemma NextStart(counts: seq<nat>, L: nat)
    requires L + 1 < |counts| && L + 1 <= 16
    ensures Shl(First(counts, L + 1), 16 - (L + 1)) == Shl(Limit(counts, L), 16 - L)
  {
    ShlAdd(Limit(counts, L), 1, 16 - (L + 1));
  }

  /** Left-aligned to 16 bits, every level L ends at or before level M starts, M > L. */
  lemma {:induction false} LevelsInOrder(counts: seq<nat>, L: nat, M: nat)
    requires L < M < |counts| && M <= 16
    ensures Shl(Limit(counts, L), 16 - L) <= Shl(First(counts, M), 16 - M)
    decreases M - L
  {
    NextStart(counts, M - 1);
    if L < M - 1 {
      LevelsInOrder(counts, L, M - 1);
      ShlMonotone(First(counts, M - 1), Limit(counts, M - 1), 16 - (M - 1));
    }
  }

  /** Below the code space, the end of a level that does not stop the loop fits in 16
      bits, so its depth entry is that end unmasked. */
  lemma DepthEntryUnmasked(counts: seq<nat>, L: nat)
    requires 1 <= L <= MAX_LEVEL && L < |counts| && counts[L] != 0
    requires Limit(counts, L) <= Pow2(L) && !Stops(counts, L)
    ensures Shl(Limit(counts, L), 16 - L) < SHORT
    ensures DepthEntry(counts, L) == Shl(Limit(counts, L), 16 - L)
  {
    ShlMonotone(Limit(counts, L), Pow2(L), 16 - L);
    Pow2Shl(L, 16 - L);
    Pow2Short();
  }

  /** Kraft's equality: when the loop stops at level L of a tree within the code space,
      the codes fill the code space exactly. */
  lemma StopMeansComplete(counts: seq<nat>, L: nat)
    requires 1 <= L <= MAX_LEVEL && L < |counts|
    requires Limit(counts, L) <= Pow2(L) && Stops(counts, L)
    ensures Limit(counts, L) == Pow2(L)
    ensures CodeSpace(counts, L, L + 1) == Pow2(L)
  {
    var x, k := Limit(counts, L), 16 - L;
    ShlMonotone(x, Pow2(L), k);
    Pow2Shl(L, k);
    Pow2Short();
    Pow2Shl(0, k);
    ShlMonotone(1, x, k);
    assert Shl(x, k) == Shl(Pow2(L), k);
    ShlCancel(x, Pow2(L), k);
    FirstIsCodeSpace(counts, L);
    assert CodeSpace(counts, L, L + 1) == CodeSpace(counts, L, L) + counts[L];
  }

  // ---------------------------------------------------------------------
  // Canonical decoding

  /** Levels before L never stop the search for a window starting with a code of
      length L. */
  lemma SearchPassesLevel(counts: seq<nat>, L: nat, M: nat, w: nat)
    requires TreeShape(counts) && NotOversubscribed(counts)
    requires 1 <= M < L < |counts| && Shl(First(counts, L), 16 - L) <= w
    ensures DepthTable(counts)[M] <= w
  {
    if counts[M] != 0 {
      DepthEntryUnmasked(counts, M);
      LevelsInOrder(counts, M, L);
    }
  }

  /** Canonical decoding: for a tree the loop can read that stays within the code
      space, a window whose top L bits are the code of rank r (the r - Below(L)-th code
      of length L) is searched to level L, and its top L bits minus the code table
      entry give back r. */
  lemma DecodeCanonical(counts: seq<nat>, L: nat, r: nat, w: nat)
    requires TreeShape(counts) && NotOversubscribed(counts)
    requires 1 <= L < |counts| && Below(counts, L) <= r < Below(counts, L) + counts[L]
    requires w < SHORT && Shr(w, 16 - L) == First(counts, L) + (r - Below(counts, L))
    ensures Search(DepthTable(counts), w, 1) == L
    ensures Shr(w, 16 - L) - CodeTable(counts)[L] == r
  {
    var depth := DepthTable(counts);
    CodeWindow(counts, L, r, w);
    forall M | 1 <= M < L
      ensures depth[M] <= w
    {
      SearchPassesLevel(counts, L, M, w);
    }
    SearchStopsAt(depth, w, L);
  }

  /** A window whose top L bits are a code of length L lies at or above the first code
      of length L, and below the depth entry of level L. */
  lemma CodeWindow(counts: seq<nat>, L: nat, r: nat, w: nat)
    requires TreeShape(counts) && NotOversubscribed(counts)
    requires 1 <= L < |counts| && Below(counts, L) <= r < Below(counts, L) + counts[L]
    requires w < SHORT && Shr(w, 16 - L) == First(counts, L) + (r - Below(counts, L))
    ensures Shl(First(counts, L), 16 - L) <= w
    ensures w < DepthTable(counts)[L]
  {
    var c := Shr(w, 16 - L);
    ShrFloor(w, 16 - L);
    ShlMonotone(First(counts, L), c, 16 - L);
    if L < |counts| - 1 {
      CodeBelowDepth(counts, L, c, w);
    }
  }

  /** Below the last level, the depth entry of level L is the first window past its
      codes, so a window whose top L bits c are one of them lies below it. */
  lemma CodeBelowDepth(counts: seq<nat>, L: nat, c: nat, w: nat)
    requires TreeShape(counts) && NotOversubscribed(counts)
    requires 1 <= L < |counts| - 1 && counts[L] != 0
    requires c < Limit(counts, L) && w < Shl(c + 1, 16 - L)
    ensures w < DepthTable(counts)[L]
  {
    assert Limit(counts, L) <= Pow2(L) && !Stops(counts, L);
    DepthEntryUnmasked(counts, L);
    ShlMonotone(c + 1, Limit(counts, L), 16 - L);
  }

  /** The search from level 1 stops at the first level whose entry lies above w. */
  lemma SearchStopsAt(depth: seq<nat>, w: nat, L: nat)
    requires 1 <= L < |depth| && w < depth[|depth| - 1] && w < depth[L]
    requires forall M :: 1 <= M < L ==> depth[M] <= w
    ensures Search(depth, w, 1) == L
  {
  }

  /** Canonical decoding through the lookup: a 32-bit window that starts with the code
      of rank r yields that symbol, with the code's length. */
  lemma LookupCanonical(counts: seq<nat>, L: nat, r: nat, b: nat)
    requires TreeShape(counts) && NotOversubscribed(counts)
    requires 1 <= L < |counts| && Below(counts, L) <= r < Below(counts, L) + counts[L]
    requires r < 256
    requires b < 0x1_0000_0000 && Shr(b, 32 - L) == First(counts, L) + (r - Below(counts, L))
    ensures LookupSymbol(DepthTable(counts), CodeTable(counts), Below(counts, |counts|), b)
            == Symbol(L, r)
  {
    WordTop(b, L);
    DecodeCanonical(counts, L, r, Shr(b, 16));
    BelowMonotone(counts, L + 1, |counts|);
    LookupOutcome(DepthTable(counts), CodeTable(counts), Below(counts, |counts|), b, L, r, 0, r);
  }

  /** The top 16 bits of a 32-bit window fit in 16 bits, and their top L bits are the
      window's top L bits. */
  lemma WordTop(b: nat, L: nat)
    requires b < 0x1_0000_0000 && L <= 16
    ensures Shr(b, 16) < SHORT
    ensures Shr(Shr(b, 16), 16 - L) == Shr(b, 32 - L)
  {
    Pow2Word();
    Pow2Short();
    ShrBound(b, 16, 16);
    ShrShr(b, 16, 16 - L);
  }

  /** The lookup yields the level the search finds and the rank computed there. */
  lemma LookupOutcome(depth: seq<nat>, codes: seq<int>, n: nat, b: nat, L: nat, v: int, q: int, rank: int)
    requires LookupTables(depth, codes) && b < 2 * 0x1_0000_0000
    requires 1 <= L < |depth| && Shr(b, 16) < SENTINEL && Search(depth, Shr(b, 16), 1) == L
    requires Shr(b, 32 - L) - codes[L] == v && v == 256 * q + rank && 0 <= rank < 256
    ensures LookupSymbol(depth, codes, n, b) == if rank >= n then Abort else Symbol(L, rank)
  {
  }

  lemma LookupAsWrittenOutcome(depth: seq<nat>, codes: seq<int>, n: nat, b: nat, L: nat, v: int, q: int, rank: int)
    requires LookupTables(depth, codes) && b < 2 * 0x1_0000_0000
    requires 1 <= L < |depth| && Shr(b, 16) <= SENTINEL
    requires SearchAsWritten(depth, Shr(b, 16), 1) == L
    requires Shr(b, 32 - L) - codes[L] == v && v == 256 * q + rank && 0 <= rank < 256
    ensures LookupAsWritten(depth, codes, n, b) ==
      if rank > n then Abort else if rank == n then IndexError else Symbol(L, rank)
  {
  }

  /** Where w equals no depth entry from level L on, the two searches find the same
      level: they differ only on a window equal to the end of a level. */
  lemma {:induction false} SearchesAgree(depth: seq<nat>, w: nat, L: nat)
    requires 1 <= L < |depth| && w < depth[|depth| - 1]
    requires forall M :: L <= M < |depth| ==> depth[M] != w
    ensures SearchAsWritten(depth, w, L) == Search(depth, w, L)
    decreases |depth| - L
  {
    if w >= depth[L] {
      SearchesAgree(depth, w, L + 1);
    }
  }

  /** Where the top 16 window bits equal no depth entry, the lookup as written and the
      corrected one agree, except that a rank equal to the alphabet size raises
      IndexError as written where the corrected lookup aborts. */
  lemma LookupsAgree(depth: seq<nat>, codes: seq<int>, n: nat, b: nat)
    requires LookupTables(depth, codes) && b < 2 * 0x1_0000_0000
    requires forall M :: 1 <= M < |depth| ==> depth[M] != Shr(b, 16)
    ensures LookupAsWritten(depth, codes, n, b) != IndexError ==>
      LookupAsWritten(depth, codes, n, b) == LookupSymbol(depth, codes, n, b)
    ensures LookupAsWritten(depth, codes, n, b) == IndexError ==> LookupSymbol(depth, codes, n, b) == Abort
  {
    Pow2Word();
    ShrBound(b, 17, 16);
    assert Pow2(17) == 0x2_0000 by { Pow2Short(); }
    SearchesAgree(depth, Shr(b, 16), 1);
  }

  /** Every depth table entry but the sentinel fits in 16 bits, so a window whose top
      16 bits reach 2^16 (a stray bit 32 above it) is searched to the sentinel's level. */
  lemma StrayWindowSearch(counts: seq<nat>, w: nat)
    requires 2 <= |counts| <= MAX_LEVEL + 1 && SHORT <= w < SENTINEL
    ensures Search(DepthTable(counts), w, 1) == |counts| - 1
  {
    assert forall L :: 1 <= L < |counts| - 1 ==> DepthTable(counts)[L] < SHORT;
  }

  // ---------------------------------------------------------------------
  // The search and the rank guard as written

  /** The length search as written stops one level early: with one code of length 1
      and two of length 2 (codes 0, 10, 11), a window starting 10 is code 10 of
      length 2, rank 1; the search as written stops at length 1, since the window
      equals the end of level 1, and the decoder then consumes 1 bit instead of 2. */
  lemma SearchAsWrittenStopsEarly()
    ensures TreeShape([0, 1, 2]) && NotOversubscribed([0, 1, 2])
    ensures Shr(0x8000, 16 - 2) == First([0, 1, 2], 2) + (1 - Below([0, 1, 2], 2))
    ensures DepthTable([0, 1, 2]) == [0, 0x8000, SENTINEL]
    ensures SearchAsWritten(DepthTable([0, 1, 2]), 0x8000, 1) == 1
    ensures Search(DepthTable([0, 1, 2]), 0x8000, 1) == 2
  {
    var counts: seq<nat> := [0, 1, 2];
    Pow2Byte();
    assert Limit(counts, 1) == 1 && Limit(counts, 2) == 4;
    assert Shl(1, 15) == 0x8000 by { Pow2Shl(0, 15); Pow2Short(); }
    assert Shl(4, 14) == 0x1_0000 by { Pow2Shl(2, 14); Pow2Short(); }
    assert DepthEntry(counts, 1) == 0x8000;
    assert Stops(counts, 2);
    assert DepthTable(counts) == [0, 0x8000, SENTINEL];
    assert Shr(0x8000, 14) == 2 by {
      ShrOfShl(1, 15, 14);
      Pow2Shl(0, 1);
    }
  }

  /** An incomplete tree whose 15 levels hold one code, 0: value count 1. */
  const ONE_CODE: seq<nat> := [0, 1] + seq(14, _ => 0)

  lemma OneCodeCounts()
    ensures |ONE_CODE| == 16 && ONE_CODE[0] == 0 && ONE_CODE[1] == 1
    ensures forall i :: 2 <= i < 16 ==> ONE_CODE[i] == 0
  {
  }

  /** ONE_CODE is a tree the loop reads in full: no level stops it. */
  lemma OneCodeShape()
    ensures TreeShape(ONE_CODE) && Below(ONE_CODE, 16) == 1
    ensures DepthTable(ONE_CODE)[1] == 0x8000
    ensures forall L :: 2 <= L < 15 ==> DepthTable(ONE_CODE)[L] == 0
  {
    OneCodeCounts();
    FirstPowers();
    assert Limit(ONE_CODE, 1) == 1;
    assert Shl(1, 15) == 0x8000 by { Pow2Shl(0, 15); Pow2Short(); }
    assert DepthEntry(ONE_CODE, 1) == 0x8000;
  }

  lemma OneCodeEntry()
    ensures CodeTable(ONE_CODE)[15] == 0x3FFF
  {
    FirstPowers();
    Pow2Short();
    Pow2Top();
  }

  /** In ONE_CODE a window starting with 11 passes every level up to the sentinel. */
  lemma OneCodeSearch()
    ensures SearchAsWritten(DepthTable(ONE_CODE), 0xC000, 1) == 15
    ensures Search(DepthTable(ONE_CODE), 0xC000, 1) == 15
  {
    OneCodeShape();
  }

  lemma TopOfWindow()
    ensures Shr(0xC000_0000, 16) == 0xC000 && Shr(0xC000_0000, 17) == 0x6000
  {
    ShlMul(0xC000, 16);
    Pow2Short();
    ShrOfShl(0xC000, 16, 16);
    ShrShr(0xC000_0000, 16, 1);
  }

  /** The rank guard as written lets a rank equal to the alphabet size through: with the
      single code 0, a window starting with 11 is searched to level 15 (the sentinel),
      its rank is 1, the size of the alphabet, and the alphabet is indexed past its
      end. The corrected guard aborts instead. */
  lemma RankGuardAsWrittenMisses()
    ensures TreeShape(ONE_CODE) && Below(ONE_CODE, 16) == 1
    ensures LookupAsWritten(DepthTable(ONE_CODE), CodeTable(ONE_CODE), 1, 0xC000_0000)
            == IndexError
    ensures LookupSymbol(DepthTable(ONE_CODE), CodeTable(ONE_CODE), 1, 0xC000_0000)
            == Abort
  {
    OneCodeShape();
    OneCodeEntry();
    OneCodeSearch();
    TopOfWindow();
    var depth, codes := DepthTable(ONE_CODE), CodeTable(ONE_CODE);
    LookupOutcome(depth, codes, 1, 0xC000_0000, 15, 0x2001, 0x20, 1);
    LookupAsWrittenOutcome(depth, codes, 1, 0xC000_0000, 15, 0x2001, 0x20, 1);
  }

  /** In ONE_CODE every first code from length 2 on is a power of two, and one code is
      shorter than each of them. */
  lemma FirstPowers()
    ensures First(ONE_CODE, 1) == 0
    ensures forall L :: 2 <= L <= 15 ==> First(ONE_CODE, L) == Pow2(L - 1)
    ensures forall L :: 2 <= L <= 16 ==> Below(ONE_CODE, L) == 1
  {
    OneCodeCounts();
    assert First(ONE_CODE, 1) == 2 * (First(ONE_CODE, 0) + ONE_CODE[0]) == 0;
    assert Below(ONE_CODE, 1) == Below(ONE_CODE, 0) + ONE_CODE[0] == 0;
    assert First(ONE_CODE, 2) == 2 * (First(ONE_CODE, 1) + ONE_CODE[1]) == 2;
    assert Below(ONE_CODE, 2) == Below(ONE_CODE, 1) + ONE_CODE[1] == 1;
    var L := 2;
    while L < 16
      invariant 2 <= L <= 16
      invariant forall M :: 2 <= M <= L && M <= 15 ==> First(ONE_CODE, M) == Pow2(M - 1)
      invariant forall M :: 2 <= M <= L ==> Below(ONE_CODE, M) == 1
    {
      assert ONE_CODE[L] == 0;
      assert Below(ONE_CODE, L + 1) == Below(ONE_CODE, L) == 1;
      if L < 15 {
        assert First(ONE_CODE, L + 1) == 2 * First(ONE_CODE, L) == 2 * Pow2(L - 1) == Pow2(L);
      }
      L := L + 1;
    }
  }
}
