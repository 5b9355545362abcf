/** The alphabet table of the QFS3 decoder.

    The header lists the alphabet as a sequence of skip counts: starting from the byte
    value 0xFF, each entry is found by stepping through the byte values cyclically
    ((v + 1) & 0xFF) and counting only values not yet in the table, until the count is
    used up. The table so built holds distinct byte values. */
module Qfs3Alphabet {

  /** (v + 1) & 0xFF for a byte value v. */
  function Succ(v: nat): (u: nat)
    requires v < 256
    ensures u < 256
  {
    if v == 255 then 0 else v + 1
  }

  /** The byte value i steps after v. */
  function Cyc(v: nat, i: nat): (u: nat)
    requires v < 256
    ensures u < 256
  {
    if i == 0 then v else Succ(Cyc(v, i - 1))
  }

  lemma {:induction false} CycSucc(v: nat, i: nat)
    requires v < 256
    ensures Cyc(Succ(v), i) == Cyc(v, i + 1)
  {
    if i > 0 {
      CycSucc(v, i - 1);
    }
  }

  /** Stepping i times is adding i modulo 256. */
  lemma {:induction false} CycAdd(v: nat, i: nat)
    requires v < 256 && v + i < 512
    ensures Cyc(v, i) == if v + i < 256 then v + i else v + i - 256
  {
    if i > 0 {
      CycAdd(v, i - 1);
    }
  }

  /** Within 256 steps from v every byte value comes round. */
  lemma CycCovers(v: nat, x: nat) returns (i: nat)
    requires v < 256 && x < 256
    ensures 1 <= i <= 256 && Cyc(v, i) == x
  {
    i := if x > v then x - v else x + 256 - v;
    CycAdd(v, i);
  }

  // ---------------------------------------------------------------------
  // Pigeonhole

  /** The values below n. */
  function Values(n: nat): (s: set<nat>)
    ensures forall x: nat :: x in s <==> x < n
    ensures |s| == n
  {
    if n == 0 then {}
    else
      var s := Values(n - 1);
      assert n - 1 !in s;
      s + {n - 1}
  }

  /** The values a table holds. */
  function Elems(table: seq<nat>): (s: set<nat>)
    ensures forall y :: y in s <==> y in table
    ensures |s| <= |table|
  {
    if |table| == 0 then {} else Elems(table[..|table| - 1]) + {table[|table| - 1]}
  }

  /** Some byte value is missing from the table. */
  predicate Room(table: seq<nat>)
  {
    exists x :: 0 <= x < 256 && x !in table
  }

  /** A table holding every byte value has at least 256 entries. */
  lemma FullTable(table: seq<nat>)
    requires forall x :: 0 <= x < 256 ==> x in table
    ensures |table| >= 256
  {
    var all, held := Values(256), Elems(table);
    forall x | x in all
      ensures x in held
    {
      assert x < 256;
    }
    SubsetSize(all, held);
  }

  lemma SubsetSize(a: set<nat>, b: set<nat>)
    requires a <= b
    ensures |a| <= |b|
  {
    assert b == a + (b - a);
  }

  /** The pigeonhole principle: a table of fewer than 256 entries misses a byte value. */
  lemma RoomWhenShort(table: seq<nat>)
    requires |table| < 256
    ensures Room(table)
  {
    if !Room(table) {
      FullTable(table);
    }
  }

  /** No value occurs twice. */
  predicate Distinct(table: seq<nat>)
  {
    forall i, j :: 0 <= i < j < |table| ==> table[i] != table[j]
  }

  /** Every entry is a byte value. */
  predicate ByteValues(table: seq<nat>)
  {
    forall i :: 0 <= i < |table| ==> table[i] < 256
  }

  lemma {:induction false} ElemsDistinct(table: seq<nat>)
    requires Distinct(table)
    ensures |Elems(table)| == |table|
  {
    if |table| > 0 {
      var init := table[..|table| - 1];
      assert Distinct(init);
      ElemsDistinct(init);
      assert table[|table| - 1] !in Elems(init);
    }
  }

  /** A table of distinct byte values has at most 256 entries. */
  lemma DistinctBound(table: seq<nat>)
    requires Distinct(table) && ByteValues(table)
    ensures |table| <= 256
  {
    ElemsDistinct(table);
    var held, all := Elems(table), Values(256);
    assert held <= all;
    assert all == held + (all - held);
  }

  // ---------------------------------------------------------------------
  // Skipping used values

  /** The number of steps from v to the first byte value not in the table, searching
      from step k on; 257 when none of the steps up to 256 finds one. */
  function GapFrom(table: seq<nat>, v: nat, k: nat): (g: nat)
    requires v < 256 && 1 <= k <= 257
    ensures k <= g <= 257
    ensures g <= 256 ==> Cyc(v, g) !in table
    ensures forall i :: k <= i < g ==> Cyc(v, i) in table
    decreases 257 - k
  {
    if k > 256 then 257 else if Cyc(v, k) !in table then k else GapFrom(table, v, k + 1)
  }

  /** With room in the table, the search finds a free value within 256 steps. */
  lemma GapFound(table: seq<nat>, v: nat)
    requires v < 256 && Room(table)
    ensures GapFrom(table, v, 1) <= 256
  {
    var x :| 0 <= x < 256 && x !in table;
    var i := CycCovers(v, x);
  }

  /** The first free byte value after v. */
  function NextFree(table: seq<nat>, v: nat): (u: nat)
    requires v < 256 && Room(table)
    ensures u < 256 && u !in table
  {
    GapFound(table, v);
    Cyc(v, GapFrom(table, v, 1))
  }

  /** Stepping past a used value keeps the gap's end and shortens it by one. */
  lemma {:induction false} GapShift(table: seq<nat>, v: nat, i: nat)
    requires v < 256 && 1 <= i <= 256 && GapFrom(table, v, i + 1) <= 256
    ensures GapFrom(table, Succ(v), i) == GapFrom(table, v, i + 1) - 1
    decreases 256 - i
  {
    CycSucc(v, i);
    if Cyc(v, i + 1) in table {
      GapShift(table, v, i + 1);
    }
  }

  /** The value k free values after v: what the skip loop leaves in char_value. */
  function Skip(table: seq<nat>, v: nat, k: nat): (u: nat)
    requires v < 256 && Room(table)
    ensures u < 256
    ensures k >= 1 ==> u !in table
    decreases k
  {
    if k == 0 then v else Skip(table, NextFree(table, v), k - 1)
  }

  /** One step of the skip loop: a step onto a free value uses up one of the count,
      a step onto a used value leaves the target where it was. */
  lemma SkipStep(table: seq<nat>, v: nat, k: nat)
    requires v < 256 && Room(table) && k >= 1
    ensures Succ(v) !in table ==> Skip(table, Succ(v), k - 1) == Skip(table, v, k)
    ensures Succ(v) in table ==> Skip(table, Succ(v), k) == Skip(table, v, k)
    ensures Succ(v) in table ==> GapFrom(table, Succ(v), 1) < GapFrom(table, v, 1)
  {
    GapFound(table, v);
    assert Cyc(v, 1) == Succ(v);
    if Succ(v) in table {
      GapShift(table, v, 1);
      CycSucc(v, GapFrom(table, Succ(v), 1));
      assert NextFree(table, Succ(v)) == NextFree(table, v);
    }
  }

  /** The skip loop of the alphabet read: step through the byte values, counting the
      ones not in the table, until `count` of them have gone by. */
  method SkipUnused(table: seq<nat>, charValue: nat, count: nat) returns (v: nat)
    requires charValue < 256 && Room(table)
    ensures v == Skip(table, charValue, count)
    ensures count >= 1 ==> v < 256 && v !in table
  {
    v := charValue;
    var left := count;
    while left != 0
      invariant v < 256
      invariant Skip(table, v, left) == Skip(table, charValue, count)
      decreases left, GapFrom(table, v, 1)
    {
      SkipStep(table, v, left);
      v := Succ(v);
      if v !in table {
        left := left - 1;
      }
    }
  }
}
