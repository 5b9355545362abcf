/** The transforms the register-emulating QFS3 decoders apply to the decoded output
    when the header's magic asks for them: magic 0x32FB replaces each of the first
    `output_length` bytes by the running sum of the bytes up to it, modulo 256; magic
    0x34FB by the running sum of those running sums, modulo 256. Both work in place on
    the output buffer; an output shorter than `output_length` raises an IndexError once
    the bytes it has are rewritten. Differencing undoes a running sum. */
module RunningSum {
  import opened Bits
  import opened OutputBuffer

  const SINGLE_SUM_MAGIC: nat := 0x32FB
  const DOUBLE_SUM_MAGIC: nat := 0x34FB

  /** The sum of the values. */
  function Sum(s: seq<nat>): nat
  {
    if |s| == 0 then 0 else Sum(s[..|s| - 1]) + s[|s| - 1]
  }

  /** The running sums: entry i is the sum of the first i + 1 values. */
  function Prefix(s: seq<nat>): (r: seq<nat>)
    ensures |r| == |s|
  {
    if |s| == 0 then [] else Prefix(s[..|s| - 1]) + [Sum(s)]
  }

  /** A value modulo 256 (`& 0xFF`). */
  function LowByte(x: int): byte
  {
    x % 256
  }

  /** The difference of two bytes modulo 256. */
  function Diff8(a: byte, b: byte): byte
  {
    (a as int - b as int) % 256
  }

  /** Every value modulo 256. */
  function Low8(s: seq<nat>): (r: seq<byte>)
    ensures |r| == |s|
  {
    if |s| == 0 then [] else Low8(s[..|s| - 1]) + [LowByte(s[|s| - 1])]
  }

  /** The bytes as numbers. */
  function Values(bytes: seq<byte>): (s: seq<nat>)
    ensures |s| == |bytes|
  {
    if |bytes| == 0 then [] else Values(bytes[..|bytes| - 1]) + [bytes[|bytes| - 1] as nat]
  }

  /** The 0x32FB transform of the bytes. */
  function SingleSum(bytes: seq<byte>): (r: seq<byte>)
    ensures |r| == |bytes|
  {
    Low8(Prefix(Values(bytes)))
  }

  /** The 0x34FB transform of the bytes. */
  function DoubleSum(bytes: seq<byte>): (r: seq<byte>)
    ensures |r| == |bytes|
  {
    Low8(Prefix(Prefix(Values(bytes))))
  }

  /** The differences of neighbouring bytes modulo 256, the first byte kept. */
  function Delta(t: seq<byte>): (r: seq<byte>)
    ensures |r| == |t|
  {
    if |t| <= 1 then t else Delta(t[..|t| - 1]) + [Diff8(t[|t| - 1], t[|t| - 2])]
  }

  // ---------------------------------------------------------------------
  // Differencing undoes a running sum

  /** A running sum modulo 256, differenced, gives the values modulo 256. */
  lemma {:induction false} DeltaPrefix(s: seq<nat>)
    ensures Delta(Low8(Prefix(s))) == Low8(s)
  {
    if |s| > 0 {
      var q, x := s[..|s| - 1], s[|s| - 1];
      assert s == q + [x];
      DeltaPrefix(q);
      DeltaPrefixStep(q, x);
    }
  }

  /** One more value keeps differencing the running sums equal to the values. */
  lemma DeltaPrefixStep(q: seq<nat>, x: nat)
    requires Delta(Low8(Prefix(q))) == Low8(q)
    ensures Delta(Low8(Prefix(q + [x]))) == Low8(q + [x])
  {
    PrefixAppend(q, x);
    LowAppend(Prefix(q), Sum(q) + x);
    LowAppend(q, x);
    DeltaAppend(Low8(Prefix(q)), LowByte(Sum(q) + x));
    if |q| > 0 {
      LastRunningSum(q);
      ModDiff(Sum(q), x);
    }
  }

  /** Differencing one more byte appends its difference from the last one. */
  lemma DeltaAppend(t: seq<byte>, v: byte)
    ensures |t| == 0 ==> Delta(t + [v]) == [v]
    ensures |t| > 0 ==> Delta(t + [v]) == Delta(t) + [Diff8(v, t[|t| - 1])]
  {
    assert (t + [v])[..|t|] == t;
  }

  /** The last running sum, modulo 256, is the sum modulo 256. */
  lemma LastRunningSum(q: seq<nat>)
    requires |q| > 0
    ensures Low8(Prefix(q))[|q| - 1] == LowByte(Sum(q))
  {
  }

  /** The difference of two sums modulo 256 is the added value modulo 256. */
  lemma ModDiff(a: nat, b: nat)
    ensures Diff8(LowByte(a + b), LowByte(a)) == LowByte(b)
  {
    var m := a / 256 + b / 256 - (a + b) / 256;
    assert ((a + b) % 256) - (a % 256) == 256 * m + b % 256;
    ModOfMultiple(m, b % 256);
  }

  /** 256 * m + z modulo 256 is z, for z below 256. */
  lemma ModOfMultiple(m: int, z: int)
    requires 0 <= z < 256
    ensures (256 * m + z) % 256 == z
  {
  }

  lemma {:induction false} LowValues(bytes: seq<byte>)
    ensures Low8(Values(bytes)) == bytes
  {
    if |bytes| > 0 {
      var init := bytes[..|bytes| - 1];
      LowValues(init);
      assert Values(bytes)[..|bytes| - 1] == Values(init);
    }
  }

  /** Differencing undoes the 0x32FB transform. */
  lemma DeltaSingleSum(bytes: seq<byte>)
    ensures Delta(SingleSum(bytes)) == bytes
  {
    DeltaPrefix(Values(bytes));
    LowValues(bytes);
  }

  /** Differencing the 0x34FB transform gives the 0x32FB transform, so differencing twice
      undoes it. */
  lemma DeltaDoubleSum(bytes: seq<byte>)
    ensures Delta(DoubleSum(bytes)) == SingleSum(bytes)
    ensures Delta(Delta(DoubleSum(bytes))) == bytes
  {
    DeltaPrefix(Prefix(Values(bytes)));
    DeltaSingleSum(bytes);
  }

  // ---------------------------------------------------------------------
  // The transforms in place

  /** Appending a value adds it to the sum and adds the new total to the running sums. */
  lemma PrefixAppend(q: seq<nat>, x: nat)
    ensures Sum(q + [x]) == Sum(q) + x
    ensures Prefix(q + [x]) == Prefix(q) + [Sum(q) + x]
  {
    assert (q + [x])[..|q|] == q;
  }

  /** Appending a value appends its low byte. */
  lemma LowAppend(q: seq<nat>, x: nat)
    ensures Low8(q + [x]) == Low8(q) + [LowByte(x)]
  {
    assert (q + [x])[..|q|] == q;
  }

  /** With the first i bytes written, writing byte i leaves the rest of the original. */
  lemma WriteNext(written: seq<byte>, original: seq<byte>, i: nat, v: byte)
    requires |written| == i < |original|
    ensures (written + original[i..])[i] == original[i]
    ensures (written + original[i..])[i := v] == written + [v] + original[i + 1..]
  {
    assert original[i..][1..] == original[i + 1..];
  }

  /** One more byte, one more value. */
  lemma ValuesAppend(bytes: seq<byte>, i: nat)
    requires i < |bytes|
    ensures Values(bytes[..i + 1]) == Values(bytes[..i]) + [bytes[i] as nat]
  {
    assert bytes[..i + 1][..i] == bytes[..i];
  }

  // ---------------------------------------------------------------------
  // The loops' running values, indexed by how many bytes they have taken in

  /** The value of the 0x32FB loop's accumulator after i bytes. */
  function SumTo(b: seq<byte>, i: nat): nat
    requires i <= |b|
  {
    if i == 0 then 0 else SumTo(b, i - 1) + b[i - 1] as nat
  }

  /** The first i bytes the 0x32FB loop writes. */
  function SingleTo(b: seq<byte>, i: nat): (r: seq<byte>)
    requires i <= |b|
    ensures |r| == i
  {
    if i == 0 then [] else SingleTo(b, i - 1) + [LowByte(SumTo(b, i))]
  }

  /** The 0x34FB loop's second accumulator after i bytes. */
  function SumSumTo(b: seq<byte>, i: nat): nat
    requires i <= |b|
  {
    if i == 0 then 0 else SumSumTo(b, i - 1) + SumTo(b, i)
  }

  /** The first i bytes the 0x34FB loop writes. */
  function DoubleTo(b: seq<byte>, i: nat): (r: seq<byte>)
    requires i <= |b|
    ensures |r| == i
  {
    if i == 0 then [] else DoubleTo(b, i - 1) + [LowByte(SumSumTo(b, i))]
  }

  /** The accumulator is the sum of the bytes taken in. */
  lemma {:induction false} SumToIs(b: seq<byte>, i: nat)
    requires i <= |b|
    ensures SumTo(b, i) == Sum(Values(b[..i]))
  {
    if i > 0 {
      SumToIs(b, i - 1);
      ValuesAppend(b, i - 1);
      PrefixAppend(Values(b[..i - 1]), b[i - 1] as nat);
    }
  }

  /** The second accumulator is the sum of the running sums. */
  lemma {:induction false} SumSumToIs(b: seq<byte>, i: nat)
    requires i <= |b|
    ensures SumSumTo(b, i) == Sum(Prefix(Values(b[..i])))
  {
    if i > 0 {
      var q := Values(b[..i - 1]);
      var x := b[i - 1] as nat;
      SumSumToIs(b, i - 1);
      SumToIs(b, i);
      SumToIs(b, i - 1);
      ValuesAppend(b, i - 1);
      PrefixAppend(q, x);
      PrefixAppend(Prefix(q), Sum(q) + x);
    }
  }

  /** What the 0x32FB loop writes over i bytes is the 0x32FB transform of those bytes. */
  lemma {:induction false} SingleToIs(b: seq<byte>, i: nat)
    requires i <= |b|
    ensures SingleTo(b, i) == SingleSum(b[..i])
  {
    if i > 0 {
      var q := Values(b[..i - 1]);
      var x := b[i - 1] as nat;
      SingleToIs(b, i - 1);
      SumToIs(b, i);
      SumToIs(b, i - 1);
      ValuesAppend(b, i - 1);
      PrefixAppend(q, x);
      LowAppend(Prefix(q), Sum(q) + x);
    }
  }

  /** What the 0x34FB loop writes over i bytes is the 0x34FB transform of those bytes. */
  lemma {:induction false} DoubleToIs(b: seq<byte>, i: nat)
    requires i <= |b|
    ensures DoubleTo(b, i) == DoubleSum(b[..i])
  {
    if i > 0 {
      var q := Values(b[..i - 1]);
      var x := b[i - 1] as nat;
      DoubleToIs(b, i - 1);
      SumSumToIs(b, i);
      SumSumToIs(b, i - 1);
      SumToIs(b, i - 1);
      ValuesAppend(b, i - 1);
      PrefixAppend(q, x);
      PrefixAppend(Prefix(q), Sum(q) + x);
      LowAppend(Prefix(Prefix(q)), Sum(Prefix(q)) + Sum(q) + x);
    }
  }

  /** The 0x32FB loop: `for i in range(output_length)` adds each byte to a running value
      and stores it modulo 256. It fails (IndexError) when the output is shorter than
      `output_length`, after rewriting all of it. */
  method SingleRunningSum(uncompressed: ByteArray, outputLength: nat) returns (ok: bool)
    modifies uncompressed
    ensures ok <==> outputLength <= |old(uncompressed.bytes)|
    ensures ok ==> (uncompressed.bytes ==
      SingleSum(old(uncompressed.bytes)[..outputLength]) + old(uncompressed.bytes)[outputLength..])
    ensures !ok ==> uncompressed.bytes == SingleSum(old(uncompressed.bytes))
  {
    ghost var original := uncompressed.bytes;
    var bytes := uncompressed.bytes;
    var value: nat := 0;
    var i := 0;
    while i < outputLength
      invariant i <= outputLength && i <= |original| && |bytes| == |original|
      invariant value == SumTo(original, i)
      invariant bytes == SingleTo(original, i) + original[i..]
    {
      if i >= |bytes| {
        assert original[..i] == original && original[i..] == [];
        SingleToIs(original, i);
        uncompressed.bytes := bytes;
        return false;
      }
      WriteNext(SingleTo(original, i), original, i, LowByte(value + original[i]));
      value := value + bytes[i];
      bytes := bytes[i := LowByte(value)];
      i := i + 1;
    }
    SingleToIs(original, i);
    uncompressed.bytes := bytes;
    ok := true;
  }

  /** The 0x34FB loop: a running value a of the bytes and a running value b of the a's;
      each byte becomes b modulo 256. */
  method DoubleRunningSum(uncompressed: ByteArray, outputLength: nat) returns (ok: bool)
    modifies uncompressed
    ensures ok <==> outputLength <= |old(uncompressed.bytes)|
    ensures ok ==> (uncompressed.bytes ==
      DoubleSum(old(uncompressed.bytes)[..outputLength]) + old(uncompressed.bytes)[outputLength..])
    ensures !ok ==> uncompressed.bytes == DoubleSum(old(uncompressed.bytes))
  {
    ghost var original := uncompressed.bytes;
    var bytes := uncompressed.bytes;
    var valueA: nat := 0;
    var valueB: nat := 0;
    var i := 0;
    while i < outputLength
      invariant i <= outputLength && i <= |original| && |bytes| == |original|
      invariant valueA == SumTo(original, i) && valueB == SumSumTo(original, i)
      invariant bytes == DoubleTo(original, i) + original[i..]
    {
      if i >= |bytes| {
        assert original[..i] == original && original[i..] == [];
        DoubleToIs(original, i);
        uncompressed.bytes := bytes;
        return false;
      }
      WriteNext(DoubleTo(original, i), original, i, LowByte(valueB + valueA + original[i]));
      valueA := valueA + bytes[i];
      valueB := valueB + valueA;
      bytes := bytes[i := LowByte(valueB)];
      i := i + 1;
    }
    DoubleToIs(original, i);
    uncompressed.bytes := bytes;
    ok := true;
  }

  /** After the end marker: magic 0x34FB runs the double sum, 0x32FB the single sum, and
      any other magic leaves the output as it is. */
  method PostDecode(uncompressed: ByteArray, outputLength: nat, fileHeader: nat) returns (ok: bool)
    modifies uncompressed
    ensures fileHeader != DOUBLE_SUM_MAGIC && fileHeader != SINGLE_SUM_MAGIC ==>
      ok && uncompressed.bytes == old(uncompressed.bytes)
    ensures fileHeader == DOUBLE_SUM_MAGIC || fileHeader == SINGLE_SUM_MAGIC ==>
      (ok <==> outputLength <= |old(uncompressed.bytes)|)
    ensures ok && fileHeader == DOUBLE_SUM_MAGIC ==>
      uncompressed.bytes == DoubleSum(old(uncompressed.bytes)[..outputLength]) + old(uncompressed.bytes)[outputLength..]
    ensures ok && fileHeader == SINGLE_SUM_MAGIC ==>
      uncompressed.bytes == SingleSum(old(uncompressed.bytes)[..outputLength]) + old(uncompressed.bytes)[outputLength..]
  {
    if fileHeader == DOUBLE_SUM_MAGIC {
      ok := DoubleRunningSum(uncompressed, outputLength);
    } else if fileHeader == SINGLE_SUM_MAGIC {
      ok := SingleRunningSum(uncompressed, outputLength);
    } else {
      ok := true;
    }
  }
}
