/** The 32-bit bit window of the QFS3 decoder (refill_buf and count_bits).

    The window `buf` holds upcoming stream bits left-aligned; `sub` counts the low bits
    of the window that are consumed but not yet refilled, and `fed` counts the bytes
    requested from the stream so far (the reader's own cursor is min(fed, |data|),
    since a read at the end yields no byte). The abstract bit position reached is
    Pos(fed, sub) = 8 * fed + sub - 32. */
module Qfs3Window {
  import opened Bits

  /** 2^32: `& 0xFFFFFFFF` is `% WORD`. */
  const WORD: nat := 0x1_0000_0000

  function Pos(fed: nat, sub: nat): int
  {
    8 * fed + sub - 32
  }

  /** The window holds the 32 - sub stream bits from Pos(fed, sub) on, shifted up by
      sub; once sub reaches 32 it is empty (and zero). */
  predicate Windowed(data: seq<byte>, buf: nat, fed: nat, sub: nat)
  {
    8 * fed + sub >= 32 &&
    (sub >= 32 ==> buf == 0) &&
    (sub < 32 ==> buf == Shl(BitsVal(data, Pos(fed, sub), 32 - sub), sub))
  }

  /** The top n bits of a window holding `avail` bits from p: the window's bits
      followed by zeros where it runs short. */
  function Peek(data: seq<byte>, p: nat, avail: nat, n: nat): nat
  {
    if n <= avail then BitsVal(data, p, n) else Shl(BitsVal(data, p, avail), n - avail)
  }

  lemma WindowBound(data: seq<byte>, buf: nat, fed: nat, sub: nat)
    requires Windowed(data, buf, fed, sub)
    ensures buf < WORD
  {
    if sub < 32 {
      BitsValBound(data, Pos(fed, sub), 32 - sub);
      ShlBound(BitsVal(data, Pos(fed, sub), 32 - sub), 32 - sub, sub);
      Pow2Word();
    }
  }

  /** x % 8, one byte at a time. */
  function Mod8(x: nat): (r: nat)
    ensures r < 8
  {
    if x < 8 then x else Mod8(x - 8)
  }

  lemma {:induction false} Mod8Of(k: nat, r: nat)
    requires r < 8
    ensures Mod8(8 * k + r) == r
  {
    if k > 0 {
      Mod8Of(k - 1, r);
    }
  }

  /** A window whose fill is below 8 is fully determined by the position. */
  lemma WindowedCanonical(data: seq<byte>, buf: nat, fed: nat, sub: nat)
    requires Windowed(data, buf, fed, sub) && sub < 8
    ensures sub == Mod8(Pos(fed, sub))
    ensures buf < WORD
  {
    WindowBound(data, buf, fed, sub);
    Mod8Of(fed - 4, sub);
  }

  /** A window with at most 32 bits consumed, stated uniformly. */
  lemma WindowedUpTo32(data: seq<byte>, buf: nat, fed: nat, sub: nat)
    requires Windowed(data, buf, fed, sub) && sub <= 32
    ensures buf == Shl(BitsVal(data, Pos(fed, sub), 32 - sub), sub)
  {
    if sub == 32 {
      ShlZero(32);
    }
  }

  // ---------------------------------------------------------------------
  // One step of refill_buf

  /** One round of the refill loop: take the next byte into the window. */
  lemma RefillStep(data: seq<byte>, buf: nat, fed: nat, sub: nat)
    requires Windowed(data, buf, fed, sub) && sub >= 8
    ensures Windowed(data, Or(buf, Shl(ByteAt(data, fed), sub - 8)) % WORD, fed + 1, sub - 8)
  {
    if sub <= 32 {
      RefillIntoWindow(data, buf, fed, sub);
    } else {
      assert buf == 0;
      RefillPastWindow(data, fed, sub);
    }
  }

  /** Or-ing byte b below a window V shifted by s + 8 appends b to V. */
  lemma OrBelow(v: nat, b: nat, s: nat)
    requires b < 256
    ensures Or(Shl(v, s + 8), Shl(b, s)) == Shl(Shl(v, 8) + b, s)
  {
    ShlAdd(v, 8, s);
    OrShl(Shl(v, 8), b, s);
    Pow2Byte();
    OrDisjoint(v, b, 8);
  }

  lemma RefillIntoWindow(data: seq<byte>, buf: nat, fed: nat, sub: nat)
    requires Windowed(data, buf, fed, sub) && 8 <= sub <= 32
    ensures Windowed(data, Or(buf, Shl(ByteAt(data, fed), sub - 8)) % WORD, fed + 1, sub - 8)
  {
    var s := sub - 8;
    var p: nat := Pos(fed, sub);
    var w := BitsVal(data, p, 40 - sub);
    var x := Or(buf, Shl(ByteAt(data, fed), s));
    RefillValue(data, buf, fed, sub);
    assert x % WORD == x by {
      BitsValBound(data, p, 40 - sub);
      ShlBound(w, 40 - sub, s);
      Pow2Word();
      MaskSmall(x);
    }
    assert Pos(fed + 1, s) == p && 32 - s == 40 - sub;
  }

  /** The byte taken in lands right below the bits already in the window. */
  lemma RefillValue(data: seq<byte>, buf: nat, fed: nat, sub: nat)
    requires Windowed(data, buf, fed, sub) && 8 <= sub <= 32
    ensures Or(buf, Shl(ByteAt(data, fed), sub - 8)) == Shl(BitsVal(data, Pos(fed, sub), 40 - sub), sub - 8)
  {
    var b: nat := ByteAt(data, fed);
    var s := sub - 8;
    var p: nat := Pos(fed, sub);
    var v := BitsVal(data, p, 32 - sub);
    WindowedUpTo32(data, buf, fed, sub);
    assert s + 8 == sub;
    OrBelow(v, b, s);
    BitsValSplit(data, p, 32 - sub, 8);
    assert p + (32 - sub) == 8 * fed;
    ByteBits(data, fed);
  }

  lemma MaskSmall(x: nat)
    requires x < WORD
    ensures x % WORD == x
  {
  }

  lemma RefillPastWindow(data: seq<byte>, fed: nat, sub: nat)
    requires 8 * fed + sub >= 32 && sub > 32
    ensures Windowed(data, Or(0, Shl(ByteAt(data, fed), sub - 8)) % WORD, fed + 1, sub - 8)
  {
    var b: nat := ByteAt(data, fed);
    var s := sub - 8;
    if s >= 32 {
      MaskedOut(b, s);
    } else {
      var m := sub - 32;
      var top, low := BitsVal(data, 8 * fed, m), BitsVal(data, 8 * fed + m, 8 - m);
      assert b == Shl(top, 8 - m) + low by {
        BitsValSplit(data, 8 * fed, m, 8 - m);
        ByteBits(data, fed);
      }
      BitsValBound(data, 8 * fed + m, 8 - m);
      MaskedShift(b, top, low, 8 - m, s);
      assert Pos(fed + 1, s) == 8 * fed + m;
    }
  }

  // ---------------------------------------------------------------------
  // Consuming and peeking

  /** Shifting the window left by k bits (and masking to 32 bits) consumes k bits. */
  lemma ShiftStep(data: seq<byte>, buf: nat, fed: nat, sub: nat, k: nat)
    requires Windowed(data, buf, fed, sub)
    ensures Windowed(data, Shl(buf, k) % WORD, fed, sub + k)
  {
    if sub >= 32 {
      ShlZero(k);
    } else {
      ShiftFullWindow(data, buf, fed, sub, k);
    }
  }

  lemma ShiftFullWindow(data: seq<byte>, buf: nat, fed: nat, sub: nat, k: nat)
    requires Windowed(data, buf, fed, sub) && sub < 32
    ensures Windowed(data, Shl(buf, k) % WORD, fed, sub + k)
  {
    var v := BitsVal(data, Pos(fed, sub), 32 - sub);
    ShlAdd(v, sub, k);
    if sub + k >= 32 {
      MaskedOut(v, sub + k);
    } else {
      ShiftKeeps(data, fed, sub, k);
    }
  }

  /** A shift by k that leaves bits in the window keeps the 32 - sub - k bits after the
      first k, now shifted up by sub + k. */
  lemma ShiftKeeps(data: seq<byte>, fed: nat, sub: nat, k: nat)
    requires 8 * fed + sub >= 32 && sub + k < 32
    ensures Shl(BitsVal(data, Pos(fed, sub), 32 - sub), sub + k) % WORD
         == Shl(BitsVal(data, Pos(fed, sub + k), 32 - (sub + k)), sub + k)
  {
    var p: nat := Pos(fed, sub);
    var v := BitsVal(data, p, 32 - sub);
    var r := 32 - sub - k;
    var hi, lo := BitsVal(data, p, k), BitsVal(data, p + k, r);
    assert v == Shl(hi, r) + lo by {
      BitsValSplit(data, p, k, r);
    }
    BitsValBound(data, p + k, r);
    MaskedShift(v, hi, lo, r, sub + k);
    assert Pos(fed, sub + k) == p + k;
  }

  /** Reading the top n bits of the window (`buf >> (32 - n)`). */
  lemma PeekBits(data: seq<byte>, buf: nat, fed: nat, sub: nat, n: nat)
    requires Windowed(data, buf, fed, sub) && sub < 32 && n <= 32
    ensures Shr(buf, 32 - n) == Peek(data, Pos(fed, sub), 32 - sub, n)
  {
    var p: nat := Pos(fed, sub);
    var v := BitsVal(data, p, 32 - sub);
    if n <= 32 - sub {
      var r := 32 - sub - n;
      var hi, lo := BitsVal(data, p, n), BitsVal(data, p + n, r);
      assert v == Shl(hi, r) + lo by {
        BitsValSplit(data, p, n, r);
      }
      BitsValBound(data, p + n, r);
      TopOfShifted(v, hi, lo, r, sub);
    } else {
      ShrOfShl(v, sub, 32 - n);
    }
  }

  /** The top bit of the window (`buf >> 31`) is the bit at the position. */
  lemma TopBit(data: seq<byte>, buf: nat, fed: nat, sub: nat)
    requires Windowed(data, buf, fed, sub) && sub < 32
    ensures Shr(buf, 31) == Bit(data, Pos(fed, sub))
  {
    PeekBits(data, buf, fed, sub, 1);
    assert BitsVal(data, Pos(fed, sub), 1) == Bit(data, Pos(fed, sub));
  }

  /** The window of 32 - s stream bits from p, shifted up by s. */
  function Window(data: seq<byte>, p: nat, s: nat): nat
    requires s <= 32
  {
    Shl(BitsVal(data, p, 32 - s), s)
  }

  lemma WindowSmall(data: seq<byte>, p: nat, s: nat)
    requires s <= 32
    ensures Window(data, p, s) < WORD
  {
    BitsValBound(data, p, 32 - s);
    ShlBound(BitsVal(data, p, 32 - s), 32 - s, s);
    Pow2Word();
  }

  /** The top n bits of a window holding at least n bits are the n stream bits at p. */
  lemma WindowPeek(data: seq<byte>, p: nat, s: nat, n: nat)
    requires s <= 32 && n <= 32 - s
    ensures Shr(Window(data, p, s), 32 - n) == BitsVal(data, p, n)
  {
    var r := 32 - s - n;
    var hi, lo := BitsVal(data, p, n), BitsVal(data, p + n, r);
    assert BitsVal(data, p, 32 - s) == Shl(hi, r) + lo by {
      BitsValSplit(data, p, n, r);
    }
    BitsValBound(data, p + n, r);
    TopOfShifted(BitsVal(data, p, 32 - s), hi, lo, r, s);
  }

  /** A stray bit 32 above the window is gone after the next masked shift. */
  lemma StrayBitShifted(w: nat, k: nat)
    requires k >= 1
    ensures Shl(WORD + w, k) % WORD == Shl(w, k) % WORD
  {
    var hi := Shl(1, k);
    assert Shl(WORD, k) == Shl(hi, 32) by {
      Pow2Word();
      Pow2Shl(0, 32);
      ShlAdd(1, 32, k);
      ShlAdd(1, k, 32);
    }
    ShlWord(hi);
    ShlPlus(WORD, w, k);
    WordMod(hi, Shl(w, k));
  }

  /** x << 32 == WORD * x */
  lemma ShlWord(x: nat)
    ensures Shl(x, 32) == WORD * x
  {
    ShlMul(x, 32);
    Pow2Word();
  }

  /** Whole words drop out of a value taken modulo the word. */
  lemma WordMod(a: nat, b: nat)
    ensures (WORD * a + b) % WORD == b % WORD
  {
    var q, r := b / WORD, b % WORD;
    assert b == WORD * q + r;
    assert WORD * a + b == WORD * (a + q) + r;
  }

  /** Doubling a window whose top bit is 1 sets bit 32 above the shifted window. */
  lemma TopSetDoubled(buf: nat)
    requires buf < WORD && Shr(buf, 31) == 1
    ensures Shl(buf, 1) == WORD + Shl(buf, 1) % WORD
  {
    ShrFloor(buf, 31);
    Pow2Shl(0, 31);
    Pow2Shl(1, 31);
    Pow2Top();
    Pow2Byte();
    Pow2Word();
  }

  // ---------------------------------------------------------------------
  // refill_buf

  /** Tops the window up one byte at a time while at least 8 bits are free. */
  method RefillBuf(data: seq<byte>, buf: nat, fed: nat, sub: nat) returns (sub': nat, buf': nat, fed': nat)
    requires Windowed(data, buf, fed, sub)
    ensures Windowed(data, buf', fed', sub')
    ensures sub' < 8 && (sub < 8 ==> sub' == sub && fed' == fed)
    ensures Pos(fed', sub') == Pos(fed, sub)
    ensures buf' < WORD
  {
    sub', buf', fed' := sub, buf, fed;
    while sub' >= 8
      invariant Windowed(data, buf', fed', sub')
      invariant 8 * fed' + sub' == 8 * fed + sub
    {
      RefillStep(data, buf', fed', sub');
      sub' := sub' - 8;
      buf' := Or(buf', Shl(ByteAt(data, fed'), sub')) % WORD;
      fed' := fed' + 1;
    }
    WindowBound(data, buf', fed', sub');
  }

  // ---------------------------------------------------------------------
  // count_bits

  /** Some bit at or after p, within the data, is 1. */
  predicate OneAhead(data: seq<byte>, p: nat)
  {
    exists i :: p <= i < 8 * |data| && Bit(data, i) == 1
  }

  /** The number of 0 bits from p up to the next 1 bit. */
  function ZeroRun(data: seq<byte>, p: nat): (z: nat)
    requires OneAhead(data, p)
    ensures p + z < 8 * |data| && Bit(data, p + z) == 1
    decreases 8 * |data| - p
  {
    if Bit(data, p) == 1 then 0
    else
      assert OneAhead(data, p + 1);
      1 + ZeroRun(data, p + 1)
  }

  /** Every bit ZeroRun passes over is 0. */
  lemma {:induction false} ZeroRunZeros(data: seq<byte>, p: nat, i: nat)
    requires OneAhead(data, p) && p <= i < p + ZeroRun(data, p)
    ensures Bit(data, i) == 0
    decreases i - p
  {
    if i > p {
      assert OneAhead(data, p + 1);
      ZeroRunZeros(data, p + 1, i);
    }
  }

  datatype VarintResult = Read(value: nat, width: nat) | WideCode

  /** What count_bits yields at bit position p: the value and the number of bits consumed,
      or WideCode when the code length exceeds 32 (a negative shift count raises).
      The payload is read from the 31 - Mod8(p + z) bits the window still holds after
      the zeros and the 1 are consumed, followed by zeros. */
  function VarintRead(data: seq<byte>, p: nat): VarintResult
    requires OneAhead(data, p)
  {
    if Bit(data, p) == 1 then Read(BitsVal(data, p, 3), 3)
    else
      var z := ZeroRun(data, p);
      var n := z + 2;
      if n > 32 then WideCode
      else Read(Pow2(n) + Peek(data, p + z + 1, 31 - Mod8(p + z), n), 2 * z + 3)
  }

  /** The format's two-mode integer, read with an unlimited bit reader: a 1 flag and
      two data bits, or z zeros, a 1 and z + 2 payload bits added to 2^(z+2). */
  function Gamma(data: seq<byte>, p: nat): (r: VarintResult)
    requires OneAhead(data, p)
  {
    if Bit(data, p) == 1 then Read(4 + BitsVal(data, p + 1, 2), 3)
    else
      var z := ZeroRun(data, p);
      Read(Pow2(z + 2) + BitsVal(data, p + z + 1, z + 2), 2 * z + 3)
  }

  lemma VarintLongIs(data: seq<byte>, p: nat, z: nat, q: nat, avail: nat, n: nat)
    requires OneAhead(data, p) && Bit(data, p) == 0 && z == ZeroRun(data, p)
    requires q == p + z + 1 && avail == 31 - Mod8(p + z) && n == z + 2 <= 32
    ensures VarintRead(data, p) == Read(Pow2(n) + Peek(data, q, avail, n), 2 * z + 3)
  {
    assert Bit(data, p) != 1;
    assert !(z + 2 > 32);
  }

  /** Once the 1 after the zeros is consumed, the top n = z + 2 bits of the window are
      the payload of the long-mode integer. */
  lemma LongValue(data: seq<byte>, buf: nat, fed: nat, sub: nat, p: nat, z: nat, n: nat)
    requires Windowed(data, buf, fed, sub) && 1 <= sub <= 8
    requires OneAhead(data, p) && Bit(data, p) == 0 && z == ZeroRun(data, p)
    requires Pos(fed, sub - 1) == p + z && sub - 1 == Mod8(p + z) && n == z + 2 <= 32
    ensures VarintRead(data, p) == Read(Shr(buf, 32 - n) + Pow2(n), 2 * z + 3)
  {
    PeekBits(data, buf, fed, sub, n);
    VarintLongIs(data, p, z, Pos(fed, sub), 32 - sub, n);
  }

  /** The long-mode tail of count_bits, at the 1 that ends the z zeros from p: consume
      the 1, read the payload and consume it. */
  method LongTail(data: seq<byte>, buf: nat, fed: nat, sub: nat, lenVal: nat, ghost p: nat, ghost z: nat)
    returns (ok: bool, val: nat, buf': nat, sub': nat, fed': nat)
    requires Windowed(data, buf, fed, sub) && sub < 8
    requires OneAhead(data, p) && Bit(data, p) == 0 && z == ZeroRun(data, p)
    requires Pos(fed, sub) == p + z && lenVal == z + 2
    ensures ok <==> VarintRead(data, p).Read?
    ensures ok ==> val == VarintRead(data, p).value
    ensures ok ==> Windowed(data, buf', fed', sub') && sub' < 8
    ensures ok ==> Pos(fed', sub') == p + VarintRead(data, p).width
  {
    WindowedCanonical(data, buf, fed, sub);
    ShiftStep(data, buf, fed, sub, 1);
    buf' := Shl(buf, 1) % WORD;
    sub' := sub + 1;
    fed' := fed;
    val := 0;
    if lenVal > 32 {
      ok := false;
      return;
    }
    LongValue(data, buf', fed', sub', p, z, lenVal);
    val := Shr(buf', 32 - lenVal);
    val := val + Pow2(lenVal);
    ShiftStep(data, buf', fed', sub', lenVal);
    buf' := Shl(buf', lenVal) % WORD;
    sub' := sub' + lenVal;
    sub', buf', fed' := RefillBuf(data, buf', fed', sub');
    ok := true;
  }

  /** The zero-counting loop of count_bits and its tail, entered on a 0 bit. */
  method CountLong(data: seq<byte>, buf: nat, fed: nat, sub: nat)
    returns (ok: bool, val: nat, buf': nat, sub': nat, fed': nat)
    requires Windowed(data, buf, fed, sub) && sub < 8
    requires OneAhead(data, Pos(fed, sub)) && Shr(buf, 31) == 0
    ensures ok <==> VarintRead(data, Pos(fed, sub)).Read?
    ensures ok ==> val == VarintRead(data, Pos(fed, sub)).value
    ensures ok ==> Windowed(data, buf', fed', sub') && sub' < 8
    ensures ok ==> Pos(fed', sub') == Pos(fed, sub) + VarintRead(data, Pos(fed, sub)).width
  {
    var p: nat := Pos(fed, sub);
    TopBit(data, buf, fed, sub);
    var lenVal := 2;
    buf', sub', fed' := buf, sub, fed;
    while Shr(buf', 31) == 0
      invariant Windowed(data, buf', fed', sub') && sub' < 8
      invariant Pos(fed', sub') == p + lenVal - 2
      invariant OneAhead(data, Pos(fed', sub'))
      invariant ZeroRun(data, p) == lenVal - 2 + ZeroRun(data, Pos(fed', sub'))
      invariant Shr(buf', 31) == Bit(data, Pos(fed', sub'))
      decreases 8 * |data| - Pos(fed', sub')
    {
      var q: nat := Pos(fed', sub');
      assert OneAhead(data, q + 1);
      lenVal := lenVal + 1;
      ShiftStep(data, buf', fed', sub', 1);
      buf' := Shl(buf', 1) % WORD;
      sub' := sub' + 1;
      sub', buf', fed' := RefillBuf(data, buf', fed', sub');
      TopBit(data, buf', fed', sub');
    }
    ok, val, buf', sub', fed' := LongTail(data, buf', fed', sub', lenVal, p, lenVal - 2);
  }

  /** Reads the format's two-mode integer from the window. */
  method CountBits(data: seq<byte>, buf: nat, fed: nat, sub: nat)
    returns (ok: bool, val: nat, buf': nat, sub': nat, fed': nat)
    requires Windowed(data, buf, fed, sub) && sub < 8
    requires OneAhead(data, Pos(fed, sub))
    ensures ok <==> VarintRead(data, Pos(fed, sub)).Read?
    ensures ok ==> val == VarintRead(data, Pos(fed, sub)).value
    ensures ok ==> Windowed(data, buf', fed', sub') && sub' < 8
    ensures ok ==> Pos(fed', sub') == Pos(fed, sub) + VarintRead(data, Pos(fed, sub)).width
  {
    if Shr(buf, 31) == 0 {
      ok, val, buf', sub', fed' := CountLong(data, buf, fed, sub);
    } else {
      var p: nat := Pos(fed, sub);
      TopBit(data, buf, fed, sub);
      PeekBits(data, buf, fed, sub, 3);
      assert VarintRead(data, p) == Read(BitsVal(data, p, 3), 3);
      val := Shr(buf, 29);
      sub' := sub + 3;
      ShiftStep(data, buf, fed, sub, 3);
      buf' := Shl(buf, 3) % WORD;
      sub', buf', fed' := RefillBuf(data, buf', fed, sub');
      ok := true;
    }
  }

  // ---------------------------------------------------------------------
  // Properties of the two-mode integer

  /** Short mode: a leading 1 yields 4 plus the two bits after it, in 4..7, and
      consumes three bits. */
  lemma VarintShort(data: seq<byte>, p: nat)
    requires OneAhead(data, p) && Bit(data, p) == 1
    ensures VarintRead(data, p) == Read(4 + BitsVal(data, p + 1, 2), 3)
    ensures 4 <= VarintRead(data, p).value < 8
  {
    BitsValSplit(data, p, 1, 2);
    assert BitsVal(data, p, 1) == 1;
    Pow2Byte();
    assert Shl(1, 2) == 4;
    BitsValBound(data, p + 1, 2);
  }

  /** The window bits followed by zeros still form a number of n bits. */
  lemma PeekBound(data: seq<byte>, p: nat, avail: nat, n: nat)
    ensures Peek(data, p, avail, n) < Pow2(n)
  {
    if n <= avail {
      BitsValBound(data, p, n);
    } else {
      BitsValBound(data, p, avail);
      ShlBound(BitsVal(data, p, avail), avail, n - avail);
    }
  }

  /** Every value count_bits yields is at least 4: a short read lies in 4..7 and takes
      three bits; a long read after z zeros lies in [2^(z+2), 2^(z+3)) and takes
      2z + 3 bits. */
  lemma VarintRange(data: seq<byte>, p: nat)
    requires OneAhead(data, p) && VarintRead(data, p).Read?
    ensures 4 <= VarintRead(data, p).value
    ensures Bit(data, p) == 1 ==> VarintRead(data, p).value < 8 && VarintRead(data, p).width == 3
    ensures Bit(data, p) == 0 ==>
      var z := ZeroRun(data, p);
      Pow2(z + 2) <= VarintRead(data, p).value < Pow2(z + 3) &&
      VarintRead(data, p).width == 2 * z + 3
  {
    if Bit(data, p) == 1 {
      VarintShort(data, p);
    } else {
      VarintLongRange(data, p, ZeroRun(data, p));
    }
  }

  lemma VarintLongRange(data: seq<byte>, p: nat, z: nat)
    requires OneAhead(data, p) && Bit(data, p) == 0 && z == ZeroRun(data, p) && z + 2 <= 32
    ensures VarintRead(data, p).Read?
    ensures Pow2(z + 2) <= VarintRead(data, p).value < Pow2(z + 3)
    ensures VarintRead(data, p).width == 2 * z + 3
  {
    var avail := 31 - Mod8(p + z);
    VarintLongIs(data, p, z, p + z + 1, avail, z + 2);
    PeekBound(data, p + z + 1, avail, z + 2);
  }

  /** With a short code, or a long code of at most 22 zeros, the window holds the whole
      payload and count_bits agrees with the unlimited reader. */
  lemma VarintMatchesGamma(data: seq<byte>, p: nat)
    requires OneAhead(data, p)
    requires Bit(data, p) == 0 ==> ZeroRun(data, p) <= 22
    ensures VarintRead(data, p) == Gamma(data, p)
  {
    if Bit(data, p) == 1 {
      VarintShort(data, p);
    }
  }
}
