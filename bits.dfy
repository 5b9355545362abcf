/** Bytes, powers of two, shifts and the big-endian bit order of a byte stream.
    A read past the end of the stream yields no bytes, which the decoder turns into 0,
    so the stream is seen here as padded with zero bytes forever.

    Shifts are written as the recursive functions Shl and Shr (one doubling or halving
    per step) rather than as products with a power of two, so that every fact below is
    proved by linear reasoning, one bit at a time. */
module Bits {

  type byte = x: int | 0 <= x < 256

  function Pow2(n: nat): (r: nat)
    ensures r >= 1
  {
    if n == 0 then 1 else 2 * Pow2(n - 1)
  }

  /** x << k */
  function Shl(x: nat, k: nat): nat
  {
    if k == 0 then x else 2 * Shl(x, k - 1)
  }

  /** x >> k */
  function Shr(x: nat, k: nat): nat
  {
    if k == 0 then x else Shr(x / 2, k - 1)
  }

  /** The byte at index i, or 0 past the end of the data. */
  function ByteAt(data: seq<byte>, i: nat): byte
  {
    if i < |data| then data[i] else 0
  }

  /** The top bit of a byte. */
  function HighBit(b: nat): nat
  {
    if b >= 128 then 1 else 0
  }

  /** The byte with its top bit dropped and the rest moved up one place. */
  function Drop(b: nat, k: nat): nat
  {
    if k == 0 then b else 2 * (Drop(b, k - 1) - 128 * HighBit(Drop(b, k - 1)))
  }

  /** Bit j of byte b, counting from the most significant bit (j = 0). */
  function BitOfByte(b: nat, j: nat): (r: nat)
    ensures r == 0 || r == 1
  {
    HighBit(Drop(b, j))
  }

  /** Bit i of the stream: the most significant bit of each byte comes first. */
  function Bit(data: seq<byte>, i: nat): (b: nat)
    ensures b == 0 || b == 1
  {
    BitFrom(data, 0, i)
  }

  /** Bit i of the stream counted from byte j. */
  function BitFrom(data: seq<byte>, j: nat, i: nat): (b: nat)
    ensures b == 0 || b == 1
    decreases i
  {
    if i < 8 then BitOfByte(ByteAt(data, j), i) else BitFrom(data, j + 1, i - 8)
  }

  /** The n bits starting at bit p, read as a big-endian unsigned number. */
  function BitsVal(data: seq<byte>, p: nat, n: nat): nat
  {
    if n == 0 then 0 else 2 * BitsVal(data, p, n - 1) + Bit(data, p + n - 1)
  }

  /** Bitwise or of two non-negative integers. */
  function Or(a: nat, b: nat): nat
  {
    if a == 0 then b
    else if b == 0 then a
    else 2 * Or(a / 2, b / 2) + (if a % 2 == 1 || b % 2 == 1 then 1 else 0)
  }

  /** Bitwise and of two non-negative integers. */
  function And(a: nat, b: nat): nat
  {
    if a == 0 || b == 0 then 0
    else 2 * And(a / 2, b / 2) + (if a % 2 == 1 && b % 2 == 1 then 1 else 0)
  }

  // ---------------------------------------------------------------------
  // Powers of two

  lemma Pow2Byte()
    ensures Pow2(1) == 2 && Pow2(2) == 4 && Pow2(3) == 8 && Pow2(4) == 16
    ensures Pow2(5) == 32 && Pow2(6) == 64 && Pow2(7) == 128 && Pow2(8) == 256
  {
    assert Pow2(1) == 2;
    assert Pow2(2) == 4;
    assert Pow2(3) == 8;
    assert Pow2(4) == 16;
    assert Pow2(5) == 32;
    assert Pow2(6) == 64;
    assert Pow2(7) == 128;
  }

  /** Pow2(a + b) is Pow2(a) shifted left by b. */
  lemma {:induction false} Pow2Shl(a: nat, b: nat)
    ensures Pow2(a + b) == Shl(Pow2(a), b)
  {
    if b > 0 {
      Pow2Shl(a, b - 1);
    }
  }

  lemma Pow2Short()
    ensures Pow2(16) == 0x1_0000
  {
    Pow2Byte();
    Pow2Shl(8, 8);
    assert Shl(256, 8) == 0x1_0000 by {
      assert Shl(256, 1) == 512;
      assert Shl(256, 2) == 1024;
      assert Shl(256, 3) == 2048;
      assert Shl(256, 4) == 4096;
      assert Shl(256, 5) == 8192;
      assert Shl(256, 6) == 16384;
      assert Shl(256, 7) == 32768;
    }
  }

  lemma Pow2Top()
    ensures Pow2(24) == 0x100_0000 && Pow2(29) == 0x2000_0000 && Pow2(31) == 0x8000_0000
  {
    Pow2Short();
    assert Pow2(17) == 0x2_0000;
    assert Pow2(18) == 0x4_0000;
    assert Pow2(19) == 0x8_0000;
    assert Pow2(20) == 0x10_0000;
    assert Pow2(21) == 0x20_0000;
    assert Pow2(22) == 0x40_0000;
    assert Pow2(23) == 0x80_0000;
    assert Pow2(24) == 0x100_0000;
    assert Pow2(25) == 0x200_0000;
    assert Pow2(26) == 0x400_0000;
    assert Pow2(27) == 0x800_0000;
    assert Pow2(28) == 0x1000_0000;
    assert Pow2(29) == 0x2000_0000;
    assert Pow2(30) == 0x4000_0000;
  }

  lemma Pow2Word()
    ensures Pow2(32) == 0x1_0000_0000
  {
    Pow2Top();
    assert Pow2(32) == 2 * Pow2(31);
  }

  lemma {:induction false} Pow2Monotone(a: nat, b: nat)
    requires a <= b
    ensures Pow2(a) <= Pow2(b)
  {
    if a < b {
      Pow2Monotone(a, b - 1);
    }
  }

  // ---------------------------------------------------------------------
  // Shifts

  lemma {:induction false} ShlZero(k: nat)
    ensures Shl(0, k) == 0
  {
    if k > 0 {
      ShlZero(k - 1);
    }
  }

  lemma {:induction false} ShlAdd(x: nat, a: nat, b: nat)
    ensures Shl(Shl(x, a), b) == Shl(x, a + b)
  {
    if b > 0 {
      ShlAdd(x, a, b - 1);
    }
  }

  lemma {:induction false} ShlPlus(x: nat, y: nat, k: nat)
    ensures Shl(x + y, k) == Shl(x, k) + Shl(y, k)
  {
    if k > 0 {
      ShlPlus(x, y, k - 1);
    }
  }

  /** A number of n bits shifted left by m has at most n + m bits. */
  lemma {:induction false} ShlBound(x: nat, n: nat, m: nat)
    requires x < Pow2(n)
    ensures Shl(x, m) < Pow2(n + m)
  {
    if m > 0 {
      ShlBound(x, n, m - 1);
    }
  }

  lemma {:induction false} ShlMonotone(x: nat, y: nat, k: nat)
    requires x <= y
    ensures Shl(x, k) <= Shl(y, k)
  {
    if k > 0 {
      ShlMonotone(x, y, k - 1);
    }
  }

  lemma {:induction false} ShlCancel(x: nat, y: nat, k: nat)
    requires Shl(x, k) == Shl(y, k)
    ensures x == y
  {
    if k > 0 {
      ShlCancel(x, y, k - 1);
    }
  }

  lemma {:induction false} ShlMul(x: nat, k: nat)
    ensures Shl(x, k) == x * Pow2(k)
  {
    if k > 0 {
      ShlMul(x, k - 1);
      MulTwice(x, Pow2(k - 1));
    }
  }

  lemma MulTwice(x: int, y: int)
    ensures 2 * (x * y) == x * (2 * y)
  {
  }

  /** Shifting right by k a number made of hi above k low bits lo yields hi. */
  lemma {:induction false} ShrOfSplit(hi: nat, lo: nat, k: nat)
    requires lo < Pow2(k)
    ensures Shr(Shl(hi, k) + lo, k) == hi
  {
    if k > 0 {
      var x := Shl(hi, k) + lo;
      assert x / 2 == Shl(hi, k - 1) + lo / 2;
      ShrOfSplit(hi, lo / 2, k - 1);
    }
  }

  /** Shifting right by k <= s a number shifted left by s. */
  lemma {:induction false} ShrOfShl(x: nat, s: nat, k: nat)
    requires k <= s
    ensures Shr(Shl(x, s), k) == Shl(x, s - k)
  {
    if k > 0 {
      assert Shl(x, s) / 2 == Shl(x, s - 1);
      ShrOfShl(x, s - 1, k - 1);
    }
  }

  /** A number below 2^k shifted right by k is 0. */
  lemma ShrSmall(lo: nat, k: nat)
    requires lo < Pow2(k)
    ensures Shr(lo, k) == 0
  {
    ShlZero(k);
    ShrOfSplit(0, lo, k);
  }

  lemma {:induction false} ShrBound(x: nat, n: nat, k: nat)
    requires x < Pow2(n + k)
    ensures Shr(x, k) < Pow2(n)
  {
    if k > 0 {
      ShrBound(x / 2, n, k - 1);
    }
  }

  /** Shifting right by a, then by b, is shifting right by a + b. */
  lemma {:induction false} ShrShr(x: nat, a: nat, b: nat)
    ensures Shr(Shr(x, a), b) == Shr(x, a + b)
  {
    if a > 0 {
      ShrShr(x / 2, a - 1, b);
    }
  }

  /** Adding m above the low k bits adds m to the top part. */
  lemma {:induction false} ShrAddShl(x: nat, m: nat, k: nat)
    ensures Shr(x + Shl(m, k), k) == Shr(x, k) + m
  {
    if k > 0 {
      assert (x + Shl(m, k)) / 2 == x / 2 + Shl(m, k - 1);
      ShrAddShl(x / 2, m, k - 1);
    }
  }

  /** x >> k is the largest h with h << k <= x. */
  lemma {:induction false} ShrFloor(x: nat, k: nat)
    ensures Shl(Shr(x, k), k) <= x < Shl(Shr(x, k) + 1, k)
  {
    if k > 0 {
      ShrFloor(x / 2, k - 1);
    }
  }

  /** A number shifted left by 32 vanishes under the 32-bit mask. */
  lemma MaskWord(hi: nat, lo: nat)
    requires lo < 0x1_0000_0000
    ensures (Shl(hi, 32) + lo) % 0x1_0000_0000 == lo
  {
    ShlMul(hi, 32);
    Pow2Word();
    assert Shl(hi, 32) + lo == hi * 0x1_0000_0000 + lo;
  }

  /** Shifting hi:lo (lo of r bits) left by t = 32 - r and masking to 32 bits keeps lo. */
  lemma MaskedShift(v: nat, hi: nat, lo: nat, r: nat, t: nat)
    requires v == Shl(hi, r) + lo && lo < Pow2(r) && r + t == 32
    ensures Shl(v, t) % 0x1_0000_0000 == Shl(lo, t)
  {
    ShlPlus(Shl(hi, r), lo, t);
    ShlAdd(hi, r, t);
    ShlBound(lo, r, t);
    Pow2Word();
    MaskWord(hi, Shl(lo, t));
  }

  /** The top bits hi of hi:lo (lo of r bits) survive a shift left by s and a shift
      right by r + s. */
  lemma TopOfShifted(v: nat, hi: nat, lo: nat, r: nat, s: nat)
    requires v == Shl(hi, r) + lo && lo < Pow2(r)
    ensures Shr(Shl(v, s), r + s) == hi
  {
    ShlPlus(Shl(hi, r), lo, s);
    ShlAdd(hi, r, s);
    ShlBound(lo, r, s);
    ShrOfSplit(hi, Shl(lo, s), r + s);
  }

  /** Shifting left by 32 or more and masking to 32 bits leaves nothing. */
  lemma MaskedOut(v: nat, t: nat)
    requires t >= 32
    ensures Shl(v, t) % 0x1_0000_0000 == 0
  {
    ShlAdd(v, t - 32, 32);
    MaskWord(Shl(v, t - 32), 0);
  }

  // ---------------------------------------------------------------------
  // Bitwise or

  lemma {:induction false} OrShl(a: nat, b: nat, s: nat)
    ensures Or(Shl(a, s), Shl(b, s)) == Shl(Or(a, b), s)
  {
    if s > 0 {
      OrShl(a, b, s - 1);
      var x, y := Shl(a, s - 1), Shl(b, s - 1);
      if x == 0 {
        ShlZero(s);
        assert Or(a, b) == b by { ShlZeroInv(a, s - 1); }
      } else if y == 0 {
        ShlZero(s);
        assert Or(a, b) == a by { ShlZeroInv(b, s - 1); }
      } else {
        assert (2 * x) / 2 == x && (2 * y) / 2 == y;
      }
    }
  }

  lemma {:induction false} ShlZeroInv(x: nat, k: nat)
    requires Shl(x, k) == 0
    ensures x == 0
  {
    if k > 0 {
      ShlZeroInv(x, k - 1);
    }
  }

  lemma {:induction false} OrComm(a: nat, b: nat)
    ensures Or(a, b) == Or(b, a)
  {
    if a != 0 && b != 0 {
      OrComm(a / 2, b / 2);
    }
  }

  /** Or-ing a number below 2^k into k free low bits is adding it. */
  lemma {:induction false} OrDisjoint(a: nat, b: nat, k: nat)
    requires b < Pow2(k)
    ensures Or(Shl(a, k), b) == Shl(a, k) + b
  {
    if k > 0 && Shl(a, k) != 0 && b != 0 {
      OrDisjoint(a, b / 2, k - 1);
      assert (2 * Shl(a, k - 1)) / 2 == Shl(a, k - 1);
    }
  }

  // ---------------------------------------------------------------------
  // Bitwise and

  /** Masking with 2^k keeps bit k alone: the result is 0 or 2^k, and never above x. */
  lemma {:induction false} AndPow2(x: nat, k: nat)
    ensures And(x, Pow2(k)) == 0 || And(x, Pow2(k)) == Pow2(k)
    ensures And(x, Pow2(k)) <= x
  {
    if k > 0 && x != 0 {
      AndPow2(x / 2, k - 1);
    }
  }

  /** Masking with 2^k tests bit k. */
  lemma {:induction false} AndBit(x: nat, k: nat)
    ensures And(x, Pow2(k)) != 0 <==> Shr(x, k) % 2 == 1
  {
    if k > 0 {
      AndBit(x / 2, k - 1);
    }
  }

  /** A mask of j ones keeps a number of j bits whole. */
  lemma {:induction false} AndOnes(x: nat, j: nat)
    requires x < Pow2(j)
    ensures And(x, Pow2(j) - 1) == x
  {
    if x != 0 {
      AndOnes(x / 2, j - 1);
    }
  }

  /** Taking bit k out of x leaves bit k clear. */
  lemma {:induction false} AndPow2Removed(x: nat, k: nat)
    ensures And(x, Pow2(k)) <= x
    ensures And(x - And(x, Pow2(k)), Pow2(k)) == 0
  {
    AndPow2(x, k);
    if k > 0 && x != 0 {
      AndPow2Removed(x / 2, k - 1);
      var a := And(x / 2, Pow2(k - 1));
      assert (x - 2 * a) / 2 == x / 2 - a;
    }
  }

  /** The mask of n ones with bit k cleared takes bit k out of a number of n bits. */
  lemma {:induction false} AndAllBut(x: nat, mask: nat, k: nat, n: nat)
    requires x < Pow2(n) && mask + Pow2(k) + 1 == Pow2(n)
    ensures And(x, mask) + And(x, Pow2(k)) == x
  {
    if x == 0 {
    } else if mask == 0 {
      assert k == 0 && n == 1;
      assert And(x, 1) == x by {
        assert x == 1;
        assert And(x / 2, 0) == 0;
      }
    } else if k == 0 {
      assert n > 0;
      assert mask / 2 == Pow2(n - 1) - 1 && mask % 2 == 0;
      AndOnes(x / 2, n - 1);
      assert And(x, mask) == 2 * (x / 2);
      assert And(x / 2, 0) == 0;
      assert And(x, Pow2(0)) == x % 2;
    } else {
      assert Pow2(n) == 2 * Pow2(n - 1) && Pow2(k) == 2 * Pow2(k - 1);
      assert mask / 2 + Pow2(k - 1) + 1 == Pow2(n - 1) && mask % 2 == 1;
      AndAllBut(x / 2, mask / 2, k - 1, n - 1);
      assert And(x, mask) == 2 * And(x / 2, mask / 2) + x % 2;
      assert And(x, Pow2(k)) == 2 * And(x / 2, Pow2(k - 1));
    }
  }

  // ---------------------------------------------------------------------
  // Facts about BitsVal

  lemma {:induction false} BitsValBound(data: seq<byte>, p: nat, n: nat)
    ensures BitsVal(data, p, n) < Pow2(n)
  {
    if n > 0 {
      BitsValBound(data, p, n - 1);
    }
  }

  /** Reading k + m bits is reading k bits, then m more. */
  lemma {:induction false} BitsValSplit(data: seq<byte>, p: nat, k: nat, m: nat)
    ensures BitsVal(data, p, k + m) == Shl(BitsVal(data, p, k), m) + BitsVal(data, p + k, m)
  {
    if m > 0 {
      BitsValSplit(data, p, k, m - 1);
    }
  }

  lemma BitInByte(data: seq<byte>, j: nat, i: nat)
    requires i < 8
    ensures Bit(data, 8 * j + i) == BitOfByte(ByteAt(data, j), i)
  {
    BitFromSkip(data, 0, j, i);
  }

  lemma {:induction false} BitFromSkip(data: seq<byte>, j0: nat, j: nat, i: nat)
    requires j0 <= j && i < 8
    ensures BitFrom(data, j0, 8 * (j - j0) + i) == BitOfByte(ByteAt(data, j), i)
    decreases j - j0
  {
    if j0 < j {
      BitFromSkip(data, j0 + 1, j, i);
    }
  }

  /** The top k bits of b, read one at a time. */
  function TopVal(b: nat, k: nat): nat
  {
    if k == 0 then 0 else 2 * TopVal(b, k - 1) + BitOfByte(b, k - 1)
  }

  /** b shifted left by k is its top k bits above the rest of it. */
  lemma {:induction false} TopValSplit(b: nat, k: nat)
    requires b < 256
    ensures Drop(b, k) < 256
    ensures Shl(b, k) == Shl(TopVal(b, k), 8) + Drop(b, k)
  {
    if k > 0 {
      TopValSplit(b, k - 1);
      var t, d := TopVal(b, k - 1), Drop(b, k - 1);
      var h := HighBit(d);
      assert 2 * d == Drop(b, k) + Shl(h, 8) by {
        Pow2Byte();
        Pow2Shl(0, 8);
        if h == 0 {
          ShlZero(8);
        }
      }
      ShlPlus(Shl(t, 1), h, 8);
      ShlAdd(t, 1, 8);
      ShlAdd(t, 8, 1);
    }
  }

  /** The top k bits of byte j of the stream. */
  lemma {:induction false} ByteTopVal(data: seq<byte>, j: nat, k: nat)
    requires k <= 8
    ensures BitsVal(data, 8 * j, k) == TopVal(ByteAt(data, j), k)
  {
    if k > 0 {
      ByteTopVal(data, j, k - 1);
      BitInByte(data, j, k - 1);
    }
  }

  /** The eight bits of byte j are the byte. */
  lemma ByteBits(data: seq<byte>, j: nat)
    ensures BitsVal(data, 8 * j, 8) == ByteAt(data, j)
  {
    var b: nat := ByteAt(data, j);
    ByteTopVal(data, j, 8);
    TopValSplit(b, 8);
    Pow2Byte();
    ShrOfSplit(TopVal(b, 8), Drop(b, 8), 8);
    ShrOfShl(b, 8, 8);
  }

  // ---------------------------------------------------------------------
  // Big-endian byte strings

  /** The bytes read as a big-endian unsigned number (`int.from_bytes(bs, "big")`). */
  function FromBig(bs: seq<byte>): nat
  {
    if |bs| == 0 then 0 else 256 * FromBig(bs[..|bs| - 1]) + bs[|bs| - 1]
  }

  /** k whole bytes of the stream from byte j, read big-endian, are its 8k bits from
      bit 8j. */
  lemma {:induction false} FromBigBits(data: seq<byte>, j: nat, k: nat)
    requires j + k <= |data|
    ensures FromBig(data[j..j + k]) == BitsVal(data, 8 * j, 8 * k)
  {
    if k > 0 {
      var bs := data[j..j + k];
      var m := 8 * (k - 1);
      var hi := BitsVal(data, 8 * j, m);
      var last := j + k - 1;
      assert bs[..k - 1] == data[j..last];
      FromBigBits(data, j, k - 1);
      assert FromBig(bs) == 256 * hi + data[last];
      ShlByte(hi);
      ByteBits(data, last);
      assert 8 * j + m == 8 * last;
      BitsValSplit(data, 8 * j, m, 8);
      assert m + 8 == 8 * k;
    }
  }

  /** x << 8 == 256 * x */
  lemma ShlByte(x: nat)
    ensures Shl(x, 8) == 256 * x
  {
    ShlMul(x, 8);
    Pow2Byte();
  }

  /** x << 16 == 0x1_0000 * x */
  lemma ShlShort(x: nat)
    ensures Shl(x, 16) == 0x1_0000 * x
  {
    ShlMul(x, 16);
    Pow2Short();
  }

}
