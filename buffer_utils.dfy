/** Fixed-width integer readers over a byte stream.

    A stream is its bytes and a cursor. Reading n bytes yields the next n bytes, or
    fewer at the end of the stream, and moves the cursor past the bytes it yields. Each
    reader decodes the bytes it gets as an unsigned or two's-complement integer in a
    given byte order. */
module BufferUtils {
  import opened Bits

  datatype ByteOrder = Little | Big

  /** The value a reader decodes and the cursor after it. */
  datatype Reading = Reading(value: int, next: nat)

  /** buffer.read(n): the next n bytes from pos, or what is left of the stream. */
  function Take(data: seq<byte>, pos: nat, n: nat): (bs: seq<byte>)
    ensures |bs| <= n
    ensures pos + n <= |data| ==> bs == data[pos..pos + n]
    ensures pos <= |data| < pos + n ==> bs == data[pos..]
    ensures |data| <= pos ==> bs == []
  {
    if |data| <= pos then [] else if pos + n <= |data| then data[pos..pos + n] else data[pos..]
  }

  function Pow256(n: nat): (r: nat)
    ensures r >= 1
  {
    if n == 0 then 1 else 256 * Pow256(n - 1)
  }

  /** int.from_bytes(bs, 'little') */
  function FromLittle(bs: seq<byte>): nat
  {
    if |bs| == 0 then 0 else bs[0] + 256 * FromLittle(bs[1..])
  }

  /** int.from_bytes(bs, order) */
  function FromBytes(bs: seq<byte>, order: ByteOrder): nat
  {
    match order
      case Little => FromLittle(bs)
      case Big => FromBig(bs)
  }

  /** int.from_bytes(bs, 'little', signed=True): the top bit of the last byte has
      weight -2^(8|bs| - 1). */
  function FromSignedLittle(bs: seq<byte>): int
  {
    if |bs| > 0 && bs[|bs| - 1] >= 128 then FromLittle(bs) - Pow256(|bs|) else FromLittle(bs)
  }

  /** The n-byte little-endian encoding of v. */
  function ToLittle(v: nat, n: nat): (bs: seq<byte>)
    ensures |bs| == n
  {
    if n == 0 then [] else [(v % 256) as byte] + ToLittle(v / 256, n - 1)
  }

  function Reverse(bs: seq<byte>): (r: seq<byte>)
    ensures |r| == |bs|
  {
    if |bs| == 0 then [] else [bs[|bs| - 1]] + Reverse(bs[..|bs| - 1])
  }

  /** The n-byte encoding of v in the given order. */
  function ToBytes(v: nat, n: nat, order: ByteOrder): (bs: seq<byte>)
    ensures |bs| == n
  {
    match order
      case Little => ToLittle(v, n)
      case Big => Reverse(ToLittle(v, n))
  }

  // ---------------------------------------------------------------------
  // Encoding and decoding

  /** n bytes decode to a value below 256^n. */
  lemma {:induction false} FromLittleBound(bs: seq<byte>)
    ensures FromLittle(bs) < Pow256(|bs|)
  {
    if |bs| > 0 {
      FromLittleBound(bs[1..]);
    }
  }

  /** Decoding the encoding of a value that fits gives the value back. */
  lemma {:induction false} FromToLittle(v: nat, n: nat)
    requires v < Pow256(n)
    ensures FromLittle(ToLittle(v, n)) == v
  {
    if n > 0 {
      var bs := ToLittle(v, n);
      assert bs[1..] == ToLittle(v / 256, n - 1);
      FromToLittle(v / 256, n - 1);
    }
  }

  /** Encoding the decoded bytes gives the bytes back. */
  lemma {:induction false} ToFromLittle(bs: seq<byte>)
    ensures ToLittle(FromLittle(bs), |bs|) == bs
  {
    if |bs| > 0 {
      var v := FromLittle(bs);
      assert v % 256 == bs[0] && v / 256 == FromLittle(bs[1..]);
      ToFromLittle(bs[1..]);
    }
  }

  /** Big-endian is little-endian of the reversed bytes. */
  lemma {:induction false} FromBigReversed(bs: seq<byte>)
    ensures FromBig(bs) == FromLittle(Reverse(bs))
  {
    if |bs| > 0 {
      var init := bs[..|bs| - 1];
      FromBigReversed(init);
      assert Reverse(bs)[1..] == Reverse(init);
    }
  }

  lemma {:induction false} ReverseReverse(bs: seq<byte>)
    ensures Reverse(Reverse(bs)) == bs
  {
    if |bs| > 0 {
      var init := bs[..|bs| - 1];
      ReverseReverse(init);
      ReverseAppend([bs[|bs| - 1]], Reverse(init));
      assert Reverse([bs[|bs| - 1]]) == [bs[|bs| - 1]];
    }
  }

  lemma {:induction false} ReverseAppend(a: seq<byte>, b: seq<byte>)
    ensures Reverse(a + b) == Reverse(b) + Reverse(a)
    decreases |b|
  {
    if |b| > 0 {
      assert (a + b)[..|a + b| - 1] == a + b[..|b| - 1];
      ReverseAppend(a, b[..|b| - 1]);
    } else {
      assert a + b == a;
    }
  }

  /** The decoded value lies below 256^n, in either order. */
  lemma FromBytesBound(bs: seq<byte>, order: ByteOrder)
    ensures FromBytes(bs, order) < Pow256(|bs|)
  {
    FromLittleBound(bs);
    FromLittleBound(Reverse(bs));
    FromBigReversed(bs);
  }

  /** Encoding a decoded value in the same order gives the bytes back. */
  lemma ToFromBytes(bs: seq<byte>, order: ByteOrder)
    ensures ToBytes(FromBytes(bs, order), |bs|, order) == bs
  {
    match order {
      case Little =>
        ToFromLittle(bs);
      case Big =>
        FromBigReversed(bs);
        ToFromLittle(Reverse(bs));
        ReverseReverse(bs);
    }
  }

  /** Decoding an encoding in the same order gives the value back. */
  lemma FromToBytes(v: nat, n: nat, order: ByteOrder)
    requires v < Pow256(n)
    ensures FromBytes(ToBytes(v, n, order), order) == v
  {
    FromToLittle(v, n);
    match order {
      case Little =>
      case Big =>
        FromBigReversed(Reverse(ToLittle(v, n)));
        ReverseReverse(ToLittle(v, n));
    }
  }

  lemma Pow256Values()
    ensures Pow256(1) == 0x100 && Pow256(2) == 0x1_0000 && Pow256(3) == 0x100_0000 && Pow256(4) == 0x1_0000_0000
  {
  }

  // ---------------------------------------------------------------------
  // The readers

  /** read_int: four bytes, unsigned. The value is below 2^32, and when the stream holds
      four bytes it is the one whose encoding they are. */
  function ReadInt(data: seq<byte>, pos: nat, order: ByteOrder): (r: Reading)
    ensures 0 <= r.value < 0x1_0000_0000
    ensures r.next == pos + |Take(data, pos, 4)|
    ensures pos + 4 <= |data| ==> ToBytes(r.value, 4, order) == data[pos..pos + 4]
  {
    var bs := Take(data, pos, 4);
    FromBytesBound(bs, order);
    Pow256Grows(|bs|, 4);
    Pow256Values();
    ToFromBytes(bs, order);
    Reading(FromBytes(bs, order), pos + |bs|)
  }

  /** read_3int: three bytes, unsigned; the value is below 2^24. */
  function Read3Int(data: seq<byte>, pos: nat, order: ByteOrder): (r: Reading)
    ensures 0 <= r.value < 0x100_0000
    ensures r.next == pos + |Take(data, pos, 3)|
    ensures pos + 3 <= |data| ==> ToBytes(r.value, 3, order) == data[pos..pos + 3]
  {
    var bs := Take(data, pos, 3);
    FromBytesBound(bs, order);
    Pow256Grows(|bs|, 3);
    Pow256Values();
    ToFromBytes(bs, order);
    Reading(FromBytes(bs, order), pos + |bs|)
  }

  lemma {:induction false} Pow256Grows(m: nat, n: nat)
    requires m <= n
    ensures Pow256(m) <= Pow256(n)
  {
    if m < n {
      Pow256Grows(m, n - 1);
    }
  }

  /** read_short: two bytes, right-padded with zero bytes when the stream ends early, so
      a lone byte b reads as b little-endian and as 256 b big-endian, and an exhausted
      stream reads 0. */
  function ReadShort(data: seq<byte>, pos: nat, order: ByteOrder): (r: Reading)
    ensures 0 <= r.value < 0x1_0000
    ensures r.next == pos + |Take(data, pos, 2)|
    ensures pos + 2 <= |data| ==> ToBytes(r.value, 2, order) == data[pos..pos + 2]
    ensures pos + 1 == |data| ==> r.value == if order == Little then data[pos] as int else 256 * (data[pos] as int)
    ensures |data| <= pos ==> r.value == 0
  {
    var bs := Take(data, pos, 2);
    var padded := bs + Zeros(2 - |bs|);
    FromBytesBound(padded, order);
    Pow256Values();
    ToFromBytes(padded, order);
    assert |bs| == 2 ==> padded == bs;
    TwoBytes(padded[0], padded[1]);
    assert padded == [padded[0], padded[1]];
    Reading(FromBytes(padded, order), pos + |bs|)
  }

  /** Two bytes b0, b1 decode to b0 + 256 b1 little-endian and to 256 b0 + b1 big-endian. */
  lemma TwoBytes(b0: byte, b1: byte)
    ensures FromLittle([b0, b1]) == b0 as int + 256 * (b1 as int)
    ensures FromBig([b0, b1]) == 256 * (b0 as int) + b1 as int
    ensures FromLittle([b0]) == b0 as int
  {
    assert [b1][1..] == [];
    assert FromLittle([b1]) == b1 as int;
    assert [b0][1..] == [];
    assert FromLittle([b0]) == b0 as int;
    assert [b0, b1][1..] == [b1];
    assert [b0][..0] == [];
    assert FromBig([b0]) == b0 as int;
    assert [b0, b1][..1] == [b0];
  }

  /** At most one byte decodes to that byte, or to 0 when there is none. */
  lemma OneByte(bs: seq<byte>)
    requires |bs| <= 1
    ensures FromLittle(bs) == if |bs| == 1 then bs[0] as int else 0
  {
    if |bs| == 1 {
      TwoBytes(bs[0], 0);
      assert bs == [bs[0]];
    }
  }

  /** n zero bytes: the padding `ljust` adds. */
  function Zeros(n: nat): (z: seq<byte>)
    ensures |z| == n && forall i :: 0 <= i < n ==> z[i] == 0
  {
    if n == 0 then [] else Zeros(n - 1) + [0]
  }

  /** read_signed_short: two bytes, little-endian two's complement (not padded). With two
      bytes it is the unsigned short, less 2^16 when the top bit is set. */
  function ReadSignedShort(data: seq<byte>, pos: nat): (r: Reading)
    ensures -0x8000 <= r.value < 0x8000
    ensures r.next == pos + |Take(data, pos, 2)|
    ensures pos + 2 <= |data| ==>
      var u := ReadShort(data, pos, Little).value;
      r.value == if u >= 0x8000 then u - 0x1_0000 else u
  {
    var bs := Take(data, pos, 2);
    SignedBound(bs);
    assert |bs| == 2 ==> bs + Zeros(0) == bs;
    Reading(FromSignedLittle(bs), pos + |bs|)
  }

  /** A two's-complement value of at most two bytes lies in [-2^15, 2^15). */
  lemma SignedBound(bs: seq<byte>)
    requires |bs| <= 2
    ensures -0x8000 <= FromSignedLittle(bs) < 0x8000
    ensures |bs| == 2 ==> (FromSignedLittle(bs) ==
      if FromLittle(bs) >= 0x8000 then FromLittle(bs) - 0x1_0000 else FromLittle(bs))
  {
    if |bs| == 2 {
      TwoBytes(bs[0], bs[1]);
      assert bs == [bs[0], bs[1]];
    } else if |bs| == 1 {
      TwoBytes(bs[0], 0);
      assert bs == [bs[0]];
    }
  }

  /** read_signed_int: four bytes, little-endian two's complement (not padded). With four
      bytes it is the unsigned little-endian int, less 2^32 when the top bit is set. */
  function ReadSignedInt(data: seq<byte>, pos: nat): (r: Reading)
    ensures -0x8000_0000 <= r.value < 0x8000_0000
    ensures r.next == pos + |Take(data, pos, 4)|
    ensures pos + 4 <= |data| ==>
      var u := ReadInt(data, pos, Little).value;
      r.value == if u >= 0x8000_0000 then u - 0x1_0000_0000 else u
  {
    var bs := Take(data, pos, 4);
    SignedIntBound(bs);
    Reading(FromSignedLittle(bs), pos + |bs|)
  }

  /** A two's-complement value of at most four bytes lies in [-2^31, 2^31). */
  lemma SignedIntBound(bs: seq<byte>)
    requires |bs| <= 4
    ensures -0x8000_0000 <= FromSignedLittle(bs) < 0x8000_0000
    ensures |bs| == 4 ==> (FromSignedLittle(bs) ==
      if FromLittle(bs) >= 0x8000_0000 then FromLittle(bs) - 0x1_0000_0000 else FromLittle(bs))
  {
    if |bs| > 0 {
      SignedRange(bs);
      Pow256Grows(|bs| - 1, 3);
      Pow256Values();
    }
  }

  /** The last of n little-endian bytes weighs 256^(n - 1). */
  lemma {:induction false} LastByteWeight(bs: seq<byte>)
    requires |bs| > 0
    ensures FromLittle(bs) == FromLittle(bs[..|bs| - 1]) + Pow256(|bs| - 1) * bs[|bs| - 1]
  {
    var n := |bs|;
    if n > 1 {
      LastByteWeight(bs[1..]);
      assert bs[1..][..n - 2] == bs[..n - 1][1..];
      var last, p := bs[n - 1] as int, Pow256(n - 2);
      assert 256 * (p * last) == (256 * p) * last;
    }
  }

  /** A two's-complement value of n > 0 bytes lies in [-h, h) for h = 256^n / 2, and it
      is the unsigned value less 2h exactly when that value reaches h. */
  lemma SignedRange(bs: seq<byte>)
    requires |bs| > 0
    ensures -128 * Pow256(|bs| - 1) <= FromSignedLittle(bs) < 128 * Pow256(|bs| - 1)
    ensures FromSignedLittle(bs) ==
      if FromLittle(bs) >= 128 * Pow256(|bs| - 1) then FromLittle(bs) - 256 * Pow256(|bs| - 1) else FromLittle(bs)
  {
    var n := |bs|;
    LastByteWeight(bs);
    FromLittleBound(bs[..n - 1]);
    WeightedSplit(FromLittle(bs[..n - 1]), Pow256(n - 1), bs[n - 1] as int);
  }

  /** A value below p plus p times a byte reaches 128 p exactly when the byte reaches 128,
      and stays below 256 p. */
  lemma WeightedSplit(low: nat, p: nat, b: nat)
    requires low < p && b < 256
    ensures b >= 128 <==> low + p * b >= 128 * p
    ensures low + p * b < 256 * p
  {
    if b >= 128 {
      MulMonotone(p, 128, b);
    } else {
      MulMonotone(p, b, 127);
    }
    MulMonotone(p, b, 255);
  }

  /** p a <= p b for a <= b. */
  lemma {:induction false} MulMonotone(p: nat, a: nat, b: nat)
    requires a <= b
    ensures p * a <= p * b
    decreases b - a
  {
    if a < b {
      MulMonotone(p, a, b - 1);
      assert p * b == p * (b - 1) + p;
    }
  }

  /** read_byte: one byte, 0 at the end of the stream. */
  function ReadByte(data: seq<byte>, pos: nat): (r: Reading)
    ensures 0 <= r.value < 256
    ensures pos < |data| ==> r.value == data[pos] && r.next == pos + 1
    ensures |data| <= pos ==> r.value == 0 && r.next == pos
  {
    var bs := Take(data, pos, 1);
    OneByte(bs);
    Reading(FromLittle(bs), pos + |bs|)
  }

  /** read_signed_byte: one byte, two's complement; it is read_byte, less 256 when the
      byte is 128 or more. */
  function ReadSignedByte(data: seq<byte>, pos: nat): (r: Reading)
    ensures -128 <= r.value < 128
    ensures r.next == ReadByte(data, pos).next
    ensures r.value == if ReadByte(data, pos).value >= 128 then ReadByte(data, pos).value - 256 else ReadByte(data, pos).value
  {
    var bs := Take(data, pos, 1);
    OneByte(bs);
    Reading(FromSignedLittle(bs), pos + |bs|)
  }

  /** read_vector3_as_list: three signed shorts, each times k, listed as first, third,
      second. */
  function ReadVector3(data: seq<byte>, pos: nat, k: int): (r: (seq<int>, nat))
    ensures |r.0| == 3
    ensures pos + 6 <= |data| ==> r.1 == pos + 6
  {
    var x := ReadSignedShort(data, pos);
    var y := ReadSignedShort(data, x.next);
    var z := ReadSignedShort(data, y.next);
    ([x.value * k, z.value * k, y.value * k], z.next)
  }

  /** The vector lists the shorts at pos, pos + 4 and pos + 2, in that order, each
      scaled by k; with k = 1 each lies in the short range. */
  lemma Vector3Layout(data: seq<byte>, pos: nat, k: int)
    requires pos + 6 <= |data|
    ensures var v := ReadVector3(data, pos, k).0;
      v[0] == ReadSignedShort(data, pos).value * k &&
      v[1] == ReadSignedShort(data, pos + 4).value * k &&
      v[2] == ReadSignedShort(data, pos + 2).value * k
    ensures k == 1 ==> forall i :: 0 <= i < 3 ==> -0x8000 <= ReadVector3(data, pos, k).0[i] < 0x8000
  {
  }
}
