/** The decoder's output buffer, a growable byte array, and the two helpers that
    append to it: one byte, or a run of copies of the last byte. */
module OutputBuffer {
  import opened Bits

  /** n copies of v. */
  function Repeat<T>(v: T, n: nat): (r: seq<T>)
    ensures |r| == n
    ensures forall i :: 0 <= i < n ==> r[i] == v
  {
    if n == 0 then [] else Repeat(v, n - 1) + [v]
  }

  /** A run of a + b copies is a run of a copies followed by a run of b. */
  lemma {:induction false} RepeatAdd<T>(v: T, a: nat, b: nat)
    ensures Repeat(v, a + b) == Repeat(v, a) + Repeat(v, b)
  {
    if b > 0 {
      RepeatAdd(v, a, b - 1);
    }
  }

  /** Dropping k of the copies leaves the others. */
  lemma RepeatDrop<T>(v: T, n: nat, k: nat)
    requires k <= n
    ensures Repeat(v, n)[k..] == Repeat(v, n - k)
  {
    RepeatAdd(v, k, n - k);
  }

  /** The last byte of a non-empty buffer. */
  function Last(bytes: seq<byte>): byte
    requires |bytes| > 0
  {
    bytes[|bytes| - 1]
  }

  /** The number of rounds `range(length)` runs: none for a length below 1. */
  function Count(length: int): nat
  {
    if length > 0 then length else 0
  }

  /** One call of the two helpers: append a value, or repeat the last byte. */
  datatype Write = Append(value: int) | ReuseLast(length: int)

  /** The helpers accept the call: a value that fits in a byte (`to_bytes(1)` raises
      OverflowError otherwise), and a buffer with a last byte (`buffer[-1]` raises
      IndexError otherwise). */
  predicate Accepted(bytes: seq<byte>, w: Write)
  {
    match w
      case Append(v) => 0 <= v < 256
      case ReuseLast(_) => |bytes| > 0
  }

  /** The buffer after one helper call. It keeps the buffer before as its prefix, and a
      refused call leaves it as it was. */
  function Written(bytes: seq<byte>, w: Write): (r: seq<byte>)
    ensures bytes <= r
    ensures !Accepted(bytes, w) ==> r == bytes
  {
    match w
      case Append(v) => if 0 <= v < 256 then bytes + [v as byte] else bytes
      case ReuseLast(n) => if |bytes| > 0 then bytes + Repeat(Last(bytes), Count(n)) else bytes
  }

  /** Every call of the series is accepted, each on the buffer the calls before it
      leave. */
  predicate AllAccepted(bytes: seq<byte>, writes: seq<Write>)
    decreases |writes|
  {
    writes == [] || (Accepted(bytes, writes[0]) && AllAccepted(Written(bytes, writes[0]), writes[1..]))
  }

  /** The buffer after a series of helper calls. */
  function Replay(bytes: seq<byte>, writes: seq<Write>): seq<byte>
    decreases |writes|
  {
    if writes == [] then bytes else Replay(Written(bytes, writes[0]), writes[1..])
  }

  /** The buffer after a series of helper calls up to the first one refused, where the
      series raises. */
  function Applied(bytes: seq<byte>, writes: seq<Write>): (r: seq<byte>)
    ensures bytes <= r
    ensures AllAccepted(bytes, writes) ==> r == Replay(bytes, writes)
    decreases |writes|
  {
    if writes == [] || !Accepted(bytes, writes[0]) then bytes
    else Applied(Written(bytes, writes[0]), writes[1..])
  }

  /** Output is never taken back: the buffer before a series of calls is a prefix of
      the buffer after it. */
  lemma {:induction false} ReplayGrows(bytes: seq<byte>, writes: seq<Write>)
    ensures bytes <= Replay(bytes, writes)
    decreases |writes|
  {
    if writes != [] {
      ReplayGrows(Written(bytes, writes[0]), writes[1..]);
    }
  }

  /** Two series one after the other: the second starts from the buffer the first
      leaves, and both are accepted exactly when their concatenation is. */
  lemma {:induction false} ReplayAppend(bytes: seq<byte>, first: seq<Write>, second: seq<Write>)
    ensures Replay(bytes, first + second) == Replay(Replay(bytes, first), second)
    ensures AllAccepted(bytes, first + second) <==> AllAccepted(bytes, first) && AllAccepted(Replay(bytes, first), second)
    decreases |first|
  {
    if first != [] {
      assert (first + second)[0] == first[0];
      assert (first + second)[1..] == first[1..] + second;
      ReplayAppend(Written(bytes, first[0]), first[1..], second);
    } else {
      assert first + second == second;
    }
  }

  /** A byte array that grows at its end. */
  class ByteArray {
    var bytes: seq<byte>

    constructor()
      ensures bytes == []
    {
      bytes := [];
    }
  }

  /** Appends `value` as one byte; a value outside 0..255 does not fit in a byte and is
      refused, leaving the buffer as it was. */
  method AppendToOutput(buffer: ByteArray, value: int) returns (ok: bool)
    modifies buffer
    ensures ok <==> 0 <= value < 256
    ensures ok ==> buffer.bytes == old(buffer.bytes) + [value as byte]
    ensures !ok ==> buffer.bytes == old(buffer.bytes)
  {
    if 0 <= value < 256 {
      buffer.bytes := buffer.bytes + [value as byte];
      ok := true;
    } else {
      ok := false;
    }
  }

  /** Appends `length` copies of the last byte (none for a length below 1); an empty
      buffer has no last byte and is refused, leaving it empty. */
  method ReuseOutputByte(buffer: ByteArray, length: int) returns (ok: bool)
    modifies buffer
    ensures ok <==> |old(buffer.bytes)| > 0
    ensures ok ==> buffer.bytes == old(buffer.bytes) + Repeat(Last(old(buffer.bytes)), Count(length))
    ensures !ok ==> buffer.bytes == old(buffer.bytes)
  {
    if |buffer.bytes| == 0 {
      return false;
    }
    var value := buffer.bytes[|buffer.bytes| - 1];
    var i := 0;
    while i < length
      invariant 0 <= i && (length > 0 ==> i <= length) && (length <= 0 ==> i == 0)
      invariant buffer.bytes == old(buffer.bytes) + Repeat(value, i)
    {
      var _ := AppendToOutput(buffer, value);
      i := i + 1;
    }
    ok := true;
  }
}
