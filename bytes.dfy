/**
 * Bytes and the little-endian encodings `struct` uses under the `<`
 * (standard size, little-endian) byte order: unsigned 16-bit integers, and
 * IEEE-754 single-precision floats for the two values the exporter packs.
 */
module Bytes {
  import opened Wrappers

  type byte = x: int | 0 <= x < 256

  const UInt16Limit: int := 0x1_0000

  predicate IsUInt16(x: int)
  {
    0 <= x < UInt16Limit
  }

  /** Two bytes, low byte first. */
  function UInt16LE(x: int): seq<byte>
    requires IsUInt16(x)
  {
    [x % 256, x / 256]
  }

  function UInt16sLE(xs: seq<int>): (b: seq<byte>)
    requires forall x :: x in xs ==> IsUInt16(x)
    ensures |b| == 2 * |xs|
  {
    if xs == [] then [] else UInt16LE(xs[0]) + UInt16sLE(xs[1..])
  }

  /** Reads back 16-bit values; a trailing odd byte is an error. */
  function UInt16sFromLE(b: seq<byte>): Option<seq<int>>
  {
    if |b| == 0 then Some([])
    else if |b| == 1 then None
    else match UInt16sFromLE(b[2..])
      case None => None
      case Some(t) => Some([b[0] + 256 * b[1]] + t)
  }

  lemma {:induction false} UInt16sRoundTrip(xs: seq<int>)
    requires forall x :: x in xs ==> IsUInt16(x)
    ensures UInt16sFromLE(UInt16sLE(xs)) == Some(xs)
  {
    if xs != [] {
      var b := UInt16sLE(xs);
      assert b[2..] == UInt16sLE(xs[1..]);
      UInt16sRoundTrip(xs[1..]);
      assert [xs[0]] + xs[1..] == xs;
    }
  }

  /** The encoding of a concatenation is the concatenation of the encodings. */
  lemma {:induction false} UInt16sAppend(xs: seq<int>, ys: seq<int>)
    requires forall x :: x in xs ==> IsUInt16(x)
    requires forall y :: y in ys ==> IsUInt16(y)
    ensures forall z :: z in xs + ys ==> IsUInt16(z)
    ensures UInt16sLE(xs + ys) == UInt16sLE(xs) + UInt16sLE(ys)
  {
    if xs != [] {
      UInt16sAppend(xs[1..], ys);
      assert (xs + ys)[1..] == xs[1..] + ys;
      assert (xs + ys)[0] == xs[0];
    } else {
      assert xs + ys == ys;
    }
  }

  lemma {:induction false} UInt16sFromLESound(b: seq<byte>, xs: seq<int>)
    requires UInt16sFromLE(b) == Some(xs)
    ensures forall x :: x in xs ==> IsUInt16(x)
    ensures UInt16sLE(xs) == b
  {
    if |b| >= 2 {
      var t := UInt16sFromLE(b[2..]).value;
      UInt16sFromLESound(b[2..], t);
      assert xs == [b[0] + 256 * b[1]] + t;
      assert xs[1..] == t;
      assert b == b[..2] + b[2..];
    }
  }

  /**
   * The little-endian single-precision encoding of `x`, for the two values
   * the exporter packs (0.0 and 1.0); other values are not modelled.
   */
  function Float32LE(x: real): Option<seq<byte>>
  {
    if x == 0.0 then Some([0x00, 0x00, 0x00, 0x00])
    else if x == 1.0 then Some([0x00, 0x00, 0x80, 0x3F])
    else None
  }

  function Float32FromLE(b: seq<byte>): Option<real>
  {
    if b == [0x00, 0x00, 0x00, 0x00] then Some(0.0)
    else if b == [0x00, 0x00, 0x80, 0x3F] then Some(1.0)
    else None
  }

  lemma Float32RoundTrip(x: real, b: seq<byte>)
    ensures Float32LE(x) == Some(b) ==> |b| == 4 && Float32FromLE(b) == Some(x)
    ensures Float32FromLE(b) == Some(x) ==> Float32LE(x) == Some(b)
  {
  }

  /** Reads back single-precision values, four bytes each. */
  function Float32sFromLE(b: seq<byte>): Option<seq<real>>
  {
    if |b| == 0 then Some([])
    else if |b| < 4 then None
    else
      var head := Float32FromLE(b[..4]);
      var tail := Float32sFromLE(b[4..]);
      if head.Some? && tail.Some? then Some([head.value] + tail.value) else None
  }
}
