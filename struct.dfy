/**
 * `struct.pack` for the two format codes the exporter uses, under the `<`
 * byte order: `H` (unsigned short, 2 bytes) and `f` (float, 4 bytes).
 */
module Struct {
  import opened Wrappers
  import opened Bytes
  import opened PyJson

  datatype FormatCode = H | F

  /** Why `struct.pack` raises `struct.error`. */
  datatype PackError =
    | ItemCountMismatch   // the format wants a different number of items
    | NotAnInteger        // `H` given a float
    | OutOfRange          // `H` given an integer outside 0..65535
    | FloatNotModelled    // an `f` value whose encoding the model does not carry

  function Repeat(c: FormatCode, n: nat): (r: seq<FormatCode>)
    ensures |r| == n && forall i :: 0 <= i < n ==> r[i] == c
  {
    if n == 0 then [] else [c] + Repeat(c, n - 1)
  }

  /** The format `'<4H9f'`. */
  function Format4H9f(): seq<FormatCode>
  {
    Repeat(H, 4) + Repeat(F, 9)
  }

  function CodeSize(c: FormatCode): nat
  {
    match c
    case H => 2
    case F => 4
  }

  /** `struct.calcsize` (no padding under `<`). */
  function CalcSize(fmt: seq<FormatCode>): nat
  {
    if fmt == [] then 0 else CodeSize(fmt[0]) + CalcSize(fmt[1..])
  }

  function PackItem(c: FormatCode, item: Number): (r: Result<seq<byte>, PackError>)
    ensures r.Ok? ==> |r.value| == CodeSize(c)
  {
    match (c, item)
    case (H, Int(i)) => if IsUInt16(i) then Ok(UInt16LE(i)) else Err(OutOfRange)
    case (H, Float(_)) => Err(NotAnInteger)
    case (F, Int(i)) => FloatItem(i as real)
    case (F, Float(x)) => FloatItem(x)
  }

  function FloatItem(x: real): (r: Result<seq<byte>, PackError>)
    ensures r.Ok? ==> |r.value| == 4 && Float32FromLE(r.value) == Some(x)
  {
    match Float32LE(x)
    case Some(b) => Float32RoundTrip(x, b); Ok(b)
    case None => Err(FloatNotModelled)
  }

  /** Packs the items left to right; the first item that cannot be packed raises. */
  function PackItems(fmt: seq<FormatCode>, items: seq<Number>): Result<seq<byte>, PackError>
    requires |fmt| == |items|
  {
    if fmt == [] then Ok([])
    else
      var head := PackItem(fmt[0], items[0]);
      if head.Err? then Err(head.error)
      else
        var tail := PackItems(fmt[1..], items[1..]);
        if tail.Err? then Err(tail.error) else Ok(head.value + tail.value)
  }

  /** `struct.pack(fmt, *items)`. */
  function Pack(fmt: seq<FormatCode>, items: seq<Number>): (r: Result<seq<byte>, PackError>)
    ensures |fmt| != |items| ==> r == Err(ItemCountMismatch)
  {
    if |fmt| != |items| then Err(ItemCountMismatch) else PackItems(fmt, items)
  }

  lemma {:induction false} PackItemsLength(fmt: seq<FormatCode>, items: seq<Number>)
    requires |fmt| == |items| && PackItems(fmt, items).Ok?
    ensures |PackItems(fmt, items).value| == CalcSize(fmt)
  {
    if fmt != [] {
      PackItemsLength(fmt[1..], items[1..]);
    }
  }

  /** A packed blob is `struct.calcsize(fmt)` bytes long. */
  lemma PackLength(fmt: seq<FormatCode>, items: seq<Number>)
    requires Pack(fmt, items).Ok?
    ensures |Pack(fmt, items).value| == CalcSize(fmt)
  {
    PackItemsLength(fmt, items);
  }

  /** Packing a concatenated format is packing each part and concatenating. */
  lemma {:induction false} PackItemsAppend(f1: seq<FormatCode>, i1: seq<Number>, f2: seq<FormatCode>, i2: seq<Number>)
    requires |f1| == |i1| && |f2| == |i2|
    requires PackItems(f1, i1).Ok? && PackItems(f2, i2).Ok?
    ensures PackItems(f1 + f2, i1 + i2) == Ok(PackItems(f1, i1).value + PackItems(f2, i2).value)
  {
    var t2 := PackItems(f2, i2).value;
    if f1 == [] {
      assert f1 + f2 == f2 && i1 + i2 == i2;
      assert PackItems(f1, i1).value + t2 == t2;
    } else {
      var f, i := f1 + f2, i1 + i2;
      assert f[0] == f1[0] && i[0] == i1[0];
      assert f[1..] == f1[1..] + f2 && i[1..] == i1[1..] + i2;
      var head := PackItem(f1[0], i1[0]);
      var tail1 := PackItems(f1[1..], i1[1..]);
      assert head.Ok? && tail1.Ok?;
      PackItemsAppend(f1[1..], i1[1..], f2, i2);
      assert PackItems(f[1..], i[1..]) == Ok(tail1.value + t2);
      assert head.value + (tail1.value + t2) == (head.value + tail1.value) + t2;
    }
  }

  function Ints(xs: seq<int>): (r: seq<Number>)
    ensures |r| == |xs| && forall i :: 0 <= i < |xs| ==> r[i] == Int(xs[i])
  {
    if xs == [] then [] else [Int(xs[0])] + Ints(xs[1..])
  }

  function Floats(xs: seq<real>): (r: seq<Number>)
    ensures |r| == |xs| && forall i :: 0 <= i < |xs| ==> r[i] == Float(xs[i])
  {
    if xs == [] then [] else [Float(xs[0])] + Floats(xs[1..])
  }

  /** A run of `H` codes packs in-range integers as their little-endian uint16 bytes, and raises otherwise. */
  lemma {:induction false} PackShorts(xs: seq<int>)
    ensures PackItems(Repeat(H, |xs|), Ints(xs)).Ok? <==> forall x :: x in xs ==> IsUInt16(x)
    ensures (forall x :: x in xs ==> IsUInt16(x)) ==> PackItems(Repeat(H, |xs|), Ints(xs)) == Ok(UInt16sLE(xs))
  {
    if xs != [] {
      assert Repeat(H, |xs|)[1..] == Repeat(H, |xs[1..]|);
      assert Ints(xs)[1..] == Ints(xs[1..]);
      PackShorts(xs[1..]);
      assert forall x :: x in xs <==> x == xs[0] || x in xs[1..];
    }
  }

  /** A run of `f` codes packs floats that read back as the same values. */
  lemma {:induction false} PackFloatsReadBack(xs: seq<real>)
    requires PackItems(Repeat(F, |xs|), Floats(xs)).Ok?
    ensures Float32sFromLE(PackItems(Repeat(F, |xs|), Floats(xs)).value) == Some(xs)
  {
    if xs != [] {
      assert Repeat(F, |xs|)[1..] == Repeat(F, |xs[1..]|);
      assert Floats(xs)[1..] == Floats(xs[1..]);
      PackFloatsReadBack(xs[1..]);
      var h := PackItem(F, Float(xs[0])).value;
      var t := PackItems(Repeat(F, |xs[1..]|), Floats(xs[1..])).value;
      assert (h + t)[..4] == h && (h + t)[4..] == t;
      assert [xs[0]] + xs[1..] == xs;
    }
  }

  /** A run of `f` codes packs exactly when every value has a modelled encoding. */
  lemma {:induction false} PackFloatsOk(xs: seq<real>)
    ensures PackItems(Repeat(F, |xs|), Floats(xs)).Ok? <==> forall x :: x in xs ==> Float32LE(x).Some?
  {
    if xs != [] {
      assert Repeat(F, |xs|)[1..] == Repeat(F, |xs[1..]|);
      assert Floats(xs)[1..] == Floats(xs[1..]);
      PackFloatsOk(xs[1..]);
      assert forall x :: x in xs <==> x == xs[0] || x in xs[1..];
    }
  }

  lemma {:induction false} CalcSizeAppend(f1: seq<FormatCode>, f2: seq<FormatCode>)
    ensures CalcSize(f1 + f2) == CalcSize(f1) + CalcSize(f2)
  {
    if f1 == [] {
      assert f1 + f2 == f2;
    } else {
      assert (f1 + f2)[1..] == f1[1..] + f2;
      CalcSizeAppend(f1[1..], f2);
    }
  }

  lemma {:induction false} CalcSizeRepeat(c: FormatCode, n: nat)
    ensures CalcSize(Repeat(c, n)) == n * CodeSize(c)
  {
    if n > 0 {
      assert Repeat(c, n)[1..] == Repeat(c, n - 1);
      CalcSizeRepeat(c, n - 1);
    }
  }

  /** `struct.calcsize('<4H9f')` is 4 * 2 + 9 * 4 = 44. */
  lemma CalcSize4H9f()
    ensures CalcSize(Format4H9f()) == 44
  {
    CalcSizeAppend(Repeat(H, 4), Repeat(F, 9));
    CalcSizeRepeat(H, 4);
    CalcSizeRepeat(F, 9);
  }

  /**
   * Packing `|xs|` shorts then `|ys|` floats: the uint16 bytes of `xs`, then
   * bytes that read back as `ys`.
   */
  lemma PackShortsThenFloats(xs: seq<int>, ys: seq<real>)
    requires forall x :: x in xs ==> IsUInt16(x)
    requires forall y :: y in ys ==> Float32LE(y).Some?
    ensures var r := Pack(Repeat(H, |xs|) + Repeat(F, |ys|), Ints(xs) + Floats(ys));
            r.Ok? && |r.value| == 2 * |xs| + 4 * |ys|
            && r.value[..2 * |xs|] == UInt16sLE(xs)
            && Float32sFromLE(r.value[2 * |xs|..]) == Some(ys)
  {
    PackShorts(xs);
    PackFloatsOk(ys);
    var shorts := PackItems(Repeat(H, |xs|), Ints(xs)).value;
    var floats := PackItems(Repeat(F, |ys|), Floats(ys)).value;
    PackItemsAppend(Repeat(H, |xs|), Ints(xs), Repeat(F, |ys|), Floats(ys));
    PackItemsLength(Repeat(F, |ys|), Floats(ys));
    CalcSizeRepeat(F, |ys|);
    var r := Pack(Repeat(H, |xs|) + Repeat(F, |ys|), Ints(xs) + Floats(ys)).value;
    assert r == shorts + floats;
    assert r[..2 * |xs|] == shorts && r[2 * |xs|..] == floats;
    PackFloatsReadBack(ys);
  }

  /** `PackShortsThenFloats`, read at a format and an item list equal to its own. */
  lemma PackedShortsThenFloats(xs: seq<int>, ys: seq<real>, fmt: seq<FormatCode>, items: seq<Number>, blob: seq<byte>)
    requires forall x :: x in xs ==> IsUInt16(x)
    requires forall y :: y in ys ==> Float32LE(y).Some?
    requires fmt == Repeat(H, |xs|) + Repeat(F, |ys|) && items == Ints(xs) + Floats(ys)
    requires Pack(fmt, items) == Ok(blob)
    ensures |blob| == 2 * |xs| + 4 * |ys|
    ensures blob[..2 * |xs|] == UInt16sLE(xs)
    ensures Float32sFromLE(blob[2 * |xs|..]) == Some(ys)
  {
    PackShortsThenFloats(xs, ys);
  }
}
