/**
 * Base64 as section 4 of RFC 4648 defines it: each 24-bit group of input
 * becomes four characters of the 64-character alphabet, and a final group
 * of one or two bytes is padded with `=`. `Decode` is the strict inverse:
 * it accepts exactly the strings `Encode` produces.
 */
module Base64 {
  import opened Wrappers
  import opened Bytes

  type sextet = x: int | 0 <= x < 64

  /** The alphabet of RFC 4648 section 4, Table 1. */
  function Char(i: sextet): char
  {
    if i < 26 then ('A' as int + i) as char
    else if i < 52 then ('a' as int + (i - 26)) as char
    else if i < 62 then ('0' as int + (i - 52)) as char
    else if i == 62 then '+'
    else '/'
  }

  function Index(c: char): Option<sextet>
  {
    if 'A' <= c <= 'Z' then Some(c as int - 'A' as int)
    else if 'a' <= c <= 'z' then Some(c as int - 'a' as int + 26)
    else if '0' <= c <= '9' then Some(c as int - '0' as int + 52)
    else if c == '+' then Some(62)
    else if c == '/' then Some(63)
    else None
  }

  lemma IndexOfChar(i: sextet)
    ensures Index(Char(i)) == Some(i)
    ensures Char(i) != '='
  {
  }

  lemma CharOfIndex(c: char, i: sextet)
    requires Index(c) == Some(i)
    ensures Char(i) == c
  {
  }

  /** The four characters of a full 24-bit group. */
  function EncodeGroup(b0: byte, b1: byte, b2: byte): string
  {
    [Char(b0 / 4), Char((b0 % 4) * 16 + b1 / 16), Char((b1 % 16) * 4 + b2 / 64), Char(b2 % 64)]
  }

  /** The padded characters of a final group of fewer than three bytes. */
  function EncodeLast(b: seq<byte>): string
    requires |b| < 3
  {
    if |b| == 0 then []
    else if |b| == 1 then [Char(b[0] / 4), Char((b[0] % 4) * 16), '=', '=']
    else [Char(b[0] / 4), Char((b[0] % 4) * 16 + b[1] / 16), Char((b[1] % 16) * 4), '=']
  }

  function Encode(b: seq<byte>): (s: string)
    decreases |b|
  {
    if |b| < 3 then EncodeLast(b)
    else EncodeGroup(b[0], b[1], b[2]) + Encode(b[3..])
  }

  /**
   * A group of four characters read as sextets: four of them, or, in the
   * last group only, three or two followed by padding.
   */
  datatype Group =
    | Full(i0: sextet, i1: sextet, i2: sextet, i3: sextet)
    | PadOne(i0: sextet, i1: sextet, i2: sextet)
    | PadTwo(i0: sextet, i1: sextet)

  /**
   * Reads one group of four characters. Padding is allowed only in the
   * last group, and the bits the padding leaves over must be zero.
   */
  function ParseGroup(q: string, last: bool): Option<Group>
    requires |q| == 4
  {
    var i0, i1, i2, i3 := Index(q[0]), Index(q[1]), Index(q[2]), Index(q[3]);
    if i0.None? || i1.None? then None
    else if i2.Some? && i3.Some? then Some(Full(i0.value, i1.value, i2.value, i3.value))
    else if !last then None
    else if i2.Some? && q[3] == '=' && i2.value % 4 == 0 then Some(PadOne(i0.value, i1.value, i2.value))
    else if q[2] == '=' && q[3] == '=' && i1.value % 16 == 0 then Some(PadTwo(i0.value, i1.value))
    else None
  }

  /** The bytes a group stands for: three, two or one. */
  function GroupBytes(g: Group): seq<byte>
  {
    match g
    case Full(i0, i1, i2, i3) =>
      JoinSextets(i0, i1, i2, i3);
      [i0 * 4 + i1 / 16, (i1 % 16) * 16 + i2 / 4, (i2 % 4) * 64 + i3]
    case PadOne(i0, i1, i2) =>
      JoinSextets(i0, i1, i2, 0);
      [i0 * 4 + i1 / 16, (i1 % 16) * 16 + i2 / 4]
    case PadTwo(i0, i1) =>
      JoinSextets(i0, i1, 0, 0);
      [i0 * 4 + i1 / 16]
  }

  /** The four characters of a group. */
  function GroupChars(g: Group): string
  {
    match g
    case Full(i0, i1, i2, i3) => [Char(i0), Char(i1), Char(i2), Char(i3)]
    case PadOne(i0, i1, i2) => [Char(i0), Char(i1), Char(i2), '=']
    case PadTwo(i0, i1) => [Char(i0), Char(i1), '=', '=']
  }

  function DecodeGroup(q: string, last: bool): Option<seq<byte>>
    requires |q| == 4
  {
    var g := ParseGroup(q, last);
    if g.Some? then Some(GroupBytes(g.value)) else None
  }

  function Decode(s: string): Option<seq<byte>>
    decreases |s|
  {
    if |s| == 0 then Some([])
    else if |s| < 4 then None
    else
      var head := DecodeGroup(s[..4], |s| == 4);
      var tail := Decode(s[4..]);
      if head.Some? && tail.Some? then Some(head.value + tail.value) else None
  }

  /** Four characters for every started group of three bytes. */
  lemma {:induction false} EncodeLength(b: seq<byte>)
    ensures |Encode(b)| == 4 * ((|b| + 2) / 3)
    decreases |b|
  {
    var n := |b|;
    if n >= 3 {
      assert Encode(b) == EncodeGroup(b[0], b[1], b[2]) + Encode(b[3..]);
      assert |EncodeGroup(b[0], b[1], b[2])| == 4;
      EncodeLength(b[3..]);
      assert (n + 2) / 3 == (n - 3 + 2) / 3 + 1;
    } else {
      assert Encode(b) == EncodeLast(b);
      assert (n + 2) / 3 == if n == 0 then 0 else 1;
    }
  }

  // The bit regrouping between three bytes and four sextets, both ways

  lemma SplitBytes(b0: byte, b1: byte, b2: byte)
    ensures (b0 / 4) * 4 + ((b0 % 4) * 16 + b1 / 16) / 16 == b0
    ensures (((b0 % 4) * 16 + b1 / 16) % 16) * 16 + ((b1 % 16) * 4 + b2 / 64) / 4 == b1
    ensures (((b1 % 16) * 4 + b2 / 64) % 4) * 64 + b2 % 64 == b2
    ensures ((b0 % 4) * 16) / 16 == b0 % 4 && ((b0 % 4) * 16) % 16 == 0
    ensures ((b1 % 16) * 4) / 4 == b1 % 16 && ((b1 % 16) * 4) % 4 == 0
  {
  }

  lemma JoinSextets(i0: sextet, i1: sextet, i2: sextet, i3: sextet)
    ensures var b0 := i0 * 4 + i1 / 16;
            var b1 := (i1 % 16) * 16 + i2 / 4;
            var b2 := (i2 % 4) * 64 + i3;
            0 <= b0 < 256 && 0 <= b1 < 256 && 0 <= b2 < 256
            && b0 / 4 == i0 && (b0 % 4) * 16 + b1 / 16 == i1
            && (b1 % 16) * 4 + b2 / 64 == i2 && b2 % 64 == i3
  {
  }

  // The characters of each kind of group, in terms of the sextets the bytes split into

  lemma EncodeGroupChars(b0: byte, b1: byte, b2: byte, i0: sextet, i1: sextet, i2: sextet, i3: sextet)
    requires b0 / 4 == i0 && (b0 % 4) * 16 + b1 / 16 == i1
    requires (b1 % 16) * 4 + b2 / 64 == i2 && b2 % 64 == i3
    ensures EncodeGroup(b0, b1, b2) == GroupChars(Full(i0, i1, i2, i3))
  {
  }

  lemma EncodePairChars(b0: byte, b1: byte, i0: sextet, i1: sextet, i2: sextet)
    requires b0 / 4 == i0 && (b0 % 4) * 16 + b1 / 16 == i1 && (b1 % 16) * 4 == i2
    ensures EncodeLast([b0, b1]) == GroupChars(PadOne(i0, i1, i2))
  {
  }

  lemma EncodeByteChars(b0: byte, i0: sextet, i1: sextet)
    requires b0 / 4 == i0 && (b0 % 4) * 16 == i1
    ensures EncodeLast([b0]) == GroupChars(PadTwo(i0, i1))
  {
  }

  /** A group's own characters parse back to the group. */
  lemma ParseGroupOfChars(g: Group, last: bool)
    requires !g.Full? ==> last
    requires g.PadOne? ==> g.i2 % 4 == 0
    requires g.PadTwo? ==> g.i1 % 16 == 0
    ensures ParseGroup(GroupChars(g), last) == Some(g)
  {
    IndexOfChar(g.i0);
    IndexOfChar(g.i1);
    if !g.PadTwo? { IndexOfChar(g.i2); }
    if g.Full? { IndexOfChar(g.i3); }
  }

  lemma DecodeEncodeGroup(b0: byte, b1: byte, b2: byte, last: bool)
    ensures DecodeGroup(EncodeGroup(b0, b1, b2), last) == Some([b0, b1, b2])
  {
    var g := Full(b0 / 4, (b0 % 4) * 16 + b1 / 16, (b1 % 16) * 4 + b2 / 64, b2 % 64);
    EncodeGroupChars(b0, b1, b2, g.i0, g.i1, g.i2, g.i3);
    ParseGroupOfChars(g, last);
    SplitBytes(b0, b1, b2);
  }

  lemma DecodeEncodeOne(b0: byte)
    ensures Decode(EncodeLast([b0])) == Some([b0])
  {
    var g := PadTwo(b0 / 4, (b0 % 4) * 16);
    SplitBytes(b0, 0, 0);
    EncodeByteChars(b0, g.i0, g.i1);
    ParseGroupOfChars(g, true);
    assert GroupBytes(g) == [b0];
    DecodeCons(GroupChars(g), []);
    assert GroupChars(g) + [] == GroupChars(g);
    assert Decode([]) == Some([]) && [b0] + [] == [b0];
  }

  lemma DecodeEncodeTwo(b0: byte, b1: byte)
    ensures Decode(EncodeLast([b0, b1])) == Some([b0, b1])
  {
    var g := PadOne(b0 / 4, (b0 % 4) * 16 + b1 / 16, (b1 % 16) * 4);
    SplitBytes(b0, b1, 0);
    EncodePairChars(b0, b1, g.i0, g.i1, g.i2);
    ParseGroupOfChars(g, true);
    assert GroupBytes(g) == [b0, b1];
    DecodeCons(GroupChars(g), []);
    assert GroupChars(g) + [] == GroupChars(g);
    assert Decode([]) == Some([]) && [b0, b1] + [] == [b0, b1];
  }

  /** Decoding a string of several groups decodes its first group on its own. */
  lemma DecodeCons(q: string, rest: string)
    requires |q| == 4
    ensures var head, tail := DecodeGroup(q, rest == []), Decode(rest);
            Decode(q + rest) == if head.Some? && tail.Some? then Some(head.value + tail.value) else None
  {
    var s := q + rest;
    assert s[..4] == q && s[4..] == rest;
  }

  /** Decoding an encoding gives back the bytes. */
  lemma {:induction false} DecodeEncode(b: seq<byte>)
    ensures Decode(Encode(b)) == Some(b)
    decreases |b|
  {
    if |b| == 1 {
      assert b == [b[0]];
      DecodeEncodeOne(b[0]);
    } else if |b| == 2 {
      assert b == [b[0], b[1]];
      DecodeEncodeTwo(b[0], b[1]);
    } else if |b| >= 3 {
      var q, rest := EncodeGroup(b[0], b[1], b[2]), Encode(b[3..]);
      assert Encode(b) == q + rest;
      DecodeEncodeGroup(b[0], b[1], b[2], rest == []);
      DecodeEncode(b[3..]);
      DecodeCons(q, rest);
      assert [b[0], b[1], b[2]] + b[3..] == b;
    }
  }

  /** A group that parses is the group's own characters. */
  lemma ParseGroupChars(q: string, last: bool, g: Group)
    requires |q| == 4 && ParseGroup(q, last) == Some(g)
    ensures q == GroupChars(g)
    ensures !g.Full? ==> last
    ensures g.PadOne? ==> g.i2 % 4 == 0
    ensures g.PadTwo? ==> g.i1 % 16 == 0
  {
    assert q == [q[0], q[1], q[2], q[3]];
    CharOfIndex(q[0], g.i0);
    CharOfIndex(q[1], g.i1);
    if !g.PadTwo? { CharOfIndex(q[2], g.i2); }
    if g.Full? { CharOfIndex(q[3], g.i3); }
  }

  /** A decodable group of four characters is the encoding of its bytes. */
  lemma EncodeDecodeGroup(q: string, last: bool, b: seq<byte>)
    requires |q| == 4 && DecodeGroup(q, last) == Some(b)
    ensures 1 <= |b| <= 3 && (|b| < 3 ==> last)
    ensures |b| == 3 ==> q == EncodeGroup(b[0], b[1], b[2])
    ensures |b| < 3 ==> q == EncodeLast(b)
  {
    var g := ParseGroup(q, last).value;
    ParseGroupChars(q, last, g);
    match g
    case Full(i0, i1, i2, i3) =>
      JoinSextets(i0, i1, i2, i3);
      EncodeGroupChars(b[0], b[1], b[2], i0, i1, i2, i3);
    case PadOne(i0, i1, i2) =>
      JoinSextets(i0, i1, i2, 0);
      assert b == [b[0], b[1]];
      EncodePairChars(b[0], b[1], i0, i1, i2);
    case PadTwo(i0, i1) =>
      JoinSextets(i0, i1, 0, 0);
      assert b == [b[0]];
      EncodeByteChars(b[0], i0, i1);
  }

  /** Every string that decodes is the encoding of what it decodes to. */
  lemma {:induction false} EncodeDecode(s: string, b: seq<byte>)
    requires Decode(s) == Some(b)
    ensures Encode(b) == s
    decreases |s|
  {
    if |s| >= 4 {
      var h := DecodeGroup(s[..4], |s| == 4).value;
      var t := Decode(s[4..]).value;
      EncodeDecode(s[4..], t);
      EncodeDecodeGroup(s[..4], |s| == 4, h);
      if |s| == 4 {
        assert t == [] && b == h;
        assert s[..4] == s;
        if |h| == 3 { assert b[3..] == []; }
      } else {
        assert |h| == 3;
        assert b[..3] == h && b[3..] == t;
        assert s == s[..4] + s[4..];
      }
    }
  }
}
