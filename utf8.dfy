/**
 * UTF-8 as the WHATWG Encoding Standard defines it: the encoder of section 8.1.2
 * ("UTF-8 encoder") and the decoder of section 8.1.1 ("UTF-8 decoder") run in
 * replacement mode, so that every malformed sequence yields U+FFFD and
 * decoding never fails. `char` is a Unicode scalar value here.
 */
module Utf8 {
  import opened Common

  /** The scalar value written for every malformed byte sequence. */
  const ReplacementChar: char := 0xFFFD as char

  /** UTF-8 encoding of one scalar value: one to four bytes. */
  function EncodeChar(c: char): (r: seq<byte>)
    ensures 1 <= |r| <= 4
    ensures c as int < 0x80 ==> r == [c as int]
    ensures c as int >= 0x80 ==> forall i :: 0 <= i < |r| ==> r[i] >= 0x80
  {
    var v := c as int;
    if v < 0x80 then [v]
    else if v < 0x800 then [0xC0 + v / 0x40, 0x80 + v % 0x40]
    else if v < 0x1_0000 then [0xE0 + v / 0x1000, 0x80 + v / 0x40 % 0x40, 0x80 + v % 0x40]
    else [0xF0 + v / 0x4_0000, 0x80 + v / 0x1000 % 0x40, 0x80 + v / 0x40 % 0x40, 0x80 + v % 0x40]
  }

  /** UTF-8 encoding of a string, scalar value by scalar value. */
  function Encode(s: string): seq<byte>
  {
    if s == [] then [] else EncodeChar(s[0]) + Encode(s[1..])
  }

  /** The byte at index i lies in [lower, upper]. */
  predicate InRange(b: seq<byte>, i: nat, lower: byte, upper: byte)
    requires i < |b|
  {
    lower <= b[i] <= upper
  }

  /**
   * One step of the UTF-8 decoder over the bytes b: the scalar value it emits
   * (U+FFFD for an error) and how many bytes it consumed. A byte that ends a
   * sequence early is not consumed (the decoder puts it back into the stream),
   * and a sequence cut short by the end of input consumes what is left.
   */
  function DecodeStep(b: seq<byte>): (r: (char, nat))
    requires |b| > 0
    ensures 1 <= r.1 <= |b|
    ensures b[0] < 0x80 ==> r == (b[0] as char, 1)
  {
    var lead: int := b[0];
    if lead < 0x80 then (lead as char, 1)
    else if 0xC2 <= lead <= 0xDF then
      if |b| < 2 || !InRange(b, 1, 0x80, 0xBF) then (ReplacementChar, 1)
      else (((lead - 0xC0) * 0x40 + (b[1] as int - 0x80)) as char, 2)
    else if 0xE0 <= lead <= 0xEF then
      var lower := if lead == 0xE0 then 0xA0 else 0x80;
      var upper := if lead == 0xED then 0x9F else 0xBF;
      if |b| < 2 || !InRange(b, 1, lower, upper) then (ReplacementChar, 1)
      else if |b| < 3 || !InRange(b, 2, 0x80, 0xBF) then (ReplacementChar, 2)
      else (((lead - 0xE0) * 0x1000 + (b[1] as int - 0x80) * 0x40 + (b[2] as int - 0x80)) as char, 3)
    else if 0xF0 <= lead <= 0xF4 then
      var lower := if lead == 0xF0 then 0x90 else 0x80;
      var upper := if lead == 0xF4 then 0x8F else 0xBF;
      if |b| < 2 || !InRange(b, 1, lower, upper) then (ReplacementChar, 1)
      else if |b| < 3 || !InRange(b, 2, 0x80, 0xBF) then (ReplacementChar, 2)
      else if |b| < 4 || !InRange(b, 3, 0x80, 0xBF) then (ReplacementChar, 3)
      else (((lead - 0xF0) * 0x4_0000 + (b[1] as int - 0x80) * 0x1000 + (b[2] as int - 0x80) * 0x40 + (b[3] as int - 0x80)) as char, 4)
    else (ReplacementChar, 1)
  }

  /** "UTF-8 decode without BOM" in replacement mode: it never fails. */
  function Decode(b: seq<byte>): (s: string)
    ensures |s| <= |b|
    decreases |b|
  {
    if b == [] then []
    else
      var step := DecodeStep(b);
      [step.0] + Decode(b[step.1..])
  }

  /** Two-byte case of DecodeStepEncodeChar. */
  lemma DecodeStepTwoBytes(c: char, rest: seq<byte>)
    requires 0x80 <= c as int < 0x800
    ensures DecodeStep(EncodeChar(c) + rest) == (c, 2)
  {
    var v := c as int;
    var b := EncodeChar(c) + rest;
    assert b[0] == 0xC0 + v / 0x40 && b[1] == 0x80 + v % 0x40;
  }

  /** Three-byte case of DecodeStepEncodeChar. */
  lemma DecodeStepThreeBytes(c: char, rest: seq<byte>)
    requires 0x800 <= c as int < 0x1_0000
    ensures DecodeStep(EncodeChar(c) + rest) == (c, 3)
  {
    var v := c as int;
    var b := EncodeChar(c) + rest;
    var hi, mid, lo := v / 0x1000, v / 0x40 % 0x40, v % 0x40;
    assert v == hi * 0x1000 + mid * 0x40 + lo;
    assert b[0] == 0xE0 + hi && b[1] == 0x80 + mid && b[2] == 0x80 + lo;
  }

  /** Four-byte case of DecodeStepEncodeChar. */
  lemma DecodeStepFourBytes(c: char, rest: seq<byte>)
    requires 0x1_0000 <= c as int
    ensures DecodeStep(EncodeChar(c) + rest) == (c, 4)
  {
    var v := c as int;
    var b := EncodeChar(c) + rest;
    FourByteDigits(v);
    assert b[0] == 0xF0 + v / 0x4_0000 && b[1] == 0x80 + v / 0x1000 % 0x40;
    assert b[2] == 0x80 + v / 0x40 % 0x40 && b[3] == 0x80 + v % 0x40;
    DecodeStepFourValid(b);
  }

  /** The four-byte branch of DecodeStep on a well-formed sequence. */
  lemma DecodeStepFourValid(b: seq<byte>)
    requires |b| >= 4 && 0xF0 <= b[0] <= 0xF4
    requires InRange(b, 1, if b[0] == 0xF0 then 0x90 else 0x80, if b[0] == 0xF4 then 0x8F else 0xBF)
    requires InRange(b, 2, 0x80, 0xBF) && InRange(b, 3, 0x80, 0xBF)
    ensures FourByteValue(b) < 0x11_0000
    ensures DecodeStep(b) == (FourByteValue(b) as char, 4)
  {
  }

  /** The scalar value a four-byte sequence spells. */
  function FourByteValue(b: seq<byte>): int
    requires |b| >= 4
  {
    (b[0] as int - 0xF0) * 0x4_0000 + (b[1] as int - 0x80) * 0x1000 + (b[2] as int - 0x80) * 0x40 + (b[3] as int - 0x80)
  }

  /** The base-64 digits of a supplementary scalar value, as the four-byte form writes them. */
  lemma FourByteDigits(v: int)
    requires 0x1_0000 <= v < 0x11_0000
    ensures 0 <= v / 0x4_0000 <= 4 && 0 <= v / 0x1000 % 0x40 < 0x40
    ensures 0 <= v / 0x40 % 0x40 < 0x40 && 0 <= v % 0x40 < 0x40
    ensures v / 0x4_0000 == 0 ==> v / 0x1000 % 0x40 >= 0x10
    ensures v / 0x4_0000 == 4 ==> v / 0x1000 % 0x40 < 0x10
    ensures v == v / 0x4_0000 * 0x4_0000 + v / 0x1000 % 0x40 * 0x1000 + v / 0x40 % 0x40 * 0x40 + v % 0x40
  {
    var q1, lo := v / 0x40, v % 0x40;
    var q2, mid := q1 / 0x40, q1 % 0x40;
    var top, hi := q2 / 0x40, q2 % 0x40;
    assert v / 0x1000 == q2;
    assert v / 0x4_0000 == top;
  }

  /** The decoder reads back exactly the scalar value the encoder wrote, whatever follows it. */
  lemma DecodeStepEncodeChar(c: char, rest: seq<byte>)
    ensures DecodeStep(EncodeChar(c) + rest) == (c, |EncodeChar(c)|)
  {
    var v := c as int;
    if v < 0x80 {
    } else if v < 0x800 {
      DecodeStepTwoBytes(c, rest);
    } else if v < 0x1_0000 {
      DecodeStepThreeBytes(c, rest);
    } else {
      DecodeStepFourBytes(c, rest);
    }
  }

  /** Decoding undoes encoding. */
  lemma {:induction false} DecodeEncode(s: string)
    ensures Decode(Encode(s)) == s
  {
    if s != [] {
      var head := EncodeChar(s[0]);
      DecodeStepEncodeChar(s[0], Encode(s[1..]));
      assert (head + Encode(s[1..]))[|head|..] == Encode(s[1..]);
      DecodeEncode(s[1..]);
    }
  }

  /** Encoding distributes over concatenation. */
  lemma {:induction false} EncodeAppend(a: string, b: string)
    ensures Encode(a + b) == Encode(a) + Encode(b)
  {
    if a != [] {
      assert (a + b)[0] == a[0] && (a + b)[1..] == a[1..] + b;
      EncodeAppend(a[1..], b);
    } else {
      assert a + b == b;
    }
  }

  /** An ASCII character absent from s is absent, as a byte, from its encoding. */
  lemma {:induction false} EncodeOmitsAscii(s: string, c: char)
    requires c as int < 0x80 && c !in s
    ensures (c as int) !in Encode(s)
  {
    if s != [] {
      assert s[0] != c;
      assert c !in s[1..];
      EncodeOmitsAscii(s[1..], c);
      assert (c as int) !in EncodeChar(s[0]);
    }
  }
}
