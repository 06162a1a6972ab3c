/**
 * Standard UTF-8 (RFC 3629) over Java strings, as `String.getBytes(UTF_8)`
 * and `new String(bytes, UTF_8)` apply it: a surrogate pair becomes one
 * four-byte sequence, and a lone surrogate, which has no encoding, becomes
 * the encoder's replacement byte `'?'`.
 */
module Utf8 {
  import opened Wrappers
  import opened JavaText
  import opened DataIo

  predicate IsHighSurrogate(c: int) { 0xD800 <= c <= 0xDBFF }
  predicate IsLowSurrogate(c: int) { 0xDC00 <= c <= 0xDFFF }
  predicate IsSurrogate(c: int) { 0xD800 <= c <= 0xDFFF }

  /** The code point a high and a low surrogate stand for together. */
  function CodePoint(hi: JChar, lo: JChar): (cp: int)
    requires IsHighSurrogate(hi) && IsLowSurrogate(lo)
    ensures 0x10000 <= cp <= 0x10FFFF
  {
    0x10000 + (hi - 0xD800) * 1024 + (lo - 0xDC00)
  }

  /** The bytes of one code unit that is not part of a pair. */
  function EncodeUnit(c: JChar): (r: Bytes)
    ensures 1 <= |r| <= 3
  {
    if c <= 0x7F then [c]
    else if c <= 0x7FF then [0xC0 + c / 64, 0x80 + c % 64]
    else if IsSurrogate(c) then [0x3F]
    else [0xE0 + c / 4096, 0x80 + (c / 64) % 64, 0x80 + c % 64]
  }

  /** The four bytes of a supplementary code point. */
  function EncodeSupplementary(cp: int): (r: Bytes)
    requires 0x10000 <= cp <= 0x10FFFF
    ensures |r| == 4
  {
    [0xF0 + cp / 262144, 0x80 + (cp / 4096) % 64, 0x80 + (cp / 64) % 64, 0x80 + cp % 64]
  }

  /** `s.getBytes(UTF_8)`. */
  function Encode(s: JString): (r: Bytes)
    decreases |s|
  {
    if s == [] then []
    else if |s| >= 2 && IsHighSurrogate(s[0]) && IsLowSurrogate(s[1]) then
      EncodeSupplementary(CodePoint(s[0], s[1])) + Encode(s[2..])
    else EncodeUnit(s[0]) + Encode(s[1..])
  }

  /** Every surrogate in `s` is half of a high-low pair: the strings UTF-8 can carry. */
  predicate WellPaired(s: JString)
    decreases |s|
  {
    if s == [] then true
    else if |s| >= 2 && IsHighSurrogate(s[0]) && IsLowSurrogate(s[1]) then WellPaired(s[2..])
    else !IsSurrogate(s[0]) && WellPaired(s[1..])
  }

  predicate IsContinuation(b: int) { b / 64 == 2 }

  function TwoByteValue(c: int, c1: int): int { (c % 32) * 64 + c1 % 64 }
  function ThreeByteValue(c: int, c1: int, c2: int): int { (c % 16) * 4096 + (c1 % 64) * 64 + c2 % 64 }
  function FourByteValue(c: int, c1: int, c2: int, c3: int): int {
    (c % 8) * 262144 + (c1 % 64) * 4096 + (c2 % 64) * 64 + c3 % 64
  }

  /** The high and low surrogate of a supplementary code point. */
  function Surrogates(v: int): (r: JString)
    requires 0x10000 <= v <= 0x10FFFF
    ensures |r| == 2 && IsHighSurrogate(r[0]) && IsLowSurrogate(r[1])
  {
    [0xD800 + (v - 0x10000) / 1024, 0xDC00 + (v - 0x10000) % 1024]
  }

  /**
   * The code units the sequence at the front of `b` stands for and its
   * length, for the shortest-form sequences; `None` for anything the
   * decoder would replace.
   */
  function DecodeSequence(b: Bytes): (r: Option<(JString, nat)>)
    requires b != []
    ensures r.Some? ==> 1 <= r.value.1 <= |b|
  {
    var c: int := b[0];
    if c <= 0x7F then Some(([c], 1))
    else if 0xC2 <= c <= 0xDF && |b| >= 2 && IsContinuation(b[1]) then
      Some(([TwoByteValue(c, b[1])], 2))
    else if 0xE0 <= c <= 0xEF && |b| >= 3 && IsContinuation(b[1]) && IsContinuation(b[2]) then
      var v := ThreeByteValue(c, b[1], b[2]);
      if v >= 0x800 && !IsSurrogate(v) then Some(([v], 3)) else None
    else if 0xF0 <= c <= 0xF4 && |b| >= 4 && IsContinuation(b[1]) && IsContinuation(b[2]) && IsContinuation(b[3]) then
      var v := FourByteValue(c, b[1], b[2], b[3]);
      if 0x10000 <= v <= 0x10FFFF then Some((Surrogates(v), 4)) else None
    else None
  }

  /** `new String(b, UTF_8)` for well-formed input; `None` where the decoder would substitute U+FFFD. */
  function Decode(b: Bytes): Option<JString>
    decreases |b|
  {
    if b == [] then Some([])
    else match DecodeSequence(b)
      case None => None
      case Some((units, n)) =>
        match Decode(b[n..])
        case None => None
        case Some(t) => Some(units + t)
  }

  lemma DecodeOneByte(c: JChar, more: Bytes)
    requires c <= 0x7F
    ensures DecodeSequence(EncodeUnit(c) + more) == Some(([c], 1))
  {
    assert (EncodeUnit(c) + more)[0] == c;
  }

  lemma DecodeTwoBytes(c: JChar, more: Bytes)
    requires 0x80 <= c <= 0x7FF
    ensures DecodeSequence(EncodeUnit(c) + more) == Some(([c], 2))
  {
    var hi, lo := c / 64, c % 64;
    assert c == hi * 64 + lo && 2 <= hi < 32;
    var b := [0xC0 + hi, 0x80 + lo] + more;
    assert EncodeUnit(c) + more == b;
    var b0: int, b1: int := b[0], b[1];
    assert 0xC2 <= b0 <= 0xDF && b0 % 32 == hi;
    assert b1 / 64 == 2 && b1 % 64 == lo;
  }

  lemma DecodeThreeBytes(c: JChar, more: Bytes)
    requires c > 0x7FF && !IsSurrogate(c)
    ensures DecodeSequence(EncodeUnit(c) + more) == Some(([c], 3))
  {
    var top, mid, lo := c / 4096, (c / 64) % 64, c % 64;
    assert c == top * 4096 + mid * 64 + lo && top < 16;
    var b := [0xE0 + top, 0x80 + mid, 0x80 + lo] + more;
    assert EncodeUnit(c) + more == b;
    var b0: int, b1: int, b2: int := b[0], b[1], b[2];
    assert 0xE0 <= b0 <= 0xEF && b0 % 16 == top;
    assert b1 / 64 == 2 && b1 % 64 == mid;
    assert b2 / 64 == 2 && b2 % 64 == lo;
  }

  lemma FourByteValueOfEncoded(cp: int)
    requires 0x10000 <= cp <= 0x10FFFF
    ensures var b := EncodeSupplementary(cp);
      0xF0 <= b[0] <= 0xF4 && IsContinuation(b[1]) && IsContinuation(b[2]) && IsContinuation(b[3])
      && FourByteValue(b[0], b[1], b[2], b[3]) == cp
  {
    var p, q, r, t := cp / 262144, (cp / 4096) % 64, (cp / 64) % 64, cp % 64;
    assert cp == (cp / 64) * 64 + t;
    assert cp / 64 == (cp / 4096) * 64 + r;
    assert cp / 4096 == p * 64 + q;
    assert 0 <= p <= 4;
    var b := EncodeSupplementary(cp);
    assert b[0] == 0xF0 + p && b[1] == 0x80 + q && b[2] == 0x80 + r && b[3] == 0x80 + t;
    assert (0xF0 + p) % 8 == p;
    assert (0x80 + q) % 64 == q && (0x80 + r) % 64 == r && (0x80 + t) % 64 == t;
    assert FourByteValue(b[0], b[1], b[2], b[3]) == p * 262144 + q * 4096 + r * 64 + t;
  }

  lemma SurrogatesOfCodePoint(hi: JChar, lo: JChar)
    requires IsHighSurrogate(hi) && IsLowSurrogate(lo)
    ensures Surrogates(CodePoint(hi, lo)) == [hi, lo]
  {
    var off := CodePoint(hi, lo) - 0x10000;
    assert off == (hi - 0xD800) * 1024 + (lo - 0xDC00);
    assert off / 1024 == hi - 0xD800 && off % 1024 == lo - 0xDC00;
  }

  lemma DecodeFourBytes(hi: JChar, lo: JChar, more: Bytes)
    requires IsHighSurrogate(hi) && IsLowSurrogate(lo)
    ensures DecodeSequence(EncodeSupplementary(CodePoint(hi, lo)) + more) == Some(([hi, lo], 4))
  {
    var cp := CodePoint(hi, lo);
    var e := EncodeSupplementary(cp);
    var b := e + more;
    assert b[0] == e[0] && b[1] == e[1] && b[2] == e[2] && b[3] == e[3];
    FourByteValueOfEncoded(cp);
    SurrogatesOfCodePoint(hi, lo);
  }

  /** The decoded units `units` in front of what the rest decodes to. */
  function Glue(units: JString, rest: Option<JString>): Option<JString> {
    match rest case None => None case Some(t) => Some(units + t)
  }

  lemma GlueGlue(u: JString, v: JString, rest: Option<JString>)
    ensures Glue(u, Glue(v, rest)) == Glue(u + v, rest)
  {
    match rest
    case None =>
    case Some(t) => assert u + (v + t) == (u + v) + t;
  }

  /** One step of the decoder over an encoded unit or pair. */
  lemma DecodeStep(units: JString, head: Bytes, more: Bytes)
    requires head != [] && DecodeSequence(head + more) == Some((units, |head|))
    ensures Decode(head + more) == Glue(units, Decode(more))
  {
    assert (head + more)[|head|..] == more;
  }

  lemma DecodePairStep(s: JString, tail: Bytes)
    requires |s| >= 2 && IsHighSurrogate(s[0]) && IsLowSurrogate(s[1])
    ensures Decode(Encode(s) + tail) == Glue(s[..2], Decode(Encode(s[2..]) + tail))
  {
    var head := EncodeSupplementary(CodePoint(s[0], s[1]));
    assert Encode(s) + tail == head + (Encode(s[2..]) + tail);
    DecodeFourBytes(s[0], s[1], Encode(s[2..]) + tail);
    assert s[..2] == [s[0], s[1]];
    DecodeStep(s[..2], head, Encode(s[2..]) + tail);
  }

  lemma DecodeUnitStep(s: JString, tail: Bytes)
    requires s != [] && !IsSurrogate(s[0])
    ensures Decode(Encode(s) + tail) == Glue(s[..1], Decode(Encode(s[1..]) + tail))
  {
    var head := EncodeUnit(s[0]);
    var more := Encode(s[1..]) + tail;
    assert Encode(s) + tail == head + more;
    if s[0] <= 0x7F {
      DecodeOneByte(s[0], more);
    } else if s[0] <= 0x7FF {
      DecodeTwoBytes(s[0], more);
    } else {
      DecodeThreeBytes(s[0], more);
    }
    assert s[..1] == [s[0]];
    DecodeStep(s[..1], head, more);
  }

  /** For a string whose surrogates all pair up, decoding its UTF-8 gives the string back. */
  lemma {:induction false} DecodeEncode(s: JString, tail: Bytes)
    requires WellPaired(s)
    ensures Decode(Encode(s) + tail) == Glue(s, Decode(tail))
    decreases |s|
  {
    if s == [] {
      assert Encode(s) + tail == tail;
      GlueGlue([], [], Decode(tail));
      match Decode(tail)
      case None =>
      case Some(t) => assert s + t == t;
    } else if |s| >= 2 && IsHighSurrogate(s[0]) && IsLowSurrogate(s[1]) {
      DecodePairStep(s, tail);
      DecodeEncode(s[2..], tail);
      GlueGlue(s[..2], s[2..], Decode(tail));
      assert s[..2] + s[2..] == s;
    } else {
      DecodeUnitStep(s, tail);
      DecodeEncode(s[1..], tail);
      GlueGlue(s[..1], s[1..], Decode(tail));
      assert s[..1] + s[1..] == s;
    }
  }

  /** UTF-8 loses nothing for the strings it can carry. */
  lemma DecodeOfEncode(s: JString)
    requires WellPaired(s)
    ensures Decode(Encode(s)) == Some(s)
  {
    DecodeEncode(s, []);
    assert Encode(s) + [] == Encode(s);
    assert s + [] == s;
  }

  /** A lone surrogate does not survive: it comes back as `'?'`. */
  lemma LoneSurrogateBecomesQuestionMark(c: JChar)
    requires IsSurrogate(c)
    ensures Decode(Encode([c])) == Some([0x3F])
  {
    assert Encode([c]) == [0x3F];
    assert DecodeSequence([0x3F]) == Some(([0x3F], 1));
    assert [0x3F][1..] == [];
  }
}
