/**
 * `DatatypeConverter`: bytes as lowercase hexadecimal text and back, in the
 * Java class and in its Kotlin port, whose parser differs.
 */
module HexText {
  import opened Wrappers
  import opened JavaText
  import opened DataIo
  import opened Jdbc
  import Utf8

  /** The lowercase hexadecimal digit of a nibble, as `%02x` prints it. */
  function HexDigit(n: int): (c: JChar)
    requires 0 <= n < 16
  {
    if n < 10 then '0' as int + n else 'a' as int + (n - 10)
  }

  /** `printHexBinary`: two digits per byte, high nibble first, in order. */
  function Hex(data: Bytes): (r: JString)
    ensures |r| == 2 * |data|
    ensures forall i | 0 <= i < |data| :: r[2 * i] == HexDigit(data[i] / 16) && r[2 * i + 1] == HexDigit(data[i] % 16)
  {
    if data == [] then [] else [HexDigit(data[0] / 16), HexDigit(data[0] % 16)] + Hex(data[1..])
  }

  /** `printHexBinary(byte[])`: the loop feeding each byte to a `Formatter` with `%02x`. */
  method PrintHexBinary(data: Bytes) returns (hex: JString)
    ensures hex == Hex(data)
  {
    hex := [];
    var k := 0;
    while k < |data|
      invariant 0 <= k <= |data|
      invariant Hex(data) == hex + Hex(data[k..])
    {
      assert data[k..][1..] == data[k + 1..];
      hex := hex + [HexDigit(data[k] / 16), HexDigit(data[k] % 16)];
      k := k + 1;
    }
    assert data[k..] == [];
  }

  /**
   * `Character.digit(c, 16)` on an ASCII character: the digit's value, or
   * -1 for a character that is not a hexadecimal digit in either case.
   */
  function DigitValue(c: JChar): (d: int)
    ensures -1 <= d < 16
  {
    if '0' as int <= c <= '9' as int then c - '0' as int
    else if 'a' as int <= c <= 'f' as int then c - 'a' as int + 10
    else if 'A' as int <= c <= 'F' as int then c - 'A' as int + 10
    else -1
  }

  /** The low eight bits of an int, as a `(byte)` cast keeps them. */
  function OctetOf(x: int): Octet {
    x % 0x100
  }

  /**
   * The Java `parseHexBinary`: each pair of characters gives the byte
   * `(digit(hi) << 4) + digit(lo)`; an odd length reads past the end.
   */
  function ParseHex(s: JString): (r: Result<Bytes, SqlError>)
    decreases |s|
  {
    if s == [] then Ok([])
    else if s[0] >= 0x80 then Err(NotModelled)
    else if |s| == 1 then Err(IndexOutOfBounds)
    else if s[1] >= 0x80 then Err(NotModelled)
    else Ahead([OctetOf(DigitValue(s[0]) * 16 + DigitValue(s[1]))], ParseHex(s[2..]))
  }

  /** `parseHexBinary` in Java: the index loop filling `data`. */
  method ParseHexBinary(s: JString) returns (r: Result<Bytes, SqlError>)
    ensures r == ParseHex(s)
  {
    var len := |s|;
    var data := new Octet[len / 2];
    var i := 0;
    assert s[0..] == s;
    AheadNothing(ParseHex(s));
    while i < len
      invariant 0 <= i <= len && i % 2 == 0 && i / 2 <= data.Length
      invariant ParseHex(s) == Ahead(data[..i / 2], ParseHex(s[i..]))
    {
      ghost var before := data[..i / 2];
      ParseHexAt(s, i);
      if s[i] >= 0x80 {
        return Err(NotModelled);
      }
      if i + 1 >= len {
        return Err(IndexOutOfBounds);
      }
      if s[i + 1] >= 0x80 {
        return Err(NotModelled);
      }
      var b := OctetOf(DigitValue(s[i]) * 16 + DigitValue(s[i + 1]));
      assert i / 2 < data.Length && (i + 2) / 2 == i / 2 + 1;
      AheadAhead(before, [b], ParseHex(s[i + 2..]));
      data[i / 2] := b;
      assert data[..i / 2 + 1] == before + [b];
      i := i + 2;
    }
    assert s[i..] == [];
    assert data[..i / 2] + [] == data[..i / 2];
    assert data[..i / 2] == data[..];
    return Ok(data[..]);
  }

  /** One step of the Java parser at index `i`, in terms of `s` itself. */
  lemma ParseHexAt(s: JString, i: nat)
    requires i < |s|
    ensures s[i] >= 0x80 ==> ParseHex(s[i..]) == Err(NotModelled)
    ensures s[i] < 0x80 && i + 1 == |s| ==> ParseHex(s[i..]) == Err(IndexOutOfBounds)
    ensures s[i] < 0x80 && i + 1 < |s| && s[i + 1] >= 0x80 ==> ParseHex(s[i..]) == Err(NotModelled)
    ensures s[i] < 0x80 && i + 1 < |s| && s[i + 1] < 0x80 ==>
      ParseHex(s[i..]) == Ahead([OctetOf(DigitValue(s[i]) * 16 + DigitValue(s[i + 1]))], ParseHex(s[i + 2..]))
  {
    var t := s[i..];
    assert t[0] == s[i];
    if i + 1 < |s| {
      assert t[1] == s[i + 1] && t[2..] == s[i + 2..];
    }
  }


  lemma DigitValueOfHexDigit(n: int)
    requires 0 <= n < 16
    ensures DigitValue(HexDigit(n)) == n && HexDigit(n) < 0x80
  {
  }

  /** `parseHexBinary(printHexBinary(b)) == b` for every byte array. */
  lemma {:induction false} ParseHexOfHex(data: Bytes)
    ensures ParseHex(Hex(data)) == Ok(data)
  {
    if data != [] {
      var hi, lo := data[0] / 16, data[0] % 16;
      DigitValueOfHexDigit(hi);
      DigitValueOfHexDigit(lo);
      assert Hex(data) == [HexDigit(hi), HexDigit(lo)] + Hex(data[1..]);
      PairStep(HexDigit(hi), HexDigit(lo), Hex(data[1..]));
      ParseHexOfHex(data[1..]);
      assert OctetOf(hi * 16 + lo) == data[0];
      AheadOne(data[0], ParseHex(Hex(data[1..])), data);
    }
  }

  /** The Java parser on two ASCII digits followed by more text. */
  lemma PairStep(c0: JChar, c1: JChar, rest: JString)
    requires c0 < 0x80 && c1 < 0x80
    ensures ParseHex([c0, c1] + rest) == Ahead([OctetOf(DigitValue(c0) * 16 + DigitValue(c1))], ParseHex(rest))
  {
    var h := [c0, c1] + rest;
    assert h[0] == c0 && h[1] == c1 && h[2..] == rest;
  }

  /**
   * The `printHexBinary` of `javax.xml.bind.DatatypeConverter`, which the
   * Java statement imports in place of the local class: the same layout
   * with uppercase digits.
   */
  function UpperHexDigit(n: int): (c: JChar)
    requires 0 <= n < 16
  {
    if n < 10 then '0' as int + n else 'A' as int + (n - 10)
  }

  function UpperHex(data: Bytes): (r: JString)
    ensures |r| == 2 * |data|
    ensures forall i | 0 <= i < |data| :: r[2 * i] == UpperHexDigit(data[i] / 16) && r[2 * i + 1] == UpperHexDigit(data[i] % 16)
  {
    if data == [] then [] else [UpperHexDigit(data[0] / 16), UpperHexDigit(data[0] % 16)] + UpperHex(data[1..])
  }

  lemma DigitValueOfUpperHexDigit(n: int)
    requires 0 <= n < 16
    ensures DigitValue(UpperHexDigit(n)) == n && UpperHexDigit(n) < 0x80
  {
  }

  /** The local parser reads the uppercase digits back too: `parseHexBinary(UpperHex(b)) == b`. */
  lemma {:induction false} ParseHexOfUpperHex(data: Bytes)
    ensures ParseHex(UpperHex(data)) == Ok(data)
  {
    if data != [] {
      var hi, lo := data[0] / 16, data[0] % 16;
      DigitValueOfUpperHexDigit(hi);
      DigitValueOfUpperHexDigit(lo);
      assert UpperHex(data) == [UpperHexDigit(hi), UpperHexDigit(lo)] + UpperHex(data[1..]);
      PairStep(UpperHexDigit(hi), UpperHexDigit(lo), UpperHex(data[1..]));
      ParseHexOfUpperHex(data[1..]);
      assert OctetOf(hi * 16 + lo) == data[0];
      AheadOne(data[0], ParseHex(UpperHex(data[1..])), data);
    }
  }

  /** The Java parser's result: half as many bytes as characters, each from its pair of digits. */
  lemma {:induction false} ParseHexBytes(s: JString)
    requires ParseHex(s).Ok?
    ensures |s| % 2 == 0 && |ParseHex(s).value| == |s| / 2
    ensures forall i | 0 <= i < |s| / 2 ::
      ParseHex(s).value[i] == OctetOf(DigitValue(s[2 * i]) * 16 + DigitValue(s[2 * i + 1]))
    decreases |s|
  {
    if s != [] {
      ParseHexBytes(s[2..]);
      var r := ParseHex(s).value;
      assert r == [OctetOf(DigitValue(s[0]) * 16 + DigitValue(s[1]))] + ParseHex(s[2..]).value;
      forall i | 1 <= i < |s| / 2
        ensures r[i] == OctetOf(DigitValue(s[2 * i]) * 16 + DigitValue(s[2 * i + 1]))
      {
        assert s[2 * i] == s[2..][2 * (i - 1)] && s[2 * i + 1] == s[2..][2 * (i - 1) + 1];
      }
    }
  }

  /** An ASCII string of odd length always fails, on the read past its end. */
  lemma {:induction false} OddLengthFails(s: JString)
    requires |s| % 2 == 1 && forall i | 0 <= i < |s| :: s[i] < 0x80
    ensures ParseHex(s) == Err(IndexOutOfBounds)
    decreases |s|
  {
    if |s| > 1 {
      OddLengthFails(s[2..]);
    }
  }

  /**
   * The Kotlin `parseHexBinary` AS WRITTEN: each byte is
   * `(hi.digitToIntOrNull(16) ?: (-1 shl 4)) + lo.digitToIntOrNull(16)!!`,
   * so the high digit is added without being shifted; a high character
   * that is not a digit counts -16 and a low one throws on `!!`.
   */
  function KotlinParseHex(s: JString): (r: Result<Bytes, SqlError>)
    decreases |s|
  {
    if s == [] then Ok([])
    else if s[0] >= 0x80 then Err(NotModelled)
    else if |s| == 1 then Err(IndexOutOfBounds)
    else if s[1] >= 0x80 then Err(NotModelled)
    else if DigitValue(s[1]) < 0 then Err(NullPointer)
    else
      var hi := if DigitValue(s[0]) < 0 then -16 else DigitValue(s[0]);
      Ahead([OctetOf(hi + DigitValue(s[1]))], KotlinParseHex(s[2..]))
  }

  /** `parseHexBinary` in Kotlin: the `while` loop over `i` writing into `data`. */
  method KotlinParseHexBinary(s: JString) returns (r: Result<Bytes, SqlError>)
    ensures r == KotlinParseHex(s)
  {
    var len := |s|;
    var data := new Octet[len / 2];
    var i := 0;
    assert s[0..] == s;
    AheadNothing(KotlinParseHex(s));
    while i < len
      invariant 0 <= i <= len && i % 2 == 0 && i / 2 <= data.Length
      invariant KotlinParseHex(s) == Ahead(data[..i / 2], KotlinParseHex(s[i..]))
    {
      ghost var before := data[..i / 2];
      KotlinParseHexAt(s, i);
      if s[i] >= 0x80 {
        return Err(NotModelled);
      }
      var hi := if DigitValue(s[i]) < 0 then -16 else DigitValue(s[i]);
      if i + 1 >= len {
        return Err(IndexOutOfBounds);
      }
      if s[i + 1] >= 0x80 {
        return Err(NotModelled);
      }
      if DigitValue(s[i + 1]) < 0 {
        return Err(NullPointer);
      }
      var b := OctetOf(hi + DigitValue(s[i + 1]));
      assert i / 2 < data.Length && (i + 2) / 2 == i / 2 + 1;
      AheadAhead(before, [b], KotlinParseHex(s[i + 2..]));
      data[i / 2] := b;
      assert data[..i / 2 + 1] == before + [b];
      i := i + 2;
    }
    assert s[i..] == [];
    assert data[..i / 2] + [] == data[..i / 2];
    assert data[..i / 2] == data[..];
    return Ok(data[..]);
  }

  /** One step of the Kotlin parser at index `i`, in terms of `s` itself. */
  lemma KotlinParseHexAt(s: JString, i: nat)
    requires i < |s|
    ensures s[i] >= 0x80 ==> KotlinParseHex(s[i..]) == Err(NotModelled)
    ensures s[i] < 0x80 && i + 1 == |s| ==> KotlinParseHex(s[i..]) == Err(IndexOutOfBounds)
    ensures s[i] < 0x80 && i + 1 < |s| && s[i + 1] >= 0x80 ==> KotlinParseHex(s[i..]) == Err(NotModelled)
    ensures s[i] < 0x80 && i + 1 < |s| && s[i + 1] < 0x80 && DigitValue(s[i + 1]) < 0 ==>
      KotlinParseHex(s[i..]) == Err(NullPointer)
    ensures s[i] < 0x80 && i + 1 < |s| && s[i + 1] < 0x80 && DigitValue(s[i + 1]) >= 0 ==>
      var hi := if DigitValue(s[i]) < 0 then -16 else DigitValue(s[i]);
      KotlinParseHex(s[i..]) == Ahead([OctetOf(hi + DigitValue(s[i + 1]))], KotlinParseHex(s[i + 2..]))
  {
    var t := s[i..];
    assert t[0] == s[i];
    if i + 1 < |s| {
      assert t[1] == s[i + 1] && t[2..] == s[i + 2..];
    }
  }

  /** The Kotlin round trip fails: the byte 0x10 prints as "10", which parses back to 0x01. */
  lemma KotlinParseHexLosesHighDigit()
    ensures Hex([0x10]) == ['1' as int, '0' as int]
    ensures KotlinParseHex(Hex([0x10])) == Ok([0x01])
    ensures ParseHex(Hex([0x10])) == Ok([0x10])
  {
    var h := Hex([0x10]);
    assert [0x10][1..] == [];
    assert h == [HexDigit(1), HexDigit(0)] + Hex([]);
    assert h[2..] == [];
    assert KotlinParseHex(h[2..]) == Ok([]) && ParseHex(h[2..]) == Ok([]);
    assert DigitValue(h[0]) == 1 && DigitValue(h[1]) == 0;
    var one: Bytes, sixteen: Bytes := [0x01], [0x10];
    assert one + [] == one && sixteen + [] == sixteen;
  }

  /**
   * The Kotlin parser reads `printHexBinary(b)` back to `b` exactly when
   * every byte of `b` is below 16, i.e. when every high digit is 0.
   */
  lemma {:induction false} KotlinAgreesOnLowBytes(data: Bytes)
    ensures KotlinParseHex(Hex(data)) == Ok(data) <==> forall i | 0 <= i < |data| :: data[i] < 16
  {
    if data != [] {
      KotlinHexStep(data);
      KotlinAgreesOnLowBytes(data[1..]);
      var x, rest := OctetOf(data[0] / 16 + data[0] % 16), KotlinParseHex(Hex(data[1..]));
      AheadOne(x, rest, data);
      DigitSumKeepsLowByte(data[0]);
      LowBytesCons(data);
    }
  }

  /** Adding the two digits of a byte gives the byte back exactly when its high digit is 0. */
  lemma DigitSumKeepsLowByte(b: Octet)
    ensures OctetOf(b / 16 + b % 16) == b <==> b < 16
  {
  }

  lemma LowBytesCons(data: Bytes)
    requires data != []
    ensures (forall i | 0 <= i < |data| :: data[i] < 16) <==>
      data[0] < 16 && forall i | 0 <= i < |data[1..]| :: data[1..][i] < 16
  {
    forall i | 1 <= i < |data| ensures data[i] == data[1..][i - 1] { }
  }

  /** One pair of digits of `printHexBinary`, as the Kotlin parser reads it. */
  lemma KotlinHexStep(data: Bytes)
    requires data != []
    ensures KotlinParseHex(Hex(data)) == Ahead([OctetOf(data[0] / 16 + data[0] % 16)], KotlinParseHex(Hex(data[1..])))
  {
    var hi, lo := data[0] / 16, data[0] % 16;
    DigitValueOfHexDigit(hi);
    DigitValueOfHexDigit(lo);
    assert Hex(data) == [HexDigit(hi), HexDigit(lo)] + Hex(data[1..]);
    KotlinPairStep(HexDigit(hi), HexDigit(lo), Hex(data[1..]));
    assert DigitValue(HexDigit(hi)) + DigitValue(HexDigit(lo)) == hi + lo;
  }

  /** The Kotlin parser on two digits followed by more text. */
  lemma KotlinPairStep(c0: JChar, c1: JChar, rest: JString)
    requires 0 <= DigitValue(c0) && 0 <= DigitValue(c1)
    ensures KotlinParseHex([c0, c1] + rest) == Ahead([OctetOf(DigitValue(c0) + DigitValue(c1))], KotlinParseHex(rest))
  {
    var h := [c0, c1] + rest;
    assert h[0] == c0 && h[1] == c1 && h[2..] == rest;
  }

  lemma AheadOne(x: Octet, rest: Result<Bytes, SqlError>, data: Bytes)
    requires data != []
    ensures Ahead([x], rest) == Ok(data) <==> x == data[0] && rest == Ok(data[1..])
  {
    if rest.Ok? {
      assert ([x] + rest.value)[0] == x && ([x] + rest.value)[1..] == rest.value;
      if x == data[0] && rest == Ok(data[1..]) {
        assert [data[0]] + data[1..] == data;
      }
    }
  }

  /** `printHexBinary(String)`: the hex of the string's UTF-8 bytes. */
  function HexOfString(s: JString): (r: JString)
    ensures |r| == 2 * |Utf8.Encode(s)|
  {
    Hex(Utf8.Encode(s))
  }

  /**
   * `parseString` in Java: the parsed bytes read as UTF-8; input the decoder
   * would repair with U+FFFD is not modelled.
   */
  function ParseString(s: JString): (r: Result<JString, SqlError>)
    ensures r.Ok? ==> ParseHex(s).Ok? && Utf8.Decode(ParseHex(s).value) == Some(r.value)
  {
    var bytes :- ParseHex(s);
    match Utf8.Decode(bytes)
    case None => Err(NotModelled)
    case Some(text) => Ok(text)
  }

  /** `parseString` in Kotlin AS WRITTEN: the Kotlin parser's bytes read as UTF-8. */
  function KotlinParseString(s: JString): (r: Result<JString, SqlError>)
    ensures r.Ok? ==> KotlinParseHex(s).Ok? && Utf8.Decode(KotlinParseHex(s).value) == Some(r.value)
  {
    var bytes :- KotlinParseHex(s);
    match Utf8.Decode(bytes)
    case None => Err(NotModelled)
    case Some(text) => Ok(text)
  }

  /** The Kotlin `parseString` inherits the defect: U+0010 comes back as U+0001. */
  lemma KotlinParseStringLosesHighDigit()
    ensures KotlinParseString(HexOfString([0x10])) == Ok([0x01])
    ensures ParseString(HexOfString([0x10])) == Ok([0x10])
  {
    assert Utf8.Encode([0x10]) == [0x10];
    KotlinParseHexLosesHighDigit();
    assert Utf8.DecodeSequence([0x01]) == Some(([0x01], 1));
    assert [0x01][1..] == [];
    assert Utf8.DecodeSequence([0x10]) == Some(([0x10], 1));
    assert [0x10][1..] == [];
  }

  /** `parseString(printHexBinary(s)) == s` for every string whose surrogates pair up. */
  lemma ParseStringOfHexOfString(s: JString)
    requires Utf8.WellPaired(s)
    ensures ParseString(HexOfString(s)) == Ok(s)
  {
    ParseHexOfHex(Utf8.Encode(s));
    Utf8.DecodeOfEncode(s);
  }
}
