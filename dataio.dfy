/**
 * The `java.io.DataOutput` / `DataInput` primitives the cache format is made of:
 * big-endian integers, one-byte booleans, IEEE bit patterns and `writeUTF`'s
 * two-byte length followed by modified UTF-8.
 */
module DataIo {
  import opened Wrappers
  import opened JavaText

  type Bytes = seq<Octet>

  /** What a stream operation can raise: `EOFException`, `UTFDataFormatException` on read and on write. */
  datatype IoError = Eof | Malformed | TooLong

  /** A value read from the front of a stream, and what the stream still holds. */
  datatype Parsed<T> = Parsed(value: T, rest: Bytes)

  function Pow256(n: nat): (r: nat)
    ensures r >= 1
  {
    if n == 0 then 1 else 256 * Pow256(n - 1)
  }

  /** The widths the stream uses: one, two, four and eight bytes. */
  lemma Pow256Widths()
    ensures Pow256(1) == 0x100 && Pow256(2) == 0x1_0000
    ensures Pow256(4) == 0x1_0000_0000 && Pow256(8) == 0x1_0000_0000_0000_0000
  {
    assert Pow256(2) == 0x1_0000;
    assert Pow256(4) == 0x1_0000_0000;
    assert Pow256(6) == 0x1_0000_0000_0000;
  }

  /** The `width` bytes of `n`, most significant first. */
  function BigEndian(n: nat, width: nat): (r: Bytes)
    requires n < Pow256(width)
    ensures |r| == width
  {
    if width == 0 then [] else BigEndian(n / 256, width - 1) + [n % 256]
  }

  /** The number a byte sequence spells, most significant byte first. */
  function Unsigned(s: Bytes): (r: nat)
    ensures r < Pow256(|s|)
  {
    if s == [] then 0 else Unsigned(s[..|s| - 1]) * 256 + s[|s| - 1]
  }

  lemma {:induction false} UnsignedOfBigEndian(n: nat, width: nat)
    requires n < Pow256(width)
    ensures Unsigned(BigEndian(n, width)) == n
  {
    if width > 0 {
      var b := BigEndian(n, width);
      assert b[..|b| - 1] == BigEndian(n / 256, width - 1);
      UnsignedOfBigEndian(n / 256, width - 1);
    }
  }

  // ---- writers ----

  function WriteBoolean(b: bool): (r: Bytes) {
    [if b then 1 else 0]
  }

  function WriteByte(v: Int8): (r: Bytes) {
    [v % 0x100]
  }

  function WriteShort(v: Int16): (r: Bytes) {
    BigEndian(v % 0x1_0000, 2)
  }

  function WriteInt(v: Int32): (r: Bytes) {
    BigEndian(v % 0x1_0000_0000, 4)
  }

  function WriteLong(v: Int64): (r: Bytes) {
    BigEndian(v % 0x1_0000_0000_0000_0000, 8)
  }

  /** `Float.floatToIntBits`: every NaN pattern collapses to 0x7fc00000. */
  function CanonicalFloat(bits: Bits32): Bits32 {
    if (bits / 0x80_0000) % 0x100 == 0xFF && bits % 0x80_0000 != 0 then 0x7fc0_0000 else bits
  }

  /** `Double.doubleToLongBits`: every NaN pattern collapses to 0x7ff8000000000000. */
  function CanonicalDouble(bits: Bits64): Bits64 {
    if (bits / 0x10_0000_0000_0000) % 0x800 == 0x7FF && bits % 0x10_0000_0000_0000 != 0
    then 0x7ff8_0000_0000_0000 else bits
  }

  function WriteFloat(bits: Bits32): (r: Bytes) {
    BigEndian(CanonicalFloat(bits), 4)
  }

  function WriteDouble(bits: Bits64): (r: Bytes) {
    BigEndian(CanonicalDouble(bits), 8)
  }

  /** Modified UTF-8 of one code unit: U+0000 takes two bytes, never one. */
  function EncodeChar(c: JChar): (r: Bytes)
    ensures 1 <= |r| <= 3
  {
    if 1 <= c <= 0x7F then [c]
    else if c <= 0x7FF then [0xC0 + c / 64, 0x80 + c % 64]
    else [0xE0 + c / 4096, 0x80 + (c / 64) % 64, 0x80 + c % 64]
  }

  function EncodeChars(s: JString): (r: Bytes)
    ensures |s| <= |r| <= 3 * |s|
  {
    if s == [] then [] else EncodeChar(s[0]) + EncodeChars(s[1..])
  }

  /** `writeUTF`: refused with `UTFDataFormatException` once the encoding passes 65535 bytes. */
  function WriteUtf(s: JString): (r: Result<Bytes, IoError>)
    ensures r.Ok? <==> |EncodeChars(s)| <= 0xFFFF
    ensures r.Err? ==> r.error == TooLong
    ensures r.Ok? ==> r.value == BigEndian(|EncodeChars(s)|, 2) + EncodeChars(s)
  {
    var body := EncodeChars(s);
    if |body| > 0xFFFF then Err(TooLong) else Ok(BigEndian(|body|, 2) + body)
  }

  // ---- readers ----

  function ReadBoolean(s: Bytes): (r: Result<Parsed<bool>, IoError>)
    ensures r.Err? <==> s == []
  {
    if |s| < 1 then Err(Eof) else Ok(Parsed(s[0] != 0, s[1..]))
  }

  /** Reads `width` bytes as an unsigned number. */
  function ReadUnsigned(s: Bytes, width: nat): (r: Result<Parsed<nat>, IoError>)
    ensures r.Err? <==> |s| < width
    ensures r.Ok? ==> r.value.value < Pow256(width) && r.value.rest == s[width..]
  {
    if |s| < width then Err(Eof) else Ok(Parsed(Unsigned(s[..width]), s[width..]))
  }

  function ReadByte(s: Bytes): (r: Result<Parsed<Int8>, IoError>) {
    match ReadUnsigned(s, 1)
    case Err(e) => Err(e)
    case Ok(Parsed(u, rest)) => Ok(Parsed(if u < 0x80 then u else u - 0x100, rest))
  }

  function ReadShort(s: Bytes): (r: Result<Parsed<Int16>, IoError>) {
    match ReadUnsigned(s, 2)
    case Err(e) => Err(e)
    case Ok(Parsed(u, rest)) => Ok(Parsed(if u < 0x8000 then u else u - 0x1_0000, rest))
  }

  function ReadInt(s: Bytes): (r: Result<Parsed<Int32>, IoError>) {
    match ReadUnsigned(s, 4)
    case Err(e) => Err(e)
    case Ok(Parsed(u, rest)) => Ok(Parsed(if u < 0x8000_0000 then u else u - 0x1_0000_0000, rest))
  }

  function ReadLong(s: Bytes): (r: Result<Parsed<Int64>, IoError>) {
    match ReadUnsigned(s, 8)
    case Err(e) => Err(e)
    case Ok(Parsed(u, rest)) =>
      Ok(Parsed(if u < 0x8000_0000_0000_0000 then u else u - 0x1_0000_0000_0000_0000, rest))
  }

  function ReadFloat(s: Bytes): (r: Result<Parsed<Bits32>, IoError>) {
    match ReadUnsigned(s, 4)
    case Err(e) => Err(e)
    case Ok(Parsed(u, rest)) => Ok(Parsed(u, rest))
  }

  function ReadDouble(s: Bytes): (r: Result<Parsed<Bits64>, IoError>) {
    match ReadUnsigned(s, 8)
    case Err(e) => Err(e)
    case Ok(Parsed(u, rest)) => Ok(Parsed(u, rest))
  }

  /**
   * `DataInputStream.readUTF`'s decoding loop: one-byte groups 0xxxxxxx,
   * two-byte groups 110xxxxx 10xxxxxx, three-byte groups 1110xxxx 10xxxxxx 10xxxxxx.
   * Anything else, or a group cut short by the end, is malformed.
   */
  function DecodeChars(b: Bytes): (r: Result<JString, IoError>)
    ensures r.Err? ==> r.error == Malformed
    decreases |b|
  {
    if b == [] then Ok([])
    else match DecodeGroup(b)
      case None => Err(Malformed)
      case Some((ch, n)) =>
        match DecodeChars(b[n..])
        case Err(e) => Err(e)
        case Ok(t) => Ok([ch] + t)
  }

  function TwoByteChar(c: Octet, c2: Octet): JChar {
    (c % 32) * 64 + c2 % 64
  }

  function ThreeByteChar(c: Octet, c2: Octet, c3: Octet): JChar {
    (c % 16) * 4096 + (c2 % 64) * 64 + c3 % 64
  }

  /** The code unit the group at the front of `b` stands for, and the group's length. */
  function DecodeGroup(b: Bytes): (r: Option<(JChar, nat)>)
    requires b != []
    ensures r.Some? ==> 1 <= r.value.1 <= |b|
  {
    var c: int := b[0];
    if c / 16 < 8 then Some((c, 1))
    else if (c / 16 == 12 || c / 16 == 13) && |b| >= 2 && b[1] / 64 == 2
    then Some((TwoByteChar(c, b[1]), 2))
    else if c / 16 == 14 && |b| >= 3 && b[1] / 64 == 2 && b[2] / 64 == 2
    then Some((ThreeByteChar(c, b[1], b[2]), 3))
    else None
  }

  /** `readUTF`: an unsigned two-byte length, then exactly that many bytes of modified UTF-8. */
  function ReadUtf(s: Bytes): (r: Result<Parsed<JString>, IoError>) {
    match ReadUnsigned(s, 2)
    case Err(e) => Err(e)
    case Ok(Parsed(len, rest)) =>
      if |rest| < len then Err(Eof)
      else match DecodeChars(rest[..len])
        case Err(e) => Err(e)
        case Ok(t) => Ok(Parsed(t, rest[len..]))
  }

  // ---- round trips ----

  lemma ReadBooleanOfWrite(b: bool, tail: Bytes)
    ensures ReadBoolean(WriteBoolean(b) + tail) == Ok(Parsed(b, tail))
  {
    assert (WriteBoolean(b) + tail)[1..] == tail;
  }

  lemma ReadUnsignedOfBigEndian(n: nat, width: nat, tail: Bytes)
    requires n < Pow256(width)
    ensures ReadUnsigned(BigEndian(n, width) + tail, width) == Ok(Parsed(n, tail))
  {
    var s := BigEndian(n, width) + tail;
    assert s[..width] == BigEndian(n, width);
    assert s[width..] == tail;
    UnsignedOfBigEndian(n, width);
  }

  lemma ReadByteOfWrite(v: Int8, tail: Bytes)
    ensures ReadByte(WriteByte(v) + tail) == Ok(Parsed(v, tail))
  {
    assert WriteByte(v) == BigEndian(v % 0x100, 1);
    ReadUnsignedOfBigEndian(v % 0x100, 1, tail);
  }

  lemma ReadShortOfWrite(v: Int16, tail: Bytes)
    ensures ReadShort(WriteShort(v) + tail) == Ok(Parsed(v, tail))
  {
    ReadUnsignedOfBigEndian(v % 0x1_0000, 2, tail);
  }

  lemma ReadIntOfWrite(v: Int32, tail: Bytes)
    ensures ReadInt(WriteInt(v) + tail) == Ok(Parsed(v, tail))
  {
    ReadUnsignedOfBigEndian(v % 0x1_0000_0000, 4, tail);
  }

  lemma ReadLongOfWrite(v: Int64, tail: Bytes)
    ensures ReadLong(WriteLong(v) + tail) == Ok(Parsed(v, tail))
  {
    var u := v % 0x1_0000_0000_0000_0000;
    assert u == if v >= 0 then v else v + 0x1_0000_0000_0000_0000;
    Pow256Widths();
    ReadUnsignedOfBigEndian(u, 8, tail);
  }

  lemma ReadFloatOfWrite(bits: Bits32, tail: Bytes)
    ensures ReadFloat(WriteFloat(bits) + tail) == Ok(Parsed(CanonicalFloat(bits), tail))
  {
    ReadUnsignedOfBigEndian(CanonicalFloat(bits), 4, tail);
  }

  lemma ReadDoubleOfWrite(bits: Bits64, tail: Bytes)
    ensures ReadDouble(WriteDouble(bits) + tail) == Ok(Parsed(CanonicalDouble(bits), tail))
  {
    ReadUnsignedOfBigEndian(CanonicalDouble(bits), 8, tail);
  }

  lemma DecodeGroupOfEncoded(c: JChar, more: Bytes)
    ensures DecodeGroup(EncodeChar(c) + more) == Some((c, |EncodeChar(c)|))
  {
    if 1 <= c <= 0x7F {
      assert (EncodeChar(c) + more)[0] == c;
    } else if c <= 0x7FF {
      TwoByteGroup(c, more);
    } else {
      ThreeByteGroup(c, more);
    }
  }

  lemma TwoByteGroup(c: JChar, more: Bytes)
    requires c == 0 || 0x80 <= c <= 0x7FF
    ensures DecodeGroup(EncodeChar(c) + more) == Some((c, 2))
  {
    var hi, lo := c / 64, c % 64;
    assert c == hi * 64 + lo && hi < 32;
    var b := [0xC0 + hi, 0x80 + lo] + more;
    assert EncodeChar(c) + more == b;
    var b0: int, b1: int := b[0], b[1];
    assert b0 == 0xC0 + hi && b1 == 0x80 + lo;
    assert b0 / 16 == 12 || b0 / 16 == 13;
    assert b0 % 32 == hi;
    assert b1 / 64 == 2 && b1 % 64 == lo;
    assert TwoByteChar(b[0], b[1]) == c;
  }

  lemma ThreeByteGroup(c: JChar, more: Bytes)
    requires c > 0x7FF
    ensures DecodeGroup(EncodeChar(c) + more) == Some((c, 3))
  {
    var top, mid, lo := c / 4096, (c / 64) % 64, c % 64;
    assert c == top * 4096 + mid * 64 + lo && top < 16;
    var b := [0xE0 + top, 0x80 + mid, 0x80 + lo] + more;
    assert EncodeChar(c) + more == b;
    var b0: int, b1: int, b2: int := b[0], b[1], b[2];
    assert b0 / 16 == 14 && b0 % 16 == top;
    assert b1 / 64 == 2 && b1 % 64 == mid;
    assert b2 / 64 == 2 && b2 % 64 == lo;
    assert ThreeByteChar(b[0], b[1], b[2]) == c;
  }

  lemma DecodeEncodedChar(c: JChar, more: Bytes)
    ensures DecodeChars(EncodeChar(c) + more) ==
      match DecodeChars(more) case Err(e) => Err(e) case Ok(t) => Ok([c] + t)
  {
    var b := EncodeChar(c) + more;
    DecodeGroupOfEncoded(c, more);
    assert b[|EncodeChar(c)|..] == more;
  }

  lemma {:induction false} DecodeEncodeChars(s: JString, tail: Bytes)
    ensures DecodeChars(EncodeChars(s) + tail) ==
      match DecodeChars(tail) case Err(e) => Err(e) case Ok(t) => Ok(s + t)
  {
    if s != [] {
      EncodeCharsCons(s, tail);
      DecodeEncodedChar(s[0], EncodeChars(s[1..]) + tail);
      DecodeEncodeChars(s[1..], tail);
      ConsText(s, DecodeChars(tail));
    } else {
      assert EncodeChars(s) + tail == tail;
      match DecodeChars(tail)
      case Err(e) =>
      case Ok(t) => assert s + t == t;
    }
  }

  lemma EncodeCharsCons(s: JString, tail: Bytes)
    requires s != []
    ensures EncodeChars(s) + tail == EncodeChar(s[0]) + (EncodeChars(s[1..]) + tail)
  {
  }

  /** Putting the first code unit in front of a decoded rest gives the whole text in front. */
  lemma ConsText(s: JString, r: Result<JString, IoError>)
    requires s != []
    ensures (match (match r case Err(e) => Err(e) case Ok(t) => Ok(s[1..] + t))
             case Err(e) => Err(e) case Ok(t) => Ok([s[0]] + t))
         == (match r case Err(e) => Err(e) case Ok(t) => Ok(s + t))
  {
    match r
    case Err(e) =>
    case Ok(t) =>
      assert [s[0]] + s[1..] == s;
      assert [s[0]] + (s[1..] + t) == s + t;
  }

  /** `readUTF` returns exactly what `writeUTF` wrote, whenever the write succeeded. */
  lemma ReadUtfOfWrite(s: JString, tail: Bytes)
    requires WriteUtf(s).Ok?
    ensures ReadUtf(WriteUtf(s).value + tail) == Ok(Parsed(s, tail))
  {
    var body := EncodeChars(s);
    var w := BigEndian(|body|, 2) + body + tail;
    assert w == BigEndian(|body|, 2) + (body + tail);
    ReadUnsignedOfBigEndian(|body|, 2, body + tail);
    assert (body + tail)[..|body|] == body;
    assert (body + tail)[|body|..] == tail;
    DecodeEncodeChars(s, []);
    assert body + [] == body;
    assert s + [] == s;
  }
}
