/**
 * `ClobString`: the read-only `Clob` a replayed cursor hands out, over a
 * possibly null `String`. Positions are 1-based as in JDBC and are cast to
 * `int` before they reach `String.substring` and `String.indexOf`.
 */
module Clobs {
  import opened Wrappers
  import opened JavaText
  import opened DataIo
  import opened Jdbc
  import Utf8

  datatype ClobString = ClobString(content: Option<JString>)

  /** `String.substring(begin, end)`: `StringIndexOutOfBoundsException` unless `0 <= begin <= end <= length`. */
  function Substring(s: JString, begin: int, end: int): (r: Result<JString, SqlError>)
    ensures r.Ok? <==> 0 <= begin <= end <= |s|
    ensures r.Ok? ==> r.value == s[begin..end]
    ensures r.Err? ==> r.error == IndexOutOfBounds
  {
    if 0 <= begin <= end <= |s| then Ok(s[begin..end]) else Err(IndexOutOfBounds)
  }

  /** Whether `str` occurs in `s` at index `k`. */
  predicate OccursAt(s: JString, str: JString, k: int) {
    0 <= k && k + |str| <= |s| && s[k..k + |str|] == str
  }

  /** The first occurrence of `str` at or after `k`, searching up to the end of `s`. */
  function SearchFrom(s: JString, str: JString, k: nat): (r: int)
    requires k <= |s|
    ensures r == -1 || (k <= r <= |s| && OccursAt(s, str, r))
    ensures r == -1 <==> forall j | k <= j <= |s| :: !OccursAt(s, str, j)
    ensures r != -1 ==> forall j | k <= j < r :: !OccursAt(s, str, j)
    decreases |s| - k
  {
    if OccursAt(s, str, k) then k
    else if k == |s| then -1
    else SearchFrom(s, str, k + 1)
  }

  /** Where `String.indexOf` starts looking: `from` clamped to `0..length`. */
  function SearchStart(s: JString, from: int): (k: nat)
    ensures k <= |s|
    ensures from <= 0 ==> k == 0
    ensures 0 <= from <= |s| ==> k == from
    ensures from >= |s| ==> k == |s|
  {
    if from < 0 then 0 else if from > |s| then |s| else from
  }

  /**
   * `String.indexOf(str, from)`: the smallest `k >= min(max(from, 0), length)`
   * at which `str` occurs, or -1. An empty `str` is found at the clamped start,
   * so a `from` past the end gives `length`.
   */
  function IndexOf(s: JString, str: JString, from: int): (r: int)
    ensures var k := SearchStart(s, from);
      (r == -1 || (k <= r <= |s| && OccursAt(s, str, r)))
      && (r == -1 <==> forall j | k <= j <= |s| :: !OccursAt(s, str, j))
      && (r != -1 ==> forall j | k <= j < r :: !OccursAt(s, str, j))
  {
    SearchFrom(s, str, SearchStart(s, from))
  }

  /** The empty string is found wherever the search starts, the end included. */
  lemma IndexOfEmpty(s: JString, from: int)
    ensures IndexOf(s, [], from) == SearchStart(s, from)
  {
    assert OccursAt(s, [], SearchStart(s, from)) by {
      var k := SearchStart(s, from);
      assert s[k..k] == [];
    }
  }

  /** `length()`: the content's length, 0 for null content. */
  function Length(c: ClobString): (n: Int64)
    requires c.content.Some? ==> |c.content.value| < 0x8000_0000
    ensures c.content.None? ==> n == 0
    ensures c.content.Some? ==> n == |c.content.value|
  {
    match c.content case None => 0 case Some(s) => |s|
  }

  /**
   * `getSubString(pos, length)` AS WRITTEN: `substring((int) pos - 1, length)`,
   * so `length` is used as the end index; null for null content.
   */
  function GetSubString(c: ClobString, pos: Int64, length: Int32): (r: Result<Option<JString>, SqlError>)
    ensures c.content.None? ==> r == Ok(None)
    ensures c.content.Some? ==>
      var begin := Wrap32(Wrap32(pos) - 1);
      (r.Ok? <==> 0 <= begin <= length <= |c.content.value|)
      && (r.Ok? ==> r.value == Some(c.content.value[begin..length]))
  {
    match c.content
    case None => Ok(None)
    case Some(s) =>
      var text :- Substring(s, Wrap32(Wrap32(pos) - 1), length);
      Ok(Some(text))
  }

  /**
   * `getSubString` as the JDBC contract states it: up to `length` consecutive
   * characters starting at the 1-based `pos`, fewer when the content ends
   * first; a `pos` below 1 or a negative `length` is refused, and so is a
   * `pos` more than one past the end, where no substring begins.
   */
  function GetSubStringIntended(c: ClobString, pos: Int64, length: Int32): (r: Result<Option<JString>, SqlError>)
    ensures c.content.None? ==> r == Ok(None)
    ensures c.content.Some? ==> (r.Ok? <==> 1 <= pos && 0 <= length && pos - 1 <= |c.content.value|)
    ensures c.content.Some? && r.Ok? ==>
      var n := if pos - 1 + length <= |c.content.value| then length else |c.content.value| - (pos - 1);
      r.value.Some? && |r.value.value| == n
      && forall k | 0 <= k < n :: r.value.value[k] == c.content.value[pos - 1 + k]
  {
    match c.content
    case None => Ok(None)
    case Some(s) =>
      if pos < 1 || length < 0 then Err(IndexOutOfBounds)
      else
        var end := if pos - 1 + length <= |s| then pos - 1 + length else |s|;
        var text :- Substring(s, pos - 1, end);
        Ok(Some(text))
  }

  /** Asking for more than is left gives the rest of the content. */
  lemma GetSubStringIntendedStopsAtEnd(s: JString, pos: Int64, length: Int32)
    requires 1 <= pos <= |s| + 1 && 0 <= length && pos - 1 + length > |s|
    ensures GetSubStringIntended(ClobString(Some(s)), pos, length) == Ok(Some(s[pos - 1..]))
  {
    assert s[pos - 1..|s|] == s[pos - 1..];
  }

  /** The one call the two readings agree on: from the first character, the whole content. */
  lemma GetSubStringWhole(s: JString)
    requires |s| < 0x8000_0000
    ensures GetSubString(ClobString(Some(s)), 1, |s|) == Ok(Some(s))
    ensures GetSubStringIntended(ClobString(Some(s)), 1, |s|) == Ok(Some(s))
  {
    assert s[0..|s|] == s;
  }

  /** From the second character on, the source returns one character where two were asked for. */
  lemma GetSubStringTreatsLengthAsEnd()
    ensures GetSubString(ClobString(Some(J("abc"))), 2, 2) == Ok(Some(J("b")))
    ensures GetSubStringIntended(ClobString(Some(J("abc"))), 2, 2) == Ok(Some(J("bc")))
  {
    assert J("abc")[1..2] == J("b");
    assert J("abc")[1..3] == J("bc");
  }

  /**
   * `position(searchstr, start)`: the 1-based index of the first occurrence
   * at or after `start`, or -1 when there is none or the content is null.
   */
  function Position(c: ClobString, str: JString, start: Int64): (r: int)
    ensures c.content.None? ==> r == -1
  {
    match c.content
    case None => -1
    case Some(s) =>
      var k := IndexOf(s, str, Wrap32(Wrap32(start) - 1));
      if k == -1 then -1 else k + 1
  }

  /**
   * What `position` promises: an occurrence at the 1-based answer, and none
   * earlier from `start`; the search starts at `start - 1` held to the length.
   */
  lemma PositionFindsFirstOccurrence(s: JString, str: JString, start: Int64)
    requires 1 <= start <= 0x7FFF_FFFF
    ensures var r := Position(ClobString(Some(s)), str, start);
      var k := if start - 1 < |s| then start - 1 else |s|;
      (r == -1 <==> forall j | k <= j <= |s| :: !OccursAt(s, str, j))
      && (r != -1 ==> r >= k + 1 && OccursAt(s, str, r - 1)
                      && forall j | k <= j < r - 1 :: !OccursAt(s, str, j))
  {
    assert Wrap32(Wrap32(start) - 1) == start - 1;
  }

  /** Past the end, an empty search string is found just after the last character. */
  lemma PositionOfEmptyPastEnd(s: JString, start: Int64)
    requires |s| + 1 <= start <= 0x7FFF_FFFF
    ensures Position(ClobString(Some(s)), [], start) == |s| + 1
  {
    assert Wrap32(Wrap32(start) - 1) == start - 1;
    IndexOfEmpty(s, start - 1);
  }

  /**
   * `getCharacterStream(pos, length)`: the characters from 1-based `pos`,
   * `length` of them, with the end computed in `long` and then cast; null
   * content throws.
   */
  function GetCharacterStream(c: ClobString, pos: Int64, length: Int64): (r: Result<JString, SqlError>)
    ensures c.content.None? <==> r == Err(NullPointer)
  {
    match c.content
    case None => Err(NullPointer)
    case Some(s) => Substring(s, Wrap32(Wrap32(pos) - 1), Wrap32(Wrap64(pos + length - 1)))
  }

  /** Within range, the stream reads exactly `length` characters from `pos`. */
  lemma CharacterStreamReadsLength(s: JString, pos: Int64, length: Int64)
    requires 1 <= pos && 0 <= length && pos + length - 1 <= |s| && |s| < 0x8000_0000
    ensures GetCharacterStream(ClobString(Some(s)), pos, length) == Ok(s[pos - 1..pos - 1 + length])
    ensures |GetCharacterStream(ClobString(Some(s)), pos, length).value| == length
  {
  }

  /** `getCharacterStream()`: the whole content, null for null content. */
  function CharacterStream(c: ClobString): (r: Option<JString>)
    ensures r.None? <==> c.content.None?
    ensures r.Some? ==> r.value == c.content.value
  {
    c.content
  }

  /** `getAsciiStream()`: the content's bytes, null for null content. */
  function AsciiStream(c: ClobString): (r: Option<Bytes>)
    ensures r.None? <==> c.content.None?
    ensures c.content.Some? && |c.content.value| > 0 ==> r.Some? && |r.value| > 0
  {
    match c.content case None => None case Some(s) => Some(Utf8.Encode(s))
  }

  /** Both streams carry the whole content: the bytes decode back to the characters when no surrogate is unpaired. */
  lemma AsciiStreamDecodesToCharacterStream(c: ClobString)
    requires c.content.Some? ==> Utf8.WellPaired(c.content.value)
    ensures AsciiStream(c).None? <==> CharacterStream(c).None?
    ensures AsciiStream(c).Some? ==> Utf8.Decode(AsciiStream(c).value) == CharacterStream(c)
  {
    if c.content.Some? {
      Utf8.DecodeOfEncode(c.content.value);
    }
  }

  /** The mutators and `position(Clob, long)`. */
  datatype Mutator = PositionOfClob | SetString | SetStringRange | SetAsciiStream | SetCharacterStream | Truncate

  /** Every mutator throws `SQLFeatureNotSupportedException`; the content never changes. */
  function Mutate(c: ClobString, op: Mutator): (r: Result<ClobString, SqlError>)
    ensures r.Err? && r.error == FeatureNotSupported
  {
    Err(FeatureNotSupported)
  }
}
