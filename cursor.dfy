/**
 * The replaying cursor: `CachedResultSet` reads a cache stream written by
 * `ResultSetWriter` back, one row ahead of the client. `next()` makes the
 * row read ahead the current one and reads the following frame; the
 * getters look at the current row and convert its cells.
 */
module ResultSetReplay {
  import opened Wrappers
  import opened JavaText
  import opened DataIo
  import opened SqlTypes
  import opened ResultSetCodec
  import opened Jdbc
  import JavaFloats

  // ---- reading one frame ----

  /** The cells of one frame, or the cells read before the one that failed. */
  datatype CellsRead = AllCells(cells: seq<Cell>, rest: Bytes) | CellFailed(done: seq<Cell>, error: RowError)

  /** A reader of one cell: `readRow` itself. */
  type CellReader = (int, Bytes) -> Result<Parsed<Cell>, RowError>

  /** `for (column in metaData.columns) nextRow[i++] = read(column.type, input)`, as values. */
  function ReadCellsWith(read: CellReader, types: seq<Int32>, s: Bytes): (r: CellsRead)
    ensures r.AllCells? ==> |r.cells| == |types|
    ensures r.CellFailed? ==> |r.done| < |types|
  {
    if types == [] then AllCells([], s)
    else match read(types[0], s)
      case Err(e) => CellFailed([], e)
      case Ok(Parsed(c, rest)) =>
        match ReadCellsWith(read, types[1..], rest)
        case AllCells(cs, r2) => AllCells([c] + cs, r2)
        case CellFailed(done, e) => CellFailed([c] + done, e)
  }

  function ReadCells(types: seq<Int32>, s: Bytes): CellsRead {
    ReadCellsWith(ReadRow, types, s)
  }

  function PrependCells(acc: seq<Cell>, r: CellsRead): CellsRead {
    match r
    case AllCells(cs, rest) => AllCells(acc + cs, rest)
    case CellFailed(done, e) => CellFailed(acc + done, e)
  }

  lemma PrependNoCells(r: CellsRead)
    ensures PrependCells([], r) == r
  {
    match r
    case AllCells(cs, _) => assert [] + cs == cs;
    case CellFailed(done, _) => assert [] + done == done;
  }

  lemma PrependCellsStep(read: CellReader, acc: seq<Cell>, types: seq<Int32>, s: Bytes)
    requires types != [] && read(types[0], s).Ok?
    ensures PrependCells(acc, ReadCellsWith(read, types, s)) ==
      PrependCells(acc + [read(types[0], s).value.value], ReadCellsWith(read, types[1..], read(types[0], s).value.rest))
  {
    var c := read(types[0], s).value.value;
    match ReadCellsWith(read, types[1..], read(types[0], s).value.rest)
    case AllCells(cs, _) => assert acc + ([c] + cs) == (acc + [c]) + cs;
    case CellFailed(done, _) => assert acc + ([c] + done) == (acc + [c]) + done;
  }

  lemma UpdateAfterPrefix<T>(done: seq<T>, tail: seq<T>, x: T)
    requires tail != []
    ensures (done + tail)[|done| := x] == (done + [x]) + tail[1..]
  {
  }

  /**
   * The contents `nextRow` and the stream have after the cell loop, given
   * what reading the cells gives (`failed` names the failing column, from 0).
   */
  ghost predicate Filled(r: CellsRead, before: seq<Cell>, failed: Option<nat>, after: seq<Cell>, input: Bytes) {
    match r
    case AllCells(cs, rest) => failed == None && after == cs && input == rest
    case CellFailed(done, _) => failed == Some(|done|) && |done| <= |before| && after == done + before[|done|..]
  }

  /** What `readNext` finds after the row at position `current`. */
  datatype Advance =
    | AtEnd                                            // `readInt` hit the end of the stream
    | BadPos(got: Int32, rest: Bytes)                  // a position other than `current + 1`
    | BadCell(pos: Int32, done: seq<Cell>, error: RowError)  // a cell `readRow` could not read
    | Frame(pos: Int32, cells: seq<Cell>, rest: Bytes) // the next row

  function ReadFrame(types: seq<Int32>, current: Int32, s: Bytes): (f: Advance)
    ensures f.AtEnd? <==> |s| < 4
    ensures f.BadPos? ==> f.got != Wrap32(current + 1)
    ensures f.BadCell? ==> f.pos == Wrap32(current + 1) && |f.done| < |types|
    ensures f.Frame? ==> f.pos == Wrap32(current + 1) && |f.cells| == |types|
  {
    match ReadInt(s)
    case Err(_) => AtEnd
    case Ok(Parsed(p, rest)) =>
      if p != Wrap32(current + 1) then BadPos(p, rest)
      else match ReadCells(types, rest)
        case AllCells(cs, r2) => Frame(p, cs, r2)
        case CellFailed(done, e) => BadCell(p, done, e)
  }

  /**
   * The state `readNext` leaves: what it raised, the new `nextPos`, the rest
   * of the stream and the new contents of `nextRow` (`before` being the old
   * ones). After a failed cell, the stream position is left open.
   */
  ghost predicate Stepped(f: Advance, expected: Int32, before: seq<Cell>,
                          raised: Option<SqlError>, pos: Int32, input: Bytes, after: seq<Cell>)
  {
    match f
    case AtEnd => raised == None && pos == 0 && input == [] && after == before
    case BadPos(got, rest) => raised == Some(ExpectsPos(expected, got)) && pos == got && input == rest && after == before
    case BadCell(p, done, _) =>
      raised == Some(CannotExtractColumn(|done| + 1, p)) && pos == p && |done| <= |before| && after == done + before[|done|..]
    case Frame(p, cells, rest) => raised == None && pos == p && input == rest && after == cells
  }

  function Raised(r: Result<bool, SqlError>): Option<SqlError> {
    if r.Ok? then None else Some(r.error)
  }

  // ---- column labels ----

  /** `columnNames`: each label to its 1-based column; a later duplicate label wins. */
  function LabelIndex(cols: seq<ColumnDef>): map<JString, int> {
    if cols == [] then map[]
    else LabelIndex(cols[..|cols| - 1])[cols[|cols| - 1].columnLabel := |cols|]
  }

  /** A label is indexed iff some column carries it, and it maps to the last such column. */
  lemma {:induction false} LabelIndexFindsLastColumn(cols: seq<ColumnDef>, l: JString)
    ensures l in LabelIndex(cols) <==> exists j | 0 <= j < |cols| :: cols[j].columnLabel == l
    ensures l in LabelIndex(cols) ==>
      var n := LabelIndex(cols)[l];
      1 <= n <= |cols| && cols[n - 1].columnLabel == l && forall j | n <= j < |cols| :: cols[j].columnLabel != l
    decreases |cols|
  {
    if cols != [] {
      var front := cols[..|cols| - 1];
      LabelIndexFindsLastColumn(front, l);
      if cols[|cols| - 1].columnLabel != l {
        if exists j | 0 <= j < |cols| :: cols[j].columnLabel == l {
          var j :| 0 <= j < |cols| && cols[j].columnLabel == l;
          assert front[j] == cols[j];
        }
        if l in LabelIndex(front) {
          var n := LabelIndex(front)[l];
          assert front[n - 1] == cols[n - 1];
          forall j | n <= j < |cols|
            ensures cols[j].columnLabel != l
          {
            if j < |cols| - 1 {
              assert front[j] == cols[j];
            }
          }
        }
      }
    }
  }

  // ---- the getters' conversions ----

  /** The integer widths of `toByte`, `toShort`, `toInt` and `toLong`. */
  datatype Width = W8 | W16 | W32 | W64

  function Low(w: Width): int {
    match w case W8 => -0x80 case W16 => -0x8000 case W32 => -0x8000_0000 case W64 => -0x8000_0000_0000_0000
  }

  function High(w: Width): int {
    match w case W8 => 0x7F case W16 => 0x7FFF case W32 => 0x7FFF_FFFF case W64 => 0x7FFF_FFFF_FFFF_FFFF
  }

  /** A narrowing integer conversion: the low bits, read as two's complement. */
  function Narrow(w: Width, x: int): (r: int)
    ensures Low(w) <= r <= High(w)
    ensures Low(w) <= x <= High(w) ==> r == x
  {
    match w case W8 => Wrap8(x) case W16 => Wrap16(x) case W32 => Wrap32(x) case W64 => Wrap64(x)
  }

  predicate IsAsciiDigit(c: JChar) {
    '0' as int <= c <= '9' as int
  }

  predicate AllDigits(s: JString) {
    forall i | 0 <= i < |s| :: IsAsciiDigit(s[i])
  }

  /** The value of a string of decimal digits. */
  function DigitsValue(s: JString): nat
    requires AllDigits(s)
  {
    if s == [] then 0 else DigitsValue(s[..|s| - 1]) * 10 + (s[|s| - 1] - '0' as int)
  }

  lemma {:induction false} DigitsValueOfDigits(n: nat)
    ensures DigitsValue(Digits(n)) == n
    decreases n
  {
    if n >= 10 {
      var d := Digits(n);
      assert d[..|d| - 1] == Digits(n / 10);
      DigitsValueOfDigits(n / 10);
    }
  }

  predicate IsAscii(s: JString) {
    forall i | 0 <= i < |s| :: s[i] < 0x80
  }

  /** An optional sign followed by at least one decimal digit, and its value. */
  function SignedValue(s: JString): Option<int> {
    if s == [] then None
    else if s[0] == '-' as int || s[0] == '+' as int then
      var body := s[1..];
      if body == [] || !AllDigits(body) then None
      else if s[0] == '-' as int then Some(-(DigitsValue(body) as int))
      else Some(DigitsValue(body))
    else if AllDigits(s) then Some(DigitsValue(s))
    else None
  }

  /**
   * `Integer.parseInt` and its siblings on a string of ASCII code units: an
   * optional sign, at least one digit, and a value in `lo..hi`. Strings with
   * other code units, which `Character.digit` may still read as digits, are
   * not modelled.
   */
  function ParseInteger(s: JString, lo: int, hi: int): (r: Result<int, SqlError>)
    ensures r.Ok? ==> lo <= r.value <= hi
    ensures r.Err? ==> r.error == NumberFormat || r.error == NotModelled
    ensures s == [] ==> r == Err(NumberFormat)
  {
    if !IsAscii(s) then Err(NotModelled)
    else match SignedValue(s)
      case None => Err(NumberFormat)
      case Some(v) => if lo <= v <= hi then Ok(v) else Err(NumberFormat)
  }

  /** `Integer.toString` text is ASCII and parses back to its number. */
  lemma {:induction false} SignedValueOfDecimalText(n: int)
    ensures IsAscii(DecimalText(n)) && SignedValue(DecimalText(n)) == Some(n)
  {
    var s := DecimalText(n);
    var m := if n < 0 then -n else n;
    var d := Digits(m);
    DigitsValueOfDigits(m);
    assert AllDigits(d);
    if n < 0 {
      assert s == ['-' as int] + d && s[1..] == d;
    } else {
      assert s == d;
    }
  }

  /**
   * `toByte()` … `toLong()` of a boxed `Float` or `Double`: a cast to `int`
   * or `long`, and for `byte` and `short` the low bits of the `int` cast.
   */
  function FromFloating(d: JavaFloats.Decoded, w: Width): (r: int)
    ensures Low(w) <= r <= High(w)
    ensures d.NaN? ==> r == 0
    ensures d.Finite? && Low(w) <= JavaFloats.Truncated(d) <= High(w) ==> r == JavaFloats.Truncated(d)
    ensures d.Infinity? && (w == W32 || w == W64) ==> r == (if d.negative then Low(w) else High(w))
  {
    var asInt := JavaFloats.Saturate(d, -0x8000_0000, 0x7FFF_FFFF);
    match w
    case W8 => Wrap8(asInt)
    case W16 => Wrap16(asInt)
    case W32 => asInt
    case W64 => JavaFloats.Saturate(d, -0x8000_0000_0000_0000, 0x7FFF_FFFF_FFFF_FFFF)
  }

  /** `getByte` … `getLong` on a cell: 0 for null, a narrowing cast for a number, a parse of the text otherwise. */
  function IntegralOf(v: Cell, w: Width): (r: Result<int, SqlError>)
    ensures r.Ok? ==> Low(w) <= r.value <= High(w)
    ensures v.Null? ==> r == Ok(0)
  {
    match v
    case Null => Ok(0)
    case Byte(n) => Ok(Narrow(w, n))
    case Short(n) => Ok(Narrow(w, n))
    case Int(n) => Ok(Narrow(w, n))
    case Long(n) => Ok(Narrow(w, n))
    case Str(s) => ParseInteger(s, Low(w), High(w))
    case Bool(b) => ParseInteger(BooleanText(b), Low(w), High(w))
    // the text of a date, time or timestamp always holds a '-' or ':' after its first digit
    case Date(_) => Err(NumberFormat)
    case Time(_) => Err(NumberFormat)
    case Timestamp(_) => Err(NumberFormat)
    case Float(b) => Ok(FromFloating(JavaFloats.DecodeFloat(b), w))
    case Double(b) => Ok(FromFloating(JavaFloats.DecodeDouble(b), w))
    // values a cursor never holds
    case _ => Err(NotModelled)
  }

  /** `getByte` … `getLong` of a float cell: the float rounded toward zero, when the type can hold it. */
  lemma IntegralOfFloatTruncates(bits: Bits32, w: Width)
    requires JavaFloats.DecodeFloat(bits).Finite?
    requires Low(w) <= JavaFloats.Truncated(JavaFloats.DecodeFloat(bits)) <= High(w)
    ensures var d := JavaFloats.DecodeFloat(bits); var x := JavaFloats.Value(d);
      IntegralOf(Float(bits), w).Ok? &&
      var t := IntegralOf(Float(bits), w).value as real;
      (x >= 0.0 ==> t <= x < t + 1.0) && (x <= 0.0 ==> t - 1.0 < x <= t)
  {
    JavaFloats.TruncatesTowardZero(JavaFloats.DecodeFloat(bits));
  }

  /** `getByte` … `getLong` of a double cell: the double rounded toward zero, when the type can hold it. */
  lemma IntegralOfDoubleTruncates(bits: Bits64, w: Width)
    requires JavaFloats.DecodeDouble(bits).Finite?
    requires Low(w) <= JavaFloats.Truncated(JavaFloats.DecodeDouble(bits)) <= High(w)
    ensures var d := JavaFloats.DecodeDouble(bits); var x := JavaFloats.Value(d);
      IntegralOf(Double(bits), w).Ok? &&
      var t := IntegralOf(Double(bits), w).value as real;
      (x >= 0.0 ==> t <= x < t + 1.0) && (x <= 0.0 ==> t - 1.0 < x <= t)
  {
    JavaFloats.TruncatesTowardZero(JavaFloats.DecodeDouble(bits));
  }

  /** The DOUBLE value 1.11 of the test rows reads as 1 through `getInt` and as 1 ms through `getDate`. */
  lemma DoubleCellReadsTruncated()
    ensures IntegralOf(Double(0x3FF1_C28F_5C28_F5C3), W32) == Ok(1)
    ensures DateOf(Double(0x3FF1_C28F_5C28_F5C3)) == Ok(Some(1))
  {
    JavaFloats.KnownDoubleCasts();
    var d := JavaFloats.DecodeDouble(0x3FF1_C28F_5C28_F5C3);
    assert d.Finite?;
    JavaFloats.SaturateInRange(d, -0x8000_0000, 0x7FFF_FFFF);
  }

  /** `getString`: null, or the value's `toString()`. */
  function StringOf(v: Cell): (r: Result<Option<JString>, SqlError>)
    ensures r == Ok(None) <==> v.Null?
    ensures v.Str? ==> r == Ok(Some(v.str))
  {
    match v
    case Null => Ok(None)
    case Str(s) => Ok(Some(s))
    case Bool(b) => Ok(Some(BooleanText(b)))
    case Byte(n) => Ok(Some(DecimalText(n)))
    case Short(n) => Ok(Some(DecimalText(n)))
    case Int(n) => Ok(Some(DecimalText(n)))
    case Long(n) => Ok(Some(DecimalText(n)))
    // float, date and time texts, and values a cursor never holds
    case _ => Err(NotModelled)
  }

  /** For a cell holding a `Number`, whether its `toInt()` is 0. */
  function ToIntIsZero(v: Cell): Option<bool> {
    match v
    case Byte(n) => Some(n == 0)
    case Short(n) => Some(n == 0)
    case Int(n) => Some(n == 0)
    case Long(n) => Some(Wrap32(n) == 0)
    case Float(bits) => Some(JavaFloats.FloatToInt(bits) == 0)
    case Double(bits) => Some(JavaFloats.DoubleToInt(bits) == 0)
    case _ => None
  }

  /** `getBoolean` as written: a number is `true` exactly when its `toInt()` is 0. */
  function BooleanOf(v: Cell): (r: Result<bool, SqlError>)
    ensures v.Null? ==> r == Ok(false)
    ensures v.Bool? ==> r == Ok(v.b)
    ensures ToIntIsZero(v).Some? ==> r == Ok(ToIntIsZero(v).value)
  {
    match v
    case Null => Ok(false)
    case Bool(b) => Ok(b)
    case Str(s) => Ok(ParseBoolean(s))
    // `parseBoolean` of a date, time or timestamp text, never four letters long
    case Date(_) => Ok(false)
    case Time(_) => Ok(false)
    case Timestamp(_) => Ok(false)
    case _ => if ToIntIsZero(v).Some? then Ok(ToIntIsZero(v).value) else Err(NotModelled)
  }

  /** `getBoolean` as written on a float or double: `true` for NaN and for the values strictly between -1 and 1. */
  lemma BooleanOfFloating(fbits: Bits32, dbits: Bits64)
    ensures var f := JavaFloats.DecodeFloat(fbits);
      BooleanOf(Float(fbits)) == Ok(f.NaN? || (f.Finite? && -1.0 < JavaFloats.Value(f) < 1.0))
    ensures var d := JavaFloats.DecodeDouble(dbits);
      BooleanOf(Double(dbits)) == Ok(d.NaN? || (d.Finite? && -1.0 < JavaFloats.Value(d) < 1.0))
  {
    JavaFloats.SaturateIsZero(JavaFloats.DecodeFloat(fbits), -0x8000_0000, 0x7FFF_FFFF);
    JavaFloats.SaturateIsZero(JavaFloats.DecodeDouble(dbits), -0x8000_0000, 0x7FFF_FFFF);
  }

  /** `getBoolean` as evidently intended: a number is `true` when its `toInt()` is not 0. */
  function BooleanOfIntended(v: Cell): (r: Result<bool, SqlError>)
    ensures ToIntIsZero(v).Some? ==> r == Ok(!ToIntIsZero(v).value)
    ensures ToIntIsZero(v).None? ==> r == BooleanOf(v)
  {
    if ToIntIsZero(v).Some? then Ok(!ToIntIsZero(v).value) else BooleanOf(v)
  }

  /** The inverted test: the number 0 reads as `true` and the number 1 as `false`. */
  lemma BooleanOfZeroIsTrue()
    ensures BooleanOf(Int(0)) == Ok(true) && BooleanOf(Int(1)) == Ok(false)
    ensures BooleanOf(Long(0)) == Ok(true) && BooleanOf(Long(1)) == Ok(false)
  {
  }

  /** The corrected conversion follows the JDBC rule on every integer cell that fits an int: 0 is false, anything else true. */
  lemma BooleanOfIntendedFollowsJdbc(v: Cell)
    requires v.Byte? || v.Short? || v.Int? || (v.Long? && -0x8000_0000 <= v.i64 < 0x8000_0000)
    ensures BooleanOfIntended(v) == Ok(IntegralOf(v, W64).value != 0)
  {
  }

  /** `getBoolean` reads back the text `getString` gives for a boolean. */
  lemma BooleanOfStringOf(b: bool)
    ensures BooleanOfIntended(Str(BooleanText(b))) == Ok(b)
  {
    if b {
      assert J("true") == ['t' as int, 'r' as int, 'u' as int, 'e' as int];
    } else {
      assert |J("false")| == 5;
    }
  }

  /** What `getString` gives back for an integer reads back through `getByte` … `getLong`. */
  lemma IntegralOfStringOf(n: int, w: Width)
    requires Low(w) <= n <= High(w)
    ensures IntegralOf(Str(DecimalText(n)), w) == Ok(n)
  {
    SignedValueOfDecimalText(n);
  }

  /** `getObject` and the typed getters return what the backend's matching getter gave. */
  lemma TypedGettersReadBack(t: int, v: Cell)
    requires IsKnownType(t) && Writer(t) != WNull && !v.Null?
    requires Payload(Writer(t), t, v).Ok?
    ensures Writer(t) == WBoolean ==> BooleanOf(Replayed(t, v)) == Ok(v.b)
    ensures Writer(t) == WByte ==> IntegralOf(Replayed(t, v), W8) == Ok(v.i8)
    ensures Writer(t) == WShort ==> IntegralOf(Replayed(t, v), W16) == Ok(v.i16)
    ensures Writer(t) == WInteger ==> IntegralOf(Replayed(t, v), W32) == Ok(v.i32)
    ensures Writer(t) == WLong ==> IntegralOf(Replayed(t, v), W64) == Ok(v.i64)
    ensures Writer(t) == WString ==> StringOf(Replayed(t, v)) == Ok(Some(v.str))
    ensures Writer(t) == WRowId ==> StringOf(Replayed(t, v)) == Ok(Some(v.rowIdText))
    ensures Writer(t) == WDate ==> DateOf(Replayed(t, v)) == Ok(Some(v.dateMillis))
    ensures Writer(t) == WTime ==> TimeOf(Replayed(t, v)) == Ok(Some(v.timeMillis))
    ensures Writer(t) == WTimestamp ==> TimestampOf(Replayed(t, v)) == Ok(Some(v.stampMillis))
  {
  }

  /** `getFloat`: 0 for null, the float itself; conversions from other values are not modelled. */
  function FloatOf(v: Cell): (r: Result<Bits32, SqlError>)
    ensures v.Null? ==> r == Ok(0)
    ensures v.Float? ==> r == Ok(v.fbits)
  {
    match v case Null => Ok(0) case Float(b) => Ok(b) case _ => Err(NotModelled)
  }

  /** `getDouble`: 0 for null, the double itself; conversions from other values are not modelled. */
  function DoubleOf(v: Cell): (r: Result<Bits64, SqlError>)
    ensures v.Null? ==> r == Ok(0)
    ensures v.Double? ==> r == Ok(v.dbits)
  {
    match v case Null => Ok(0) case Double(b) => Ok(b) case _ => Err(NotModelled)
  }

  /** `getBytes`: null for null, an empty array for anything else (no cell is a byte array). */
  function BytesOf(v: Cell): (r: Option<Bytes>)
    ensures r.None? <==> v.Null?
    ensures r.Some? ==> r.value == []
  {
    if v.Null? then None else Some([])
  }

  /** `getDate`'s milliseconds: a date as is, a timestamp's time, a number's `toLong()` as a time; parsing text is not modelled. */
  function DateOf(v: Cell): (r: Result<Option<Int64>, SqlError>)
    ensures r == Ok(None) <==> v.Null?
    ensures v.Date? ==> r == Ok(Some(v.dateMillis))
    ensures v.Timestamp? ==> r == Ok(Some(v.stampMillis))
  {
    match v
    case Null => Ok(None)
    case Date(ms) => Ok(Some(ms))
    case Timestamp(ms) => Ok(Some(ms))
    case Byte(n) => Ok(Some(n))
    case Short(n) => Ok(Some(n))
    case Int(n) => Ok(Some(n))
    case Long(n) => Ok(Some(n))
    case Float(b) => Ok(Some(JavaFloats.FloatToLong(b)))
    case Double(b) => Ok(Some(JavaFloats.DoubleToLong(b)))
    case _ => Err(NotModelled)
  }

  /** `getTime`'s milliseconds: a time as is, a number's `toLong()` as a time; parsing text is not modelled. */
  function TimeOf(v: Cell): (r: Result<Option<Int64>, SqlError>)
    ensures r == Ok(None) <==> v.Null?
    ensures v.Time? ==> r == Ok(Some(v.timeMillis))
  {
    match v
    case Null => Ok(None)
    case Time(ms) => Ok(Some(ms))
    case Byte(n) => Ok(Some(n))
    case Short(n) => Ok(Some(n))
    case Int(n) => Ok(Some(n))
    case Long(n) => Ok(Some(n))
    case Float(b) => Ok(Some(JavaFloats.FloatToLong(b)))
    case Double(b) => Ok(Some(JavaFloats.DoubleToLong(b)))
    case _ => Err(NotModelled)
  }

  /** `getTimestamp`'s milliseconds: a timestamp as is, a number's `toLong()` as a time; parsing text is not modelled. */
  function TimestampOf(v: Cell): (r: Result<Option<Int64>, SqlError>)
    ensures r == Ok(None) <==> v.Null?
    ensures v.Timestamp? ==> r == Ok(Some(v.stampMillis))
  {
    match v
    case Null => Ok(None)
    case Timestamp(ms) => Ok(Some(ms))
    case Byte(n) => Ok(Some(n))
    case Short(n) => Ok(Some(n))
    case Int(n) => Ok(Some(n))
    case Long(n) => Ok(Some(n))
    case Float(b) => Ok(Some(JavaFloats.FloatToLong(b)))
    case Double(b) => Ok(Some(JavaFloats.DoubleToLong(b)))
    case _ => Err(NotModelled)
  }

  /** `getDate`, `getTime` and `getTimestamp` of a double cell: `Date(toLong())`, the double rounded toward zero, when a `long` can hold it. */
  lemma TimesOfDoubleTruncate(bits: Bits64)
    requires JavaFloats.DecodeDouble(bits).Finite?
    requires -0x8000_0000_0000_0000 <= JavaFloats.Truncated(JavaFloats.DecodeDouble(bits)) < 0x8000_0000_0000_0000
    ensures var d := JavaFloats.DecodeDouble(bits); var x := JavaFloats.Value(d);
      DateOf(Double(bits)).Ok? && DateOf(Double(bits)).value.Some?
      && TimeOf(Double(bits)) == DateOf(Double(bits)) && TimestampOf(Double(bits)) == DateOf(Double(bits))
      && var t := DateOf(Double(bits)).value.value as real;
      (x >= 0.0 ==> t <= x < t + 1.0) && (x <= 0.0 ==> t - 1.0 < x <= t)
  {
    var d := JavaFloats.DecodeDouble(bits);
    JavaFloats.TruncatesTowardZero(d);
    JavaFloats.SaturateInRange(d, -0x8000_0000_0000_0000, 0x7FFF_FFFF_FFFF_FFFF);
  }

  /** `getRowId`: null for null; no cell is a `RowId`, so anything else is not supported. */
  function RowIdOf(v: Cell): (r: Result<Option<JString>, SqlError>)
    ensures r.Ok? <==> v.Null?
    ensures r.Err? ==> r.error == FeatureNotSupported
  {
    if v.Null? then Ok(None) else Err(FeatureNotSupported)
  }

  /** `checkColumn(columnIndex)` on a row: bounds first, then the cell. */
  function CellAt(row: seq<Cell>, i: int): (r: Result<Cell, SqlError>)
    ensures r.Ok? <==> 1 <= i <= |row|
    ensures r.Ok? ==> r.value == row[i - 1]
    ensures (i == 0 || i > |row|) ==> r == Err(ColumnOutOfBounds)
    ensures i < 0 ==> r == Err(IndexOutOfBounds)
  {
    if i == 0 || i > |row| then Err(ColumnOutOfBounds)
    else if i < 0 then Err(IndexOutOfBounds)
    else Ok(row[i - 1])
  }

  function Then<X>(c: Result<Cell, SqlError>, f: Cell -> Result<X, SqlError>): Result<X, SqlError> {
    match c case Err(e) => Err(e) case Ok(v) => f(v)
  }

  function Nulls(n: nat): seq<Cell> {
    seq(n, _ => Null)
  }

  function ReplayedRow(types: seq<Int32>, row: seq<Cell>): (r: seq<Cell>)
    requires |row| == |types|
    ensures |r| == |row| && forall k | 0 <= k < |row| :: r[k] == Replayed(types[k], row[k])
  {
    seq(|row|, k requires 0 <= k < |row| => Replayed(types[k], row[k]))
  }

  predicate AllKnown(types: seq<Int32>) {
    forall k | 0 <= k < |types| :: IsKnownType(types[k])
  }

  // ---- the cursor ----

  class CachedResultSet {
    const columns: seq<ColumnDef>
    const types: seq<Int32>
    /** Filled by the initialiser and never changed afterwards. */
    const columnNames: map<JString, int>
    const currentRow: array<Cell>
    const nextRow: array<Cell>
    var wasNull: bool
    var currentPos: Int32
    var nextPos: Int32
    var closed: bool
    /** What the `DataInputStream` still holds. */
    var input: Bytes

    ghost predicate Valid()
      reads this
    {
      currentRow.Length == |columns| && nextRow.Length == |columns| && currentRow != nextRow
      && types == TypesOf(columns) && columnNames == LabelIndex(columns)
    }

    /** The part of `init` after `readColumns`: the two row arrays and the label map. */
    constructor Init(cols: seq<ColumnDef>, rest: Bytes)
      requires |cols| < 0x8000_0000
      ensures Valid() && columns == cols
      ensures fresh(currentRow) && fresh(nextRow)
      ensures currentRow[..] == Nulls(|cols|) && nextRow[..] == Nulls(|cols|)
      ensures !wasNull && currentPos == 0 && nextPos == 0 && !closed && input == rest
    {
      var names: map<JString, int> := map[];
      var i := 0;
      while i < |cols|
        invariant 0 <= i <= |cols| && names == LabelIndex(cols[..i])
      {
        assert cols[..i + 1][..i] == cols[..i];
        i := i + 1;
        names := names[cols[i - 1].columnLabel := i];
      }
      assert cols[..|cols|] == cols;
      columns, types, columnNames := cols, TypesOf(cols), names;
      currentRow := new Cell[|cols|](_ => Null);
      nextRow := new Cell[|cols|](_ => Null);
      wasNull, currentPos, nextPos, closed, input := false, 0, 0, false, rest;
    }

    /** The cell loop of `readNext`: one `read` per column into `nextRow`, stopping at the first failure. */
    method FillRow(read: CellReader) returns (failed: Option<nat>)
      requires Valid()
      modifies this`input, nextRow
      ensures Filled(ReadCellsWith(read, types, old(input)), old(nextRow[..]), failed, nextRow[..], input)
    {
      ghost var start, before := input, nextRow[..];
      ghost var done: seq<Cell> := [];
      var i := 0;
      assert types[0..] == types && before[0..] == before;
      PrependNoCells(ReadCellsWith(read, types, start));
      while i < |types|
        invariant 0 <= i <= |types| && |done| == i
        invariant nextRow[..] == done + before[i..]
        invariant ReadCellsWith(read, types, start) == PrependCells(done, ReadCellsWith(read, types[i..], input))
      {
        var c := read(types[i], input);
        if c.Err? {
          assert ReadCellsWith(read, types[i..], input) == CellFailed([], c.error);
          assert done + [] == done;
          return Some(i);
        }
        PrependCellsStep(read, done, types[i..], input);
        assert types[i..][1..] == types[i + 1..];
        UpdateAfterPrefix(done, before[i..], c.value.value);
        assert before[i..][1..] == before[i + 1..];
        nextRow[i] := c.value.value;
        done := done + [c.value.value];
        input := c.value.rest;
        i := i + 1;
      }
      assert types[i..] == [] && before[i..] == [] && done + [] == done;
      return None;
    }

    /** `readNext`: the next position, which must follow `currentPos`, then its cells into `nextRow`. */
    method ReadNext() returns (raised: Option<SqlError>)
      requires Valid()
      modifies this`nextPos, this`input, nextRow
      ensures Valid()
      ensures Stepped(ReadFrame(types, currentPos, old(input)), Wrap32(currentPos + 1), old(nextRow[..]),
                      raised, nextPos, input, nextRow[..])
    {
      var p := ReadInt(input);
      if p.Err? {
        // EOFException: nothing, or a partial int, was left
        nextPos, input := 0, [];
        return None;
      }
      nextPos, input := p.value.value, p.value.rest;
      if nextPos != Wrap32(currentPos + 1) {
        return Some(ExpectsPos(Wrap32(currentPos + 1), nextPos));
      }
      var failed := FillRow(ReadRow);
      if failed.Some? {
        // `i++` has already run when `readRow` throws: the message counts columns from 1
        return Some(CannotExtractColumn(failed.value + 1, nextPos));
      }
      return None;
    }

    /** `next()`: the row read ahead becomes current, and the following frame is read. */
    method Next() returns (r: Result<bool, SqlError>)
      requires Valid()
      modifies this`currentPos, this`nextPos, this`input, currentRow, nextRow
      ensures Valid()
      ensures currentPos == old(nextPos)
      ensures old(nextPos) == 0 ==>
        r == Ok(false) && nextPos == 0 && input == old(input)
        && currentRow[..] == old(currentRow[..]) && nextRow[..] == old(nextRow[..])
      ensures old(nextPos) != 0 ==>
        currentRow[..] == old(nextRow[..]) && (r.Ok? ==> r.value)
        && Stepped(ReadFrame(types, old(nextPos), old(input)), Wrap32(old(nextPos) + 1), old(nextRow[..]),
                   Raised(r), nextPos, input, nextRow[..])
    {
      currentPos := nextPos;
      if currentPos == 0 {
        return Ok(false);
      }
      var i := 0;
      while i < nextRow.Length
        invariant 0 <= i <= nextRow.Length
        invariant currentRow[..i] == nextRow[..i] && nextRow[..] == old(nextRow[..])
        invariant currentPos == old(nextPos) && nextPos == old(nextPos) && input == old(input)
      {
        currentRow[i] := nextRow[i];
        i := i + 1;
      }
      assert currentRow[..] == currentRow[..i];
      var raised := ReadNext();
      if raised.Some? {
        return Err(raised.value);
      }
      return Ok(true);
    }

    /** `close()`: closing an in-memory or file stream of bytes does not fail. */
    method Close()
      modifies this`closed
      ensures IsClosed()
    {
      closed := true;
    }

    function IsClosed(): bool reads this { closed }
    function WasNull(): bool reads this { wasNull }
    function GetRow(): Int32 reads this { currentPos }

    /** Before the first row exactly when no row is current, which holds after the last one too. */
    function IsBeforeFirst(): (r: bool)
      reads this
      ensures r <==> GetRow() == 0
    {
      currentPos == 0
    }

    /** After the last row: nothing current and nothing read ahead; the cursor then also reports before the first row. */
    function IsAfterLast(): (r: bool)
      reads this
      ensures r ==> IsBeforeFirst() && !IsFirst() && !IsLast()
    {
      currentPos == 0 && nextPos == 0
    }

    function IsFirst(): (r: bool)
      reads this
      ensures r ==> GetRow() == 1 && !IsBeforeFirst()
    {
      currentPos == 1
    }

    /** On the last row: a row is current and none was read ahead. */
    function IsLast(): (r: bool)
      reads this
      ensures r ==> GetRow() != 0 && !IsBeforeFirst()
    {
      nextPos == 0 && currentPos != 0
    }

    /** Whether a getter on column `i` left `wasNull` as `checkColumn` sets it. */
    ghost predicate Looked(i: int, before: bool)
      reads this, currentRow
    {
      if 1 <= i <= currentRow.Length then wasNull == currentRow[i - 1].Null? else wasNull == before
    }

    /** `checkColumn(columnIndex)`: the cell, recording whether it is null. */
    method CheckColumn(i: int) returns (r: Result<Cell, SqlError>)
      modifies this`wasNull
      ensures r == CellAt(currentRow[..], i) && Looked(i, old(wasNull))
      ensures r.Ok? ==> WasNull() == r.value.Null?
    {
      r := CellAt(currentRow[..], i);
      if r.Ok? {
        wasNull := r.value == Null;
      }
    }

    /** `getObject(columnIndex)`, and the getters that only check the column (streams, refs, blobs, arrays) with `Ok(Null)`. */
    method GetObject(i: int) returns (r: Result<Cell, SqlError>)
      modifies this`wasNull
      ensures r == CellAt(currentRow[..], i) && Looked(i, old(wasNull))
    {
      r := CheckColumn(i);
    }

    method GetString(i: int) returns (r: Result<Option<JString>, SqlError>)
      modifies this`wasNull
      ensures r == Then(CellAt(currentRow[..], i), StringOf) && Looked(i, old(wasNull))
    {
      var v :- CheckColumn(i);
      r := StringOf(v);
    }

    /** `getBoolean`, with the corrected test on numbers. */
    method GetBoolean(i: int) returns (r: Result<bool, SqlError>)
      modifies this`wasNull
      ensures r == Then(CellAt(currentRow[..], i), BooleanOfIntended) && Looked(i, old(wasNull))
    {
      var v :- CheckColumn(i);
      r := BooleanOfIntended(v);
    }

    /** `getByte`, `getShort`, `getInt` and `getLong`, by width. */
    method GetIntegral(i: int, w: Width) returns (r: Result<int, SqlError>)
      modifies this`wasNull
      ensures r == Then(CellAt(currentRow[..], i), v => IntegralOf(v, w)) && Looked(i, old(wasNull))
      ensures r.Ok? ==> Low(w) <= r.value <= High(w)
    {
      var v :- CheckColumn(i);
      r := IntegralOf(v, w);
    }

    method GetFloat(i: int) returns (r: Result<Bits32, SqlError>)
      modifies this`wasNull
      ensures r == Then(CellAt(currentRow[..], i), FloatOf) && Looked(i, old(wasNull))
    {
      var v :- CheckColumn(i);
      r := FloatOf(v);
    }

    method GetDouble(i: int) returns (r: Result<Bits64, SqlError>)
      modifies this`wasNull
      ensures r == Then(CellAt(currentRow[..], i), DoubleOf) && Looked(i, old(wasNull))
    {
      var v :- CheckColumn(i);
      r := DoubleOf(v);
    }

    method GetBytes(i: int) returns (r: Result<Option<Bytes>, SqlError>)
      modifies this`wasNull
      ensures r == Then(CellAt(currentRow[..], i), v => Ok(BytesOf(v))) && Looked(i, old(wasNull))
    {
      var v :- CheckColumn(i);
      r := Ok(BytesOf(v));
    }

    method GetDate(i: int) returns (r: Result<Option<Int64>, SqlError>)
      modifies this`wasNull
      ensures r == Then(CellAt(currentRow[..], i), DateOf) && Looked(i, old(wasNull))
    {
      var v :- CheckColumn(i);
      r := DateOf(v);
    }

    method GetTime(i: int) returns (r: Result<Option<Int64>, SqlError>)
      modifies this`wasNull
      ensures r == Then(CellAt(currentRow[..], i), TimeOf) && Looked(i, old(wasNull))
    {
      var v :- CheckColumn(i);
      r := TimeOf(v);
    }

    method GetTimestamp(i: int) returns (r: Result<Option<Int64>, SqlError>)
      modifies this`wasNull
      ensures r == Then(CellAt(currentRow[..], i), TimestampOf) && Looked(i, old(wasNull))
    {
      var v :- CheckColumn(i);
      r := TimestampOf(v);
    }

    /** `getClob`: null, or a `ClobString` over the value's `toString()` (its content returned here). */
    method GetClob(i: int) returns (r: Result<Option<JString>, SqlError>)
      modifies this`wasNull
      ensures r == Then(CellAt(currentRow[..], i), StringOf) && Looked(i, old(wasNull))
    {
      var v :- CheckColumn(i);
      r := StringOf(v);
    }

    method GetRowId(i: int) returns (r: Result<Option<JString>, SqlError>)
      modifies this`wasNull
      ensures r == Then(CellAt(currentRow[..], i), RowIdOf) && Looked(i, old(wasNull))
    {
      var v :- CheckColumn(i);
      r := RowIdOf(v);
    }

    /** `checkColumn(label)`: the column a label names; the label overloads of the getters go through it. */
    function ColumnOf(l: JString): (r: Result<int, SqlError>)
      requires Valid()
      reads this
      ensures r.Err? <==> forall j | 0 <= j < |columns| :: columns[j].columnLabel != l
      ensures r.Err? ==> r.error == ColumnNotFound(l)
      ensures r.Ok? ==>
        (1 <= r.value <= |columns| && columns[r.value - 1].columnLabel == l
         && forall j | r.value <= j < |columns| :: columns[j].columnLabel != l)
    {
      LabelIndexFindsLastColumn(columns, l);
      if l in columnNames then Ok(columnNames[l]) else Err(ColumnNotFound(l))
    }

    /** `findColumn`: the same lookup, with 0 for an unknown label. */
    function FindColumn(l: JString): (n: int)
      requires Valid()
      reads this
      ensures n == 0 <==> forall j | 0 <= j < |columns| :: columns[j].columnLabel != l
      ensures n != 0 ==> ColumnOf(l) == Ok(n)
    {
      match ColumnOf(l) case Ok(n) => n case Err(_) => 0
    }
  }

  /**
   * The `CachedResultSet` initialiser over a stream: `readColumns`, the
   * arrays and labels, then the first `readNext`. An `IOException` of the
   * header closes the stream and becomes "Cannot read the cache"; the
   * `SQLException`s of `readNext` and a negative count pass through.
   */
  method Open(s: Bytes) returns (r: Result<CachedResultSet, SqlError>)
    ensures DecodeHeader(s).Err? ==>
      r == Err(if DecodeHeader(s).error == NegativeCount then NegativeArraySize else CannotReadCache)
    ensures r.Ok? ==>
      DecodeHeader(s).Ok? && fresh(r.value) && fresh(r.value.currentRow) && fresh(r.value.nextRow)
      && r.value.Valid() && r.value.columns == DecodeHeader(s).value.value
      && r.value.currentRow[..] == Nulls(|r.value.columns|)
      && !r.value.wasNull && r.value.currentPos == 0 && !r.value.closed
    ensures DecodeHeader(s).Ok? ==>
      var cols := DecodeHeader(s).value.value;
      var f := ReadFrame(TypesOf(cols), 0, DecodeHeader(s).value.rest);
      (f.BadPos? ==> r == Err(ExpectsPos(1, f.got)))
      && (f.BadCell? ==> r == Err(CannotExtractColumn(|f.done| + 1, f.pos)))
      && (f.AtEnd? ==> r.Ok? && r.value.nextPos == 0 && r.value.input == [] && r.value.nextRow[..] == Nulls(|cols|))
      && (f.Frame? ==> r.Ok? && r.value.nextPos == f.pos && r.value.input == f.rest && r.value.nextRow[..] == f.cells)
  {
    var header := ReadColumns(s);
    if header.Err? {
      return Err(if header.error == NegativeCount then NegativeArraySize else CannotReadCache);
    }
    var c := new CachedResultSet.Init(header.value.value, header.value.rest);
    var raised := c.ReadNext();
    if raised.Some? {
      return Err(raised.value);
    }
    return Ok(c);
  }

  // ---- the replay theorem ----

  lemma {:induction false} ReadCellsOfWrite(types: seq<Int32>, row: seq<Cell>, tail: Bytes)
    requires |row| == |types| && AllKnown(types) && CellsBytes(types, row).Ok?
    ensures ReadCells(types, CellsBytes(types, row).value + tail) == AllCells(ReplayedRow(types, row), tail)
    decreases |types|
  {
    if types != [] {
      var a := CellBytes(types[0], row[0]).value;
      var b := CellsBytes(types[1..], row[1..]).value;
      assert CellsBytes(types, row) == Cat(CellBytes(types[0], row[0]), CellsBytes(types[1..], row[1..]));
      CatOkThen(CellBytes(types[0], row[0]), CellsBytes(types[1..], row[1..]), tail);
      ReadRowOfWrite(types[0], row[0], b + tail);
      ReadCellsOfWrite(types[1..], row[1..], tail);
      ReadCellsCons(types, a + (b + tail), Replayed(types[0], row[0]), b + tail, ReplayedRow(types[1..], row[1..]), tail);
      assert ReplayedRow(types, row) == [Replayed(types[0], row[0])] + ReplayedRow(types[1..], row[1..]);
    }
  }

  /** A first cell read, then the rest of the row read: the whole row read. */
  lemma ReadCellsCons(types: seq<Int32>, s: Bytes, c: Cell, mid: Bytes, more: seq<Cell>, tail: Bytes)
    requires types != [] && ReadRow(types[0], s) == Ok(Parsed(c, mid))
    requires ReadCells(types[1..], mid) == AllCells(more, tail)
    ensures ReadCells(types, s) == AllCells([c] + more, tail)
  {
  }

  /** Each frame the writer emits reads back as the replayed row at the next position. */
  lemma FrameOfWrite(types: seq<Int32>, rows: seq<seq<Cell>>, pos: Int32)
    requires Rectangular(types, rows) && AllKnown(types) && RowsBytes(types, rows, pos).Ok?
    requires rows != [] ==> pos < 0x7FFF_FFFF
    ensures rows == [] ==> ReadFrame(types, pos, RowsBytes(types, rows, pos).value) == AtEnd
    ensures rows != [] ==>
      RowsBytes(types, rows[1..], pos + 1).Ok?
      && ReadFrame(types, pos, RowsBytes(types, rows, pos).value) ==
         Frame(pos + 1, ReplayedRow(types, rows[0]), RowsBytes(types, rows[1..], pos + 1).value)
  {
    if rows != [] {
      RowsBytesCons(types, rows, pos);
      var cells := CellsBytes(types, rows[0]).value;
      var tail := RowsBytes(types, rows[1..], pos + 1).value;
      ReadIntOfWrite(pos + 1, cells + tail);
      ReadCellsOfWrite(types, rows[0], tail);
    }
  }

  /** A frame is the next position, the first row's cells, then the frames of the other rows. */
  lemma RowsBytesCons(types: seq<Int32>, rows: seq<seq<Cell>>, pos: Int32)
    requires Rectangular(types, rows) && RowsBytes(types, rows, pos).Ok?
    requires rows != [] && pos < 0x7FFF_FFFF
    ensures |rows[0]| == |types| && CellsBytes(types, rows[0]).Ok?
    ensures Wrap32(pos + 1) == pos + 1 && RowsBytes(types, rows[1..], pos + 1).Ok?
    ensures RowsBytes(types, rows, pos).value ==
      WriteInt(pos + 1) + (CellsBytes(types, rows[0]).value + RowsBytes(types, rows[1..], pos + 1).value)
  {
    assert |rows[0]| == |types|;
    var next := Wrap32(pos + 1);
    assert next == pos + 1;
    CatOkThree(WriteInt(next), CellsBytes(types, rows[0]), RowsBytes(types, rows[1..], next));
  }

  /** The stream of a table opens on its descriptors, with the row frames left to read. */
  lemma EncodeOpens(t: Table)
    requires WellFormed(t) && Encode(t).Ok?
    ensures RowsBytes(TypesOf(t.columns), t.rows, 0).Ok?
    ensures DecodeHeader(Encode(t).value) ==
      Ok(Parsed(t.columns, RowsBytes(TypesOf(t.columns), t.rows, 0).value))
  {
    HeaderRoundTrip(t.columns, RowsBytes(TypesOf(t.columns), t.rows, 0).value);
  }

  /** What the caller sees after one `next()`: the current row, `getRow()`, `isFirst()` and `isLast()`. */
  datatype Seen = Seen(row: seq<Cell>, position: int, first: bool, last: bool)

  /** What the caller should see after the `k`-th `next()` over the rows of `t`. */
  function Expected(t: Table, k: nat): Seen
    requires WellFormed(t) && k < |t.rows|
  {
    Seen(ReplayedRow(TypesOf(t.columns), t.rows[k]), k + 1, k == 0, k == |t.rows| - 1)
  }

  /**
   * Replay: a cursor opened on the stream of a table whose column types all
   * have a case label returns, through `next()`, exactly the replayed rows
   * in order, with `getRow()` counting them; after the last row `next()`
   * keeps returning false. (The row counter is an int, hence the bound.)
   */
  method Replay(t: Table) returns (seen: seq<Seen>, beforeFirst: bool, ends: seq<bool>, afterLast: bool)
    requires WellFormed(t) && AllKnown(TypesOf(t.columns)) && |t.rows| < 0x7FFF_FFFF && Encode(t).Ok?
    ensures |seen| == |t.rows| && forall k | 0 <= k < |t.rows| :: seen[k] == Expected(t, k)
    ensures beforeFirst && ends == [false, false] && afterLast
  {
    var c := OpenEncoded(t);
    beforeFirst := c.IsBeforeFirst();
    seen := ReplayRows(c, t);
    ends, afterLast := Drain(c);
  }

  /** The `next()` calls that return the rows of `t`, one per row. */
  method ReplayRows(c: CachedResultSet, t: Table) returns (seen: seq<Seen>)
    requires WellFormed(t) && AllKnown(TypesOf(t.columns)) && |t.rows| < 0x7FFF_FFFF && Replaying(c, t, 0)
    modifies c`currentPos, c`nextPos, c`input, c.currentRow, c.nextRow
    ensures Replaying(c, t, |t.rows|)
    ensures |seen| == |t.rows| && forall k | 0 <= k < |t.rows| :: seen[k] == Expected(t, k)
  {
    var n := |t.rows|;
    seen := [];
    var k := 0;
    while k < n
      invariant 0 <= k <= n
      invariant Replaying(c, t, k)
      invariant |seen| == k && SeenSoFar(t, seen)
      decreases n - k
    {
      var now := ReplayStep(c, t, k);
      SeenStep(t, seen, now);
      seen := seen + [now];
      k := k + 1;
    }
  }

  /** The rows returned so far are the first rows of `t`, as expected. */
  ghost predicate SeenSoFar(t: Table, seen: seq<Seen>)
    requires WellFormed(t)
  {
    |seen| <= |t.rows| && forall j | 0 <= j < |seen| :: seen[j] == Expected(t, j)
  }

  /** Returning the next expected row extends what was seen. */
  lemma SeenStep(t: Table, seen: seq<Seen>, now: Seen)
    requires WellFormed(t) && SeenSoFar(t, seen) && |seen| < |t.rows| && now == Expected(t, |seen|)
    ensures SeenSoFar(t, seen + [now])
  {
    var more := seen + [now];
    forall j | 0 <= j < |more|
      ensures more[j] == Expected(t, j)
    {
      if j < |seen| {
        assert more[j] == seen[j];
      }
    }
  }

  /** The cursor has returned `k` rows of `t` and stands ready for the next `next()`. */
  ghost predicate Replaying(c: CachedResultSet, t: Table, k: nat)
    requires WellFormed(t) && k <= |t.rows|
    reads c, c.nextRow
  {
    c.Valid() && c.types == TypesOf(t.columns) && c.currentPos == k
    && (k < |t.rows| ==> Ahead(c, t, k))
    && (k == |t.rows| ==> c.nextPos == 0)
  }

  /** Row `k` of `t` is read ahead, and the stream holds the frames of the rows after it. */
  ghost predicate Ahead(c: CachedResultSet, t: Table, k: nat)
    requires WellFormed(t) && k < |t.rows|
    reads c, c.nextRow
  {
    c.nextPos == k + 1 && c.nextRow[..] == ReplayedRow(TypesOf(t.columns), t.rows[k])
    && RowsBytes(TypesOf(t.columns), t.rows[k + 1..], k + 1).Ok?
    && c.input == RowsBytes(TypesOf(t.columns), t.rows[k + 1..], k + 1).value
  }

  /** Past the last row, `next()` returns false however often it is called, and the cursor is after the last row. */
  method Drain(c: CachedResultSet) returns (ends: seq<bool>, afterLast: bool)
    requires c.Valid() && c.nextPos == 0
    modifies c`currentPos, c`nextPos, c`input, c.currentRow, c.nextRow
    ensures ends == [false, false] && afterLast
    ensures c.IsAfterLast() && c.IsBeforeFirst() && c.GetRow() == 0
  {
    var end1 := c.Next();
    var end2 := c.Next();
    ends := [end1.value, end2.value];
    afterLast := c.IsAfterLast();
  }

  /** Opening the stream of a table: the cursor stands before row 0, with row 0 (if any) read ahead. */
  method OpenEncoded(t: Table) returns (c: CachedResultSet)
    requires WellFormed(t) && AllKnown(TypesOf(t.columns)) && |t.rows| < 0x7FFF_FFFF && Encode(t).Ok?
    ensures fresh(c) && fresh(c.currentRow) && fresh(c.nextRow)
    ensures Replaying(c, t, 0)
  {
    EncodeOpens(t);
    FrameOfWrite(TypesOf(t.columns), t.rows, 0);
    var cursor := Open(Encode(t).value);
    c := cursor.value;
  }

  /** One `next()` of the replay: row `k` becomes current and row `k + 1`, if any, is read ahead. */
  method ReplayStep(c: CachedResultSet, t: Table, k: nat) returns (now: Seen)
    requires WellFormed(t) && AllKnown(TypesOf(t.columns)) && |t.rows| < 0x7FFF_FFFF && k < |t.rows|
    requires Replaying(c, t, k)
    modifies c`currentPos, c`nextPos, c`input, c.currentRow, c.nextRow
    ensures Replaying(c, t, k + 1) && now == Expected(t, k)
  {
    var types := c.types;
    var rest := t.rows[k + 1..];
    FrameOfWrite(types, rest, k + 1);
    ghost var f := ReadFrame(types, k + 1, c.input);
    if k + 1 < |t.rows| {
      assert rest[0] == t.rows[k + 1] && rest[1..] == t.rows[k + 2..];
      assert f == Frame(k + 2, ReplayedRow(types, t.rows[k + 1]), RowsBytes(types, t.rows[k + 2..], k + 2).value);
    } else {
      assert rest == [];
      assert f == AtEnd;
    }
    var r := c.Next();
    now := Seen(c.currentRow[..], c.GetRow(), c.IsFirst(), c.IsLast());
  }

  /**
   * A column whose type has no case label is written as nothing at all, not
   * even the presence flag, so reading the first row fails on that column.
   */
  lemma UnknownTypeBreaksReplay(types: seq<Int32>, v: Cell)
    requires |types| == 1 && !IsKnownType(types[0])
    ensures RowsBytes(types, [[v]], 0) == Ok(WriteInt(1))
    ensures ReadFrame(types, 0, WriteInt(1)) == BadCell(1, [], RowIo(Eof))
  {
    assert CellsBytes(types, [v]) == Ok([]);
    assert [[v]][1..] == [];
    ReadIntOfWrite(1, []);
    assert WriteInt(1) + [] == WriteInt(1);
    assert ReadCells(types, []) == CellFailed([], RowIo(Eof));
  }
}
