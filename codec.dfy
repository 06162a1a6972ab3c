/**
 * `ResultSetWriter`: the cache file format. A header (the column count, then
 * twenty descriptor fields per column), then one frame per row: the row's
 * 1-based sequence number and one cell per column, each a presence flag
 * followed by a payload chosen by the column's declared SQL type.
 */
module ResultSetCodec {
  import opened Wrappers
  import opened JavaText
  import opened DataIo
  import opened SqlTypes

  /** One column descriptor, as `ColumnDef` holds it. */
  datatype ColumnDef = ColumnDef(
    catalog: JString, className: JString, columnLabel: JString, columnName: JString,
    typeName: JString, sqlType: Int32, displaySize: Int32, precision: Int32,
    tableName: JString, scale: Int32, schemaName: JString,
    isAutoIncrement: bool, isCaseSensitive: bool, isCurrency: bool, isDefinitelyWritable: bool,
    isNullable: Int32, isReadOnly: bool, isSearchable: bool, isSigned: bool, isWritable: bool)

  /**
   * A cell value. On the replay side these are the objects `readRow` returns;
   * on the live side the value the backend's getter for the column yields,
   * with three live-only forms: a `BigDecimal` (carrying the bits of its
   * `doubleValue()`), a `RowId` (carrying its `toString()`), a `Clob`, and a
   * value of a type the cache never stores.
   */
  datatype Cell =
    | Null
    | Bool(b: bool)
    | Byte(i8: Int8)
    | Short(i16: Int16)
    | Int(i32: Int32)
    | Long(i64: Int64)
    | Float(fbits: Bits32)
    | Double(dbits: Bits64)
    | Str(str: JString)
    | Date(dateMillis: Int64)
    | Time(timeMillis: Int64)
    | Timestamp(stampMillis: Int64)
    | Decimal(decimalBits: Bits64)
    | RowId(rowIdText: JString)
    | Clob(clobContent: JString)
    | Opaque

  /** Values `readRow` can produce. */
  predicate IsReplayCell(v: Cell) {
    !(v.Decimal? || v.RowId? || v.Clob? || v.Opaque?)
  }

  // ---- descriptor fields ----

  datatype Field = TextField(text: JString) | IntField(num: Int32) | FlagField(flag: bool)
  datatype Slot = TextSlot | IntSlot | FlagSlot

  function SlotOf(f: Field): Slot {
    match f
    case TextField(_) => TextSlot
    case IntField(_) => IntSlot
    case FlagField(_) => FlagSlot
  }

  function Slots(fs: seq<Field>): (r: seq<Slot>) {
    seq(|fs|, i requires 0 <= i < |fs| => SlotOf(fs[i]))
  }

  /** The descriptor fields in the order `writeMetadata` writes them and `ColumnDef` reads them. */
  function Fields(c: ColumnDef): seq<Field> {
    [TextField(c.catalog), TextField(c.className), TextField(c.columnLabel), TextField(c.columnName),
     TextField(c.typeName), IntField(c.sqlType), IntField(c.displaySize), IntField(c.precision),
     TextField(c.tableName), IntField(c.scale), TextField(c.schemaName),
     FlagField(c.isAutoIncrement), FlagField(c.isCaseSensitive), FlagField(c.isCurrency),
     FlagField(c.isDefinitelyWritable), IntField(c.isNullable), FlagField(c.isReadOnly),
     FlagField(c.isSearchable), FlagField(c.isSigned), FlagField(c.isWritable)]
  }

  const Layout: seq<Slot> :=
    [TextSlot, TextSlot, TextSlot, TextSlot, TextSlot, IntSlot, IntSlot, IntSlot, TextSlot, IntSlot,
     TextSlot, FlagSlot, FlagSlot, FlagSlot, FlagSlot, IntSlot, FlagSlot, FlagSlot, FlagSlot, FlagSlot]

  function TextOf(f: Field): JString { if f.TextField? then f.text else [] }
  function NumOf(f: Field): Int32 { if f.IntField? then f.num else 0 }
  function FlagOf(f: Field): bool { if f.FlagField? then f.flag else false }

  /** The descriptor `ColumnDef`'s constructor assembles from the fields it read, in `Layout` order. */
  function ColumnOf(fs: seq<Field>): (c: ColumnDef)
    requires |fs| == |Layout|
  {
    ColumnDef(TextOf(fs[0]), TextOf(fs[1]), TextOf(fs[2]), TextOf(fs[3]), TextOf(fs[4]),
      NumOf(fs[5]), NumOf(fs[6]), NumOf(fs[7]), TextOf(fs[8]), NumOf(fs[9]), TextOf(fs[10]),
      FlagOf(fs[11]), FlagOf(fs[12]), FlagOf(fs[13]), FlagOf(fs[14]), NumOf(fs[15]),
      FlagOf(fs[16]), FlagOf(fs[17]), FlagOf(fs[18]), FlagOf(fs[19]))
  }

  lemma LayoutOfFields(c: ColumnDef)
    ensures Slots(Fields(c)) == Layout
    ensures ColumnOf(Fields(c)) == c
  {
  }

  function WriteField(f: Field): Result<Bytes, IoError> {
    match f
    case TextField(s) => WriteUtf(s)
    case IntField(n) => Ok(WriteInt(n))
    case FlagField(b) => Ok(WriteBoolean(b))
  }

  function WriteFields(fs: seq<Field>): Result<Bytes, IoError> {
    if fs == [] then Ok([]) else Cat(WriteField(fs[0]), WriteFields(fs[1..]))
  }

  function ReadField(slot: Slot, s: Bytes): Result<Parsed<Field>, IoError> {
    match slot
    case TextSlot => var p :- ReadUtf(s); Ok(Parsed(TextField(p.value), p.rest))
    case IntSlot => var p :- ReadInt(s); Ok(Parsed(IntField(p.value), p.rest))
    case FlagSlot => var p :- ReadBoolean(s); Ok(Parsed(FlagField(p.value), p.rest))
  }

  function ReadFields(slots: seq<Slot>, s: Bytes): (r: Result<Parsed<seq<Field>>, IoError>)
    ensures r.Ok? ==> |r.value.value| == |slots|
    ensures r.Ok? ==> forall i | 0 <= i < |slots| :: SlotOf(r.value.value[i]) == slots[i]
  {
    if slots == [] then Ok(Parsed([], s))
    else
      var f :- ReadField(slots[0], s);
      var fs :- ReadFields(slots[1..], f.rest);
      Ok(Parsed([f.value] + fs.value, fs.rest))
  }

  lemma ReadFieldOfWrite(f: Field, tail: Bytes)
    requires WriteField(f).Ok?
    ensures ReadField(SlotOf(f), WriteField(f).value + tail) == Ok(Parsed(f, tail))
  {
    match f
    case TextField(s) => ReadUtfOfWrite(s, tail);
    case IntField(n) => ReadIntOfWrite(n, tail);
    case FlagField(b) => ReadBooleanOfWrite(b, tail);
  }

  lemma {:induction false} ReadFieldsOfWrite(fs: seq<Field>, tail: Bytes)
    requires WriteFields(fs).Ok?
    ensures ReadFields(Slots(fs), WriteFields(fs).value + tail) == Ok(Parsed(fs, tail))
  {
    if fs != [] {
      var head, more := WriteField(fs[0]).value, WriteFields(fs[1..]).value;
      CatOkThen(WriteField(fs[0]), WriteFields(fs[1..]), tail);
      ReadFieldOfWrite(fs[0], more + tail);
      ReadFieldsOfWrite(fs[1..], tail);
      assert Slots(fs)[0] == SlotOf(fs[0]);
      assert Slots(fs)[1..] == Slots(fs[1..]);
      assert [fs[0]] + fs[1..] == fs;
    } else {
      assert WriteFields(fs).value + tail == tail;
    }
  }

  // ---- header ----

  function ColumnBytes(c: ColumnDef): Result<Bytes, IoError> {
    WriteFields(Fields(c))
  }

  /** Every value of `xs` written one after another by `write`; the first failure wins. */
  function WriteMany<T>(write: T -> Result<Bytes, IoError>, xs: seq<T>): Result<Bytes, IoError> {
    if xs == [] then Ok([]) else Cat(write(xs[0]), WriteMany(write, xs[1..]))
  }

  function ColumnsBytes(cols: seq<ColumnDef>): Result<Bytes, IoError> {
    WriteMany(ColumnBytes, cols)
  }

  /** `writeMetadata`: the count, then every descriptor; fails when a name overflows `writeUTF`. */
  function HeaderBytes(cols: seq<ColumnDef>): Result<Bytes, IoError>
    requires |cols| < 0x8000_0000
  {
    Cat(Ok(WriteInt(|cols|)), ColumnsBytes(cols))
  }

  /** One `ColumnDef(input)` construction. */
  function ReadColumnDef(s: Bytes): Result<Parsed<ColumnDef>, IoError> {
    var p :- ReadFields(Layout, s);
    Ok(Parsed(ColumnOf(p.value), p.rest))
  }

  /** `n` values read one after another by `read`. */
  function ReadMany<T>(read: Bytes -> Result<Parsed<T>, IoError>, s: Bytes, n: nat): (r: Result<Parsed<seq<T>>, IoError>)
    ensures r.Ok? ==> |r.value.value| == n
    decreases n
  {
    if n == 0 then Ok(Parsed([], s))
    else
      var d :- read(s);
      var ds :- ReadMany(read, d.rest, n - 1);
      Ok(Parsed([d.value] + ds.value, ds.rest))
  }

  function ReadColumnDefs(s: Bytes, n: nat): (r: Result<Parsed<seq<ColumnDef>>, IoError>) {
    ReadMany(ReadColumnDef, s, n)
  }

  /** What reading a header can raise: a stream error, or a negative count (`NegativeArraySizeException`). */
  datatype HeaderError = HeaderIo(io: IoError) | NegativeCount

  /** The header `readColumns` decodes: an int count, then that many descriptors. */
  function DecodeHeader(s: Bytes): (r: Result<Parsed<seq<ColumnDef>>, HeaderError>)
    ensures r.Ok? ==> |r.value.value| < 0x8000_0000
  {
    match ReadInt(s)
    case Err(e) => Err(HeaderIo(e))
    case Ok(Parsed(n, rest)) =>
      if n < 0 then Err(NegativeCount)
      else match ReadColumnDefs(rest, n)
        case Err(e) => Err(HeaderIo(e))
        case Ok(p) => Ok(p)
  }

  lemma ReadColumnDefOfWrite(c: ColumnDef, tail: Bytes)
    requires ColumnBytes(c).Ok?
    ensures ReadColumnDef(ColumnBytes(c).value + tail) == Ok(Parsed(c, tail))
  {
    LayoutOfFields(c);
    ReadFieldsOfWrite(Fields(c), tail);
  }

  lemma {:induction false} ReadManyOfWriteMany<T>(read: Bytes -> Result<Parsed<T>, IoError>,
                                                write: T -> Result<Bytes, IoError>, xs: seq<T>, tail: Bytes)
    requires WriteMany(write, xs).Ok?
    requires forall x, rest: Bytes :: x in xs && write(x).Ok? ==> read(write(x).value + rest) == Ok(Parsed(x, rest))
    ensures ReadMany(read, WriteMany(write, xs).value + tail, |xs|) == Ok(Parsed(xs, tail))
  {
    if xs != [] {
      var head, more := write(xs[0]).value, WriteMany(write, xs[1..]).value;
      assert WriteMany(write, xs).value + tail == head + (more + tail);
      assert read(head + (more + tail)) == Ok(Parsed(xs[0], more + tail));
      ReadManyOfWriteMany(read, write, xs[1..], tail);
      assert [xs[0]] + xs[1..] == xs;
    } else {
      assert WriteMany(write, xs).value + tail == tail;
    }
  }

  lemma ReadColumnDefsOfWrite(cols: seq<ColumnDef>, tail: Bytes)
    requires ColumnsBytes(cols).Ok?
    ensures ReadColumnDefs(ColumnsBytes(cols).value + tail, |cols|) == Ok(Parsed(cols, tail))
  {
    forall c, rest: Bytes | c in cols && ColumnBytes(c).Ok?
      ensures ReadColumnDef(ColumnBytes(c).value + rest) == Ok(Parsed(c, rest))
    {
      ReadColumnDefOfWrite(c, rest);
    }
    ReadManyOfWriteMany(ReadColumnDef, ColumnBytes, cols, tail);
  }

  /** `readColumns` after `writeMetadata` gives back every descriptor, field for field. */
  lemma HeaderRoundTrip(cols: seq<ColumnDef>, tail: Bytes)
    requires |cols| < 0x8000_0000
    requires HeaderBytes(cols).Ok?
    ensures DecodeHeader(HeaderBytes(cols).value + tail) == Ok(Parsed(cols, tail))
  {
    var body := ColumnsBytes(cols).value;
    assert HeaderBytes(cols).value + tail == WriteInt(|cols|) + (body + tail);
    ReadIntOfWrite(|cols|, body + tail);
    ReadColumnDefsOfWrite(cols, tail);
  }

  // ---- cells ----

  /** What writing a frame can raise: a stream error, or the backend getter's own SQLException. */
  datatype WriteError = CellIo(io: IoError) | Getter(sqlType: int)

  function Stream(r: Result<Bytes, IoError>): Result<Bytes, WriteError> {
    match r case Err(e) => Err(CellIo(e)) case Ok(b) => Ok(b)
  }

  /**
   * The text `writeClob` stores: the empty string for an empty clob, else
   * `getSubString(1, (int) length())`, the first `(int) length()` characters
   * under the JDBC contract; a length whose int cast is negative makes the
   * backend refuse.
   */
  function ClobWritten(content: JString): Option<JString> {
    if |content| == 0 then Some([])
    else if Wrap32(|content|) < 0 then None
    else Some(content[..Wrap32(|content|)])
  }

  /** The payload of a non-null cell for the writer `k` the column's type selects. */
  function Payload(k: WriterKind, t: int, v: Cell): Result<Bytes, WriteError> {
    match k
    case WBoolean => if v.Bool? then Ok(WriteBoolean(v.b)) else Err(Getter(t))
    case WByte => if v.Byte? then Ok(WriteByte(v.i8)) else Err(Getter(t))
    case WShort => if v.Short? then Ok(WriteShort(v.i16)) else Err(Getter(t))
    case WInteger => if v.Int? then Ok(WriteInt(v.i32)) else Err(Getter(t))
    case WLong => if v.Long? then Ok(WriteLong(v.i64)) else Err(Getter(t))
    case WFloat => if v.Float? then Ok(WriteFloat(v.fbits)) else Err(Getter(t))
    case WDouble => if v.Double? then Ok(WriteDouble(v.dbits)) else Err(Getter(t))
    case WBigDecimal => if v.Decimal? then Ok(WriteDouble(v.decimalBits)) else Err(Getter(t))
    case WString => if v.Str? then Stream(WriteUtf(v.str)) else Err(Getter(t))
    case WDate => if v.Date? then Ok(WriteLong(v.dateMillis)) else Err(Getter(t))
    case WTime => if v.Time? then Ok(WriteLong(v.timeMillis)) else Err(Getter(t))
    case WTimestamp => if v.Timestamp? then Ok(WriteLong(v.stampMillis)) else Err(Getter(t))
    case WRowId => if v.RowId? then Stream(WriteUtf(v.rowIdText)) else Err(Getter(t))
    case WClob =>
      if v.Clob? then
        match ClobWritten(v.clobContent)
        case None => Err(Getter(t))
        case Some(text) => Stream(WriteUtf(text))
      else Err(Getter(t))
    case WNull => Ok([])
    case WNothing => Ok([])
  }

  /** The bytes the writer's switch emits for one cell of a column of type `t`. */
  function CellBytes(t: int, v: Cell): Result<Bytes, WriteError> {
    match Writer(t)
    case WNothing => Ok([])
    case WNull => Ok(WriteBoolean(false))
    case k =>
      if v.Null? then Ok(WriteBoolean(false))
      else Cat(Ok(WriteBoolean(true)), Payload(k, t, v))
  }

  /** What the reader gives back for a non-null live value the writer accepted. */
  function ReplayedValue(v: Cell): Cell {
    match v
    case Float(b) => Float(CanonicalFloat(b))
    case Double(b) => Double(CanonicalDouble(b))
    case Decimal(b) => Double(CanonicalDouble(b))
    case RowId(text) => Str(text)
    case Clob(content) => if ClobWritten(content).Some? then Str(ClobWritten(content).value) else Null
    case _ => v
  }

  /** What `readRow` gives back for a cell written from live value `v` under type `t`. */
  function Replayed(t: int, v: Cell): Cell {
    if Writer(t) == WNull || Writer(t) == WNothing then Null else ReplayedValue(v)
  }

  /** What `readRow` can raise: a stream error, or "Column type no supported". */
  datatype RowError = RowIo(io: IoError) | TypeNotSupported(sqlType: int)

  function Lift<T>(r: Result<Parsed<T>, IoError>): Result<Parsed<T>, RowError> {
    match r case Err(e) => Err(RowIo(e)) case Ok(p) => Ok(p)
  }

  function Wrap<T>(r: Result<Parsed<T>, IoError>, make: T -> Cell): Result<Parsed<Cell>, RowError> {
    match r case Err(e) => Err(RowIo(e)) case Ok(Parsed(x, rest)) => Ok(Parsed(make(x), rest))
  }

  /** The payload `readRow` reads for a set flag, by the reader the declared type `t` selects. */
  function ReadPayload(k: ReaderKind, t: int, rest: Bytes): (r: Result<Parsed<Cell>, RowError>)
    ensures r.Ok? ==> IsReplayCell(r.value.value) && !r.value.value.Null?
    ensures k == RRefuse <==> r == Err(TypeNotSupported(t))
  {
    match k
    case RBoolean => Wrap(ReadBoolean(rest), (x: bool) => Bool(x))
    case RByte => Wrap(ReadByte(rest), (x: Int8) => Byte(x))
    case RShort => Wrap(ReadShort(rest), (x: Int16) => Short(x))
    case RInt => Wrap(ReadInt(rest), (x: Int32) => Int(x))
    case RLong => Wrap(ReadLong(rest), (x: Int64) => Long(x))
    case RFloat => Wrap(ReadFloat(rest), (x: Bits32) => Float(x))
    case RDouble => Wrap(ReadDouble(rest), (x: Bits64) => Double(x))
    case RUtf => Wrap(ReadUtf(rest), (x: JString) => Str(x))
    case RDate => Wrap(ReadLong(rest), (x: Int64) => Date(x))
    case RTime => Wrap(ReadLong(rest), (x: Int64) => Time(x))
    case RTimestamp => Wrap(ReadLong(rest), (x: Int64) => Timestamp(x))
    case RRefuse => Err(TypeNotSupported(t))
  }

  /** `readRow`: the presence flag first, then a payload chosen by the declared type. */
  function ReadRow(t: int, s: Bytes): (r: Result<Parsed<Cell>, RowError>)
    ensures r.Ok? ==> IsReplayCell(r.value.value)
  {
    var flag :- Lift(ReadBoolean(s));
    if !flag.value then Ok(Parsed(Null, flag.rest))
    else ReadPayload(Reader(t), t, flag.rest)
  }

  /** A null cell, or any cell of a nulled type, is the single byte `false`; an unknown type writes nothing. */
  lemma NullCellsWriteOnlyTheFlag(t: int, v: Cell)
    ensures Writer(t) == WNothing ==> CellBytes(t, v) == Ok([])
    ensures Writer(t) == WNull ==> CellBytes(t, v) == Ok([0])
    ensures Writer(t) != WNothing && v.Null? ==> CellBytes(t, v) == Ok([0])
    ensures Writer(t) != WNothing && Writer(t) != WNull && !v.Null? && CellBytes(t, v).Ok? ==>
      |CellBytes(t, v).value| > 1 && CellBytes(t, v).value[0] == 1
  {
    if Writer(t) != WNothing && Writer(t) != WNull && !v.Null? && CellBytes(t, v).Ok? {
      var k := Writer(t);
      match k
      case WBoolean =>
      case WByte =>
      case WShort =>
      case WInteger =>
      case WLong =>
      case WFloat =>
      case WDouble =>
      case WBigDecimal =>
      case WString =>
      case WDate =>
      case WTime =>
      case WTimestamp =>
      case WRowId =>
      case WClob =>
    }
  }

  /** With the flag clear, `readRow` returns null before looking at the type. */
  lemma ReadRowNullFlag(t: int, tail: Bytes)
    ensures ReadRow(t, [0] + tail) == Ok(Parsed(Null, tail))
  {
    assert ([0] + tail)[1..] == tail;
  }

  /** With the flag set, a nulled or unknown type is refused with "Column type no supported". */
  lemma ReadRowRefuses(t: int, tail: Bytes)
    requires Writer(t) == WNull || Writer(t) == WNothing
    ensures ReadRow(t, [1] + tail) == Err(TypeNotSupported(t))
  {
    DispatchTablesAgree(t);
  }

  /** The fixed-width payloads: booleans, integers, floating point, decimals and instants. */
  lemma ReadScalarPayloadOfWrite(k: WriterKind, t: int, v: Cell, tail: Bytes)
    requires k !in {WNothing, WNull, WString, WRowId, WClob} && !v.Null?
    requires Payload(k, t, v).Ok?
    ensures ReadPayload(ReaderFor(k), t, Payload(k, t, v).value + tail) == Ok(Parsed(ReplayedValue(v), tail))
  {
    match k
    case WBoolean => ReadBooleanOfWrite(v.b, tail);
    case WByte => ReadByteOfWrite(v.i8, tail);
    case WShort => ReadShortOfWrite(v.i16, tail);
    case WInteger => ReadIntOfWrite(v.i32, tail);
    case WLong => ReadLongOfWrite(v.i64, tail);
    case WFloat => ReadFloatOfWrite(v.fbits, tail);
    case WDouble => ReadDoubleOfWrite(v.dbits, tail);
    case WBigDecimal => ReadDoubleOfWrite(v.decimalBits, tail);
    case WDate => ReadLongOfWrite(v.dateMillis, tail);
    case WTime => ReadLongOfWrite(v.timeMillis, tail);
    case WTimestamp => ReadLongOfWrite(v.stampMillis, tail);
  }

  /** The payloads written with `writeUTF`: strings, row ids and clob contents. */
  lemma ReadTextPayloadOfWrite(k: WriterKind, t: int, v: Cell, tail: Bytes)
    requires k in {WString, WRowId, WClob} && !v.Null?
    requires Payload(k, t, v).Ok?
    ensures ReadPayload(ReaderFor(k), t, Payload(k, t, v).value + tail) == Ok(Parsed(ReplayedValue(v), tail))
  {
    match k
    case WString => ReadUtfOfWrite(v.str, tail);
    case WRowId => ReadUtfOfWrite(v.rowIdText, tail);
    case WClob => ReadUtfOfWrite(ClobWritten(v.clobContent).value, tail);
  }

  /** Each writer helper's payload is read back by its paired reader, to the replayed value. */
  lemma ReadPayloadOfWrite(k: WriterKind, t: int, v: Cell, tail: Bytes)
    requires k != WNothing && k != WNull && !v.Null?
    requires Payload(k, t, v).Ok?
    ensures ReadPayload(ReaderFor(k), t, Payload(k, t, v).value + tail) == Ok(Parsed(ReplayedValue(v), tail))
  {
    if k in {WString, WRowId, WClob} {
      ReadTextPayloadOfWrite(k, t, v, tail);
    } else {
      ReadScalarPayloadOfWrite(k, t, v, tail);
    }
  }

  /**
   * Cell round trip: for every type with a case label, `readRow` after the
   * writer's bytes yields the replayed value and consumes exactly those bytes.
   */
  lemma ReadRowOfWrite(t: int, v: Cell, tail: Bytes)
    requires IsKnownType(t)
    requires CellBytes(t, v).Ok?
    ensures ReadRow(t, CellBytes(t, v).value + tail) == Ok(Parsed(Replayed(t, v), tail))
  {
    if Writer(t) == WNull || v.Null? {
      NullCellsWriteOnlyTheFlag(t, v);
      ReadRowNullFlag(t, tail);
    } else {
      ReadRowOfLiveWrite(t, v, tail);
    }
  }

  /** The non-null case: the flag, then the payload read back by the matching reader. */
  lemma ReadRowOfLiveWrite(t: int, v: Cell, tail: Bytes)
    requires Writer(t) != WNothing && Writer(t) != WNull && !v.Null?
    requires CellBytes(t, v).Ok?
    ensures ReadRow(t, CellBytes(t, v).value + tail) == Ok(Parsed(ReplayedValue(v), tail))
  {
    var k := Writer(t);
    LiveCellBytes(t, v);
    var p := Payload(k, t, v).value;
    assert CellBytes(t, v).value + tail == [1] + (p + tail);
    ReadRowFlagSet(t, p + tail);
    DispatchTablesAgree(t);
    ReadPayloadOfWrite(k, t, v, tail);
  }

  /** A live value of a written type is the flag `true` followed by its payload. */
  lemma LiveCellBytes(t: int, v: Cell)
    requires Writer(t) != WNothing && Writer(t) != WNull && !v.Null?
    requires CellBytes(t, v).Ok?
    ensures Payload(Writer(t), t, v).Ok?
    ensures CellBytes(t, v).value == [1] + Payload(Writer(t), t, v).value
  {
  }

  /** With the flag set, `readRow` reads the payload that follows it. */
  lemma ReadRowFlagSet(t: int, rest: Bytes)
    ensures ReadRow(t, [1] + rest) == ReadPayload(Reader(t), t, rest)
  {
    assert ([1] + rest)[1..] == rest;
  }

  // ---- rows ----

  /** The cells of one row, column by column. */
  function CellsBytes(types: seq<Int32>, row: seq<Cell>): Result<Bytes, WriteError>
    requires |row| == |types|
  {
    if types == [] then Ok([]) else Cat(CellBytes(types[0], row[0]), CellsBytes(types[1..], row[1..]))
  }

  predicate Rectangular(types: seq<Int32>, rows: seq<seq<Cell>>) {
    forall k | 0 <= k < |rows| :: |rows[k]| == |types|
  }

  /** The row frames after `pos` rows were written: `writeInt(++pos)`, then the cells. */
  function RowsBytes(types: seq<Int32>, rows: seq<seq<Cell>>, pos: Int32): Result<Bytes, WriteError>
    requires Rectangular(types, rows)
  {
    if rows == [] then Ok([])
    else
      var next := Wrap32(pos + 1);
      Cat(Cat(Ok(WriteInt(next)), CellsBytes(types, rows[0])), RowsBytes(types, rows[1..], next))
  }

  function TypesOf(cols: seq<ColumnDef>): (r: seq<Int32>)
    ensures |r| == |cols| && forall i | 0 <= i < |cols| :: r[i] == cols[i].sqlType
  {
    seq(|cols|, i requires 0 <= i < |cols| => cols[i].sqlType)
  }

  /** A live result set: its descriptors and its rows, each with one cell per column. */
  datatype Table = Table(columns: seq<ColumnDef>, rows: seq<seq<Cell>>)

  predicate WellFormed(t: Table) {
    |t.columns| < 0x8000_0000 && Rectangular(TypesOf(t.columns), t.rows)
  }

  /** The whole cache stream of a table, or the error that aborts writing it. */
  function Encode(t: Table): Result<Bytes, WriteError>
    requires WellFormed(t)
  {
    Cat(Stream(HeaderBytes(t.columns)), RowsBytes(TypesOf(t.columns), t.rows, 0))
  }

  // ---- the writer and reader loops ----

  /** `writeMetadata`: `writeInt(count)`, then the twenty writes of each column in turn. */
  method WriteMetadata(cols: seq<ColumnDef>) returns (r: Result<Bytes, IoError>)
    requires |cols| < 0x8000_0000
    ensures r == HeaderBytes(cols)
  {
    var out := WriteInt(|cols|);
    var i := 0;
    assert cols[0..] == cols;
    while i < |cols|
      invariant 0 <= i <= |cols|
      invariant HeaderBytes(cols) == Cat(Ok(out), ColumnsBytes(cols[i..]))
    {
      var c := ColumnBytes(cols[i]);
      assert cols[i..][1..] == cols[i + 1..];
      if c.Err? {
        return Err(c.error);
      }
      CatAssoc(out, c.value, ColumnsBytes(cols[i + 1..]));
      out := out + c.value;
      i := i + 1;
    }
    assert cols[i..] == [] && out + [] == out;
    return Ok(out);
  }

  /** The inner `for (int type : types)` of `writeResultSet`: one `writeX` per column. */
  method WriteCells(types: seq<Int32>, row: seq<Cell>) returns (r: Result<Bytes, WriteError>)
    requires |row| == |types|
    ensures r == CellsBytes(types, row)
  {
    var out: Bytes := [];
    var i := 0;
    assert types[0..] == types && row[0..] == row;
    CatUnit(CellsBytes(types, row));
    while i < |types|
      invariant 0 <= i <= |types|
      invariant CellsBytes(types, row) == Cat(Ok(out), CellsBytes(types[i..], row[i..]))
    {
      var c := CellBytes(types[i], row[i]);
      assert types[i..][1..] == types[i + 1..] && row[i..][1..] == row[i + 1..];
      if c.Err? {
        return Err(c.error);
      }
      CatAssoc(out, c.value, CellsBytes(types[i + 1..], row[i + 1..]));
      out := out + c.value;
      i := i + 1;
    }
    assert types[i..] == [] && out + [] == out;
    return Ok(out);
  }

  /** `writeResultSet`: while the result set has a row, `writeInt(++pos)` and its cells. */
  method WriteResultSet(types: seq<Int32>, rows: seq<seq<Cell>>) returns (r: Result<Bytes, WriteError>)
    requires Rectangular(types, rows)
    ensures r == RowsBytes(types, rows, 0)
  {
    var out: Bytes := [];
    var pos: Int32 := 0;
    var k := 0;
    assert rows[0..] == rows;
    CatUnit(RowsBytes(types, rows, 0));
    while k < |rows|
      invariant 0 <= k <= |rows|
      invariant RowsBytes(types, rows, 0) == Cat(Ok(out), RowsBytes(types, rows[k..], pos))
    {
      pos := Wrap32(pos + 1);
      var cells := WriteCells(types, rows[k]);
      assert rows[k..][1..] == rows[k + 1..];
      if cells.Err? {
        return Err(cells.error);
      }
      var frame := WriteInt(pos) + cells.value;
      CatAssoc(out, frame, RowsBytes(types, rows[k + 1..], pos));
      out := out + frame;
      k := k + 1;
    }
    assert rows[k..] == [] && out + [] == out;
    return Ok(out);
  }

  /** `write(resultSet)`: `writeMetadata`, then `writeResultSet`, into one stream. */
  method Write(t: Table) returns (r: Result<Bytes, WriteError>)
    requires WellFormed(t)
    ensures r == Encode(t)
  {
    var header := WriteMetadata(t.columns);
    if header.Err? {
      return Err(CellIo(header.error));
    }
    var rows := WriteResultSet(TypesOf(t.columns), t.rows);
    if rows.Err? {
      return Err(rows.error);
    }
    return Ok(header.value + rows.value);
  }

  function Prepend<T>(acc: seq<T>, r: Result<Parsed<seq<T>>, IoError>): Result<Parsed<seq<T>>, IoError> {
    match r case Err(e) => Err(e) case Ok(Parsed(ds, rest)) => Ok(Parsed(acc + ds, rest))
  }

  lemma PrependNothing<T>(r: Result<Parsed<seq<T>>, IoError>)
    ensures Prepend([], r) == r
  {
    match r
    case Err(_) =>
    case Ok(Parsed(ds, _)) => assert [] + ds == ds;
  }

  lemma PrependStep<T>(read: Bytes -> Result<Parsed<T>, IoError>, acc: seq<T>, s: Bytes, m: nat)
    requires m > 0 && read(s).Ok?
    ensures Prepend(acc, ReadMany(read, s, m)) ==
      Prepend(acc + [read(s).value.value], ReadMany(read, read(s).value.rest, m - 1))
  {
    var d := read(s).value;
    match ReadMany(read, d.rest, m - 1)
    case Err(_) =>
    case Ok(Parsed(ds, rest)) => assert acc + ([d.value] + ds) == (acc + [d.value]) + ds;
  }

  /** `readColumns`: `readInt()`, then one `ColumnDef(input)` per column into the array. */
  method ReadColumns(s: Bytes) returns (r: Result<Parsed<seq<ColumnDef>>, HeaderError>)
    ensures r == DecodeHeader(s)
  {
    var count := ReadInt(s);
    if count.Err? {
      return Err(HeaderIo(count.error));
    }
    var n := count.value.value;
    if n < 0 {
      return Err(NegativeCount);
    }
    var defs := ReadManyLoop(ReadColumnDef, count.value.rest, n);
    if defs.Err? {
      return Err(HeaderIo(defs.error));
    }
    return Ok(defs.value);
  }

  /** The array initialiser of `readColumns`: `n` values, read one after another. */
  method ReadManyLoop<T>(read: Bytes -> Result<Parsed<T>, IoError>, start: Bytes, n: nat)
    returns (r: Result<Parsed<seq<T>>, IoError>)
    ensures r == ReadMany(read, start, n)
  {
    var got: seq<T> := [];
    var input := start;
    var i := 0;
    PrependNothing(ReadMany(read, start, n));
    while i < n
      invariant 0 <= i <= n && |got| == i
      invariant ReadMany(read, start, n) == Prepend(got, ReadMany(read, input, n - i))
    {
      var d := read(input);
      if d.Err? {
        return Err(d.error);
      }
      PrependStep(read, got, input, n - i);
      got, input, i := got + [d.value.value], d.value.rest, i + 1;
    }
    assert got + [] == got;
    return Ok(Parsed(got, input));
  }
}
