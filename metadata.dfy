/**
 * `CachedResultSetMetaData`: a read-only view of the column descriptors a
 * cursor decoded. Every accessor goes through the same bounds check and
 * then projects one field of the 1-based column's descriptor.
 */
module ResultSetMetadata {
  import opened Wrappers
  import opened JavaText
  import opened DataIo
  import opened ResultSetCodec
  import opened Jdbc

  /** The twenty accessors, one per descriptor field. */
  datatype Property =
    | AutoIncrement | CaseSensitive | Searchable | Currency | Nullable | Signed
    | DisplaySize | Label | Name | SchemaName | Precision | Scale | TableName
    | CatalogName | ColumnType | ColumnTypeName | ReadOnly | Writable
    | DefinitelyWritable | ClassName

  /** `getColumnCount()`: the number of decoded descriptors. */
  function ColumnCount(cols: seq<ColumnDef>): nat {
    |cols|
  }

  /**
   * `getColumns(column)`: column 0 or a column past the end is refused with
   * "Wrong column number"; a negative column passes the check and fails on
   * the array index.
   */
  function Descriptor(cols: seq<ColumnDef>, column: Int32): (r: Result<ColumnDef, SqlError>)
    ensures r.Ok? <==> 1 <= column <= |cols|
    ensures r.Ok? ==> r.value == cols[column - 1]
    ensures r == Err(WrongColumnNumber(column)) <==> (column == 0 || column > |cols|)
    ensures r == Err(IndexOutOfBounds) <==> column < 0
  {
    if column == 0 || column > |cols| then Err(WrongColumnNumber(column))
    else if column < 0 then Err(IndexOutOfBounds)
    else Ok(cols[column - 1])
  }

  /** The field an accessor returns, as the descriptor holds it. */
  function FieldOf(c: ColumnDef, p: Property): Field {
    match p
    case AutoIncrement => FlagField(c.isAutoIncrement)
    case CaseSensitive => FlagField(c.isCaseSensitive)
    case Searchable => FlagField(c.isSearchable)
    case Currency => FlagField(c.isCurrency)
    case Nullable => IntField(c.isNullable)
    case Signed => FlagField(c.isSigned)
    case DisplaySize => IntField(c.displaySize)
    case Label => TextField(c.columnLabel)
    case Name => TextField(c.columnName)
    case SchemaName => TextField(c.schemaName)
    case Precision => IntField(c.precision)
    case Scale => IntField(c.scale)
    case TableName => TextField(c.tableName)
    case CatalogName => TextField(c.catalog)
    case ColumnType => IntField(c.sqlType)
    case ColumnTypeName => TextField(c.typeName)
    case ReadOnly => FlagField(c.isReadOnly)
    case Writable => FlagField(c.isWritable)
    case DefinitelyWritable => FlagField(c.isDefinitelyWritable)
    case ClassName => TextField(c.className)
  }

  /** Any accessor: the bounds check, then the field of `columns[column - 1]`. */
  function Get(cols: seq<ColumnDef>, column: Int32, p: Property): (r: Result<Field, SqlError>)
    ensures r.Ok? <==> 1 <= column <= |cols|
    ensures r.Ok? ==> r.value == FieldOf(cols[column - 1], p)
    ensures r.Err? ==> r.error == Descriptor(cols, column).error
  {
    var c :- Descriptor(cols, column);
    Ok(FieldOf(c, p))
  }

  /** `unwrap` and `isWrapperFor`: never supported, whatever the interface asked for. */
  function Unwrap(iface: JString): (r: Result<bool, SqlError>)
    ensures r.Err? && r.error.FeatureNotSupported?
  {
    Err(FeatureNotSupported)
  }

  /** Where the header stores the field an accessor returns. */
  function HeaderIndex(p: Property): (i: nat)
    ensures i < |Layout|
  {
    match p
    case CatalogName => 0
    case ClassName => 1
    case Label => 2
    case Name => 3
    case ColumnTypeName => 4
    case ColumnType => 5
    case DisplaySize => 6
    case Precision => 7
    case TableName => 8
    case Scale => 9
    case SchemaName => 10
    case AutoIncrement => 11
    case CaseSensitive => 12
    case Currency => 13
    case DefinitelyWritable => 14
    case Nullable => 15
    case ReadOnly => 16
    case Searchable => 17
    case Signed => 18
    case Writable => 19
  }

  /**
   * Each accessor serves exactly the header field stored at its position,
   * and distinct accessors serve distinct fields, so the twenty accessors
   * are a one-to-one view of the twenty stored fields.
   */
  lemma AccessorsProjectHeaderFields(c: ColumnDef, p: Property, q: Property)
    ensures FieldOf(c, p) == Fields(c)[HeaderIndex(p)]
    ensures HeaderIndex(p) == HeaderIndex(q) ==> p == q
  {
    FieldAtHeaderIndex(c, p);
    HeaderOrderInverts(p);
    HeaderOrderInverts(q);
  }

  /** The accessors in the order the header stores their fields. */
  const HeaderOrder: seq<Property> :=
    [CatalogName, ClassName, Label, Name, ColumnTypeName, ColumnType, DisplaySize, Precision,
     TableName, Scale, SchemaName, AutoIncrement, CaseSensitive, Currency, DefinitelyWritable,
     Nullable, ReadOnly, Searchable, Signed, Writable]

  lemma HeaderOrderInverts(p: Property)
    ensures |HeaderOrder| == |Layout| && HeaderOrder[HeaderIndex(p)] == p
  {
  }

  lemma FieldAtHeaderIndex(c: ColumnDef, p: Property)
    ensures FieldOf(c, p) == Fields(c)[HeaderIndex(p)]
  {
    if HeaderIndex(p) < 10 {
      FieldAtLowIndex(c, p);
    } else {
      FieldAtHighIndex(c, p);
    }
  }

  lemma FieldAtLowIndex(c: ColumnDef, p: Property)
    requires HeaderIndex(p) < 10
    ensures FieldOf(c, p) == Fields(c)[..10][HeaderIndex(p)]
  {
  }

  lemma FieldAtHighIndex(c: ColumnDef, p: Property)
    requires HeaderIndex(p) >= 10
    ensures FieldOf(c, p) == Fields(c)[10..][HeaderIndex(p) - 10]
  {
  }

  /** Every stored field is served by some accessor. */
  lemma EveryHeaderFieldHasAnAccessor(i: nat)
    requires i < |Layout|
    ensures exists p :: HeaderIndex(p) == i
  {
    assert HeaderIndex(HeaderOrder[i]) == i;
  }

  /**
   * The metadata of a replayed stream is the metadata of the backend's own
   * columns: for every column number and every accessor, the view over the
   * decoded header answers what the view over the written descriptors does.
   */
  lemma MetadataSurvivesTheCache(cols: seq<ColumnDef>, tail: Bytes, column: Int32, p: Property)
    requires |cols| < 0x8000_0000 && HeaderBytes(cols).Ok?
    ensures DecodeHeader(HeaderBytes(cols).value + tail).Ok?
    ensures var decoded := DecodeHeader(HeaderBytes(cols).value + tail).value.value;
      ColumnCount(decoded) == |cols| && Get(decoded, column, p) == Get(cols, column, p)
  {
    HeaderRoundTrip(cols, tail);
  }
}
