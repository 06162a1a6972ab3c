/**
 * The `java.sql.Types` codes the cache format dispatches on, and the two
 * dispatch tables of `ResultSetWriter`: the `switch` (`when`) of the writer and
 * the one of `readRow`.
 */
module SqlTypes {
  const BIT: int := -7
  const TINYINT: int := -6
  const SMALLINT: int := 5
  const INTEGER: int := 4
  const BIGINT: int := -5
  const FLOAT: int := 6
  const REAL: int := 7
  const DOUBLE: int := 8
  const NUMERIC: int := 2
  const DECIMAL: int := 3
  const CHAR: int := 1
  const VARCHAR: int := 12
  const LONGVARCHAR: int := -1
  const DATE: int := 91
  const TIME: int := 92
  const TIMESTAMP: int := 93
  const BINARY: int := -2
  const VARBINARY: int := -3
  const LONGVARBINARY: int := -4
  const NULL: int := 0
  const OTHER: int := 1111
  const JAVA_OBJECT: int := 2000
  const DISTINCT: int := 2001
  const STRUCT: int := 2002
  const ARRAY: int := 2003
  const BLOB: int := 2004
  const CLOB: int := 2005
  const REF: int := 2006
  const DATALINK: int := 70
  const BOOLEAN: int := 16
  const ROWID: int := -8
  const NCHAR: int := -15
  const NVARCHAR: int := -9
  const LONGNVARCHAR: int := -16
  const NCLOB: int := 2011
  const SQLXML: int := 2009
  const REF_CURSOR: int := 2012
  const TIME_WITH_TIMEZONE: int := 2013
  const TIMESTAMP_WITH_TIMEZONE: int := 2014

  /** Which `writeX` helper the writer's `switch` calls for a column. */
  datatype WriterKind =
    | WBoolean | WByte | WShort | WInteger | WLong | WFloat | WDouble | WBigDecimal
    | WString | WDate | WTime | WTimestamp | WRowId | WClob
    | WNull     // the case labels that call `writeNull`
    | WNothing  // no case label matches: the switch has no default

  predicate IsStringType(t: int) {
    t == CHAR || t == VARCHAR || t == LONGVARCHAR || t == NCHAR || t == NVARCHAR || t == LONGNVARCHAR
  }

  /** BINARY … REF_CURSOR: labelled in both switches, but never stored. */
  predicate IsUnsupportedType(t: int) {
    t == BINARY || t == VARBINARY || t == LONGVARBINARY || t == NULL || t == OTHER || t == JAVA_OBJECT
    || t == DISTINCT || t == STRUCT || t == ARRAY || t == BLOB || t == REF || t == DATALINK
    || t == NCLOB || t == SQLXML || t == REF_CURSOR
  }

  function Writer(t: int): WriterKind {
    if t == BIT || t == BOOLEAN then WBoolean
    else if t == TINYINT then WByte
    else if t == SMALLINT then WShort
    else if t == INTEGER then WInteger
    else if t == BIGINT then WLong
    else if t == FLOAT || t == REAL then WFloat
    else if t == DOUBLE then WDouble
    else if t == NUMERIC || t == DECIMAL then WBigDecimal
    else if IsStringType(t) then WString
    else if t == DATE then WDate
    else if t == TIME || t == TIME_WITH_TIMEZONE then WTime
    else if t == TIMESTAMP || t == TIMESTAMP_WITH_TIMEZONE then WTimestamp
    else if t == ROWID then WRowId
    else if t == CLOB then WClob
    else if IsUnsupportedType(t) then WNull
    else WNothing
  }

  /** What `readRow` reads once the presence flag is set. */
  datatype ReaderKind =
    | RBoolean | RByte | RShort | RInt | RLong | RFloat | RDouble | RUtf | RDate | RTime | RTimestamp
    | RRefuse   // the unsupported labels and the default: "Column type no supported"

  function Reader(t: int): ReaderKind {
    if t == BIT || t == BOOLEAN then RBoolean
    else if t == TINYINT then RByte
    else if t == SMALLINT then RShort
    else if t == INTEGER then RInt
    else if t == BIGINT then RLong
    else if t == FLOAT || t == REAL then RFloat
    else if t == DOUBLE || t == NUMERIC || t == DECIMAL then RDouble
    else if IsStringType(t) || t == ROWID || t == CLOB then RUtf
    else if t == DATE then RDate
    else if t == TIME || t == TIME_WITH_TIMEZONE then RTime
    else if t == TIMESTAMP || t == TIMESTAMP_WITH_TIMEZONE then RTimestamp
    else RRefuse
  }

  /** The reader `readRow` pairs with each writer helper. */
  function ReaderFor(k: WriterKind): ReaderKind {
    match k
    case WBoolean => RBoolean
    case WByte => RByte
    case WShort => RShort
    case WInteger => RInt
    case WLong => RLong
    case WFloat => RFloat
    case WDouble | WBigDecimal => RDouble
    case WString | WRowId | WClob => RUtf
    case WDate => RDate
    case WTime => RTime
    case WTimestamp => RTimestamp
    case WNull | WNothing => RRefuse
  }

  /** A type code with a case label in the writer's switch. */
  predicate IsKnownType(t: int) {
    Writer(t) != WNothing
  }

  /**
   * The two switches agree: a code has a label in the writer iff it is
   * stored or nulled, and `readRow` refuses exactly the codes the writer
   * nulls or does not know.
   */
  lemma DispatchTablesAgree(t: int)
    ensures Reader(t) == ReaderFor(Writer(t))
    ensures Reader(t) == RRefuse <==> (Writer(t) == WNull || Writer(t) == WNothing)
    ensures Writer(t) == WNull <==> IsUnsupportedType(t)
    ensures Writer(t) == WNothing <==> !(IsUnsupportedType(t) || Reader(t) != RRefuse)
  {
  }
}
