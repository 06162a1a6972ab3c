/**
 * The exceptions the cache raises, one constructor per distinct message or
 * exception class a caller can observe.
 */
module Jdbc {
  import opened JavaText

  datatype SqlError =
    // ResultSetWriter.write
    | WriteFailed                       // "Error while writing the ResultSet cache"
    | BackendFailure                    // an SQLException raised by the backend result set or statement
    // CachedResultSet
    | CannotReadCache                   // "Cannot read the cache for statement …"
    | ExpectsPos(expected: int, got: int)  // "Expects pos …, but got: …"
    | NegativeArraySize                 // NegativeArraySizeException of `Array(columnCount)`
    | CannotExtractColumn(column: int, pos: int)  // "Cannot extract column … - pos …"
    | ColumnOutOfBounds                 // "Column out of bounds"
    | ColumnNotFound(columnLabel: JString) // "Column not found: …"
    | IndexOutOfBounds                  // ArrayIndexOutOfBoundsException
    | NumberFormat                      // NumberFormatException of a string-to-number conversion
    | NotModelled                       // a conversion this model does not compute (number and date texts, date parsing, non-ASCII digits, malformed UTF-8)
    // CachedResultSetMetaData
    | WrongColumnNumber(c: int)         // "Wrong column number: …"
    // CachedStatement and its subclasses
    | FeatureNotSupported               // SQLFeatureNotSupportedException
    | Message(text: JString)            // SQLException(text), e.g. "No cache entry"
    | NullPointer                       // NullPointerException
    // ResultSetCacheImpl and the stores
    | StatementNull                     // NullPointerException "The statement is null"
    | StatementNotCached                // "The statement is not cached"
    | NoKeyFound                        // NullPointerException "No key found"
    | NoCacheAvailable                  // "No cache available"
    | CanNotReadCache                   // "Can not read cache"
    | RenameFailed                      // "Failed in renaming the file"
    | NotADirectory                     // CacheException "The path is not a directory"
    | CannotCreateDirectory             // the IOException of Files.createDirectory
    // Driver
    | CannotInitializeDriver(className: JString)  // "Cannot initialize the driver: …"
    | PathEmpty                         // "The path is empty: …"
    | NameEmpty                         // "The name is empty: …"
    | NoCacheImplementation             // IllegalArgumentException "Can not find cache implementation for …"
    | NotCachedConnection               // "The connection is not a cached connection"
}
