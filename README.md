# JDBC result-set cache, modelled in Dafny

The repository is a JDBC driver that sits in front of a real ("backend")
driver and caches the result sets of queries. It is registered for URLs
`jdbc:cache:file:<directory>` and `jdbc:cache:mem:<name>`.

A statement hashes its SQL to a key. For a prepared statement the bound
parameters are hashed too. The key is looked up first in the statement's
cache store:
- On a hit, the store sends back a byte stream.
- On a miss, the store asks the backend for the result set, then serialises it with
  `ResultSetWriter` into memory or into a file. It writes a `.tmp` file first and
  then moves it into place.

`CachedResultSet`, a forward-only cursor, replays the stream.
`CachedResultSetMetaData` answers the column questions from the decoded header.

The code exists in three generations with the same design:
- `com.qwazr` (Java);
- `com.statewidesoftware` (Kotlin, plus a few Java files);
- `io.github.jhstatewide` (Kotlin).

Where the generations differ in behaviour, the model takes a `Dialect`
parameter (`Java` or `Kotlin`) and states both behaviours.

The modules, by the program's structure:

- `JavaText`, `Wrappers`, `Jdbc`: Java strings as UTF-16 code units; `int`/`long` wrap-around; the `Result`/`Option` wrappers; the exceptions the core raises, as a datatype.
- `DataIo`: the big-endian `DataOutputStream`/`DataInputStream` primitives the format is made of, `writeUTF`/`readUTF` (modified UTF-8) included.
- `JavaFloats`: Java's casts from `float` and `double` to the integer types, on IEEE 754 bit patterns.
- `Utf8`: `String.getBytes(UTF_8)` and `new String(bytes, UTF_8)`, lone surrogates included.
- `HexText`: `DatatypeConverter` (lowercase hex, hand-written; the Kotlin parser as written and corrected) and the uppercase hex of `javax.xml.bind`.
- `SqlTypes`: the `java.sql.Types` codes and the writer's and reader's dispatch tables.
- `ResultSetCodec`: the cache stream, i.e. the header, the row frames and the cells; the writer as methods with loops; the decoders and their round trips.
- `ResultSetReplay`: `CachedResultSet` as a class over its two row arrays and its input stream; the getters and their conversions; the proof that replaying an encoded table returns its rows in order.
- `ResultSetMetadata`: `CachedResultSetMetaData`.
- `Clobs`: `ClobString`.
- `Statements`: `CachedStatement` and `CachedPreparedStatement` as one class with a `prepared` flag; key generation; what each statement operation asks of its cache and backend.
- `Stores`: `ResultSetInMemoryCacheImpl` and `ResultSetOnDiskCacheImpl` as classes over a map from key to bytes (the on-disk one is a map from file name to file contents).
- `CacheDriver`: `Driver`, with the URL routing and the registry of stores by cache name.

## Model

| member | source | states |
|---|---|---|
| DataIo.ReadBooleanOfWrite | src/main/java/com/qwazr/jdbc/cache/ResultSetWriter.java:234-241 | `readBoolean` after `writeBoolean` returns the boolean and leaves the rest of the stream |
| DataIo.ReadByteOfWrite | src/main/java/com/qwazr/jdbc/cache/ResultSetWriter.java:243-250 | `readByte` after `writeByte` returns the signed byte and consumes one byte |
| DataIo.ReadShortOfWrite | src/main/java/com/qwazr/jdbc/cache/ResultSetWriter.java:252-259 | `readShort` after `writeShort` returns the short (two bytes, big-endian) |
| DataIo.ReadIntOfWrite | src/main/java/com/qwazr/jdbc/cache/ResultSetWriter.java:261-268 | `readInt` after `writeInt` returns the int (four bytes, big-endian) |
| DataIo.ReadLongOfWrite | src/main/java/com/qwazr/jdbc/cache/ResultSetWriter.java:270-277 | `readLong` after `writeLong` returns the long (eight bytes, big-endian) |
| DataIo.ReadFloatOfWrite | src/main/java/com/qwazr/jdbc/cache/ResultSetWriter.java:279-286 | `readFloat` after `writeFloat` returns the float's bits, with every NaN canonicalised as `floatToIntBits` does |
| DataIo.ReadDoubleOfWrite | src/main/java/com/qwazr/jdbc/cache/ResultSetWriter.java:288-295 | `readDouble` after `writeDouble` returns the double's bits, with NaN canonicalised |
| DataIo.DecodeEncodeChars | src/main/java/com/qwazr/jdbc/cache/ResultSetWriter.java:297-304 | decoding the modified UTF-8 of any string, lone surrogates and U+0000 included, gives the string back and stops exactly at its end |
| DataIo.ReadUtfOfWrite | src/main/kotlin/io/github/jhstatewide/jdbc/cache/ResultSetWriter.kt:185-190 | whenever `writeUTF` accepts a string (encoding at most 65535 bytes), `readUTF` returns that string and leaves the rest of the stream |
| Utf8.DecodeOfEncode | src/main/java/com/qwazr/jdbc/cache/DatatypeConverter.java:35-41 | on a string without lone surrogates, `new String(s.getBytes(UTF_8), UTF_8)` is `s` |
| Utf8.DecodeEncode | src/main/kotlin/io/github/jhstatewide/jdbc/cache/DatatypeConverter.kt:36-42 | decoding the UTF-8 of a well-paired string consumes all of it and returns its code units, in front of any following text |
| Utf8.LoneSurrogateBecomesQuestionMark | src/main/java/com/qwazr/jdbc/cache/DatatypeConverter.java:35-37 | `getBytes(UTF_8)` replaces a lone surrogate by `?`, so the round trip is not the identity on such strings |
| HexText.Hex | src/main/java/com/qwazr/jdbc/cache/DatatypeConverter.java:7-15 | `printHexBinary` writes two lowercase hex digits per byte, high digit first |
| HexText.PrintHexBinary | src/main/java/com/qwazr/jdbc/cache/DatatypeConverter.java:7-15 | the loop over the bytes produces exactly `Hex` of its input |
| HexText.ParseHexBinary | src/main/java/com/qwazr/jdbc/cache/DatatypeConverter.java:17-25 | the loop over the digit pairs produces exactly `ParseHex`, including the read past the end of an odd-length string |
| HexText.ParseHexBytes | src/main/java/com/qwazr/jdbc/cache/DatatypeConverter.java:17-25 | a successful parse has even length and `length/2` bytes. Each byte is the low eight bits of `(digit(hi) << 4) + digit(lo)`, a non-digit counting -1 as `Character.digit` returns it |
| HexText.OddLengthFails | src/main/java/com/qwazr/jdbc/cache/DatatypeConverter.java:20-22 | an odd-length ASCII string always fails: the last `charAt(i+1)` is past the end |
| HexText.ParseHexOfHex | src/main/java/com/qwazr/jdbc/cache/DatatypeConverter.java:7-25 | `parseHexBinary(printHexBinary(b)) == b` for every byte sequence |
| HexText.UpperHex | src/main/java/com/qwazr/jdbc/cache/CachedStatement.java:86-93 | the `javax.xml.bind` hex of a digest: two uppercase digits per byte |
| HexText.ParseHexOfUpperHex | src/main/java/com/qwazr/jdbc/cache/CachedStatement.java:86-93 | uppercase hex parses back to its bytes, since `Character.digit` accepts either case |
| HexText.KotlinParseHexBinary | src/main/kotlin/io/github/jhstatewide/jdbc/cache/DatatypeConverter.kt:17-26 | the Kotlin loop, as written, produces exactly `KotlinParseHex` |
| HexText.KotlinParseHexLosesHighDigit | src/main/kotlin/io/github/jhstatewide/jdbc/cache/DatatypeConverter.kt:22 | as written, the Kotlin parser adds the two digits without shifting: `"10"` parses to byte 1 and `parseHexBinary(printHexBinary([0x10])) != [0x10]` |
| HexText.KotlinAgreesOnLowBytes | src/main/kotlin/io/github/jhstatewide/jdbc/cache/DatatypeConverter.kt:17-26 | the Kotlin parse of `printHexBinary(b)` gives `b` back exactly when every byte of `b` is below 16 |
| HexText.HexOfString | src/main/java/com/qwazr/jdbc/cache/DatatypeConverter.java:35-37 | `printHexBinary(String)` is the hex of the string's UTF-8 bytes: two digits per byte |
| HexText.ParseString | src/main/java/com/qwazr/jdbc/cache/DatatypeConverter.java:39-41 | a `parseString` result is the UTF-8 decoding of what `parseHexBinary` gives |
| HexText.KotlinParseString | src/main/kotlin/io/github/jhstatewide/jdbc/cache/DatatypeConverter.kt:40-42 | a Kotlin `parseString` result is the UTF-8 decoding of what the Kotlin hex parser gives |
| HexText.KotlinParseStringLosesHighDigit | src/main/kotlin/io/github/jhstatewide/jdbc/cache/DatatypeConverter.kt:40-42 | the Kotlin string round trip fails: U+0010, hex `10`, comes back as U+0001, where the Java one gives U+0010 |
| HexText.ParseStringOfHexOfString | src/main/java/com/qwazr/jdbc/cache/DatatypeConverter.java:35-41 | `parseString(printHexBinary(s)) == s` for every string without lone surrogates |
| SqlTypes.DispatchTablesAgree | src/main/java/com/qwazr/jdbc/cache/ResultSetWriter.java:159-229 | the writer's switch and `readRow`'s switch pair each writer helper with its reader. `readRow` refuses exactly the codes the writer nulls or does not know, and the writer nulls exactly BINARY … REF_CURSOR |
| ResultSetCodec.LayoutOfFields | src/main/kotlin/io/github/jhstatewide/jdbc/cache/ResultSetWriter.kt:285-331 | the twenty descriptor fields are written in the order and with the kinds `ColumnDef` reads them, and the fields rebuild the descriptor exactly |
| ResultSetCodec.ReadFields | src/main/java/com/qwazr/jdbc/cache/ResultSetWriter.java:123-144 | reading the descriptor fields yields one field per slot, each of its slot's kind |
| ResultSetCodec.ReadFieldOfWrite | src/main/java/com/qwazr/jdbc/cache/ResultSetWriter.java:123-144 | each descriptor field reads back as written |
| ResultSetCodec.ReadFieldsOfWrite | src/main/java/com/qwazr/jdbc/cache/ResultSetWriter.java:67-88 | a descriptor's twenty written fields read back as the same fields, leaving the rest of the stream |
| ResultSetCodec.ReadMany | src/main/java/com/qwazr/jdbc/cache/ResultSetWriter.java:92-98 | the array initialiser of `readColumns` yields exactly `n` values |
| ResultSetCodec.ReadColumnDefOfWrite | src/main/java/com/qwazr/jdbc/cache/ResultSetWriter.java:100-144 | `new ColumnDef(input)` after the writer's bytes for a descriptor gives that descriptor back |
| ResultSetCodec.ReadManyOfWriteMany | src/main/java/com/qwazr/jdbc/cache/ResultSetWriter.java:92-98 | when every value reads back as written, a sequence written one after another reads back in order |
| ResultSetCodec.ReadColumnDefsOfWrite | src/main/java/com/qwazr/jdbc/cache/ResultSetWriter.java:92-98 | the written descriptors of all columns read back in order |
| ResultSetCodec.DecodeHeader | src/main/java/com/qwazr/jdbc/cache/ResultSetWriter.java:92-98 | a decoded header has a non-negative `int` column count; a negative count raises `NegativeArraySizeException` |
| ResultSetCodec.HeaderRoundTrip | src/main/java/com/qwazr/jdbc/cache/ResultSetWriter.java:63-98 | `readColumns` after `writeMetadata` returns every descriptor, field for field, and stops where the rows begin |
| ResultSetCodec.ReadPayload | src/main/java/com/qwazr/jdbc/cache/ResultSetWriter.java:382-436 | a payload read is never null and is a value `readRow` can return; it is refused ("Column type no supported") exactly for the codes with no reader |
| ResultSetCodec.ReadRow | src/main/java/com/qwazr/jdbc/cache/ResultSetWriter.java:378-437 | `readRow` only ever returns a replayable value |
| ResultSetCodec.NullCellsWriteOnlyTheFlag | src/main/java/com/qwazr/jdbc/cache/ResultSetWriter.java:159-241 | a code with no label writes nothing; a nulled code or a null value writes the single byte `false`; anything else writes `true` ahead of its payload |
| ResultSetCodec.ReadRowNullFlag | src/main/kotlin/io/github/jhstatewide/jdbc/cache/ResultSetWriter.kt:261-263 | with the presence flag clear, `readRow` returns null, whatever the type |
| ResultSetCodec.ReadRowRefuses | src/main/kotlin/io/github/jhstatewide/jdbc/cache/ResultSetWriter.kt:277-281 | with the flag set, a nulled or unknown code is refused |
| ResultSetCodec.ReadScalarPayloadOfWrite | src/main/java/com/qwazr/jdbc/cache/ResultSetWriter.java:382-400 | each fixed-width payload (boolean, integers, floating point, decimal, date, time, timestamp) reads back as the replayed value |
| ResultSetCodec.ReadTextPayloadOfWrite | src/main/java/com/qwazr/jdbc/cache/ResultSetWriter.java:343-372 | string, row-id and clob payloads read back as the stored text |
| ResultSetCodec.ReadPayloadOfWrite | src/main/java/com/qwazr/jdbc/cache/ResultSetWriter.java:382-419 | every writer helper's payload is read back by its paired reader |
| ResultSetCodec.ReadRowOfWrite | src/main/java/com/qwazr/jdbc/cache/ResultSetWriter.java:378-419 | cell round trip: for every code with a label, `readRow` on the writer's bytes returns the replayed value and consumes exactly those bytes |
| ResultSetCodec.TypesOf | src/main/java/com/qwazr/jdbc/cache/ResultSetWriter.java:147-152 | the types array has one entry per column, the column's declared SQL type, in order |
| ResultSetCodec.WriteMetadata | src/main/java/com/qwazr/jdbc/cache/ResultSetWriter.java:63-90 | the writing loop emits exactly the header `HeaderBytes`, which `HeaderRoundTrip` inverts |
| ResultSetCodec.WriteCells | src/main/java/com/qwazr/jdbc/cache/ResultSetWriter.java:156-230 | the inner loop emits exactly the cells of the row, stopping at the first failing getter |
| ResultSetCodec.WriteResultSet | src/main/java/com/qwazr/jdbc/cache/ResultSetWriter.java:147-232 | the row loop emits, for each row, `++pos` as an int and then its cells |
| ResultSetCodec.Write | src/main/java/com/qwazr/jdbc/cache/ResultSetWriter.java:51-61 | `write(resultSet)` emits the header followed by the row frames, or the error that aborted it |
| ResultSetCodec.ReadColumns | src/main/java/com/qwazr/jdbc/cache/ResultSetWriter.java:92-98 | the reading loop decodes exactly `DecodeHeader` |
| ResultSetCodec.ReadManyLoop | src/main/java/com/qwazr/jdbc/cache/ResultSetWriter.java:95-96 | the array-filling loop reads exactly what `ReadMany` specifies |
| ResultSetReplay.ReadCellsWith | src/main/kotlin/com/statewidesoftware/jdbc/cache/CachedResultSet.kt:84-89 | reading a row's cells yields one cell per column, or a failure at the first column whose read fails |
| ResultSetReplay.ReadFrame | src/main/kotlin/com/statewidesoftware/jdbc/cache/CachedResultSet.kt:72-90 | a frame is the end of rows when fewer than 4 bytes remain. A position that is not `currentPos + 1` raises "Expects pos X, but got: Y" (`ExpectsPos`). Otherwise it is the row's cells |
| ResultSetReplay.LabelIndexFindsLastColumn | src/main/kotlin/com/statewidesoftware/jdbc/cache/CachedResultSet.kt:57-59 | the label map built by `init` sends each label to the LAST column carrying it, counted from 1 |
| ResultSetReplay.SignedValueOfDecimalText | src/main/kotlin/com/statewidesoftware/jdbc/cache/CachedResultSet.kt:155-159 | `toString()` of an integer parses back to it with `toInt()`/`toLong()` |
| ResultSetReplay.IntegralOf | src/main/kotlin/com/statewidesoftware/jdbc/cache/CachedResultSet.kt:141-166 | `getByte` … `getLong` return 0 for null and always a value within the width's range; a float or double cell goes through Java's cast (`FromFloating`) |
| JavaFloats.DecodeFloat | src/main/kotlin/com/statewidesoftware/jdbc/cache/CachedResultSet.kt:141-166 | a `float` pattern is NaN exactly when its exponent field is all ones and its fraction is not zero, and an infinity exactly when its exponent is all ones and its fraction is zero |
| JavaFloats.DecodeDouble | src/main/kotlin/com/statewidesoftware/jdbc/cache/CachedResultSet.kt:141-166 | the same for a `double` pattern, with its 11-bit exponent and 52-bit fraction |
| JavaFloats.Saturate | src/main/kotlin/com/statewidesoftware/jdbc/cache/CachedResultSet.kt:141-166 | a float-to-integer cast always lands in the target type's range |
| JavaFloats.TruncatesTowardZero | src/main/kotlin/com/statewidesoftware/jdbc/cache/CachedResultSet.kt:141-166 | rounding toward zero: the unclamped result is the integer next to the exact value on the side of 0 |
| JavaFloats.SaturateIsZero | src/main/kotlin/com/statewidesoftware/jdbc/cache/CachedResultSet.kt:135 | a cast gives 0 exactly for NaN and for values strictly between -1 and 1 |
| JavaFloats.SaturateInRange | src/main/kotlin/com/statewidesoftware/jdbc/cache/CachedResultSet.kt:141-166 | a rounded value is kept exactly when the target type can hold it |
| JavaFloats.SaturateOutOfRange | src/main/kotlin/com/statewidesoftware/jdbc/cache/CachedResultSet.kt:141-166 | a rounded value beyond the range, and an infinity, becomes the range's nearest end |
| JavaFloats.KnownFloatCasts | src/main/kotlin/com/statewidesoftware/jdbc/cache/CachedResultSet.kt:158 | `1.5f.toInt()` is 1 and `(-1.5f).toInt()` is -1 |
| JavaFloats.KnownSpecialCasts | src/main/kotlin/com/statewidesoftware/jdbc/cache/CachedResultSet.kt:158-165 | NaN casts to 0; positive infinity to `Int.MAX_VALUE` and negative infinity to `Long.MIN_VALUE` |
| JavaFloats.KnownDoubleCasts | src/main/kotlin/com/statewidesoftware/jdbc/cache/CachedResultSet.kt:158-165 | `1.11.toLong()` is 1 and `(-2.5).toInt()` is -2 |
| ResultSetReplay.FromFloating | src/main/kotlin/com/statewidesoftware/jdbc/cache/CachedResultSet.kt:141-166 | `toByte()` … `toLong()` of a boxed float or double: within the width's range; NaN is 0; a value the width can hold after rounding toward zero is kept; an infinity saturates `toInt`/`toLong`; `toByte`/`toShort` narrow the `toInt` result |
| ResultSetReplay.IntegralOfFloatTruncates | src/main/kotlin/com/statewidesoftware/jdbc/cache/CachedResultSet.kt:141-166 | `getByte` … `getLong` of a float cell, when the type can hold the rounded value: the integer next to the float on the side of 0 |
| ResultSetReplay.IntegralOfDoubleTruncates | src/main/kotlin/com/statewidesoftware/jdbc/cache/CachedResultSet.kt:141-166 | the same for a double cell |
| ResultSetReplay.DoubleCellReadsTruncated | src/main/kotlin/com/statewidesoftware/jdbc/cache/CachedResultSet.kt:158 | the DOUBLE value 1.11 of the test rows reads as 1 through `getInt` and as 1 ms through `getDate` |
| ResultSetReplay.StringOf | src/main/kotlin/com/statewidesoftware/jdbc/cache/CachedResultSet.kt:126-129 | `getString` is null exactly for a null cell, and a string cell comes back as it is |
| ResultSetReplay.BooleanOf | src/main/kotlin/com/statewidesoftware/jdbc/cache/CachedResultSet.kt:132-138 | as written: null is false, a boolean is returned as is, a number is true exactly when its `toInt()` is 0 |
| ResultSetReplay.BooleanOfFloating | src/main/kotlin/com/statewidesoftware/jdbc/cache/CachedResultSet.kt:135 | as written, a float or double cell reads as `true` exactly when it is NaN or strictly between -1 and 1, i.e. when its `toInt()` is 0 |
| ResultSetReplay.BooleanOfIntended | src/main/kotlin/com/statewidesoftware/jdbc/cache/CachedResultSet.kt:132-138 | corrected: a number is true exactly when its `toInt()` is not 0; every other cell as written |
| ResultSetReplay.BooleanOfZeroIsTrue | src/main/kotlin/com/statewidesoftware/jdbc/cache/CachedResultSet.kt:135 | as written, the int or long 0 reads as `true` and 1 as `false` |
| ResultSetReplay.BooleanOfIntendedFollowsJdbc | src/main/kotlin/com/statewidesoftware/jdbc/cache/CachedResultSet.kt:135 | the corrected reading gives false exactly for 0, on every integer cell that fits an int |
| ResultSetReplay.BooleanOfStringOf | src/main/kotlin/com/statewidesoftware/jdbc/cache/CachedResultSet.kt:135-137 | the text `"true"`/`"false"` reads back as its boolean |
| ResultSetReplay.IntegralOfStringOf | src/main/kotlin/com/statewidesoftware/jdbc/cache/CachedResultSet.kt:158 | the decimal text of any in-range integer reads back through `getByte` … `getLong` |
| ResultSetReplay.TypedGettersReadBack | src/main/kotlin/com/statewidesoftware/jdbc/cache/CachedResultSet.kt:126-226 | for each stored type, the typed getter on the replayed cell returns what the backend's matching getter gave when the row was written |
| ResultSetReplay.FloatOf | src/main/kotlin/com/statewidesoftware/jdbc/cache/CachedResultSet.kt:169-173 | `getFloat` is 0 for null and the float itself for a float cell |
| ResultSetReplay.DoubleOf | src/main/kotlin/com/statewidesoftware/jdbc/cache/CachedResultSet.kt:176-180 | `getDouble` is 0 for null and the double itself for a double cell |
| ResultSetReplay.BytesOf | src/main/kotlin/com/statewidesoftware/jdbc/cache/CachedResultSet.kt:189-192 | `getBytes` is null exactly for null, and otherwise an empty array |
| ResultSetReplay.DateOf | src/main/kotlin/com/statewidesoftware/jdbc/cache/CachedResultSet.kt:195-204 | `getDate` is null exactly for null; a date comes back as is, a timestamp as its instant |
| ResultSetReplay.TimesOfDoubleTruncate | src/main/kotlin/com/statewidesoftware/jdbc/cache/CachedResultSet.kt:199 | `getDate`, `getTime` and `getTimestamp` of a double cell agree and are `toLong()` of it, the double rounded toward zero, when a `long` can hold it |
| ResultSetReplay.TimeOf | src/main/kotlin/com/statewidesoftware/jdbc/cache/CachedResultSet.kt:207-215 | `getTime` is null exactly for null; a time comes back as is |
| ResultSetReplay.TimestampOf | src/main/kotlin/com/statewidesoftware/jdbc/cache/CachedResultSet.kt:218-226 | `getTimestamp` is null exactly for null; a timestamp comes back as is |
| ResultSetReplay.RowIdOf | src/main/kotlin/com/statewidesoftware/jdbc/cache/CachedResultSet.kt:865-869 | `getRowId` succeeds only on null; any other cell is "not supported" |
| ResultSetReplay.CellAt | src/main/kotlin/com/statewidesoftware/jdbc/cache/CachedResultSet.kt:118-123 | `checkColumn` hands out exactly the cells of columns 1 … n. Column 0 or past the end is "Column out of bounds". A negative column fails on the array index |
| ResultSetReplay.CachedResultSet.Init | src/main/kotlin/com/statewidesoftware/jdbc/cache/CachedResultSet.kt:52-69 | a fresh cursor: both row arrays of nulls and one cell per column, before the first row, not closed |
| ResultSetReplay.CachedResultSet.FillRow | src/main/kotlin/com/statewidesoftware/jdbc/cache/CachedResultSet.kt:84-89 | the cell loop fills `nextRow` with exactly the cells `ReadCellsWith` reads; on failure only the prefix read is stored |
| ResultSetReplay.CachedResultSet.ReadNext | src/main/kotlin/com/statewidesoftware/jdbc/cache/CachedResultSet.kt:72-90 | `readNext` behaves as `ReadFrame`. At the end of rows `nextPos` becomes 0. On a frame it becomes `currentPos + 1` with the cells in `nextRow`. A bad position raises |
| ResultSetReplay.CachedResultSet.Next | src/main/kotlin/com/statewidesoftware/jdbc/cache/CachedResultSet.kt:93-100 | `next()` makes the row read ahead current and reports whether there was one; past the end it changes nothing and returns false |
| ResultSetReplay.CachedResultSet.Close | src/main/kotlin/com/statewidesoftware/jdbc/cache/CachedResultSet.kt:103-110 | after `close()`, `isClosed()` reports true |
| ResultSetReplay.CachedResultSet.CheckColumn | src/main/kotlin/com/statewidesoftware/jdbc/cache/CachedResultSet.kt:118-123 | returns `CellAt` of the current row; on a found cell `wasNull()` then reports whether it is null |
| ResultSetReplay.CachedResultSet.IsBeforeFirst | src/main/kotlin/com/statewidesoftware/jdbc/cache/CachedResultSet.kt:393-395 | before the first row exactly when `getRow()` is 0 |
| ResultSetReplay.CachedResultSet.IsAfterLast | src/main/kotlin/com/statewidesoftware/jdbc/cache/CachedResultSet.kt:398-400 | after the last row the cursor also reports before the first row, and neither first nor last |
| ResultSetReplay.CachedResultSet.IsFirst | src/main/kotlin/com/statewidesoftware/jdbc/cache/CachedResultSet.kt:403-405 | on the first row `getRow()` is 1 and the cursor is not before the first row |
| ResultSetReplay.CachedResultSet.IsLast | src/main/kotlin/com/statewidesoftware/jdbc/cache/CachedResultSet.kt:408-410 | on the last row a row is current: `getRow()` is not 0 and the cursor is not before the first row |
| ResultSetReplay.CachedResultSet.GetObject | src/main/kotlin/com/statewidesoftware/jdbc/cache/CachedResultSet.kt:354-357 | `getObject` is the checked cell itself |
| ResultSetReplay.CachedResultSet.GetString | src/main/kotlin/com/statewidesoftware/jdbc/cache/CachedResultSet.kt:126-129 | `getString` is `StringOf` of the checked cell |
| ResultSetReplay.CachedResultSet.GetBoolean | src/main/kotlin/com/statewidesoftware/jdbc/cache/CachedResultSet.kt:132-138 | `getBoolean` is the corrected reading `BooleanOfIntended` of the checked cell |
| ResultSetReplay.CachedResultSet.GetIntegral | src/main/kotlin/com/statewidesoftware/jdbc/cache/CachedResultSet.kt:141-166 | `getByte`/`getShort`/`getInt`/`getLong` return `IntegralOf` the checked cell, within the width's range |
| ResultSetReplay.CachedResultSet.GetFloat | src/main/kotlin/com/statewidesoftware/jdbc/cache/CachedResultSet.kt:169-173 | `getFloat` is `FloatOf` the checked cell |
| ResultSetReplay.CachedResultSet.GetDouble | src/main/kotlin/com/statewidesoftware/jdbc/cache/CachedResultSet.kt:176-180 | `getDouble` is `DoubleOf` the checked cell |
| ResultSetReplay.CachedResultSet.GetBytes | src/main/kotlin/com/statewidesoftware/jdbc/cache/CachedResultSet.kt:189-192 | `getBytes` is `BytesOf` the checked cell |
| ResultSetReplay.CachedResultSet.GetDate | src/main/kotlin/com/statewidesoftware/jdbc/cache/CachedResultSet.kt:195-204 | `getDate` is `DateOf` the checked cell |
| ResultSetReplay.CachedResultSet.GetTime | src/main/kotlin/com/statewidesoftware/jdbc/cache/CachedResultSet.kt:207-215 | `getTime` is `TimeOf` the checked cell |
| ResultSetReplay.CachedResultSet.GetTimestamp | src/main/kotlin/com/statewidesoftware/jdbc/cache/CachedResultSet.kt:218-226 | `getTimestamp` is `TimestampOf` the checked cell |
| ResultSetReplay.CachedResultSet.GetClob | src/main/kotlin/com/statewidesoftware/jdbc/cache/CachedResultSet.kt:743-746 | `getClob` is null for null, else a clob over the cell's text |
| ResultSetReplay.CachedResultSet.GetRowId | src/main/kotlin/com/statewidesoftware/jdbc/cache/CachedResultSet.kt:865-869 | `getRowId` is `RowIdOf` the checked cell |
| ResultSetReplay.CachedResultSet.ColumnOf | src/main/kotlin/com/statewidesoftware/jdbc/cache/CachedResultSet.kt:248-250 | a label fails with "Column not found" exactly when no column carries it; otherwise it names a column carrying it and no later column carries it |
| ResultSetReplay.CachedResultSet.FindColumn | src/main/kotlin/com/statewidesoftware/jdbc/cache/CachedResultSet.kt:364-367 | `findColumn` is 0 exactly for an unknown label, and otherwise agrees with `checkColumn(label)` |
| ResultSetReplay.Open | src/main/kotlin/com/statewidesoftware/jdbc/cache/CachedResultSet.kt:52-69 | opening a stream fails exactly when its header does not decode; otherwise the cursor holds the decoded descriptors and has read ahead the first frame |
| ResultSetReplay.ReadCellsOfWrite | src/main/kotlin/com/statewidesoftware/jdbc/cache/CachedResultSet.kt:84-89 | the cells the writer emits for a row read back as the replayed row, leaving the following frames |
| ResultSetReplay.FrameOfWrite | src/main/kotlin/com/statewidesoftware/jdbc/cache/CachedResultSet.kt:72-90 | each frame the writer emits reads back as the replayed row at the next position; after the last row the reader sees the end |
| ResultSetReplay.EncodeOpens | src/main/kotlin/com/statewidesoftware/jdbc/cache/CachedResultSet.kt:52-60 | the stream of a table opens on its own descriptors, with exactly its row frames left |
| ResultSetReplay.Replay | src/main/kotlin/com/statewidesoftware/jdbc/cache/CachedResultSet.kt:93-100 | replaying a cached table: the cursor starts before the first row, and `next()` returns every row in order (row number, first/last flags and replayed cells). After the last row `next()` keeps returning false and the cursor is after the last row |
| ResultSetReplay.ReplayRows | src/main/kotlin/com/statewidesoftware/jdbc/cache/CachedResultSet.kt:93-100 | the loop of `next()` calls sees row `k` as the `k`-th call, for every row |
| ResultSetReplay.OpenEncoded | src/main/kotlin/com/statewidesoftware/jdbc/cache/CachedResultSet.kt:52-60 | opening an encoded table leaves the cursor before row 0, with row 0 (if any) read ahead |
| ResultSetReplay.ReplayStep | src/main/kotlin/com/statewidesoftware/jdbc/cache/CachedResultSet.kt:93-100 | one `next()`: row `k` becomes current, as expected, and row `k + 1` is read ahead |
| ResultSetReplay.Drain | src/main/kotlin/com/statewidesoftware/jdbc/cache/CachedResultSet.kt:93-95 | past the last row, `next()` returns false however often it is called; the cursor is then after the last row, reports before the first row too, and `getRow()` is 0 |
| ResultSetReplay.UnknownTypeBreaksReplay | src/main/java/com/qwazr/jdbc/cache/ResultSetWriter.java:159-229 | a column of a code without a label writes no cell, so its row cannot be read back: the reader fails on that row's frame |
| ResultSetMetadata.Descriptor | src/main/kotlin/com/statewidesoftware/jdbc/cache/CachedResultSetMetaData.kt:29-32 | columns 1 … n give their descriptor. Column 0 or past the end is "Wrong column number". A negative column fails on the array index |
| ResultSetMetadata.Get | src/main/java/com/statewidesoftware/jdbc/cache/CachedResultSetMetaData.java:35-39 | every accessor succeeds exactly on columns 1 … n, with the field of that column's descriptor, and otherwise with the bounds error |
| ResultSetMetadata.Unwrap | src/main/java/com/statewidesoftware/jdbc/cache/CachedResultSetMetaData.java:141-149 | `unwrap` and `isWrapperFor` always raise "not supported" |
| ResultSetMetadata.AccessorsProjectHeaderFields | src/main/kotlin/com/statewidesoftware/jdbc/cache/CachedResultSetMetaData.kt:55-57 | each accessor serves the stored header field at its own position, and distinct accessors serve distinct fields |
| ResultSetMetadata.EveryHeaderFieldHasAnAccessor | src/main/java/com/statewidesoftware/jdbc/cache/CachedResultSetMetaData.java:61-64 | every stored field is served by some accessor |
| ResultSetMetadata.MetadataSurvivesTheCache | src/main/kotlin/com/statewidesoftware/jdbc/cache/CachedResultSetMetaData.kt:24-26 | for every column number and accessor, the metadata decoded from the cache answers what the backend's descriptors did; the same holds for the column count |
| Clobs.Substring | src/main/java/com/qwazr/jdbc/cache/ClobString.java:36-39 | `String.substring` succeeds exactly when `0 <= begin <= end <= length`, and otherwise raises an index error |
| Clobs.SearchFrom | src/main/java/com/qwazr/jdbc/cache/ClobString.java:51-57 | the search returns the first occurrence at or after its start, or -1 exactly when there is none |
| Clobs.IndexOf | src/main/java/com/qwazr/jdbc/cache/ClobString.java:51-57 | `indexOf(str, from)` searches from `from` clamped to 0 … length: the first occurrence there or later, or -1 exactly when there is none; an empty `str` is found at the clamped start |
| Clobs.SearchStart | src/main/java/com/qwazr/jdbc/cache/ClobString.java:55 | the start `String.indexOf` uses: 0 for a negative `from`, the length for one past the end, `from` itself otherwise |
| Clobs.IndexOfEmpty | src/main/java/com/qwazr/jdbc/cache/ClobString.java:55 | the empty string is found at the clamped start, even for a start past the end |
| Clobs.Length | src/main/java/com/qwazr/jdbc/cache/ClobString.java:31-34 | `length()` is 0 for null content and the content's length otherwise |
| Clobs.GetSubString | src/main/java/com/qwazr/jdbc/cache/ClobString.java:36-39 | as written: `length` is used as the END index of the substring; null content gives null |
| Clobs.GetSubStringIntended | src/main/java/com/qwazr/jdbc/cache/ClobString.java:36-39 | corrected, as JDBC describes it: up to `length` characters from the 1-based `pos`, fewer at the end of the text; refused for `pos < 1`, a negative length or `pos` more than one past the end; null content gives null |
| Clobs.GetSubStringIntendedStopsAtEnd | src/main/java/com/qwazr/jdbc/cache/ClobString.java:36-39 | a length reaching past the end gives the rest of the text |
| Clobs.GetSubStringWhole | src/main/java/com/statewidesoftware/jdbc/cache/ClobString.kt:29-32 | the call the writer relies on, from position 1 for the full length, returns the whole text under both readings |
| Clobs.GetSubStringTreatsLengthAsEnd | src/main/java/com/qwazr/jdbc/cache/ClobString.java:38 | on `"abc"`, `getSubString(2, 2)` returns `"b"` where `"bc"` is meant |
| Clobs.PositionFindsFirstOccurrence | src/main/java/com/statewidesoftware/jdbc/cache/ClobString.kt:44-49 | `position(str, start)` is the 1-based index of the first occurrence at or after `start` (clamped to one past the end), or -1 exactly when there is none |
| Clobs.PositionOfEmptyPastEnd | src/main/java/com/statewidesoftware/jdbc/cache/ClobString.kt:44-49 | the empty string's position from any start past the end is length + 1 |
| Clobs.Position | src/main/java/com/qwazr/jdbc/cache/ClobString.java:51-57 | null content has no position |
| Clobs.CharacterStream | src/main/java/com/qwazr/jdbc/cache/ClobString.java:42-44 | `getCharacterStream()` is null exactly for null content and reads the whole content |
| Clobs.AsciiStream | src/main/java/com/qwazr/jdbc/cache/ClobString.java:47-49 | `getAsciiStream()` is null exactly for null content, and non-empty text gives a non-empty stream |
| Clobs.AsciiStreamDecodesToCharacterStream | src/main/java/com/qwazr/jdbc/cache/ClobString.java:42-49 | the two streams carry the same content: the bytes decode back to the characters when no surrogate is unpaired |
| Clobs.GetCharacterStream | src/main/java/com/qwazr/jdbc/cache/ClobString.java:93-96 | the ranged character stream raises a null-pointer error exactly on null content |
| Clobs.CharacterStreamReadsLength | src/main/java/com/statewidesoftware/jdbc/cache/ClobString.kt:85-88 | within range, the ranged character stream reads exactly `length` characters from `pos` |
| Clobs.Mutate | src/main/java/com/qwazr/jdbc/cache/ClobString.java:59-87 | every mutator raises "not supported" |
| Statements.CacheKeyRecoversDigest | src/main/kotlin/io/github/jhstatewide/jdbc/cache/CachedStatement.kt:369-377 | a key gives its digest back. The Java key is the hex of the MD5 of the text's bytes. The Kotlin key is that hex followed by `.jdbc_cache` |
| Statements.SameKeySameDigest | src/main/java/com/qwazr/jdbc/cache/CachedStatement.java:86-93 | two texts share a key exactly when their digests agree: the hex adds no collisions |
| Statements.KotlinKeyIsNotTemporary | src/main/kotlin/io/github/jhstatewide/jdbc/cache/CachedStatement.kt:369-377 | a Kotlin key never ends with `.tmp`, so the store's temp-file filter never hides an entry |
| Statements.BuildKeyText | src/main/java/com/qwazr/jdbc/cache/CachedPreparedStatement.java:44-53 | the loop over the parameter map builds exactly the key text: the SQL, then `•`, index and `toString()` of each parameter in ascending index order. A null SQL or a null value raises |
| Statements.UnboundKeyTextIsSql | src/main/java/com/statewidesoftware/jdbc/cache/CachedPreparedStatement.kt:47-56 | a prepared statement with nothing bound hashes its SQL alone, as a plain statement does |
| Statements.EntriesAppendLargest | src/main/java/com/qwazr/jdbc/cache/CachedPreparedStatement.java:29-35 | binding an index larger than all bound ones appends its entry at the end: the order of the `setX` calls does not matter |
| Statements.AmbiguousParameters | src/main/java/com/qwazr/jdbc/cache/CachedPreparedStatement.java:47-51 | the key text is ambiguous: index 1 bound to `"23"` and index 12 bound to `"3"` build the same text, hence the same key |
| Statements.CachedStatement.Plain | src/main/java/com/qwazr/jdbc/cache/CachedStatement.java:50-68 | a new statement has every setting 0, every flag false, no SQL and no key |
| Statements.CachedStatement.Prepared | src/main/java/com/qwazr/jdbc/cache/CachedPreparedStatement.java:31-37 | a new prepared statement is the same, with the prepared SQL and no parameters |
| Statements.CachedStatement.CheckBackendStatement | src/main/java/com/qwazr/jdbc/cache/CachedStatement.java:75-84 | with a backend, it succeeds. Without one it raises: a plain `SQLException` with the given message, or "not supported" when no message is given |
| Statements.CachedStatement.GenerateKey | src/main/java/com/qwazr/jdbc/cache/CachedStatement.java:95-97 | the key is the key of the current text (SQL, plus the parameters when prepared) and is stored; on failure the old key stays |
| Statements.CachedStatement.GetOrGenerateKey | src/main/java/com/qwazr/jdbc/cache/CachedStatement.java:99-103 | a stored key is returned unchanged, even after the SQL or the parameters changed; only a missing key is generated |
| Statements.CachedStatement.CacheCallFor | src/main/kotlin/io/github/jhstatewide/jdbc/cache/CachedStatement.kt:98-116 | with a cache, the statement calls `get(key, provider)` with a provider exactly when it has a backend. Without one, Java dereferences null and Kotlin returns null |
| Statements.CachedStatement.ExecuteQuery | src/main/java/com/qwazr/jdbc/cache/CachedStatement.java:106-111 | `executeQuery(sql)` records the SQL, regenerates the key and asks the cache for it, or passes on the key's error |
| Statements.CachedStatement.ExecuteQueryPrepared | src/main/java/com/qwazr/jdbc/cache/CachedPreparedStatement.java:56-59 | the prepared `executeQuery()` does the same over its SQL and parameters |
| Statements.CachedStatement.GetResultSet | src/main/java/com/qwazr/jdbc/cache/CachedStatement.java:211-214 | `getResultSet()` regenerates the key and asks the cache for it |
| Statements.CachedStatement.ExecutionFor | src/main/kotlin/io/github/jhstatewide/jdbc/cache/CachedStatement.kt:188-193 | `execute` answers true for a cached key; otherwise it runs on the backend, or raises "No cache entry" when there is none. Java dereferences a null cache |
| Statements.CachedStatement.Execute | src/main/java/com/qwazr/jdbc/cache/CachedStatement.java:204-208 | `execute(sql)` records the SQL, regenerates the key and answers as `ExecutionFor` |
| Statements.CachedStatement.ExecutePrepared | src/main/java/com/qwazr/jdbc/cache/CachedPreparedStatement.java:203-206 | the prepared `execute()` does the same over the current parameters |
| Statements.CachedStatement.ExecuteUpdatePrepared | src/main/java/com/qwazr/jdbc/cache/CachedPreparedStatement.java:62-67 | the prepared `executeUpdate()` succeeds exactly when there is a backend statement, and is "not supported" otherwise |
| Statements.CachedStatement.ExecuteUpdate | src/main/java/com/qwazr/jdbc/cache/CachedStatement.java:114-117 | `executeUpdate` records the SQL and never touches the cache; without a backend it is "not supported" |
| Statements.CachedStatement.Set | src/main/java/com/qwazr/jdbc/cache/CachedStatement.java:149-154 | a setter stores its value locally, and no other setting changes |
| Statements.CachedStatement.Get | src/main/java/com/qwazr/jdbc/cache/CachedStatement.java:141-147 | a getter answers from the backend when there is one, and otherwise with the last value set |
| Statements.CachedStatement.Close | src/main/java/com/qwazr/jdbc/cache/CachedStatement.java:120-124 | after `close()` the statement is closed |
| Statements.CachedStatement.SetPoolable | src/main/java/com/qwazr/jdbc/cache/CachedStatement.java:352-357 | `setPoolable(b)` stores `b` |
| Statements.CachedStatement.CloseOnCompletion | src/main/java/com/qwazr/jdbc/cache/CachedStatement.java:367-372 | `closeOnCompletion()` sets its flag |
| Statements.CachedStatement.Flag | src/main/java/com/qwazr/jdbc/cache/CachedStatement.java:344-350 | `isClosed`, `isPoolable` and `isCloseOnCompletion` answer from the backend when there is one, and otherwise with the stored flag |
| Statements.CachedStatement.SetParameter | src/main/java/com/qwazr/jdbc/cache/CachedPreparedStatement.java:98-103 | a recording setter binds the index to the value's text and leaves the other indexes alone; in Kotlin a null value fails with a null-pointer error at the call and binds nothing |
| Statements.CachedStatement.SetNull | src/main/java/com/statewidesoftware/jdbc/cache/CachedPreparedStatement.kt:72-76 | `setNull` unbinds the index, as if it had never been set |
| Statements.CachedStatement.ClearParameters | src/main/java/com/qwazr/jdbc/cache/CachedPreparedStatement.java:182-186 | `clearParameters` unbinds everything |
| Statements.CachedStatement.SetUnrecorded | src/main/java/com/qwazr/jdbc/cache/CachedPreparedStatement.java:161-163 | the setters that only reach the backend succeed exactly when there is one, and otherwise raise "not supported" |
| Stores.Written | src/main/java/com/qwazr/jdbc/cache/ResultSetWriter.java:51-61 | the bytes a provider's answer serialises to. A failing provider or getter raises the backend's error, and a null result set dereferences null |
| Stores.WriteProvided | src/main/java/com/qwazr/jdbc/cache/ResultSetInMemoryCacheImpl.java:69-70 | calling the provider and then writing gives exactly `Written` |
| Stores.CheckKey | src/main/java/com/qwazr/jdbc/cache/ResultSetCacheImpl.java:57-66 | a null statement raises "The statement is null" and a foreign one "The statement is not cached". Otherwise the result is the statement's key, memoised or freshly generated, and it is stored in the statement |
| Stores.InMemoryCache.Built | src/main/kotlin/com/statewidesoftware/jdbc/cache/ResultSetInMemoryCacheImpl.kt:63-81 | what `buildCache` stores for an answer: its bytes, or, in Kotlin, an empty entry for a null result set |
| Stores.InMemoryCache.Get | src/main/java/com/qwazr/jdbc/cache/ResultSetInMemoryCacheImpl.java:49-78 | a present key is served unchanged. A missing key with no provider is "No cache available". Otherwise the build is stored only if it succeeds and is served, and the key is active only during the build |
| Stores.InMemoryCache.CheckIfExists | src/main/java/com/qwazr/jdbc/cache/ResultSetInMemoryCacheImpl.java:87-89 | true exactly when the key is cached |
| Stores.InMemoryCache.Flush | src/main/java/com/qwazr/jdbc/cache/ResultSetInMemoryCacheImpl.java:91-94 | `flush()` empties the cache |
| Stores.InMemoryCache.FlushStatement | src/main/java/com/qwazr/jdbc/cache/ResultSetInMemoryCacheImpl.java:96-99 | `flush(stmt)` removes exactly the statement's key, or raises `CheckKey`'s error and changes nothing |
| Stores.InMemoryCache.Size | src/main/java/com/qwazr/jdbc/cache/ResultSetInMemoryCacheImpl.java:101-104 | `size()` is the number of cached keys |
| Stores.InMemoryCache.Exists | src/main/java/com/qwazr/jdbc/cache/ResultSetInMemoryCacheImpl.java:106-109 | `exists(stmt)` is whether the statement's key is cached, or `CheckKey`'s error |
| Stores.Active | src/main/java/com/qwazr/jdbc/cache/ResultSetCacheImpl.java:68-71 | `active()` of either store counts the base class's own lock map, which no build writes, so it is always 0 |
| Stores.InMemoryCache.ActiveFor | src/main/java/com/qwazr/jdbc/cache/ResultSetCacheImpl.java:73-76 | `active(stmt)` is always false for the same reason, after `CheckKey`'s errors |
| Stores.TempName | src/main/java/com/qwazr/jdbc/cache/ResultSetOnDiskCacheImpl.java:84 | the temporary file of a key is the key plus `.tmp`, never the key itself |
| Stores.Remaining | src/main/java/com/qwazr/jdbc/cache/ResultSetOnDiskCacheImpl.java:135-144 | `flush()` deletes every listed file; what remains is exactly the OLD entries the listing skips |
| Stores.FlushEmptiesListing | src/main/kotlin/com/statewidesoftware/jdbc/cache/ResultSetOnDiskCacheImpl.kt:156-165 | after `flush()`, `size()` is 0 |
| Stores.TempFilesCountInJavaOnly | src/main/java/com/qwazr/jdbc/cache/ResultSetOnDiskCacheImpl.java:120-133 | Java's `Path.endsWith(".tmp")` compares whole names, so a leftover `key.tmp` is listed and counted. Kotlin's name test skips it |
| Stores.Installed | src/main/java/com/qwazr/jdbc/cache/ResultSetOnDiskCacheImpl.java:78-106 | after a build, the temporary file is gone. A published build holds its bytes under the key. Nothing published leaves the key as it was. Every other file is unchanged |
| Stores.OpenDirectory | src/main/java/com/qwazr/jdbc/cache/ResultSetOnDiskCacheImpl.java:37-50 | a missing directory is created, or "Cannot create the cache directory" is raised. A path that is not a directory is refused. An existing directory is opened with its files |
| Stores.OnDiskCache.Publish | src/main/kotlin/com/statewidesoftware/jdbc/cache/ResultSetOnDiskCacheImpl.kt:83-115 | what a build publishes: the written bytes, the provider's error, or, in Kotlin, nothing for a null result set |
| Stores.OnDiskCache.Serve | src/main/kotlin/com/statewidesoftware/jdbc/cache/ResultSetOnDiskCacheImpl.kt:63-80 | a present file is served. Kotlin returns null for a null statement. A missing file is "Can not read cache" |
| Stores.OnDiskCache.Build | src/main/java/com/qwazr/jdbc/cache/ResultSetOnDiskCacheImpl.java:78-106 | `buildCache` writes the temporary file, moves it onto the key and deletes any leftover, so the files become `Installed` |
| Stores.OnDiskCache.WriteOut | src/main/kotlin/com/statewidesoftware/jdbc/cache/ResultSetOnDiskCacheImpl.kt:90-95 | calling the provider and writing out gives exactly `Publish` |
| Stores.OnDiskCache.Get | src/main/java/com/qwazr/jdbc/cache/ResultSetOnDiskCacheImpl.java:63-76 | a present file is served. A missing file with no provider is "No cache available". Otherwise the build is installed and its error, or the serving, returned |
| Stores.OnDiskCache.CheckIfExists | src/main/java/com/qwazr/jdbc/cache/ResultSetOnDiskCacheImpl.java:115-118 | true exactly when the key's file exists |
| Stores.OnDiskCache.Flush | src/main/kotlin/com/statewidesoftware/jdbc/cache/ResultSetOnDiskCacheImpl.kt:128-165 | the loop over the listing leaves exactly `Remaining`, taking each name's lock (Kotlin) and releasing it |
| Stores.OnDiskCache.FlushStatement | src/main/java/com/qwazr/jdbc/cache/ResultSetOnDiskCacheImpl.java:150-157 | `flush(stmt)` deletes exactly the statement's file, or raises `CheckKey`'s error and changes nothing |
| Stores.OnDiskCache.Size | src/main/java/com/qwazr/jdbc/cache/ResultSetOnDiskCacheImpl.java:159-167 | the counting loop returns the number of listed entries |
| Stores.OnDiskCache.Exists | src/main/kotlin/com/statewidesoftware/jdbc/cache/ResultSetOnDiskCacheImpl.kt:187-190 | `exists(stmt)` is whether the statement's file exists, or `CheckKey`'s error |
| Stores.OnDiskCache.ActiveFor | src/main/kotlin/io/github/jhstatewide/jdbc/cache/ResultSetCacheImpl.kt:63-66 | `active(stmt)` is always false, after `CheckKey`'s errors |
| CacheDriver.Route | src/main/java/com/qwazr/jdbc/cache/Driver.java:76-94 | the URL is not ours exactly when `acceptsURL` rejects it. The bare prefixes are "path/name is empty". Any other accepted URL is a prefix followed by a non-empty cache name |
| CacheDriver.RouteOfPrefixedName | src/main/java/com/statewidesoftware/jdbc/cache/Driver.kt:49-63 | a prefix followed by a non-empty name routes back to that prefix's store and name |
| CacheDriver.Property | src/main/java/com/qwazr/jdbc/cache/Driver.java:56-57 | `getProperty` is the stored value, null exactly when the name is not set |
| CacheDriver.BackendUrl | src/main/java/com/qwazr/jdbc/cache/Driver.java:68-70 | the backend is opened exactly when `cache.driver.url` is set and not empty |
| CacheDriver.GetCache | src/main/java/com/qwazr/jdbc/cache/Driver.java:124-128 | `getCache` refuses a connection of another driver, and otherwise returns the connection's store, null when inactive |
| CacheDriver.Driver.constructor | src/main/java/com/qwazr/jdbc/cache/Driver.java:48 | a new driver has an empty registry |
| CacheDriver.Driver.Connect | src/main/java/com/qwazr/jdbc/cache/Driver.java:50-97 | `connect` checks in the source's order: an unaccepted URL gives null and Kotlin refuses a null URL; an unloadable class raises; the backend is opened; an inactive cache gives a store-less connection; an empty name raises. A registered name reuses its store whatever its kind; otherwise a new store is registered under that one name, or the failure to open its directory leaves the registry unchanged |

## Left out

- The MD5 digest is a function parameter of the statement. The "MD5 is not available" error is therefore never raised.
- `String.getBytes()` and `toByteArray()` use the platform charset; the model takes it to be UTF-8.
- The `toString()` of parameter values is taken as given text. Arrays, and objects whose `toString` is not their value, are outside the model.
- The statewidesoftware `CachedStatement.kt`, parent of the Kotlin prepared statement, is not part of this model. The prepared statement's shared behaviour follows the jhstatewide `CachedStatement.kt`.
- The backend is abstract. The model knows whether there is a backend statement, a provider and a backend connection, the cells its getters yield, and whether a provider or getter fails. The values the backend returns to pass-through getters are `FromBackend`.
- `CachedConnection`, `CachedCallableStatement`, `DriverMap`, `JdbcCacheDriver`, the expiring cache, the event bus and the lock managers are outside the core and not modelled. So are `getPropertyInfo`, the version numbers and the static registration with `DriverManager`.
- `DriverManager.getConnection` and `Class.forName` are parameters of `Connect`. So is what lies at each cache path on disk.
- CacheDriver.Driver.Connect: the `IllegalArgumentException` branch ("Can not find cache implementation") cannot be reached after `acceptsURL` has succeeded; the model proves it dead.
- The file system is a map from file name to contents. I/O failures of writing, renaming, deleting and listing files are not modelled, nor is GZIP compression of the file stream. The in-memory and file streams carry the same bytes.
- Threads, locks and `ConcurrentHashMap.computeIfAbsent` under contention are not modelled. Each store's set of active keys is a ghost set that a build adds to and removes from.
- The `AtomicInteger` counter of `size()` is a plain integer.
- The base class's `checkIfExists` and `flush` are not modelled separately: both stores override them.
- `getFloat`, `getDouble` and `getBigDecimal` conversions from other kinds of value are not modelled: those getters raise `NotModelled` there. Float, double and `BigDecimal` values are carried as IEEE bit patterns.
- ResultSetReplay.StringOf: the `toString()` of a float, double, date, time or timestamp cell is not computed; those cells give `NotModelled`. `Float.toString`/`Double.toString` use a shortest-decimal algorithm outside this model, and the date and time texts depend on the JVM's default time zone. So the text "1.11" that `getString` gives for the test rows' DOUBLE column is not derived.
- ResultSetReplay.CachedResultSet.GetString: gives `NotModelled` on the same float, double, date, time and timestamp cells as `StringOf`.
- ResultSetReplay.CachedResultSet.GetClob: builds its clob from `StringOf`, so it gives `NotModelled` on the same cells.
- ResultSetReplay.IntegralOf: parses only ASCII text. A string cell holding other Unicode decimal digits, which `Character.digit` accepts, gives `NotModelled`. Float and double cells are converted in full.
- ResultSetReplay.CachedResultSet.GetIntegral: gives `NotModelled` for the same non-ASCII string cells as `IntegralOf`.
- ResultSetReplay.DateOf: does not model parsing a cell's text with `DateFormat.getDateInstance()`, which depends on locale and time zone. A string, boolean or time cell gives `NotModelled`.
- ResultSetReplay.TimeOf: does not model parsing with `DateFormat.getTimeInstance()`. A string, boolean, date or timestamp cell gives `NotModelled`.
- ResultSetReplay.TimestampOf: does not model parsing with `DateFormat.getDateTimeInstance()`. A string, boolean, date or time cell gives `NotModelled`.
- ResultSetReplay.CachedResultSet.GetDate: gives `NotModelled` on the text cells `DateOf` leaves out. Numbers, floats and doubles included, are converted in full.
- ResultSetReplay.CachedResultSet.GetTime: gives `NotModelled` on the text cells `TimeOf` leaves out.
- ResultSetReplay.CachedResultSet.GetTimestamp: gives `NotModelled` on the text cells `TimestampOf` leaves out.
- HexText.ParseHex: a digit outside ASCII gives `NotModelled`. `Character.digit(c, 16)` also accepts other Unicode decimal digits and the fullwidth letters A–F, and the model has no table of those.
- HexText.ParseHexBinary: gives `NotModelled` for the same non-ASCII digits as `ParseHex`.
- HexText.ParseHexBytes: states nothing about strings with non-ASCII characters; those give `NotModelled`.
- HexText.KotlinParseHex: a digit outside ASCII gives `NotModelled`. `Char.digitToIntOrNull(16)` also reads other Unicode digits, and the model has no table of those.
- HexText.KotlinParseHexBinary: gives `NotModelled` for the same non-ASCII digits as `KotlinParseHex`.
- HexText.ParseString: bytes that are not well-formed UTF-8 give `NotModelled`. `new String(bytes, UTF_8)` replaces each malformed sequence with U+FFFD instead, and that replacement is not modelled.
- HexText.KotlinParseString: malformed UTF-8 gives `NotModelled`, where Kotlin's `String(bytes)` substitutes U+FFFD.
- ResultSetCodec.WriteMetadata: every metadata string is a non-null Java string. A getter of the backend's `ResultSetMetaData` that returns null would make `writeUTF` throw `NullPointerException` (src/main/java/com/qwazr/jdbc/cache/ResultSetWriter.java:67-77, src/main/kotlin/io/github/jhstatewide/jdbc/cache/ResultSetWriter.kt:59-69), and neither that nor a getter that throws can be expressed.
- For the same reason, the `ColumnDef` datatype has no null metadata strings.
- After a failed cell read, the model does not say how far the stream advanced.
- ResultSetReplay.CachedResultSet.GetBoolean uses the corrected reading of numbers (see Findings). The as-written reading is `BooleanOf`.
- The Base64 helpers and any other `DatatypeConverter` members not listed above are not modelled.
- Stores.InMemoryCache.Get: the returned `CachedInMemoryResultSet` is shown as the bytes it is opened on. Opening them is `ResultSetReplay.Open`.

## Findings

| source | as written | input that shows it | evidently intended | confidence | as-written member | corrected member |
|---|---|---|---|---|---|---|
| src/main/kotlin/com/statewidesoftware/jdbc/cache/CachedResultSet.kt:135 | a `Number` cell is `true` when `toInt() == 0` | `getBoolean` on a cell holding `Int(1)` returns false, and on `Int(0)` returns true | the JDBC rule: 0 is false, any other number true | not executed | ResultSetReplay.BooleanOfZeroIsTrue | ResultSetReplay.BooleanOfIntendedFollowsJdbc |
| src/main/kotlin/io/github/jhstatewide/jdbc/cache/DatatypeConverter.kt:22 | each byte is `hi + lo`, with the high digit not shifted | `parseHexBinary("10")` gives `[0x01]`, so `parseHexBinary(printHexBinary([0x10])) != [0x10]` | `(hi shl 4) + lo`, as in the Java version | not executed | HexText.KotlinParseHexLosesHighDigit | HexText.ParseHexOfHex |
| src/main/java/com/qwazr/jdbc/cache/ClobString.java:38 | `substring(pos - 1, length)` uses the length as the end index | `getSubString(2, 2)` on `"abc"` gives `"b"` | up to `length` characters from `pos`: `"bc"` | not executed | Clobs.GetSubStringTreatsLengthAsEnd | Clobs.GetSubStringIntended |
