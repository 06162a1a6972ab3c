/**
 * The cache stores: `ResultSetInMemoryCacheImpl` (key to encoded bytes) and
 * `ResultSetOnDiskCacheImpl` (a directory of files named by key), and what
 * they inherit from `ResultSetCacheImpl`. The directory is a map from file
 * name to content; the per-key locks are a ghost set that is empty whenever
 * a public method returns.
 */
module Stores {
  import opened Wrappers
  import opened JavaText
  import opened DataIo
  import opened Jdbc
  import opened ResultSetCodec
  import opened Statements

  /** What a `Provider` hands back: the backend's result set, null, or the backend's `SQLException`. */
  datatype Provided = ResultSetOf(table: Table) | NullResultSet | ProviderFailed

  /** A live result set has one cell per column in every row. */
  predicate Live(p: Provided) {
    p.ResultSetOf? ==> WellFormed(p.table)
  }

  /**
   * `ResultSetWriter.write` over what the provider gave: the stream
   * of a result set; a null result set fails on `getMetaData()`; a stream
   * failure becomes "Error while writing the ResultSet cache" and a backend
   * getter's exception passes through.
   */
  function Written(p: Provided): (r: Result<Bytes, SqlError>)
    requires Live(p)
    ensures r.Ok? <==> p.ResultSetOf? && Encode(p.table).Ok?
    ensures r.Ok? ==> r.value == Encode(p.table).value
    ensures p.NullResultSet? ==> r == Err(NullPointer)
    ensures p.ProviderFailed? ==> r == Err(BackendFailure)
  {
    match p
    case ProviderFailed => Err(BackendFailure)
    case NullResultSet => Err(NullPointer)
    case ResultSetOf(t) =>
      match Encode(t)
      case Ok(b) => Ok(b)
      case Err(CellIo(_)) => Err(WriteFailed)
      case Err(Getter(_)) => Err(BackendFailure)
  }

  /** The provider's call and the writer's loops, in the order a build runs them. */
  method WriteProvided(p: Provided) returns (r: Result<Bytes, SqlError>)
    requires Live(p)
    ensures r == Written(p)
  {
    match p
    case ProviderFailed => return Err(BackendFailure);
    case NullResultSet => return Err(NullPointer);
    case ResultSetOf(t) =>
      var b := ResultSetCodec.Write(t);
      match b
      case Ok(bytes) => return Ok(bytes);
      case Err(CellIo(_)) => return Err(WriteFailed);
      case Err(Getter(_)) => return Err(BackendFailure);
  }

  /** The statement argument of `flush(stmt)`, `exists(stmt)` and `active(stmt)`. */
  datatype StatementArg = NullStatement | OtherStatement | Cached(stmt: CachedStatement)

  /**
   * `checkKey(stmt)`: "The statement is null" for null, "The statement is not
   * cached" for any other kind of statement, else the statement's
   * memoised key, generated if it has none yet.
   */
  method CheckKey(arg: StatementArg) returns (r: Result<JString, SqlError>)
    modifies (if arg.Cached? then {arg.stmt} else {})`generatedKey
    ensures arg.NullStatement? ==> r == Err(StatementNull)
    ensures arg.OtherStatement? ==> r == Err(StatementNotCached)
    ensures arg.Cached? && old(arg.stmt.generatedKey).Some? ==>
      r == Ok(old(arg.stmt.generatedKey).value) && arg.stmt.generatedKey == old(arg.stmt.generatedKey)
    ensures arg.Cached? && old(arg.stmt.generatedKey).None? ==>
      r == old(arg.stmt.CurrentKey()) && arg.stmt.generatedKey == (if r.Ok? then Some(r.value) else None)
    ensures r.Ok? <==> arg.Cached? && arg.stmt.generatedKey.Some?
    ensures r.Ok? ==> arg.stmt.generatedKey == Some(r.value)
  {
    match arg
    case NullStatement => return Err(StatementNull);
    case OtherStatement => return Err(StatementNotCached);
    case Cached(s) => r := s.GetOrGenerateKey();
  }

  /**
   * `active()` of the base class both stores share: the size of its own lock
   * map, which no build ever fills (the builds lock on each store's map).
   */
  function Active(baseActiveKeys: set<JString>): (n: nat)
    requires baseActiveKeys == {}
    ensures n == 0
  {
    |baseActiveKeys|
  }

  // ---- in memory ----

  /** `ResultSetInMemoryCacheImpl`, in Java (`com.qwazr`) or in Kotlin. */
  class InMemoryCache {
    const dialect: Dialect
    var cache: map<JString, Bytes>
    ghost var activeKeys: set<JString>
    /** The base class's own lock map, which no code of either store fills. */
    const baseActiveKeys: set<JString>

    ghost predicate Valid()
      reads this
    {
      activeKeys == {} && baseActiveKeys == {}
    }

    constructor(dialect: Dialect)
      ensures Valid() && this.dialect == dialect && cache == map[]
    {
      this.dialect := dialect;
      cache := map[];
      activeKeys := {};
      baseActiveKeys := {};
    }

    /**
     * What a build stores: the written stream; the Kotlin store keeps an
     * empty array for a null result set.
     */
    function Built(p: Provided): (r: Result<Bytes, SqlError>)
      requires Live(p)
      ensures dialect == Kotlin && p.NullResultSet? ==> r == Ok([])
      ensures !(dialect == Kotlin && p.NullResultSet?) ==> r == Written(p)
    {
      if dialect == Kotlin && p.NullResultSet? then Ok([]) else Written(p)
    }

    /**
     * `get(statement, key, provider)`: a cached key is served without calling
     * the provider; a missing key with no provider is "No cache available";
     * otherwise the build runs under the key's lock, stores the bytes only
     * when it succeeds, and releases the lock on every path. The bytes
     * served are what the returned cursor reads.
     */
    method Get(key: JString, provider: Option<Provided>) returns (r: Result<Bytes, SqlError>)
      requires Valid() && (provider.Some? ==> Live(provider.value))
      modifies this`cache, this`activeKeys
      ensures Valid()
      ensures key in old(cache) ==> cache == old(cache) && r == Ok(old(cache)[key])
      ensures key !in old(cache) && provider.None? ==> cache == old(cache) && r == Err(NoCacheAvailable)
      ensures key !in old(cache) && provider.Some? ==>
        var b := Built(provider.value);
        (b.Ok? ==> cache == old(cache)[key := b.value] && r == b)
        && (b.Err? ==> cache == old(cache) && r == b)
    {
      if key !in cache {
        if provider.None? {
          return Err(NoCacheAvailable);
        }
        activeKeys := activeKeys + {key};
        var b: Result<Bytes, SqlError>;
        if dialect == Kotlin && provider.value.NullResultSet? {
          b := Ok([]);
        } else {
          b := WriteProvided(provider.value);
        }
        if b.Ok? {
          cache := cache[key := b.value];
        }
        activeKeys := activeKeys - {key};
        if b.Err? {
          return Err(b.error);
        }
      }
      return Ok(cache[key]);
    }

    /** `checkIfExists(key)`. */
    function CheckIfExists(key: JString): (r: bool)
      reads this
      ensures r <==> key in cache
    {
      key in cache
    }

    /** `flush()`: every entry goes. */
    method Flush()
      modifies this`cache
      ensures cache == map[]
    {
      cache := map[];
    }

    /** `flush(stmt)`: only the statement's key goes. */
    method FlushStatement(arg: StatementArg) returns (r: Result<(), SqlError>)
      modifies this`cache, (if arg.Cached? then {arg.stmt} else {})`generatedKey
      ensures r.Ok? <==> arg.Cached? && arg.stmt.generatedKey.Some?
      ensures r.Ok? ==> cache == old(cache) - {arg.stmt.generatedKey.value}
      ensures r.Err? ==> cache == old(cache)
    {
      var key := CheckKey(arg);
      if key.Err? {
        return Err(key.error);
      }
      cache := cache - {key.value};
      return Ok(());
    }

    /** `size()`. */
    function Size(): (n: nat)
      reads this
      ensures n == |cache.Keys|
    {
      |cache|
    }

    /** `exists(stmt)`: whether the statement's key is cached. */
    method Exists(arg: StatementArg) returns (r: Result<bool, SqlError>)
      modifies (if arg.Cached? then {arg.stmt} else {})`generatedKey
      ensures r.Ok? <==> arg.Cached? && arg.stmt.generatedKey.Some?
      ensures r.Ok? ==> r.value == (arg.stmt.generatedKey.value in cache)
    {
      var key := CheckKey(arg);
      if key.Err? {
        return Err(key.error);
      }
      return Ok(key.value in cache);
    }

    /** `active(stmt)`: membership in the base class's empty lock map, false once the key is known. */
    method ActiveFor(arg: StatementArg) returns (r: Result<bool, SqlError>)
      requires Valid()
      modifies (if arg.Cached? then {arg.stmt} else {})`generatedKey
      ensures r.Ok? ==> !r.value
    {
      var key := CheckKey(arg);
      if key.Err? {
        return Err(key.error);
      }
      return Ok(key.value in baseActiveKeys);
    }
  }

  // ---- on disk ----

  /** The name a build writes first: the key with ".tmp" appended. */
  function TempName(key: JString): (n: JString)
    ensures n != key && |n| == |key| + 4
  {
    key + TmpSuffix
  }

  /**
   * The entries `parse` skips: in Java `Path.endsWith(".tmp")` compares
   * whole name elements, so only a file named exactly ".tmp"; in Kotlin
   * every name that ends with ".tmp".
   */
  predicate Skipped(d: Dialect, name: JString) {
    match d
    case Java => name == TmpSuffix
    case Kotlin => EndsWith(name, TmpSuffix)
  }

  /** The entries `size()` counts and `flush()` deletes. */
  function Listed(d: Dialect, files: map<JString, Bytes>): set<JString> {
    set n | n in files && !Skipped(d, n)
  }

  /** The directory `flush()` leaves: the skipped entries only. */
  function Remaining(d: Dialect, files: map<JString, Bytes>): (m: map<JString, Bytes>)
    ensures forall n :: n in m <==> n in files && Skipped(d, n)
    ensures forall n | n in m :: m[n] == files[n]
  {
    map n | n in files && Skipped(d, n) :: files[n]
  }

  /** Crossing one name off the names still to visit adds it to the count when it is listed. */
  lemma CountStep(listed: set<JString>, names: set<JString>, name: JString)
    requires name in names
    ensures |listed - (names - {name})| == |listed - names| + (if name in listed then 1 else 0)
  {
    if name in listed {
      assert listed - (names - {name}) == (listed - names) + {name};
    } else {
      assert listed - (names - {name}) == listed - names;
    }
  }

  /** After `flush()`, `size()` is 0. */
  lemma FlushEmptiesListing(d: Dialect, files: map<JString, Bytes>)
    ensures Listed(d, Remaining(d, files)) == {}
  {
    var r := Remaining(d, files);
    forall n | n in r ensures Skipped(d, n) {
    }
  }

  /**
   * A temp file left next to an entry: Java counts it as an entry (its name
   * is not ".tmp"), Kotlin does not.
   */
  lemma TempFilesCountInJavaOnly(key: JString, a: Bytes, b: Bytes)
    requires key != []
    ensures var files := map[key := a, TempName(key) := b];
      TempName(key) in Listed(Java, files) && TempName(key) !in Listed(Kotlin, files)
  {
    var t := TempName(key);
    assert t[|t| - 4..] == TmpSuffix;
    assert |t| > |TmpSuffix|;
  }

  /** How an on-disk build ends. */
  datatype Publication = Published(bytes: Bytes) | NothingPublished | BuildFailed(error: SqlError)

  /**
   * The directory after a build: `key` holds the stream only when one was
   * published, every other entry is as before, and no `key.tmp` is left.
   */
  function Installed(files: map<JString, Bytes>, key: JString, pub: Publication): (m: map<JString, Bytes>)
    ensures TempName(key) !in m
    ensures key in m <==> pub.Published? || key in files
    ensures pub.Published? ==> m[key] == pub.bytes
    ensures forall n | n != key && n != TempName(key) :: (n in m <==> n in files) && (n in m ==> m[n] == files[n])
  {
    match pub
    case Published(b) => (files - {TempName(key)})[key := b]
    case _ => files - {TempName(key)}
  }

  /** Writing `tmp`, moving it over `key` and deleting `tmp` again leaves `key` with the bytes and no `tmp`. */
  lemma MoveOver<K, V>(files: map<K, V>, tmp: K, key: K, b: V)
    requires tmp != key
    ensures ((files[tmp := b] - {tmp})[key := b]) - {tmp} == (files - {tmp})[key := b]
  {
  }

  /** The state of the cache path before the store is created. */
  datatype Directory = Missing(creatable: bool) | NotADir | Dir(entries: map<JString, Bytes>)

  /**
   * The `ResultSetOnDiskCacheImpl` constructor: a missing directory is
   * created (or the creation fails), then anything that is not a directory
   * is refused.
   */
  method OpenDirectory(d: Dialect, dir: Directory) returns (r: Result<OnDiskCache, SqlError>)
    ensures dir.Missing? && !dir.creatable ==> r == Err(CannotCreateDirectory)
    ensures dir.NotADir? ==> r == Err(NotADirectory)
    ensures dir.Missing? && dir.creatable ==>
      r.Ok? && fresh(r.value) && r.value.Valid() && r.value.dialect == d && r.value.files == map[]
    ensures dir.Dir? ==>
      r.Ok? && fresh(r.value) && r.value.Valid() && r.value.dialect == d && r.value.files == dir.entries
  {
    match dir
    case Missing(creatable) =>
      if !creatable {
        return Err(CannotCreateDirectory);
      }
      var c := new OnDiskCache(d, map[]);
      return Ok(c);
    case NotADir => return Err(NotADirectory);
    case Dir(entries) =>
      var c := new OnDiskCache(d, entries);
      return Ok(c);
  }

  /** `ResultSetOnDiskCacheImpl`, in Java (`com.qwazr`) or in Kotlin, over the files of its directory. */
  class OnDiskCache {
    const dialect: Dialect
    var files: map<JString, Bytes>
    ghost var activeKeys: set<JString>
    /** The base class's own lock map, which no code of either store fills. */
    const baseActiveKeys: set<JString>

    ghost predicate Valid()
      reads this
    {
      activeKeys == {} && baseActiveKeys == {}
    }

    constructor(dialect: Dialect, entries: map<JString, Bytes>)
      ensures Valid() && this.dialect == dialect && files == entries
    {
      this.dialect := dialect;
      files := entries;
      activeKeys := {};
      baseActiveKeys := {};
    }

    /**
     * What a build publishes: the written stream; the Kotlin store
     * publishes nothing for a null result set.
     */
    function Publish(p: Provided): (r: Publication)
      requires Live(p)
      ensures dialect == Kotlin && p.NullResultSet? ==> r == NothingPublished
      ensures !(dialect == Kotlin && p.NullResultSet?) ==>
        (Written(p).Ok? ==> r == Published(Written(p).value))
        && (Written(p).Err? ==> r == BuildFailed(Written(p).error))
    {
      if dialect == Kotlin && p.NullResultSet? then NothingPublished
      else match Written(p) case Ok(b) => Published(b) case Err(e) => BuildFailed(e)
    }

    /**
     * What `get` serves once the entry is built: the Kotlin store returns
     * null for a null statement; opening a file that is not there is "Can
     * not read cache".
     */
    function Serve(key: JString, statementIsNull: bool): (r: Result<Option<Bytes>, SqlError>)
      reads this
      ensures dialect == Kotlin && statementIsNull ==> r == Ok(None)
      ensures !(dialect == Kotlin && statementIsNull) ==>
        (key in files ==> r == Ok(Some(files[key]))) && (key !in files ==> r == Err(CanNotReadCache))
    {
      if dialect == Kotlin && statementIsNull then Ok(None)
      else if key in files then Ok(Some(files[key]))
      else Err(CanNotReadCache)
    }

    /**
     * A build under the key's lock: the stream is written to `key.tmp`, moved
     * over `key` with replace, and `key.tmp` is deleted whatever happened;
     * the Kotlin store deletes `key.tmp` and writes nothing for a null result.
     */
    method Build(key: JString, p: Provided) returns (pub: Publication)
      requires Valid() && Live(p)
      modifies this`files, this`activeKeys
      ensures Valid() && pub == Publish(p)
      ensures files == Installed(old(files), key, pub)
    {
      activeKeys := activeKeys + {key};
      var tmp := TempName(key);
      ghost var before := files;
      pub := WriteOut(p);
      if pub.Published? {
        files := files[tmp := pub.bytes];
        files := (files - {tmp})[key := pub.bytes];
        MoveOver(before, tmp, key, pub.bytes);
      }
      files := files - {tmp};
      activeKeys := activeKeys - {key};
    }

    /** The stream a build writes, or why it wrote none. */
    method WriteOut(p: Provided) returns (pub: Publication)
      requires Live(p)
      ensures pub == Publish(p)
    {
      if dialect == Kotlin && p.NullResultSet? {
        return NothingPublished;
      }
      var b := WriteProvided(p);
      match b
      case Ok(bytes) => return Published(bytes);
      case Err(e) => return BuildFailed(e);
    }

    /**
     * `get(statement, key, provider)`: a present file is served as it is; a
     * missing one with no provider is "No cache available"; otherwise the
     * build runs and its failure, if any, is what `get` reports.
     */
    method Get(key: JString, provider: Option<Provided>, statementIsNull: bool) returns (r: Result<Option<Bytes>, SqlError>)
      requires Valid() && (provider.Some? ==> Live(provider.value))
      modifies this`files, this`activeKeys
      ensures Valid()
      ensures key in old(files) ==> files == old(files) && r == Serve(key, statementIsNull)
      ensures key !in old(files) && provider.None? ==> files == old(files) && r == Err(NoCacheAvailable)
      ensures key !in old(files) && provider.Some? ==>
        var pub := Publish(provider.value);
        files == Installed(old(files), key, pub)
        && r == (if pub.BuildFailed? then Err(pub.error) else Serve(key, statementIsNull))
    {
      if key !in files {
        if provider.None? {
          return Err(NoCacheAvailable);
        }
        var pub := Build(key, provider.value);
        if pub.BuildFailed? {
          return Err(pub.error);
        }
      }
      r := Serve(key, statementIsNull);
    }

    /** `checkIfExists(key)`: whether a file named `key` is present. */
    function CheckIfExists(key: JString): (r: bool)
      reads this
      ensures r <==> key in files
    {
      key in files
    }

    /**
     * `flush()`: `parse` lists the directory and deletes each entry it does
     * not skip; the Kotlin `parse` takes each name's lock around the delete.
     */
    method Flush()
      requires Valid()
      modifies this`files, this`activeKeys
      ensures Valid()
      ensures files == Remaining(dialect, old(files))
    {
      var names := files.Keys;
      ghost var before := files;
      while names != {}
        invariant Valid() && names <= before.Keys
        invariant forall n :: n in files <==> n in before && (n in names || Skipped(dialect, n))
        invariant forall n | n in files :: files[n] == before[n]
        decreases |names|
      {
        var n :| n in names;
        if !Skipped(dialect, n) {
          if dialect == Kotlin {
            activeKeys := activeKeys + {n};
          }
          files := files - {n};
          activeKeys := activeKeys - {n};
        }
        names := names - {n};
      }
      assert files == Remaining(dialect, before);
    }

    /** `flush(stmt)`: only the file named by the statement's key goes. */
    method FlushStatement(arg: StatementArg) returns (r: Result<(), SqlError>)
      modifies this`files, (if arg.Cached? then {arg.stmt} else {})`generatedKey
      ensures r.Ok? <==> arg.Cached? && arg.stmt.generatedKey.Some?
      ensures r.Ok? ==> files == old(files) - {arg.stmt.generatedKey.value}
      ensures r.Err? ==> files == old(files)
    {
      var key := CheckKey(arg);
      if key.Err? {
        return Err(key.error);
      }
      files := files - {key.value};
      return Ok(());
    }

    /** `size()`: the entries `parse` does not skip, counted one by one. */
    method Size() returns (n: nat)
      requires Valid()
      modifies this`activeKeys
      ensures Valid()
      ensures n == |Listed(dialect, files)|
    {
      var names := files.Keys;
      ghost var listed := Listed(dialect, files);
      n := 0;
      while names != {}
        invariant Valid() && names <= files.Keys
        invariant n == |listed - names|
        decreases |names|
      {
        var name :| name in names;
        CountStep(listed, names, name);
        if !Skipped(dialect, name) {
          if dialect == Kotlin {
            activeKeys := activeKeys + {name};
          }
          n := n + 1;
          activeKeys := activeKeys - {name};
        }
        names := names - {name};
      }
      assert listed - names == listed;
    }

    /** `exists(stmt)`: whether a file named by the statement's key is present. */
    method Exists(arg: StatementArg) returns (r: Result<bool, SqlError>)
      modifies (if arg.Cached? then {arg.stmt} else {})`generatedKey
      ensures r.Ok? <==> arg.Cached? && arg.stmt.generatedKey.Some?
      ensures r.Ok? ==> r.value == (arg.stmt.generatedKey.value in files)
    {
      var key := CheckKey(arg);
      if key.Err? {
        return Err(key.error);
      }
      return Ok(key.value in files);
    }

    /** `active(stmt)`: membership in the base class's empty lock map. */
    method ActiveFor(arg: StatementArg) returns (r: Result<bool, SqlError>)
      requires Valid()
      modifies (if arg.Cached? then {arg.stmt} else {})`generatedKey
      ensures r.Ok? ==> !r.value
    {
      var key := CheckKey(arg);
      if key.Err? {
        return Err(key.error);
      }
      return Ok(key.value in baseActiveKeys);
    }
  }
}
