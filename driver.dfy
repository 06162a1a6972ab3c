/**
 * The JDBC `Driver`: which URLs it accepts, how `connect` reads its
 * properties, routes a URL to the on-disk or the in-memory store, and keeps
 * one store per cache name in a registry shared by both kinds.
 */
module CacheDriver {
  import opened Wrappers
  import opened JavaText
  import opened Jdbc
  import opened Statements
  import opened Stores

  const FilePrefix: JString := J("jdbc:cache:file:")
  const MemPrefix: JString := J("jdbc:cache:mem:")
  const DriverUrlProperty: JString := J("cache.driver.url")
  const DriverClassProperty: JString := J("cache.driver.class")
  const DriverActiveProperty: JString := J("cache.driver.active")

  /** `acceptsURL(url)`. */
  predicate AcceptsUrl(url: Option<JString>) {
    url.Some? && (StartsWith(url.value, FilePrefix) || StartsWith(url.value, MemPrefix))
  }

  /** Where `connect` sends an accepted URL, once the cache is active. */
  datatype Routing = FileCache(name: JString) | MemCache(name: JString) | PathIsEmpty | NameIsEmpty | NotOurs

  function Route(url: JString): (r: Routing)
    ensures r.NotOurs? <==> !AcceptsUrl(Some(url))
    ensures r.PathIsEmpty? <==> url == FilePrefix
    ensures r.NameIsEmpty? <==> url == MemPrefix
    ensures r.FileCache? ==> url == FilePrefix + r.name && r.name != []
    ensures r.MemCache? ==> url == MemPrefix + r.name && r.name != []
  {
    if StartsWith(url, FilePrefix) then
      if |url| <= |FilePrefix| then PathIsEmpty else FileCache(url[|FilePrefix|..])
    else if StartsWith(url, MemPrefix) then
      if |url| <= |MemPrefix| then NameIsEmpty else MemCache(url[|MemPrefix|..])
    else NotOurs
  }

  /** The name after either prefix is routed back to that prefix's store. */
  lemma RouteOfPrefixedName(name: JString)
    requires name != []
    ensures Route(FilePrefix + name) == FileCache(name)
    ensures Route(MemPrefix + name) == MemCache(name)
  {
    assert (FilePrefix + name)[..|FilePrefix|] == FilePrefix;
    assert (FilePrefix + name)[|FilePrefix|..] == name;
    assert (MemPrefix + name)[..|MemPrefix|] == MemPrefix;
    assert (MemPrefix + name)[|MemPrefix|..] == name;
    assert (MemPrefix + name)[11] != FilePrefix[11];
  }

  /** `Properties.getProperty(name)`. */
  function Property(info: map<JString, JString>, name: JString): (v: Option<JString>)
    ensures v.Some? <==> name in info
    ensures v.Some? ==> v.value == info[name]
  {
    if name in info then Some(info[name]) else None
  }

  /** The cache is active unless `cache.driver.active` is set to anything but "true". */
  predicate IsActive(info: map<JString, JString>) {
    var v := Property(info, DriverActiveProperty);
    v.None? || ParseBoolean(v.value)
  }

  /** The backend URL, when `cache.driver.url` is set and not empty. */
  function BackendUrl(info: map<JString, JString>): (u: Option<JString>)
    ensures u.Some? <==> DriverUrlProperty in info && info[DriverUrlProperty] != []
    ensures u.Some? ==> u.value == info[DriverUrlProperty]
  {
    var v := Property(info, DriverUrlProperty);
    if v.None? || v.value == [] then None else v
  }

  /** A store of either kind, as the registry holds it. */
  datatype Store = Disk(disk: OnDiskCache) | Memory(memory: InMemoryCache) {
    function Dialect(): Dialect {
      match this case Disk(c) => c.dialect case Memory(c) => c.dialect
    }
  }

  /** A `CachedConnection`: its backend connection (by URL) and its store, either may be null. */
  datatype Connection = Connection(backend: Option<JString>, cache: Option<Store>)

  /** The argument of `getCache`: a connection of another driver, or one of ours. */
  datatype ConnectionArg = ForeignConnection | Cached(connection: Connection)

  /**
   * `getCache(connection)`: "The connection is not a cached connection", or
   * the connection's store (null when the cache is inactive).
   */
  function GetCache(c: ConnectionArg): (r: Result<Option<Store>, SqlError>)
    ensures r.Err? <==> c.ForeignConnection?
    ensures r.Err? ==> r.error == NotCachedConnection
    ensures r.Ok? ==> r.value == c.connection.cache
  {
    match c
    case ForeignConnection => Err(NotCachedConnection)
    case Cached(conn) => Ok(conn.cache)
  }

  /** The `Driver`, in Java (`com.qwazr`) or in Kotlin, with its registry of stores by cache name. */
  class Driver {
    const dialect: Dialect
    var registry: map<JString, Store>

    /** Every registered store was made by this driver's generation. */
    predicate Valid()
      reads this
    {
      forall n | n in registry :: registry[n].Dialect() == dialect
    }

    constructor(dialect: Dialect)
      ensures Valid() && this.dialect == dialect && registry == map[]
    {
      this.dialect := dialect;
      registry := map[];
    }

    /**
     * `connect(url, info)`. The environment enters as parameters: which
     * classes load, which backend URLs connect, and what is at each cache
     * path. Steps, in order: a URL not accepted gives null (the Kotlin
     * `connect` refuses a null URL outright); a `cache.driver.class` that does not
     * load is "Cannot initialize the driver"; the backend is opened when
     * `cache.driver.url` is not empty; an inactive cache gives a connection
     * without a store and validates nothing more; an empty name after the
     * prefix is refused; otherwise the store registered under the name is
     * reused, whatever its kind, or a new one is created and registered.
     */
    method Connect(url: Option<JString>, info: map<JString, JString>, classLoads: JString -> bool,
                   backendConnects: JString -> bool, pathAt: JString -> Directory)
      returns (r: Result<Option<Connection>, SqlError>)
      requires Valid()
      modifies this`registry
      ensures Valid()
      ensures registry == old(registry) || (r.Ok? && r.value.Some? && r.value.value.cache.Some?
                                              && exists n :: n !in old(registry) && registry == old(registry)[n := r.value.value.cache.value])
      ensures url.None? && dialect == Kotlin ==> r == Err(NullPointer) && registry == old(registry)
      ensures !AcceptsUrl(url) && !(url.None? && dialect == Kotlin) ==> r == Ok(None) && registry == old(registry)
      ensures AcceptsUrl(url) ==>
        var cls := Property(info, DriverClassProperty);
        var backend := BackendUrl(info);
        if cls.Some? && cls.value != [] && !classLoads(cls.value) then
          r == Err(CannotInitializeDriver(cls.value)) && registry == old(registry)
        else if backend.Some? && !backendConnects(backend.value) then
          r == Err(BackendFailure) && registry == old(registry)
        else if !IsActive(info) then
          r == Ok(Some(Connection(backend, None))) && registry == old(registry)
        else match Route(url.value)
          case PathIsEmpty => r == Err(PathEmpty) && registry == old(registry)
          case NameIsEmpty => r == Err(NameEmpty) && registry == old(registry)
          case NotOurs => false
          case FileCache(name) =>
            if name in old(registry) then
              r == Ok(Some(Connection(backend, Some(old(registry)[name])))) && registry == old(registry)
            else (match pathAt(name)
              case Missing(creatable) =>
                if creatable then
                  name in registry && r.Ok? && r.value == Some(Connection(backend, Some(registry[name])))
                  && registry[name].Disk? && fresh(registry[name].disk) && registry[name].disk.files == map[]
                else r == Err(CannotCreateDirectory) && registry == old(registry)
              case NotADir => r == Err(NotADirectory) && registry == old(registry)
              case Dir(entries) =>
                name in registry && r.Ok? && r.value == Some(Connection(backend, Some(registry[name])))
                && registry[name].Disk? && fresh(registry[name].disk) && registry[name].disk.files == entries)
          case MemCache(name) =>
            if name in old(registry) then
              r == Ok(Some(Connection(backend, Some(old(registry)[name])))) && registry == old(registry)
            else
              name in registry && r.Ok? && r.value == Some(Connection(backend, Some(registry[name])))
              && registry[name].Memory? && fresh(registry[name].memory) && registry[name].memory.cache == map[]
    {
      if url.None? && dialect == Kotlin {
        return Err(NullPointer);
      }
      if !AcceptsUrl(url) {
        return Ok(None);
      }
      var cls := Property(info, DriverClassProperty);
      if cls.Some? && cls.value != [] && !classLoads(cls.value) {
        return Err(CannotInitializeDriver(cls.value));
      }
      var active := IsActive(info);
      var backend := BackendUrl(info);
      if backend.Some? && !backendConnects(backend.value) {
        return Err(BackendFailure);
      }
      if !active {
        return Ok(Some(Connection(backend, None)));
      }
      var route := Route(url.value);
      match route
      case PathIsEmpty => return Err(PathEmpty);
      case NameIsEmpty => return Err(NameEmpty);
      case NotOurs => assert false; return Err(NoCacheImplementation);
      case FileCache(name) =>
        if name !in registry {
          var made := OpenDirectory(dialect, pathAt(name));
          if made.Err? {
            return Err(made.error);
          }
          registry := registry[name := Disk(made.value)];
        }
        return Ok(Some(Connection(backend, Some(registry[name]))));
      case MemCache(name) =>
        if name !in registry {
          var store := new InMemoryCache(dialect);
          registry := registry[name := Memory(store)];
        }
        return Ok(Some(Connection(backend, Some(registry[name]))));
    }
  }
}
