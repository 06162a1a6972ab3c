/**
 * `CachedStatement` and `CachedPreparedStatement`: how a statement turns
 * its SQL text, and for a prepared statement its bound parameters, into
 * the key it looks up in the cache, and what it asks of the cache and of
 * the backend statement.
 */
module Statements {
  import opened Wrappers
  import opened JavaText
  import opened DataIo
  import opened Jdbc
  import Utf8
  import HexText

  /**
   * The generation of the statement: the Java one (`com.qwazr`) dereferences
   * its cache unconditionally and keys on uppercase hex; the Kotlin ones
   * guard the cache with `?.` and key on lowercase hex plus an extension.
   */
  datatype Dialect = Java | Kotlin

  /** `JDBC_CACHE_EXTENSION`. */
  const Extension: JString := J(".jdbc_cache")

  /** The suffix of the temporary file a build writes before moving it into place. */
  const TmpSuffix: JString := J(".tmp")

  /** The separator the prepared key text puts before each parameter: U+2022 BULLET. */
  const Bullet: JChar := 0x2022

  /**
   * `generateCacheKey(src)`: the hex of the digest of the bytes of `src`
   * (`getBytes()` in Java, `toByteArray()` in Kotlin, both taken as UTF-8),
   * uppercase in Java, lowercase with `.jdbc_cache` appended in Kotlin. The
   * digest (MD5) is a parameter.
   */
  function CacheKey(d: Dialect, digest: Bytes -> Bytes, src: JString): (key: JString) {
    var hash := digest(Utf8.Encode(src));
    match d
    case Java => HexText.UpperHex(hash)
    case Kotlin => HexText.Hex(hash) + Extension
  }

  /**
   * A key gives its digest back: the Java key is exactly the hex of the
   * digest, the Kotlin key is that hex followed by the extension.
   */
  lemma CacheKeyRecoversDigest(d: Dialect, digest: Bytes -> Bytes, src: JString)
    ensures var key := CacheKey(d, digest, src);
      var hash := digest(Utf8.Encode(src));
      (d == Java ==> |key| == 2 * |hash| && HexText.ParseHex(key) == Ok(hash))
      && (d == Kotlin ==>
            |key| == 2 * |hash| + |Extension| && EndsWith(key, Extension)
            && HexText.ParseHex(key[..2 * |hash|]) == Ok(hash))
  {
    var key := CacheKey(d, digest, src);
    var hash := digest(Utf8.Encode(src));
    match d
    case Java => HexText.ParseHexOfUpperHex(hash);
    case Kotlin =>
      assert key[..2 * |hash|] == HexText.Hex(hash);
      assert key[|key| - |Extension|..] == Extension;
      HexText.ParseHexOfHex(hash);
  }

  /** Two texts share a key exactly when their digests agree: the hex adds no collisions. */
  lemma SameKeySameDigest(d: Dialect, digest: Bytes -> Bytes, a: JString, b: JString)
    ensures CacheKey(d, digest, a) == CacheKey(d, digest, b) <==>
      digest(Utf8.Encode(a)) == digest(Utf8.Encode(b))
  {
    CacheKeyRecoversDigest(d, digest, a);
    CacheKeyRecoversDigest(d, digest, b);
  }

  /** A Kotlin key never ends with ".tmp", so name-based temp-file filtering never hides an entry. */
  lemma KotlinKeyIsNotTemporary(digest: Bytes -> Bytes, src: JString)
    ensures !EndsWith(CacheKey(Kotlin, digest, src), TmpSuffix)
  {
    var key := CacheKey(Kotlin, digest, src);
    CacheKeyRecoversDigest(Kotlin, digest, src);
    assert key[|key| - 1] == Extension[|Extension| - 1] == 'e' as int;
  }

  // ---- the prepared key text ----

  /** The bound parameters: index to `value.toString()`, `None` for a null object. */
  type Params = map<Int32, Option<JString>>

  /** The smallest index, the one a `TreeMap` visits first. */
  ghost function MinIndex(ks: set<Int32>): (m: Int32)
    requires ks != {}
    ensures m in ks && forall k | k in ks :: m <= k
  {
    var x :| x in ks;
    if ks == {x} then
      assert forall k | k in ks :: k == x;
      x
    else
      var y := MinIndex(ks - {x});
      assert forall k | k in ks :: k == x || k in ks - {x};
      if x <= y then x else y
  }


  /** What one parameter appends: the bullet, `Integer.toString(index)`, then the value. */
  function Entry(index: Int32, value: JString): JString {
    [Bullet] + DecimalText(index) + value
  }

  /**
   * The parameters in ascending index order, as `TreeMap.forEach` visits
   * them; a null value fails on `toString()`.
   */
  ghost function Entries(ps: Params): Result<JString, SqlError>
    decreases |ps|
  {
    if ps == map[] then Ok([])
    else
      var k := MinIndex(ps.Keys);
      match ps[k]
      case None => Err(NullPointer)
      case Some(v) => Ahead(Entry(k, v), Entries(ps - {k}))
  }

  /** The text a prepared statement hashes: the SQL, then its parameters; a null SQL fails. */
  ghost function KeyText(sql: Option<JString>, ps: Params): Result<JString, SqlError> {
    match sql case None => Err(NullPointer) case Some(s) => Ahead(s, Entries(ps))
  }

  /** `generateKey` of a prepared statement: the `StringBuilder` fed by `parameters.forEach`. */
  method BuildKeyText(sql: Option<JString>, ps: Params) returns (r: Result<JString, SqlError>)
    ensures r == KeyText(sql, ps)
  {
    if sql.None? {
      return Err(NullPointer);
    }
    var sb := sql.value;
    var rest := ps;
    while rest != map[]
      invariant KeyText(sql, ps) == Ahead(sb, Entries(rest))
      decreases |rest|
    {
      ghost var m := MinIndex(rest.Keys);
      var k :| k in rest && forall j | j in rest :: k <= j;
      assert k == m;
      var value := rest[k];
      if value.None? {
        return Err(NullPointer);
      }
      var e := Entry(k, value.value);
      AheadAhead(sb, e, Entries(rest - {k}));
      sb := sb + e;
      rest := rest - {k};
    }
    assert sb + [] == sb;
    return Ok(sb);
  }

  /** With nothing bound, a prepared statement hashes its SQL alone, as a plain statement does. */
  lemma UnboundKeyTextIsSql(sql: JString)
    ensures KeyText(Some(sql), map[]) == Ok(sql)
  {
    assert sql + [] == sql;
  }

  /**
   * Binding an index larger than every bound one appends its entry at the
   * end, whatever order the earlier ones were bound in: the text lists the
   * parameters by ascending index.
   */
  lemma {:induction false} EntriesAppendLargest(ps: Params, k: Int32, v: JString)
    requires forall j | j in ps :: j < k
    ensures Entries(ps[k := Some(v)]) ==
      match Entries(ps) case Err(e) => Err(e) case Ok(t) => Ok(t + Entry(k, v))
    decreases |ps|
  {
    var qs := ps[k := Some(v)];
    if ps == map[] {
      assert qs.Keys == {k};
      assert MinIndex(qs.Keys) == k;
      assert qs - {k} == map[];
      assert Entry(k, v) + [] == Entry(k, v) == [] + Entry(k, v);
    } else {
      var m := MinIndex(ps.Keys);
      ExtendedKeepsMinimum(ps, k, v);
      EntriesAppendLargest(ps - {m}, k, v);
      assert Entries(qs) == match qs[m] case None => Err(NullPointer) case Some(w) => Ahead(Entry(m, w), Entries(qs - {m}));
      match ps[m]
      case None =>
      case Some(w) =>
        match Entries(ps - {m})
        case Err(_) =>
        case Ok(t) => assert Entry(m, w) + (t + Entry(k, v)) == (Entry(m, w) + t) + Entry(k, v);
    }
  }

  /** Binding a larger index keeps the smallest one, and removing that one commutes with the binding. */
  lemma ExtendedKeepsMinimum(ps: Params, k: Int32, v: JString)
    requires ps != map[] && forall j | j in ps :: j < k
    ensures var m := MinIndex(ps.Keys);
      MinIndex(ps[k := Some(v)].Keys) == m && m != k && ps[k := Some(v)][m] == ps[m]
      && ps[k := Some(v)] - {m} == (ps - {m})[k := Some(v)]
  {
    var qs := ps[k := Some(v)];
    var m := MinIndex(ps.Keys);
    var n := MinIndex(qs.Keys);
    assert m in qs.Keys && n <= m < k;
    assert n in ps.Keys;
    assert (qs - {m}).Keys == (ps - {m}).Keys + {k};
    assert qs - {m} == (ps - {m})[k := Some(v)];
  }

  /**
   * The text is ambiguous: index 1 bound to "23" and index 12 bound to "3"
   * give the same text, so the same key.
   */
  lemma AmbiguousParameters(sql: JString)
    ensures KeyText(Some(sql), map[1 := Some(J("23"))]) == KeyText(Some(sql), map[12 := Some(J("3"))])
  {
    var a: Params := map[1 := Some(J("23"))];
    var b: Params := map[12 := Some(J("3"))];
    assert a.Keys == {1} && MinIndex(a.Keys) == 1 && a - {1} == map[];
    assert b.Keys == {12} && MinIndex(b.Keys) == 12 && b - {12} == map[];
    assert DecimalText(1) == J("1");
    assert DecimalText(12) == J("12");
    assert Entry(1, J("23")) == Entry(12, J("3"));
  }

  // ---- the statement ----

  /** The settings a statement stores locally when it has no backend. */
  datatype Setting = MaxFieldSize | MaxRows | QueryTimeout | FetchDirection | FetchSize

  /** A getter's answer: the backend statement's own value, or the one stored locally. */
  datatype Answer<T> = FromBackend | Local(value: T)

  /** What a statement asks of its cache: nothing (no cache), or `get(this, key, provider)`. */
  datatype CacheCall = NoCall | CacheGet(key: JString, withProvider: bool)

  /** How `execute` ends: the key is cached (true), or the backend's own `execute`. */
  datatype Execution = FoundInCache | OnBackend

  /** The message `execute` raises when neither the cache nor a backend can answer. */
  const NoCacheEntry: JString := J("No cache entry")

  /**
   * A cached statement, plain or prepared. The backend statement and the
   * cache are only known to be present or absent; their own behaviour is
   * outside the model.
   */
  class CachedStatement {
    const dialect: Dialect
    const digest: Bytes -> Bytes
    const hasCache: bool
    const hasBackend: bool
    const prepared: bool
    const resultSetConcurrency: Int32
    const resultSetType: Int32
    const resultSetHoldability: Int32

    var executedSql: Option<JString>
    var generatedKey: Option<JString>
    var parameters: Params
    var local: map<Setting, Int32>
    var closed: bool
    var poolable: bool
    var closeOnCompletion: bool

    /** Every setting has a stored value. */
    ghost predicate Valid()
      reads this
    {
      forall s: Setting :: s in local
    }

    /** The plain statement: every setting 0, every flag false, no SQL and no key yet. */
    constructor Plain(dialect: Dialect, digest: Bytes -> Bytes, hasCache: bool, hasBackend: bool,
                      concurrency: Int32, resultSetType: Int32, holdability: Int32)
      ensures Valid() && !prepared
      ensures this.dialect == dialect && this.digest == digest
      ensures this.hasCache == hasCache && this.hasBackend == hasBackend
      ensures resultSetConcurrency == concurrency && this.resultSetType == resultSetType
      ensures resultSetHoldability == holdability
      ensures executedSql == None && generatedKey == None && parameters == map[]
      ensures forall s: Setting :: local[s] == 0
      ensures !closed && !poolable && !closeOnCompletion
    {
      this.dialect, this.digest, this.hasCache, this.hasBackend := dialect, digest, hasCache, hasBackend;
      prepared := false;
      resultSetConcurrency, this.resultSetType, resultSetHoldability := concurrency, resultSetType, holdability;
      executedSql, generatedKey, parameters := None, None, map[];
      local := map[MaxFieldSize := 0, MaxRows := 0, QueryTimeout := 0, FetchDirection := 0, FetchSize := 0];
      closed, poolable, closeOnCompletion := false, false, false;
      new;
      forall s: Setting ensures s in local && local[s] == 0 {
        match s
        case MaxFieldSize => case MaxRows => case QueryTimeout => case FetchDirection => case FetchSize =>
      }
    }

    /** The prepared statement: as the plain one, with the prepared SQL and an empty parameter map. */
    constructor Prepared(dialect: Dialect, digest: Bytes -> Bytes, hasCache: bool, hasBackend: bool,
                         sql: Option<JString>, concurrency: Int32, resultSetType: Int32, holdability: Int32)
      ensures Valid() && prepared
      ensures this.dialect == dialect && this.digest == digest
      ensures this.hasCache == hasCache && this.hasBackend == hasBackend
      ensures resultSetConcurrency == concurrency && this.resultSetType == resultSetType
      ensures resultSetHoldability == holdability
      ensures executedSql == sql && generatedKey == None && parameters == map[]
      ensures forall s: Setting :: local[s] == 0
      ensures !closed && !poolable && !closeOnCompletion
    {
      this.dialect, this.digest, this.hasCache, this.hasBackend := dialect, digest, hasCache, hasBackend;
      prepared := true;
      resultSetConcurrency, this.resultSetType, resultSetHoldability := concurrency, resultSetType, holdability;
      executedSql, generatedKey, parameters := sql, None, map[];
      local := map[MaxFieldSize := 0, MaxRows := 0, QueryTimeout := 0, FetchDirection := 0, FetchSize := 0];
      closed, poolable, closeOnCompletion := false, false, false;
      new;
      forall s: Setting ensures s in local && local[s] == 0 {
        match s
        case MaxFieldSize => case MaxRows => case QueryTimeout => case FetchDirection => case FetchSize =>
      }
    }

    /**
     * `checkBackendStatement(error)`: the backend when there is one; else a
     * plain `SQLException` with the given message, or
     * `SQLFeatureNotSupportedException` when none is given.
     */
    function CheckBackendStatement(error: Option<JString>): (r: Result<(), SqlError>)
      ensures r.Ok? <==> hasBackend
      ensures !hasBackend && error.None? ==> r == Err(FeatureNotSupported)
      ensures !hasBackend && error.Some? ==> r == Err(Message(error.value))
    {
      if hasBackend then Ok(())
      else match error case None => Err(FeatureNotSupported) case Some(m) => Err(Message(m))
    }

    /** The text `generateKey` hashes: `executedSql`, or for a prepared statement the key text. */
    ghost function KeySource(): Result<JString, SqlError>
      reads this
    {
      if prepared then KeyText(executedSql, parameters)
      else match executedSql case None => Err(NullPointer) case Some(s) => Ok(s)
    }

    /** The key `generateKey` would compute now. */
    ghost function CurrentKey(): Result<JString, SqlError>
      reads this
    {
      match KeySource() case Err(e) => Err(e) case Ok(t) => Ok(CacheKey(dialect, digest, t))
    }

    /** `generateKey`: store the key of the current text; on failure the old key stays. */
    method GenerateKey() returns (r: Result<JString, SqlError>)
      modifies this`generatedKey
      ensures r == CurrentKey()
      ensures generatedKey == if r.Ok? then Some(r.value) else old(generatedKey)
    {
      var text: Result<JString, SqlError>;
      if prepared {
        text := BuildKeyText(executedSql, parameters);
      } else if executedSql.None? {
        text := Err(NullPointer);
      } else {
        text := Ok(executedSql.value);
      }
      if text.Err? {
        return Err(text.error);
      }
      var key := CacheKey(dialect, digest, text.value);
      generatedKey := Some(key);
      return Ok(key);
    }

    /**
     * `getOrGenerateKey` / `orGenerateKey`: a stored key is returned as it
     * is, even if the SQL or the parameters changed since; only a missing
     * key is generated.
     */
    method GetOrGenerateKey() returns (r: Result<JString, SqlError>)
      modifies this`generatedKey
      ensures old(generatedKey).Some? ==> r == Ok(old(generatedKey).value) && generatedKey == old(generatedKey)
      ensures old(generatedKey).None? ==> r == CurrentKey() && generatedKey == if r.Ok? then Some(r.value) else None
    {
      if generatedKey.Some? {
        return Ok(generatedKey.value);
      }
      r := GenerateKey();
    }

    /** The call into the cache after the key is known; the Java statement dereferences a null cache. */
    function CacheCallFor(key: JString): (r: Result<CacheCall, SqlError>)
      ensures hasCache ==> r == Ok(CacheGet(key, hasBackend))
      ensures !hasCache && dialect == Java ==> r == Err(NullPointer)
      ensures !hasCache && dialect == Kotlin ==> r == Ok(NoCall)
    {
      if hasCache then Ok(CacheGet(key, hasBackend))
      else if dialect == Java then Err(NullPointer)
      else Ok(NoCall)
    }

    /**
     * `executeQuery(sql)`: record the SQL, regenerate the key, and ask the
     * cache for it, with a provider exactly when there is a backend.
     */
    method ExecuteQuery(sql: JString) returns (r: Result<CacheCall, SqlError>)
      modifies this`executedSql, this`generatedKey
      ensures executedSql == Some(sql)
      ensures var key := CurrentKey();
        (key.Err? ==> r == Err(key.error) && generatedKey == old(generatedKey))
        && (key.Ok? ==> generatedKey == Some(key.value) && r == CacheCallFor(key.value))
    {
      executedSql := Some(sql);
      var key := GenerateKey();
      if key.Err? {
        return Err(key.error);
      }
      return CacheCallFor(key.value);
    }

    /** `executeQuery()` of a prepared statement: the same over the prepared SQL and the parameters. */
    method ExecuteQueryPrepared() returns (r: Result<CacheCall, SqlError>)
      requires prepared
      modifies this`generatedKey
      ensures var key := old(CurrentKey());
        (key.Err? ==> r == Err(key.error) && generatedKey == old(generatedKey))
        && (key.Ok? ==> generatedKey == Some(key.value) && r == CacheCallFor(key.value))
    {
      var key := GenerateKey();
      if key.Err? {
        return Err(key.error);
      }
      return CacheCallFor(key.value);
    }

    /** `getResultSet()`: regenerate the key and ask the cache, the provider being the backend's result. */
    method GetResultSet() returns (r: Result<CacheCall, SqlError>)
      modifies this`generatedKey
      ensures var key := old(CurrentKey());
        (key.Err? ==> r == Err(key.error) && generatedKey == old(generatedKey))
        && (key.Ok? ==> generatedKey == Some(key.value) && r == CacheCallFor(key.value))
    {
      var key := GenerateKey();
      if key.Err? {
        return Err(key.error);
      }
      return CacheCallFor(key.value);
    }

    /**
     * What `execute` answers once the key is known, `isCached` being the
     * cache's `checkIfExists`: true for a cached key, else the backend's
     * `execute`, else "No cache entry". The Java statement dereferences a
     * null cache; the Kotlin one skips it.
     */
    function ExecutionFor(key: JString, isCached: JString -> bool): (r: Result<Execution, SqlError>)
      ensures hasCache && isCached(key) ==> r == Ok(FoundInCache)
      ensures !hasCache && dialect == Java ==> r == Err(NullPointer)
      ensures (hasCache ==> !isCached(key)) && (hasCache || dialect == Kotlin) ==>
        r == (if hasBackend then Ok(OnBackend) else Err(Message(NoCacheEntry)))
    {
      if !hasCache && dialect == Java then Err(NullPointer)
      else if hasCache && isCached(key) then Ok(FoundInCache)
      else
        var _ :- CheckBackendStatement(Some(NoCacheEntry));
        Ok(OnBackend)
    }

    /** `execute(sql)` and its three overloads: record the SQL, regenerate the key, then `ExecutionFor`. */
    method Execute(sql: JString, isCached: JString -> bool) returns (r: Result<Execution, SqlError>)
      modifies this`executedSql, this`generatedKey
      ensures executedSql == Some(sql)
      ensures var key := CurrentKey();
        (key.Err? ==> r == Err(key.error) && generatedKey == old(generatedKey))
        && (key.Ok? ==> generatedKey == Some(key.value) && r == ExecutionFor(key.value, isCached))
    {
      executedSql := Some(sql);
      var key := GenerateKey();
      if key.Err? {
        return Err(key.error);
      }
      return ExecutionFor(key.value, isCached);
    }

    /** `execute()` of a prepared statement. */
    method ExecutePrepared(isCached: JString -> bool) returns (r: Result<Execution, SqlError>)
      requires prepared
      modifies this`generatedKey
      ensures var key := old(CurrentKey());
        (key.Err? ==> r == Err(key.error) && generatedKey == old(generatedKey))
        && (key.Ok? ==> generatedKey == Some(key.value) && r == ExecutionFor(key.value, isCached))
    {
      var key := GenerateKey();
      if key.Err? {
        return Err(key.error);
      }
      return ExecutionFor(key.value, isCached);
    }

    /** `executeUpdate(sql)` and its overloads: record the SQL and run it on the backend, never cached. */
    method ExecuteUpdate(sql: JString) returns (r: Result<(), SqlError>)
      modifies this`executedSql
      ensures executedSql == Some(sql)
      ensures r == CheckBackendStatement(None)
    {
      executedSql := Some(sql);
      r := CheckBackendStatement(None);
    }

    /** The prepared `executeUpdate()`: run on the backend, never cached, "not supported" without one. */
    function ExecuteUpdatePrepared(): (r: Result<(), SqlError>)
      requires prepared
      reads this
      ensures r.Ok? <==> hasBackend
      ensures r.Err? ==> r.error == FeatureNotSupported
    {
      CheckBackendStatement(None)
    }

    /** A setter: handed to the backend when there is one, and stored locally in any case; no other setting changes. */
    method Set(s: Setting, v: Int32)
      requires Valid()
      modifies this`local
      ensures Valid() && local == old(local)[s := v]
    {
      local := local[s := v];
    }

    /** A getter: the backend's value when there is a backend, else the last value set. */
    function Get(s: Setting): (r: Answer<Int32>)
      requires Valid()
      reads this
      ensures hasBackend <==> r == FromBackend
      ensures !hasBackend ==> r == Local(local[s])
    {
      if hasBackend then FromBackend else Local(local[s])
    }

    /** `close()`: the statement is closed from now on. */
    method Close()
      modifies this`closed
      ensures closed
    {
      closed := true;
    }

    /** `setPoolable(b)`. */
    method SetPoolable(b: bool)
      modifies this`poolable
      ensures poolable == b
    {
      poolable := b;
    }

    /** `closeOnCompletion()`. */
    method CloseOnCompletion()
      modifies this`closeOnCompletion
      ensures closeOnCompletion
    {
      closeOnCompletion := true;
    }

    /** The flag getters `isClosed`, `isPoolable`, `isCloseOnCompletion`: the backend's, else the stored flag. */
    function Flag(stored: bool): (r: Answer<bool>)
      ensures hasBackend <==> r == FromBackend
      ensures !hasBackend ==> r == Local(stored)
    {
      if hasBackend then FromBackend else Local(stored)
    }

    /**
     * `setInt`, `setString` and every other recording setter: index `i` now
     * holds the value's text. The Kotlin setters take non-null parameters, so
     * a null value is refused with `NullPointerException` before anything is
     * recorded; the Java setters record the null.
     */
    method SetParameter(i: Int32, text: Option<JString>) returns (r: Result<(), SqlError>)
      requires prepared
      modifies this`parameters
      ensures r.Err? <==> dialect == Kotlin && text.None?
      ensures r.Err? ==> r.error == NullPointer && parameters == old(parameters)
      ensures r.Ok? ==> parameters == old(parameters)[i := text]
    {
      if dialect == Kotlin && text.None? {
        return Err(NullPointer);
      }
      parameters := parameters[i := text];
      return Ok(());
    }

    /** `setNull`: index `i` is unbound again, as if it had never been set. */
    method SetNull(i: Int32)
      requires prepared
      modifies this`parameters
      ensures parameters == old(parameters) - {i}
    {
      parameters := parameters - {i};
    }

    /** `clearParameters()`. */
    method ClearParameters()
      requires prepared
      modifies this`parameters
      ensures parameters == map[]
    {
      parameters := map[];
    }

    /**
     * `setTimestamp` without a calendar, the four-argument `setObject`, the
     * stream, LOB, ref and array setters: handed to the backend, never
     * recorded, so they do not reach the key; with no backend they throw.
     */
    function SetUnrecorded(i: Int32): (r: Result<(), SqlError>)
      requires prepared
      ensures r.Ok? <==> hasBackend
      ensures r.Err? ==> r.error == FeatureNotSupported
    {
      CheckBackendStatement(None)
    }
  }
}
