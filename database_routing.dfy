/**
 * The driver-free logic of the database layer: the connection string each
 * backend is reached by, the status a health check reports, the query
 * result cache with its time to live, and the router that hands out read
 * and write databases in turn.
 */
module DatabaseRouting {
  import opened Wrappers
  import opened Text

  // ---------------------------------------------------------------------
  // DatabaseConfig.get_connection_string
  // ---------------------------------------------------------------------

  datatype DatabaseType = PostgreSql | MySql | Sqlite | Redis | MongoDb | Oracle | MsSql

  /** The part of a `DatabaseConfig` the connection string is built from. */
  datatype DatabaseConfig = DatabaseConfig(
    host: string,
    port: int,
    database: string,
    username: string,
    password: string,
    dbType: DatabaseType,
    charset: string)

  /** The `ValueError` raised for a type without a connection string. */
  datatype ConfigError = UnsupportedType(dbType: DatabaseType)

  /** The types `get_connection_string` knows how to reach. */
  predicate Supported(t: DatabaseType) {
    t in {PostgreSql, MySql, Sqlite, Oracle, MsSql}
  }

  /** The URL scheme (dialect and driver) of each supported type. */
  function Scheme(t: DatabaseType): string
    requires Supported(t)
  {
    match t
    case PostgreSql => "postgresql"
    case MySql => "mysql+pymysql"
    case Sqlite => "sqlite"
    case Oracle => "oracle+cx_oracle"
    case MsSql => "mssql+pyodbc"
  }

  /** `user:password@host:port/database`, the middle of every network URL. */
  function Authority(c: DatabaseConfig): string {
    c.username + ":" + c.password + "@" + c.host + ":" + IntToString(c.port) + "/" + c.database
  }

  /** `get_connection_string`. */
  function ConnectionString(c: DatabaseConfig): (r: Result<string, ConfigError>)
    ensures r.Ok? <==> Supported(c.dbType)
    ensures r.Err? ==> r.error == UnsupportedType(c.dbType)
    ensures r.Ok? ==> |r.value| >= |Scheme(c.dbType)| + 3 && r.value[..|Scheme(c.dbType)| + 3] == Scheme(c.dbType) + "://"
  {
    match c.dbType
    case PostgreSql => Ok("postgresql://" + Authority(c))
    case MySql => Ok("mysql+pymysql://" + Authority(c) + "?charset=" + c.charset)
    case Sqlite => Ok("sqlite:///" + c.database)
    case Oracle => Ok("oracle+cx_oracle://" + Authority(c))
    case MsSql => Ok("mssql+pyodbc://" + Authority(c) + "?driver=ODBC+Driver+17+for+SQL+Server")
    case Redis => Err(UnsupportedType(c.dbType))
    case MongoDb => Err(UnsupportedType(c.dbType))
  }

  /** The backend can be read back from the string: configurations of two different types never share one. */
  lemma DifferentTypesDifferentStrings(a: DatabaseConfig, b: DatabaseConfig)
    requires Supported(a.dbType) && Supported(b.dbType) && a.dbType != b.dbType
    ensures ConnectionString(a).value != ConnectionString(b).value
  {
    var sa, sb := ConnectionString(a).value, ConnectionString(b).value;
    var pa, pb := Scheme(a.dbType) + "://", Scheme(b.dbType) + "://";
    // The schemes, and so the strings, differ at their first or second character.
    assert sa[..|pa|] == pa && sb[..|pb|] == pb;
    assert sa[0] != sb[0] || sa[1] != sb[1];
  }

  /** A SQLite string names the database file and nothing else: equal strings exactly for equal names. */
  lemma SqliteStringNamesTheFile(a: DatabaseConfig, b: DatabaseConfig)
    requires a.dbType == Sqlite && b.dbType == Sqlite
    ensures ConnectionString(a) == ConnectionString(b) <==> a.database == b.database
  {
    var p := "sqlite:///";
    if ConnectionString(a) == ConnectionString(b) {
      assert (p + a.database)[|p|..] == a.database;
      assert (p + b.database)[|p|..] == b.database;
    }
  }

  // ---------------------------------------------------------------------
  // DatabaseManager.health_check
  // ---------------------------------------------------------------------

  /** The `status` field of the report: any connection error degrades it. */
  function HealthStatus(connectionErrors: int): (status: string)
    ensures status == "healthy" <==> connectionErrors == 0
    ensures status == "degraded" <==> connectionErrors != 0
  {
    if connectionErrors == 0 then "healthy" else "degraded"
  }

  // ---------------------------------------------------------------------
  // QueryExecutor's result cache
  // ---------------------------------------------------------------------

  /** A cached query result, with the time (in seconds) the result was produced. */
  datatype Cached<R> = Cached(result: R, timestamp: int)

  /** `cache_ttl`, in seconds. */
  const CacheTtl := 300

  /** A result is served while it is younger than the time to live. */
  predicate Fresh<R>(c: Cached<R>, now: int, ttl: int) {
    now - c.timestamp < ttl
  }

  /**
   * `_get_cached_result` on a dictionary: the fresh entry, or nothing; a
   * stale entry is dropped from the dictionary.
   */
  function CacheLookup<R>(cache: map<string, Cached<R>>, key: string, now: int, ttl: int): (r: (map<string, Cached<R>>, Option<Cached<R>>))
    ensures r.1.Some? <==> key in cache && Fresh(cache[key], now, ttl)
    ensures r.1.Some? ==> r.1.value == cache[key] && r.0 == cache
    ensures r.1.None? ==> r.0 == cache - {key}
  {
    if key in cache then
      if Fresh(cache[key], now, ttl) then (cache, Some(cache[key])) else (cache - {key}, None)
    else (cache, None)
  }

  /** A result stored under a key is served until it is `ttl` seconds old, and never after. */
  lemma StoredResultServedWhileFresh<R>(cache: map<string, Cached<R>>, key: string, c: Cached<R>, now: int, ttl: int)
    ensures CacheLookup(cache[key := c], key, now, ttl).1 == (if now - c.timestamp < ttl then Some(c) else None)
  {
  }

  /** Once a lookup finds the entry stale, every later lookup of that key misses, whatever the time. */
  lemma StaleStaysGone<R>(cache: map<string, Cached<R>>, key: string, now: int, later: int, ttl: int)
    requires key in cache && !Fresh(cache[key], now, ttl)
    ensures CacheLookup(CacheLookup(cache, key, now, ttl).0, key, later, ttl).1 == None
  {
  }

  /** A lookup never touches another key's entry. */
  lemma LookupLeavesOthers<R>(cache: map<string, Cached<R>>, key: string, other: string, now: int, ttl: int)
    requires other != key
    ensures var after := CacheLookup(cache, key, now, ttl).0;
      (other in after <==> other in cache) && (other in cache ==> after[other] == cache[other])
  {
  }

  /** The result cache of a `QueryExecutor`. */
  class QueryCache<R> {
    var queryCache: map<string, Cached<R>>
    const cacheTtl: int

    constructor()
      ensures queryCache == map[] && cacheTtl == CacheTtl
    {
      queryCache := map[];
      cacheTtl := CacheTtl;
    }

    /** `_get_cached_result`, with the current time given. */
    method GetCachedResult(key: string, now: int) returns (r: Option<Cached<R>>)
      modifies this`queryCache
      ensures (queryCache, r) == CacheLookup(old(queryCache), key, now, cacheTtl)
    {
      if key in queryCache {
        var result := queryCache[key];
        if now - result.timestamp < cacheTtl {
          return Some(result);
        } else {
          queryCache := queryCache - {key};
        }
      }
      return None;
    }

    /** `_cache_result`: store, replacing any earlier result under the key. */
    method CacheResult(key: string, result: Cached<R>)
      modifies this`queryCache
      ensures queryCache == old(queryCache)[key := result]
    {
      queryCache := queryCache[key := result];
    }

    /** `clear_cache`. */
    method ClearCache()
      modifies this`queryCache
      ensures queryCache == map[]
    {
      queryCache := map[];
    }
  }

  // ---------------------------------------------------------------------
  // DatabaseRouter
  // ---------------------------------------------------------------------

  datatype RouteError = NoReadDatabases | NoWriteDatabases

  /** The index after a selection from a list of `n` databases. */
  function Advance(index: nat, n: nat): (next: nat)
    requires n > 0
    ensures next < n
    ensures index + 1 < n ==> next == index + 1
    ensures index + 1 == n ==> next == 0
  {
    (index + 1) % n
  }

  /** The positions `k` successive selections from a list of `n` databases take, starting at `index`. */
  function Picks(index: nat, n: nat, k: nat): (ps: seq<nat>)
    requires index < n
    ensures |ps| == k
    decreases k
  {
    if k == 0 then [] else [index] + Picks(Advance(index, n), n, k - 1)
  }

  /** Selections go round: the `j`-th one takes the position `j` steps further, wrapping past the end once. */
  lemma {:induction false} PicksAt(index: nat, n: nat, k: nat, j: nat)
    requires index < n && k <= n && j < k
    ensures Picks(index, n, k)[j] == if index + j < n then index + j else index + j - n
    decreases k
  {
    if j > 0 {
      PicksAt(Advance(index, n), n, k - 1, j - 1);
    }
  }

  /**
   * Round robin is fair: `n` successive selections from a list of `n`
   * databases, from any valid index, take every position exactly once.
   */
  lemma RoundRobinVisitsAll(index: nat, n: nat)
    requires index < n
    ensures forall p :: 0 <= p < n ==> p in Picks(index, n, n)
    ensures forall i, j :: 0 <= i < j < n ==> Picks(index, n, n)[i] != Picks(index, n, n)[j]
  {
    var ps := Picks(index, n, n);
    forall p | 0 <= p < n ensures p in ps {
      var j := if p >= index then p - index else p + n - index;
      PicksAt(index, n, n, j);
      assert ps[j] == p;
    }
    forall i, j | 0 <= i < j < n ensures ps[i] != ps[j] {
      PicksAt(index, n, n, i);
      PicksAt(index, n, n, j);
    }
  }

  /** A router over databases of type `D`: two lists, each with the index of its next selection. */
  class DatabaseRouter<D> {
    var readDatabases: seq<D>
    var writeDatabases: seq<D>
    var currentReadIndex: nat
    var currentWriteIndex: nat

    /** Each index points into its list, or is 0 while the list is empty. */
    ghost predicate Valid()
      reads this
    {
      && (currentReadIndex < |readDatabases| || currentReadIndex == 0)
      && (currentWriteIndex < |writeDatabases| || currentWriteIndex == 0)
    }

    constructor()
      ensures Valid()
      ensures readDatabases == [] && writeDatabases == [] && currentReadIndex == 0 && currentWriteIndex == 0
    {
      readDatabases, writeDatabases := [], [];
      currentReadIndex, currentWriteIndex := 0, 0;
    }

    /** `add_read_database`: append; the next selection is unchanged. */
    method AddReadDatabase(db: D)
      requires Valid()
      modifies this`readDatabases
      ensures Valid() && readDatabases == old(readDatabases) + [db]
    {
      readDatabases := readDatabases + [db];
    }

    /** `add_write_database`: append; the next selection is unchanged. */
    method AddWriteDatabase(db: D)
      requires Valid()
      modifies this`writeDatabases
      ensures Valid() && writeDatabases == old(writeDatabases) + [db]
    {
      writeDatabases := writeDatabases + [db];
    }

    /** `get_read_database`: the database at the index, which then moves on by one, wrapping; an error with none. */
    method GetReadDatabase() returns (r: Result<D, RouteError>)
      requires Valid()
      modifies this`currentReadIndex
      ensures Valid()
      ensures readDatabases == [] ==> r == Err(NoReadDatabases) && currentReadIndex == old(currentReadIndex)
      ensures readDatabases != [] ==>
        && r == Ok(readDatabases[old(currentReadIndex)])
        && currentReadIndex == Advance(old(currentReadIndex), |readDatabases|)
    {
      if readDatabases == [] {
        return Err(NoReadDatabases);
      }
      var db := readDatabases[currentReadIndex];
      currentReadIndex := (currentReadIndex + 1) % |readDatabases|;
      return Ok(db);
    }

    /** `get_write_database`: the same rule over the write list, with its own index. */
    method GetWriteDatabase() returns (r: Result<D, RouteError>)
      requires Valid()
      modifies this`currentWriteIndex
      ensures Valid()
      ensures writeDatabases == [] ==> r == Err(NoWriteDatabases) && currentWriteIndex == old(currentWriteIndex)
      ensures writeDatabases != [] ==>
        && r == Ok(writeDatabases[old(currentWriteIndex)])
        && currentWriteIndex == Advance(old(currentWriteIndex), |writeDatabases|)
    {
      if writeDatabases == [] {
        return Err(NoWriteDatabases);
      }
      var db := writeDatabases[currentWriteIndex];
      currentWriteIndex := (currentWriteIndex + 1) % |writeDatabases|;
      return Ok(db);
    }
  }
}
