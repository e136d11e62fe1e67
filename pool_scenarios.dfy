/**
 * Call sequences from the pools' unit tests, proved on the model: one host
 * with one connection runs out after one borrow and is available again
 * after the release; a pool without factories refuses at once.
 */
module PoolScenarios {
  import opened Errors
  import opened Connections
  import opened ConnectionFactories
  import opened Pools
  import ConnectorPool
  import LegacyPool

  /** A sub-pool of one connection that holds `c` holds nothing else. */
  lemma OnlySlot(sub: SubPool, c: Connection)
    requires |sub| == 1 && c in sub
    ensures sub.Keys == {c}
  {
    if d :| d in sub && d != c {
      assert {c, d} <= sub.Keys;
      assert |{c, d}| == 2;
      SubsetCard({c, d}, sub.Keys);
    }
  }

  lemma SubsetCard<T>(a: set<T>, b: set<T>)
    requires a <= b
    ensures |a| <= |b|
  {
    if a != {} {
      var x :| x in a;
      SubsetCard(a - {x}, b - {x});
    }
  }

  /** The layout of one factory with one connection per host: a single host holding a single free connection. */
  lemma SingleHostLayout(m: PoolMap, e: Endpoint)
    requires IsInitialLayout(m, [e], 1)
    ensures m.Keys == {e.host} && |m[e.host]| == 1 && EveryHostHasFree(m)
  {
    assert HostSettings([e]) == HostSettings([])[e.host := e] by {
      assert [e][..0] == [];
    }
    var c :| c in m[e.host];
    assert m[e.host][c];
  }

  /** The pool map of one host with one connection, free or busy. */
  function Single(c: Connection, free: bool): PoolMap
  {
    map[c.host := map[c := free]]
  }

  lemma CheckoutSingle(c: Connection)
    ensures Checkout(Single(c, true), c.host, c) == Single(c, false)
  {
    assert map[c := true][c := false] == map[c := false];
  }

  lemma CheckinSingle(c: Connection, free: bool)
    ensures Checkin(Single(c, free), c) == Single(c, true)
  {
    assert map[c := free][c := true] == map[c := true];
  }

  /** The only layout for one factory with one connection per host. */
  lemma LayoutIsSingle(m: PoolMap, e: Endpoint) returns (c: Connection)
    requires IsInitialLayout(m, [e], 1)
    ensures m == Single(c, true) && c.host == e.host && c.port == e.port
  {
    SingleHostLayout(m, e);
    c :| c in m[e.host];
    OnlySlot(m[e.host], c);
    assert HostSettings([e])[e.host] == e by {
      assert [e][..0] == [];
    }
    assert m[e.host] == map[c := true];
  }

  lemma SingleMembers(c: Connection, free: bool)
    ensures Members(Single(c, free)) == {c}
  {
    assert c in Single(c, free)[c.host];
  }

  /** A pool built from one localhost:9160 factory with one connection per host holds a single free, pristine connection. */
  lemma PooledConnection(pool: ConnectorPool.ConnectionPool) returns (conn: Connection)
    requires pool.pool.Some? && pool.endpoints == [Endpoint("localhost", 9160, 1000)]
    requires IsInitialLayout(pool.pool.value, pool.endpoints, 1)
    requires forall h, c | h in pool.pool.value && c in pool.pool.value[h] :: Pristine(c)
    ensures conn.host in pool.pool.value && conn in pool.pool.value[conn.host]
    ensures pool.pool == Some(Single(conn, true)) && pool.Conns() == {conn}
    ensures Pristine(conn) && conn.host == "localhost" && conn.port == 9160
  {
    conn := LayoutIsSingle(pool.pool.value, Endpoint("localhost", 9160, 1000));
    assert conn in pool.pool.value[conn.host];
    SingleMembers(conn, true);
  }

  /** A list of one factory has that factory's settings as its only endpoint. */
  lemma OneEndpoint(f: ConnectionFactory)
    ensures Endpoints([f]) == [Endpoint(f.host, f.port, f.timeout)]
  {
    assert [f][0] == f;
  }

  /** The test's set-up: the default pool given one factory for localhost:9160. */
  method Setup() returns (pool: ConnectorPool.ConnectionPool, ghost conn: Connection)
    ensures fresh(pool) && fresh(conn) && pool.Valid()
    ensures pool.waitForConnectionTimeout == 1000 && |pool.factories| == 1
    ensures pool.pool == Some(Single(conn, true)) && pool.Conns() == {conn}
    ensures conn.Valid() && !conn.open && conn.host == "localhost" && conn.port == 9160
  {
    pool := new ConnectorPool.ConnectionPool.Default();
    var factory := new ConnectionFactory("localhost", 9160, 1000);
    OneEndpoint(factory);
    pool.SetFactories([factory]);
    conn := PooledConnection(pool);
  }

  /** The test's pool after set-up: one host, one connection `conn`, free or busy as `free` says. */
  ghost predicate OneConnection(pool: ConnectorPool.ConnectionPool, conn: Connection, free: bool)
    reads pool, conn
  {
    && pool.Valid() && pool.waitForConnectionTimeout == 1000 && |pool.factories| == 1
    && pool.pool == Some(Single(conn, free)) && pool.Conns() == {conn}
    && conn.Valid() && conn.host == "localhost" && conn.port == 9160
  }

  /** The first borrow takes the only connection; the second finds none free before the wait runs out. */
  method BorrowTwice(pool: ConnectorPool.ConnectionPool, ghost conn: Connection, elapsed: seq<nat>)
    returns (first: Result<Connection>, second: Result<Connection>)
    requires Sum(elapsed) >= 1000 && OneConnection(pool, conn, true)
    modifies pool, conn
    ensures OneConnection(pool, conn, false)
    ensures first == Ok(conn) && second == Fail(TimedOut)
  {
    ghost var chosen, attempts;
    first, chosen, attempts := pool.GetConnection(elapsed, true);
    CheckoutSingle(conn);
    SingleMembers(conn, false);
    assert OneConnection(pool, conn, false);
    second, chosen, attempts := pool.GetConnection(elapsed, true);
  }

  /** `releaseConnection` on the busy connection frees it. */
  method ReleaseOnce(pool: ConnectorPool.ConnectionPool, conn: Connection)
    requires OneConnection(pool, conn, false)
    modifies pool, conn
    ensures OneConnection(pool, conn, true)
  {
    var released := pool.ReleaseConnection(conn, true);
    CheckinSingle(conn, false);
    SingleMembers(conn, true);
  }

  /** Releasing the busy connection frees it; releasing it again changes nothing more. */
  method ReleaseTwice(pool: ConnectorPool.ConnectionPool, conn: Connection)
    requires OneConnection(pool, conn, false)
    modifies pool, conn
    ensures OneConnection(pool, conn, true)
  {
    ReleaseOnce(pool, conn);
    var released := pool.ReleaseConnection(conn, true);
    CheckinSingle(conn, true);
    SingleMembers(conn, true);
  }

  /**
   * `multipleConnectionsWaitAndRelease` on the current pool: the first
   * borrow succeeds, the second times out, and after one release a borrow
   * succeeds again.
   */
  method WaitAndRelease(elapsed: seq<nat>) returns (first: Result<Connection>, second: Result<Connection>, third: Result<Connection>)
    requires Sum(elapsed) >= 1000
    ensures first.Ok? && second == Fail(TimedOut) && third.Ok?
    ensures first.value == third.value && first.value.host == "localhost" && first.value.port == 9160
  {
    var pool;
    ghost var conn;
    pool, conn := Setup();
    first, second := BorrowTwice(pool, conn, elapsed);
    ReleaseOnce(pool, first.value);
    ghost var chosen, attempts;
    third, chosen, attempts := pool.GetConnection(elapsed, true);
  }

  /** A pool made without factories fails at once with "No connection factories defined", in both versions. */
  method NoFactoriesAtFirst(elapsed: seq<nat>) returns (current: Result<Connection>, legacy: Result<Connection>)
    requires Sum(elapsed) >= 1000
    ensures current == Fail(NoFactories) && legacy == Fail(NoFactories)
  {
    var p := new ConnectorPool.ConnectionPool.Default();
    ghost var chosen, attempts;
    current, chosen, attempts := p.GetConnection(elapsed, true);
    var q := new LegacyPool.ConnectionPool.Default();
    legacy, attempts := q.GetConnection(elapsed);
  }
}
