/**
 * The older `ConnectionPool` of the top-level package: the same pool map
 * and wait loop as the connector pool, but borrowing does not open the
 * connection, and releasing does not guard against null.
 */
module LegacyPool {
  import opened Errors
  import opened Connections
  import opened ConnectionFactories
  import opened Pools

  class ConnectionPool {
    var factories: seq<ConnectionFactory>
    var pool: Option<PoolMap>              // null until a factory list is given
    var connectionsPerHost: int
    var waitForConnectionTimeout: int
    ghost var endpoints: seq<Endpoint>     // the factories' settings when the pool was last built

    /** The pool invariant: with any factory there is a host to pick, and each connection sits under its own host. */
    ghost predicate Valid()
      reads this
    {
      && (|factories| > 0 ==> pool.Some? && pool.value.Keys != {})
      && (pool.Some? ==> HostsConsistent(pool.value))
    }

    /** `ConnectionPool()`: one connection per host, a one-second wait, no factories and no pool yet. */
    constructor Default()
      ensures Valid()
      ensures factories == [] && pool.None? && endpoints == []
      ensures connectionsPerHost == 1 && waitForConnectionTimeout == 1000
    {
      factories := [];
      endpoints := [];
      pool := None;
      connectionsPerHost := 1;
      waitForConnectionTimeout := 1000;
    }

    /** `ConnectionPool(connectionsPerHost, waitTimeout, factories)`: the pool is built at once. */
    constructor (connectionsPerHost: int, waitTimeout: int, factories: seq<ConnectionFactory>)
      ensures Valid()
      ensures this.factories == factories && this.connectionsPerHost == connectionsPerHost
      ensures waitForConnectionTimeout == waitTimeout
      ensures endpoints == old(Endpoints(factories))
      ensures pool.Some? && IsInitialLayout(pool.value, endpoints, connectionsPerHost)
      ensures forall h, c | h in pool.value && c in pool.value[h] :: fresh(c)
      ensures forall h, c | h in pool.value && c in pool.value[h] :: Pristine(c)
    {
      ghost var es := Endpoints(factories);
      var m := InitializePool(factories, es, connectionsPerHost);
      this.factories := factories;
      this.connectionsPerHost := connectionsPerHost;
      waitForConnectionTimeout := waitTimeout;
      endpoints := es;
      pool := Some(m);
    }

    /**
     * `getConnection`: the connection found is marked busy and handed out as
     * it is, without being opened. `elapsed[k]` is how long attempt `k`
     * took; `attempts` counts the attempts begun.
     */
    method GetConnection(elapsed: seq<nat>) returns (r: Result<Connection>, ghost attempts: nat)
      requires Valid()
      requires Sum(elapsed) >= waitForConnectionTimeout
      modifies this
      ensures Valid()
      ensures factories == old(factories) && connectionsPerHost == old(connectionsPerHost)
      ensures waitForConnectionTimeout == old(waitForConnectionTimeout) && endpoints == old(endpoints)
      // no factories: an error before any attempt
      ensures old(factories) == [] ==> r == Fail(NoFactories) && attempts == 0
      ensures r.Fail? ==> r.error in {NoFactories, TimedOut} && pool == old(pool)
      // every attempt begins inside the wait budget; a timeout comes once it is spent
      ensures attempts <= |elapsed|
      ensures forall k | 0 <= k < attempts :: Sum(elapsed[..k]) < waitForConnectionTimeout
      ensures r == Fail(TimedOut) ==> Sum(elapsed[..attempts]) >= waitForConnectionTimeout
      // the connection handed out was free, and is now the one busy slot that changed
      ensures r.Ok? ==>
        && old(pool).Some? && r.value.host in old(pool).value
        && r.value in old(pool).value[r.value.host] && old(pool).value[r.value.host][r.value]
        && pool == Some(Checkout(old(pool).value, r.value.host, r.value))
      // which outcome the state decides
      ensures old(factories) != [] && waitForConnectionTimeout <= 0 ==> r == Fail(TimedOut)
      ensures old(factories) != [] && old(NoFreeSlot(pool.value)) ==> r == Fail(TimedOut)
      ensures old(factories) != [] && old(EveryHostHasFree(pool.value)) && waitForConnectionTimeout > 0 ==>
        r.Ok? && attempts == 1
    {
      if |factories| == 0 {
        return Fail(NoFactories), 0;
      }
      var m := pool.value;
      var found: Connection?, i := WaitForFree(m, elapsed, waitForConnectionTimeout);
      attempts := i;
      if found == null {
        return Fail(TimedOut), attempts;
      }
      pool := Some(Checkout(m, found.host, found));
      r := Ok(found);
    }

    /** `setFactories`: the pool is rebuilt from the new factory list. */
    method SetFactories(factories: seq<ConnectionFactory>)
      modifies this
      ensures Valid()
      ensures this.factories == factories
      ensures endpoints == old(Endpoints(factories))
      ensures pool.Some? && IsInitialLayout(pool.value, endpoints, connectionsPerHost)
      ensures forall h, c | h in pool.value && c in pool.value[h] :: fresh(c)
      ensures forall h, c | h in pool.value && c in pool.value[h] :: Pristine(c)
      ensures connectionsPerHost == old(connectionsPerHost) && waitForConnectionTimeout == old(waitForConnectionTimeout)
    {
      ghost var es := Endpoints(factories);
      var m := InitializePool(factories, es, connectionsPerHost);
      this.factories := factories;
      endpoints := es;
      pool := Some(m);
    }

    /** `setConnectionsPerHost`: takes effect only when the pool is next rebuilt. */
    method SetConnectionsPerHost(connectionsPerHost: int)
      requires Valid()
      modifies this
      ensures Valid()
      ensures this.connectionsPerHost == connectionsPerHost
      ensures factories == old(factories) && pool == old(pool) && endpoints == old(endpoints)
      ensures waitForConnectionTimeout == old(waitForConnectionTimeout)
    {
      this.connectionsPerHost := connectionsPerHost;
    }

    /**
     * `releaseConnection`: an open connection is closed first (a failing
     * close escapes, leaving the slot busy); then the connection is marked
     * free under its host. A null connection, a missing pool and an unknown
     * host all end in a null dereference.
     */
    method ReleaseConnection(c: Connection?, flushOk: bool) returns (r: Result<()>)
      requires Valid()
      requires c != null ==> c.Valid()
      modifies this, c
      ensures Valid()
      ensures factories == old(factories) && connectionsPerHost == old(connectionsPerHost)
      ensures waitForConnectionTimeout == old(waitForConnectionTimeout) && endpoints == old(endpoints)
      ensures c == null ==> r == Fail(NullReference) && pool == old(pool)
      ensures c != null ==>
        var closes := old(c.open);
        var flushes := old(c.hasClient && c.transportOpen);
        if closes && flushes && !flushOk then
          r == Fail(CloseFailed) && pool == old(pool) && unchanged(c)
        else
          && (closes ==> !c.open && !c.hasClient && !c.transportOpen
                         && c.transportCloses == old(c.transportCloses) + (if flushes then 1 else 0))
          && (!closes ==> unchanged(c))
          && if old(pool).None? || c.host !in old(pool).value then
               r == Fail(NullReference) && pool == old(pool)
             else
               r == Ok(()) && pool == Some(Checkin(old(pool).value, c))
    {
      if c == null {
        return Fail(NullReference);
      }
      if c.open {
        var outcome := c.CloseConnection(flushOk);
        if outcome.Fail? {
          return Fail(CloseFailed);
        }
      }
      if pool.None? || c.host !in pool.value {
        return Fail(NullReference);
      }
      pool := Some(Checkin(pool.value, c));
      r := Ok(());
    }
  }
}
