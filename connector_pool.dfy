/**
 * `connector.ConnectionPool`: a map from host to that host's connections,
 * each flagged free or busy. Borrowing picks a random host and a free
 * connection on it, opens the connection and marks it busy, retrying until a
 * wait budget is spent; releasing closes the connection if it is open and
 * marks it free again.
 */
module ConnectorPool {
  import opened Errors
  import opened Connections
  import opened ConnectionFactories
  import opened Pools

  class ConnectionPool {
    var factories: seq<ConnectionFactory>
    var pool: Option<PoolMap>              // null until a factory list is given
    var connectionsPerHost: int
    var waitForConnectionTimeout: int
    ghost var releases: seq<Connection?>   // every argument `releaseConnection` was called with, in order
    ghost var endpoints: seq<Endpoint>     // the factories' settings when the pool was last built

    ghost function Conns(): set<Connection>
      reads this
    {
      if pool.Some? then Members(pool.value) else {}
    }

    /** The pool invariant: with any factory there is a host to pick, and each connection sits under its own host. */
    ghost predicate Valid()
      reads this
    {
      && (|factories| > 0 ==> pool.Some? && pool.value.Keys != {})
      && (pool.Some? ==> HostsConsistent(pool.value))
    }

    /** `ConnectionPool()`: one connection per host, a one-second wait, no factories and no pool yet. */
    constructor Default()
      ensures Valid()
      ensures factories == [] && pool.None? && releases == [] && endpoints == []
      ensures connectionsPerHost == 1 && waitForConnectionTimeout == 1000
    {
      factories := [];
      endpoints := [];
      pool := None;
      connectionsPerHost := 1;
      waitForConnectionTimeout := 1000;
      releases := [];
    }

    /** `ConnectionPool(connectionsPerHost, waitTimeout, factories)`: the pool is built at once. */
    constructor (connectionsPerHost: int, waitTimeout: int, factories: seq<ConnectionFactory>)
      ensures Valid()
      ensures this.factories == factories && this.connectionsPerHost == connectionsPerHost
      ensures waitForConnectionTimeout == waitTimeout && releases == []
      ensures endpoints == old(Endpoints(factories))
      ensures pool.Some? && IsInitialLayout(pool.value, endpoints, connectionsPerHost)
      ensures forall h, c | h in pool.value && c in pool.value[h] :: fresh(c)
      ensures forall h, c | h in pool.value && c in pool.value[h] :: Pristine(c)
    {
      ghost var es := Endpoints(factories);
      var m := InitializePool(factories, es, connectionsPerHost);
      this.factories := factories;
      this.connectionsPerHost := connectionsPerHost;
      waitForConnectionTimeout := waitTimeout;
      releases := [];
      endpoints := es;
      pool := Some(m);
    }

    /**
     * `getConnection`. `elapsed[k]` is how long attempt `k` took; the wait
     * stops once their sum reaches the timeout. `chosen` is the connection
     * the call opened, if any; `attempts` counts the attempts begun.
     */
    method GetConnection(elapsed: seq<nat>, transportOk: bool)
      returns (r: Result<Connection>, ghost chosen: Connection?, ghost attempts: nat)
      requires Valid()
      requires Sum(elapsed) >= waitForConnectionTimeout
      modifies this, Conns()
      ensures Valid()
      ensures factories == old(factories) && connectionsPerHost == old(connectionsPerHost)
      ensures waitForConnectionTimeout == old(waitForConnectionTimeout) && releases == old(releases)
      // no factories: an error before any attempt
      ensures old(factories) == [] ==> r == Fail(NoFactories) && attempts == 0
      ensures r.Fail? ==> r.error in {NoFactories, TimedOut, OpenFailed} && pool == old(pool)
      // every attempt begins inside the wait budget; a timeout comes once it is spent
      ensures attempts <= |elapsed|
      ensures forall k | 0 <= k < attempts :: Sum(elapsed[..k]) < waitForConnectionTimeout
      ensures r == Fail(TimedOut) ==> Sum(elapsed[..attempts]) >= waitForConnectionTimeout
      // what was touched: only the chosen connection, which was free; on success it is open and busy
      ensures chosen == null <==> r.Fail? && r.error != OpenFailed
      ensures chosen == null ==> unchanged(old(Conns()))
      ensures chosen != null ==>
        && old(pool).Some? && chosen.host in old(pool).value
        && chosen in old(pool).value[chosen.host] && old(pool).value[chosen.host][chosen]
        && chosen.hasClient && chosen.transportOpen == transportOk && chosen.open == (transportOk || old(chosen.open))
        && unchanged(old(Conns()) - {chosen})
      ensures r == Fail(OpenFailed) <==> chosen != null && !transportOk
      ensures r.Ok? ==> r.value == chosen && pool == Some(Checkout(old(pool).value, chosen.host, chosen))
      // which outcome the state decides
      ensures old(factories) != [] && waitForConnectionTimeout <= 0 ==> r == Fail(TimedOut)
      ensures old(factories) != [] && old(NoFreeSlot(pool.value)) ==> r == Fail(TimedOut)
      ensures old(factories) != [] && old(EveryHostHasFree(pool.value)) && waitForConnectionTimeout > 0 ==>
        chosen != null && attempts == 1
    {
      if |factories| == 0 {
        return Fail(NoFactories), null, 0;
      }
      var m := pool.value;
      // Opening the connection found ends the loop, by return or by the loop
      // condition, so it is done once the wait has stopped.
      var found: Connection?, i := WaitForFree(m, elapsed, waitForConnectionTimeout);
      attempts := i;
      if found == null {
        return Fail(TimedOut), null, attempts;
      }
      chosen := found;
      var outcome := found.OpenConnection(transportOk);
      if outcome.Fail? {
        return Fail(OpenFailed), chosen, attempts;
      }
      pool := Some(Checkout(m, found.host, found));
      r := Ok(found);
    }

    /** `setFactories`: the pool is rebuilt from the new factory list. */
    method SetFactories(factories: seq<ConnectionFactory>)
      modifies this
      ensures Valid()
      ensures this.factories == factories
      ensures endpoints == old(Endpoints(factories))
      ensures pool.Some? && IsInitialLayout(pool.value, endpoints, connectionsPerHost)
      ensures forall h, c | h in pool.value && c in pool.value[h] :: fresh(c)
      ensures forall h, c | h in pool.value && c in pool.value[h] :: Pristine(c)
      ensures connectionsPerHost == old(connectionsPerHost) && waitForConnectionTimeout == old(waitForConnectionTimeout)
      ensures releases == old(releases)
    {
      ghost var es := Endpoints(factories);
      var m := InitializePool(factories, es, connectionsPerHost);
      this.factories := factories;
      endpoints := es;
      pool := Some(m);
    }

    /** `setConnectionsPerHost`: takes effect only when the pool is next rebuilt. */
    method SetConnectionsPerHost(connectionsPerHost: int)
      requires Valid()
      modifies this
      ensures Valid()
      ensures this.connectionsPerHost == connectionsPerHost
      ensures factories == old(factories) && pool == old(pool)
      ensures waitForConnectionTimeout == old(waitForConnectionTimeout) && releases == old(releases)
    {
      this.connectionsPerHost := connectionsPerHost;
    }

    /**
     * `releaseConnection`: null is ignored; an open connection is closed
     * first (a failing close escapes, leaving the slot busy); then the
     * connection is marked free under its host, which fails with a null
     * dereference when there is no pool or no such host.
     */
    method ReleaseConnection(c: Connection?, flushOk: bool) returns (r: Result<()>)
      requires Valid()
      requires c != null ==> c.Valid()
      modifies this, c
      ensures Valid()
      ensures releases == old(releases) + [c]
      ensures factories == old(factories) && connectionsPerHost == old(connectionsPerHost)
      ensures waitForConnectionTimeout == old(waitForConnectionTimeout)
      ensures c == null ==> r == Ok(()) && pool == old(pool)
      ensures c != null ==>
        var closes := old(c.open);
        var flushes := old(c.hasClient && c.transportOpen);
        if closes && flushes && !flushOk then
          r == Fail(CloseFailed) && pool == old(pool) && unchanged(c)
        else
          && (closes ==> !c.open && !c.hasClient && !c.transportOpen
                         && c.transportCloses == old(c.transportCloses) + (if flushes then 1 else 0))
          && (!closes ==> unchanged(c))
          && if old(pool).None? || c.host !in old(pool).value then
               r == Fail(NullReference) && pool == old(pool)
             else
               r == Ok(()) && pool == Some(Checkin(old(pool).value, c))
    {
      releases := releases + [c];
      if c == null {
        return Ok(());
      }
      if c.open {
        var outcome := c.CloseConnection(flushOk);
        if outcome.Fail? {
          return Fail(CloseFailed);
        }
      }
      if pool.None? || c.host !in pool.value {
        return Fail(NullReference);
      }
      pool := Some(Checkin(pool.value, c));
      r := Ok(());
    }
  }
}
