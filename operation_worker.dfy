/**
 * `OperationWorker.doWork`: borrow a connection from the connector pool,
 * bind the operation to its client, run it, wrap any failure, and release
 * the connection in every outcome.
 */
module OperationWorkers {
  import opened Errors
  import opened Connections
  import opened Pools
  import opened ConnectorPool

  /** The catch block: a failure of the borrow or of the work, wrapped as "Unable to perform operation". */
  function Wrapped<T>(outcome: Result<T>): (r: Result<T>)
    ensures outcome.Ok? <==> r.Ok?
    ensures outcome.Ok? ==> r == outcome
    ensures outcome.Fail? ==> r == Fail(OperationFailed(outcome.error))
  {
    match outcome
    case Ok(v) => Ok(v)
    case Fail(e) => Fail(OperationFailed(e))
  }

  class OperationWorker {
    /** The pool the worker borrows from (reached through the `Cassandra` handle in the client). */
    const pool: ConnectionPool

    constructor (pool: ConnectionPool)
      ensures this.pool == pool
    {
      this.pool := pool;
    }

    /**
     * `doWork`. The operation is a function of the connection whose client
     * it is bound to. `elapsed` and `transportOk` feed the borrow, `flushOk`
     * the release. `borrowed` is the connection handed to the operation, or
     * null when the borrow failed.
     */
    method DoWork<T>(work: Connection -> Result<T>, elapsed: seq<nat>, transportOk: bool, flushOk: bool)
      returns (r: Result<T>, ghost borrowed: Connection?)
      requires pool.Valid()
      requires Sum(elapsed) >= pool.waitForConnectionTimeout
      modifies pool, pool.Conns()
      ensures pool.Valid()
      ensures pool.factories == old(pool.factories) && pool.connectionsPerHost == old(pool.connectionsPerHost)
      ensures pool.waitForConnectionTimeout == old(pool.waitForConnectionTimeout)
      // release is called exactly once, with the borrowed connection or with null
      ensures pool.releases == old(pool.releases) + [borrowed]
      // a failed borrow: wrapped, nothing to release, the pool map as it was
      ensures borrowed == null ==>
        && r.Fail? && r.error.OperationFailed? && r.error.cause in {NoFactories, TimedOut, OpenFailed}
        && pool.pool == old(pool.pool)
      ensures borrowed != null ==>
        && old(pool.pool).Some? && borrowed.host in old(pool.pool).value
        && borrowed in old(pool.pool).value[borrowed.host] && old(pool.pool).value[borrowed.host][borrowed]
      // a clean release: the operation's own outcome, wrapped if it failed, and the slot free again
      ensures borrowed != null && flushOk ==>
        r == Wrapped(work(borrowed)) && !borrowed.open && !borrowed.hasClient
      // a failing close in `finally` replaces the outcome, and the slot stays busy
      ensures borrowed != null && !flushOk ==>
        r == Fail(CloseFailed) && pool.pool == Some(Checkout(old(pool.pool).value, borrowed.host, borrowed))
      ensures flushOk ==> pool.pool == old(pool.pool)
      ensures r.Ok? ==> borrowed != null && work(borrowed) == Ok(r.value)
    {
      var connection: Connection? := null;
      var outcome: Result<T>;
      var got, chosen, attempts := pool.GetConnection(elapsed, transportOk);
      if got.Fail? {
        outcome := Wrapped(Fail(got.error));
      } else {
        connection := got.value;
        outcome := Wrapped(work(connection));
      }
      var released := pool.ReleaseConnection(connection, flushOk);
      if connection != null && flushOk {
        CheckinUndoesCheckout(old(pool.pool).value, connection);
      }
      if released.Fail? {
        r := Fail(released.error);
      } else {
        r := outcome;
      }
      borrowed := connection;
    }
  }
}
