/**
 * `Connection`: one link to a store endpoint. The Thrift socket and client
 * are reduced to two flags: whether a client handle exists and whether the
 * transport reports itself open. Whether the transport manages to open, and
 * whether flushing it succeeds, are parameters.
 */
module Connections {
  import opened Errors

  class Connection {
    const host: string
    const port: int
    const timeout: int
    var open: bool
    var hasClient: bool        // `client != null`
    var transportOpen: bool    // `transport != null && transport.isOpen()`
    ghost var transportCloses: nat  // how many times the transport was flushed and closed

    ghost predicate Valid()
      reads this
    {
      transportOpen ==> hasClient
    }

    /** A new connection carries its endpoint and starts closed, without a client. */
    constructor (host: string, port: int, timeout: int)
      ensures this.host == host && this.port == port && this.timeout == timeout
      ensures !open && !hasClient && !transportOpen && transportCloses == 0
      ensures Valid()
    {
      this.host := host;
      this.port := port;
      this.timeout := timeout;
      open := false;
      hasClient := false;
      transportOpen := false;
      transportCloses := 0;
    }

    /**
     * `openConnection`: a fresh socket and client are always installed; only
     * when the transport opens does `open` become true. A failure leaves
     * `open` as it was.
     */
    method OpenConnection(transportOk: bool) returns (r: Result<()>)
      modifies this
      ensures Valid()
      ensures hasClient && transportOpen == transportOk
      ensures open == (transportOk || old(open))
      ensures r == if transportOk then Ok(()) else Fail(OpenFailed)
      ensures transportCloses == old(transportCloses)
    {
      hasClient := true;
      transportOpen := false;
      if transportOk {
        transportOpen := true;
        open := true;
        r := Ok(());
      } else {
        r := Fail(OpenFailed);
      }
    }

    /**
     * `closeConnection`: the transport is flushed and closed only when there
     * is a client and the transport is open; afterwards there is no client
     * and the connection is not open. A failing flush escapes before the
     * fields are reset.
     */
    method CloseConnection(flushOk: bool) returns (r: Result<()>)
      requires Valid()
      modifies this
      ensures Valid()
      ensures var flushes := old(hasClient && transportOpen);
        if flushes && !flushOk then
          r == Fail(CloseFailed) && unchanged(this)
        else
          r == Ok(()) && !open && !hasClient && !transportOpen
          && transportCloses == old(transportCloses) + (if flushes then 1 else 0)
    {
      if hasClient && transportOpen {
        if !flushOk {
          return Fail(CloseFailed);
        }
        transportOpen := false;
        transportCloses := transportCloses + 1;
      }
      hasClient := false;
      open := false;
      r := Ok(());
    }
  }
}
