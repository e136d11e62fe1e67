/**
 * `ConnectionFactory`: the configuration of one endpoint, from which new
 * connections are made. The no-argument constructor leaves host and port
 * unset (null in Java); they are modelled as "" and 0.
 */
module ConnectionFactories {
  import opened Connections

  const DEFAULT_TIMEOUT: int := 1000

  class ConnectionFactory {
    var host: string
    var port: int
    var timeout: int

    /** `ConnectionFactory()`: only the timeout has a value, the default. */
    constructor Default()
      ensures timeout == DEFAULT_TIMEOUT && host == "" && port == 0
    {
      host := "";
      port := 0;
      timeout := DEFAULT_TIMEOUT;
    }

    constructor (host: string, port: int, timeout: int)
      ensures this.host == host && this.port == port && this.timeout == timeout
    {
      this.host := host;
      this.port := port;
      this.timeout := timeout;
    }

    /** `createConnection`: a new, closed connection with the factory's current settings. */
    method CreateConnection() returns (c: Connection)
      ensures fresh(c) && c.Valid()
      ensures c.host == host && c.port == port && c.timeout == timeout
      ensures !c.open && !c.hasClient && !c.transportOpen && c.transportCloses == 0
    {
      c := new Connection(host, port, timeout);
    }

    method SetHost(host: string)
      modifies this
      ensures this.host == host && port == old(port) && timeout == old(timeout)
    {
      this.host := host;
    }

    method SetPort(port: int)
      modifies this
      ensures this.port == port && host == old(host) && timeout == old(timeout)
    {
      this.port := port;
    }

    method SetTimeout(timeout: int)
      modifies this
      ensures this.timeout == timeout && host == old(host) && port == old(port)
    {
      this.timeout := timeout;
    }
  }

  /**
   * The factory's setters reach only connections made afterwards: a
   * connection copies host, port and timeout when it is made.
   */
  method SettersAffectOnlyLaterConnections() returns (before: Connection, after: Connection)
    ensures before.host == "localhost" && before.port == 9160 && before.timeout == DEFAULT_TIMEOUT
    ensures after.host == "remote" && after.port == 9161 && after.timeout == 500
    ensures !before.open && !after.open
  {
    var factory := new ConnectionFactory.Default();
    factory.SetHost("localhost");
    factory.SetPort(9160);
    before := factory.CreateConnection();
    factory.SetHost("remote");
    factory.SetPort(9161);
    factory.SetTimeout(500);
    after := factory.CreateConnection();
  }
}
