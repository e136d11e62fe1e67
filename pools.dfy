/**
 * What both connection pools share: the shape of the pool map
 * (host -> (connection -> free?)), the building of a fresh pool from the
 * factories (`initializePool`), and the clock that bounds the wait for a
 * connection.
 */
module Pools {
  import opened Connections
  import opened ConnectionFactories

  /** One host's connections, each with its availability flag (true = free). */
  type SubPool = map<Connection, bool>

  type PoolMap = map<string, SubPool>

  /**
   * The wait clock: the elapsed milliseconds of each borrow attempt, in
   * order; `Sum` of a prefix is the time waited after that many attempts.
   */
  function Sum(elapsed: seq<nat>): nat
  {
    if elapsed == [] then 0 else Sum(elapsed[..|elapsed| - 1]) + elapsed[|elapsed| - 1]
  }

  lemma {:induction false} SumMonotone(elapsed: seq<nat>, k: nat)
    requires k <= |elapsed|
    ensures Sum(elapsed[..k]) <= Sum(elapsed)
  {
    if k < |elapsed| {
      assert elapsed[..|elapsed| - 1][..k] == elapsed[..k];
      SumMonotone(elapsed[..|elapsed| - 1], k);
    } else {
      assert elapsed[..k] == elapsed;
    }
  }

  /** Every connection the pool map holds. */
  function Members(m: PoolMap): set<Connection>
  {
    set h, c | h in m && c in m[h] :: c
  }

  /** Each connection sits under its own host. */
  predicate HostsConsistent(m: PoolMap)
  {
    forall h, c | h in m && c in m[h] :: c.host == h
  }

  predicate HasFreeSlot(sub: SubPool)
  {
    exists c :: c in sub && sub[c]
  }

  predicate EveryHostHasFree(m: PoolMap)
  {
    forall h | h in m :: HasFreeSlot(m[h])
  }

  predicate NoFreeSlot(m: PoolMap)
  {
    forall h | h in m :: !HasFreeSlot(m[h])
  }

  /** The map after `c`, free under `h`, is marked busy. */
  function Checkout(m: PoolMap, h: string, c: Connection): (r: PoolMap)
    requires h in m
    ensures r.Keys == m.Keys && c in r[h] && !r[h][c]
    ensures forall g | g in m && g != h :: r[g] == m[g]
    ensures forall d | d in m[h] && d != c :: d in r[h] && r[h][d] == m[h][d]
  {
    m[h := m[h][c := false]]
  }

  /** The map after `c` is marked free under its host. */
  function Checkin(m: PoolMap, c: Connection): (r: PoolMap)
    requires c.host in m
    ensures r.Keys == m.Keys && c in r[c.host] && r[c.host][c]
    ensures forall g | g in m && g != c.host :: r[g] == m[g]
    ensures forall d | d in m[c.host] && d != c :: d in r[c.host] && r[c.host][d] == m[c.host][d]
  {
    m[c.host := m[c.host][c := true]]
  }

  /** Releasing what was borrowed restores the map exactly. */
  lemma CheckinUndoesCheckout(m: PoolMap, c: Connection)
    requires c.host in m && c in m[c.host] && m[c.host][c]
    ensures Checkin(Checkout(m, c.host, c), c) == m
  {
    var sub: SubPool := m[c.host];
    var busy: SubPool := sub[c := false];
    assert busy[c := true] == sub;
  }

  /** Marking an already free connection free again changes nothing. */
  lemma CheckinIdempotent(m: PoolMap, c: Connection)
    requires c.host in m && c in m[c.host] && m[c.host][c]
    ensures Checkin(m, c) == m
  {
    var sub: SubPool := m[c.host];
    assert sub[c := true] == sub;
  }

  /**
   * The wait loop both pools' `getConnection` share: each attempt picks
   * some host and some free connection on it, and the loop runs while none
   * was found and the time waited so far is below the timeout. `elapsed[k]`
   * is how long attempt `k` took.
   */
  method WaitForFree(m: PoolMap, elapsed: seq<nat>, timeout: int) returns (found: Connection?, attempts: nat)
    requires m.Keys != {} && HostsConsistent(m)
    requires Sum(elapsed) >= timeout
    ensures attempts <= |elapsed|
    ensures forall k | 0 <= k < attempts :: Sum(elapsed[..k]) < timeout
    ensures found == null ==> Sum(elapsed[..attempts]) >= timeout
    ensures found != null ==> attempts > 0 && found.host in m && found in m[found.host] && m[found.host][found]
    ensures timeout <= 0 ==> found == null && attempts == 0
    ensures NoFreeSlot(m) ==> found == null
    ensures EveryHostHasFree(m) && timeout > 0 ==> found != null && attempts == 1
  {
    found := null;
    var waitTime: nat := 0;
    attempts := 0;
    assert elapsed[..|elapsed|] == elapsed;
    while found == null && waitTime < timeout
      invariant attempts <= |elapsed| && waitTime == Sum(elapsed[..attempts])
      invariant forall k | 0 <= k < attempts :: Sum(elapsed[..k]) < timeout
      invariant found != null ==> attempts > 0 && found.host in m && found in m[found.host] && m[found.host][found]
      invariant attempts == 0 ==> found == null
      invariant EveryHostHasFree(m) ==> attempts <= 1 && (attempts == 1 ==> found != null)
      invariant NoFreeSlot(m) ==> found == null
      decreases |elapsed| - attempts
    {
      var h :| h in m;
      var sub: SubPool := m[h];
      if exists c :: c in sub && sub[c] {
        var c: Connection :| c in sub && sub[c];
        found := c;
      }
      assert elapsed[..attempts + 1][..attempts] == elapsed[..attempts];
      waitTime := waitTime + elapsed[attempts];
      attempts := attempts + 1;
    }
  }

  /** A factory's settings, as `initializePool` reads them. */
  datatype Endpoint = Endpoint(host: string, port: int, timeout: int)

  ghost function Endpoints(factories: seq<ConnectionFactory>): (es: seq<Endpoint>)
    reads set f | f in factories
    ensures |es| == |factories|
    ensures forall i | 0 <= i < |factories| ::
      es[i] == Endpoint(factories[i].host, factories[i].port, factories[i].timeout)
  {
    if factories == [] then []
    else
      var f := factories[|factories| - 1];
      Endpoints(factories[..|factories| - 1]) + [Endpoint(f.host, f.port, f.timeout)]
  }

  /** Some factory names host `h`. */
  predicate Declares(es: seq<Endpoint>, h: string)
  {
    exists i | 0 <= i < |es| :: es[i].host == h
  }

  /** The position of the last factory naming `h`: the one whose sub-pool survives. */
  function LastIndex(es: seq<Endpoint>, h: string): (k: nat)
    requires Declares(es, h)
    ensures k < |es| && es[k].host == h
    ensures forall j | k < j < |es| :: es[j].host != h
  {
    if es[|es| - 1].host == h then |es| - 1
    else
      assert Declares(es[..|es| - 1], h) by {
        var i :| 0 <= i < |es| && es[i].host == h;
        assert es[..|es| - 1][i].host == h;
      }
      LastIndex(es[..|es| - 1], h)
  }

  /** How many connections a host gets: `connectionsPerHost`, or none when that is not positive. */
  function PerHost(connectionsPerHost: int): nat
  {
    if connectionsPerHost > 0 then connectionsPerHost else 0
  }

  /** One factory's sub-pool: the right number of connections, all free, with the factory's settings. */
  predicate IsSubPool(sub: SubPool, e: Endpoint, connectionsPerHost: int)
  {
    && |sub| == PerHost(connectionsPerHost)
    && forall c | c in sub :: sub[c] && c.host == e.host && c.port == e.port && c.timeout == e.timeout
  }

  /** A connection as it leaves `createConnection`: closed, without a client. */
  ghost predicate Pristine(c: Connection)
    reads c
  {
    c.Valid() && !c.open && !c.hasClient && !c.transportOpen
  }

  lemma AddPristine(m: PoolMap, h: string, sub: SubPool, m': PoolMap)
    requires forall h', c | h' in m && c in m[h'] :: Pristine(c)
    requires forall c | c in sub :: Pristine(c)
    requires m' == m[h := sub]
    ensures forall h', c | h' in m' && c in m'[h'] :: Pristine(c)
  {
  }

  /**
   * The settings each host ends up with when the factories are taken in
   * order: a later factory with the same host replaces an earlier one.
   */
  function HostSettings(es: seq<Endpoint>): map<string, Endpoint>
  {
    if es == [] then map[]
    else HostSettings(es[..|es| - 1])[es[|es| - 1].host := es[|es| - 1]]
  }

  /** A host gets the settings of the last factory naming it; hosts no factory names get none. */
  lemma {:induction false} HostSettingsIsLast(es: seq<Endpoint>, h: string)
    ensures h in HostSettings(es) <==> Declares(es, h)
    ensures h in HostSettings(es) ==> HostSettings(es)[h] == es[LastIndex(es, h)]
  {
    if es != [] {
      var init := es[..|es| - 1];
      HostSettingsIsLast(init, h);
      if es[|es| - 1].host != h {
        if Declares(es, h) {
          var i :| 0 <= i < |es| && es[i].host == h;
          assert init[i].host == h;
        }
        if Declares(init, h) {
          var i :| 0 <= i < |init| && init[i].host == h;
          assert es[i].host == h;
          assert LastIndex(es, h) == LastIndex(init, h);
        }
      }
    }
  }

  /** The layout `initializePool` builds: one sub-pool per distinct factory host, configured by `HostSettings`. */
  predicate IsInitialLayout(m: PoolMap, es: seq<Endpoint>, connectionsPerHost: int)
  {
    var settings := HostSettings(es);
    && m.Keys == settings.Keys
    && forall h | h in m :: IsSubPool(m[h], settings[h], connectionsPerHost)
  }

  /** A freshly built pool keeps each connection under its own host, and has a host whenever there is a factory. */
  lemma InitialPoolConsistent(m: PoolMap, es: seq<Endpoint>, connectionsPerHost: int)
    requires IsInitialLayout(m, es, connectionsPerHost)
    ensures HostsConsistent(m)
    ensures |es| > 0 ==> m.Keys != {}
  {
    forall h | h in m
      ensures HostSettings(es)[h].host == h
    {
      HostSettingsIsLast(es, h);
    }
    if |es| > 0 {
      assert es[|es| - 1].host in HostSettings(es);
    }
  }

  /** The inner loop of `initializePool`: `connectionsPerHost` new connections from one factory, all free. */
  method NewSubPool(factory: ConnectionFactory, connectionsPerHost: int) returns (hostPool: SubPool)
    ensures IsSubPool(hostPool, Endpoint(factory.host, factory.port, factory.timeout), connectionsPerHost)
    ensures forall c | c in hostPool :: fresh(c)
    ensures forall c | c in hostPool :: Pristine(c)
  {
    hostPool := map[];
    var i := 0;
    while i < connectionsPerHost
      invariant 0 <= i && (i <= connectionsPerHost || i == 0)
      invariant IsSubPool(hostPool, Endpoint(factory.host, factory.port, factory.timeout), i)
      invariant forall c | c in hostPool :: fresh(c)
      invariant forall c | c in hostPool :: Pristine(c)
    {
      i := i + 1;
      var c := factory.CreateConnection();
      hostPool := hostPool[c := true];
    }
  }

  /** `initializePool`: for each factory in turn, a new sub-pool replaces any earlier one for the same host. */
  /** `es` is what the factories hold when the pool is built; their settings are read, never changed. */
  method InitializePool(factories: seq<ConnectionFactory>, ghost es: seq<Endpoint>, connectionsPerHost: int)
    returns (m: PoolMap)
    requires es == Endpoints(factories)
    ensures IsInitialLayout(m, es, connectionsPerHost)
    ensures HostsConsistent(m) && (|es| > 0 ==> m.Keys != {})
    ensures forall h, c | h in m && c in m[h] :: fresh(c)
    ensures forall h, c | h in m && c in m[h] :: Pristine(c)
  {
    m := map[];
    var i := 0;
    while i < |factories|
      invariant 0 <= i <= |factories|
      invariant es == Endpoints(factories)
      invariant IsInitialLayout(m, es[..i], connectionsPerHost)
      invariant forall h, c | h in m && c in m[h] :: fresh(c)
      invariant forall h, c | h in m && c in m[h] :: Pristine(c)
    {
      var factory := factories[i];
      var hostPool := NewSubPool(factory, connectionsPerHost);
      NextFactory(m, es, i, connectionsPerHost, hostPool);
      AddPristine(m, factory.host, hostPool, m[factory.host := hostPool]);
      m := m[factory.host := hostPool];
      i := i + 1;
    }
    assert es[..i] == es;
    InitialPoolConsistent(m, es, connectionsPerHost);
  }

  /** One more factory's sub-pool keeps the map the layout of the longer factory list. */
  lemma NextFactory(m: PoolMap, es: seq<Endpoint>, i: nat, connectionsPerHost: int, hostPool: SubPool)
    requires i < |es|
    requires IsInitialLayout(m, es[..i], connectionsPerHost)
    requires IsSubPool(hostPool, es[i], connectionsPerHost)
    ensures IsInitialLayout(m[es[i].host := hostPool], es[..i + 1], connectionsPerHost)
  {
    assert es[..i + 1][..i] == es[..i];
  }
}
