/** The connection cache: its lock sections as functions on the cache's value, the
    object whose methods run them, and the one-mutex manager that they speed up. */
module ConnectionManager {
  import opened Wrappers
  import D = Dns
  import Text

  // ----- The cache as a value, over any kind of connection -----

  datatype Cache<C> = Cache(conns: map<string, C>, closed: bool)

  datatype DialError = ManagerClosed | DialFailed(cause: string) | BuildFailed(error: D.DnsError)

  type DialResult<C> = Result<C, DialError>

  /** What the dial function does when it is called. */
  datatype Attempt<C> = Opened(conn: C) | Refused(cause: string)

  /** The first and the second lock section: the result of the dial if it is already decided. */
  function Lookup<C>(m: Cache<C>, key: string): Option<DialResult<C>> {
    if m.closed then Some(Err(ManagerClosed))
    else if key in m.conns then Some(Ok(m.conns[key]))
    else None
  }

  /** The third lock section, entered with a connection that has just been dialled. */
  function Publish<C>(m: Cache<C>, key: string, conn: C): (DialResult<C>, Cache<C>) {
    match Lookup(m, key)
    case Some(r) => (r, m)
    case None => (Ok(conn), m.(conns := m.conns[key := conn]))
  }

  /** Whether the third lock section closes the connection it was given. */
  predicate Discards<C>(m: Cache<C>, key: string) {
    m.closed || key in m.conns
  }

  /** What Close leaves behind. */
  function Shut<C>(): Cache<C> {
    Cache(map[], true)
  }

  // ----- The manager that holds one mutex across the whole dial -----

  /** What a caller asks for: a target, or a description from which none can be built. */
  datatype Request = Target(key: string) | Unbuildable(error: D.DnsError)

  function AtomicDial<C>(m: Cache<C>, q: Request, attempt: Attempt<C>): (DialResult<C>, Cache<C>) {
    if m.closed then (Err(ManagerClosed), m)
    else match q
      case Unbuildable(e) => (Err(BuildFailed(e)), m)
      case Target(key) =>
        if key in m.conns then (Ok(m.conns[key]), m)
        else match attempt
          case Refused(cause) => (Err(DialFailed(cause)), m)
          case Opened(conn) => (Ok(conn), m.(conns := m.conns[key := conn]))
  }

  /** Dial as the new manager orders its checks: the target is built before the closed flag is read. */
  function BuildFirstDial<C>(m: Cache<C>, q: Request, attempt: Attempt<C>): (DialResult<C>, Cache<C>) {
    if q.Unbuildable? then (Err(BuildFailed(q.error)), m) else AtomicDial(m, q, attempt)
  }

  // ----- The object -----

  class Conn {
    const closeError: Option<string>
    var closes: nat

    constructor (closeError: Option<string>)
      ensures this.closeError == closeError && closes == 0
    {
      this.closeError := closeError;
      closes := 0;
    }

    method Close() returns (err: Option<string>)
      modifies this
      ensures closes == old(closes) + 1 && err == closeError
    {
      closes := closes + 1;
      err := closeError;
    }
  }

  /** No connection is cached under two keys. */
  ghost predicate OneKeyEach<C>(m: map<string, C>) {
    forall k, k' :: k in m && k' in m && m[k] == m[k'] ==> k == k'
  }

  class ConnectionManager {
    const dnsManager: D.DnsManager
    var conns: map<string, Conn>
    var closed: bool

    function Abs(): Cache<Conn>
      reads this
    {
      Cache(conns, closed)
    }

    ghost predicate Valid()
      reads this
    {
      && (closed ==> conns == map[])
      && OneKeyEach(conns)
    }

    constructor (dnsManager: D.DnsManager)
      ensures Valid() && Abs() == Cache(map[], false) && this.dnsManager == dnsManager
    {
      this.dnsManager := dnsManager;
      conns, closed := map[], false;
    }

    method ReadLockedLookup(key: string) returns (r: Option<DialResult<Conn>>)
      ensures r == Lookup(Abs(), key)
    {
      if closed {
        return Some(Err(ManagerClosed));
      }
      if key in conns {
        return Some(Ok(conns[key]));
      }
      return None;
    }

    method LockedPublish(key: string, conn: Conn) returns (r: DialResult<Conn>)
      requires Valid() && conn !in conns.Values
      modifies this, conn
      ensures Valid() && (r, Abs()) == Publish(old(Abs()), key, conn)
      ensures conn.closes == old(conn.closes) + if Discards(old(Abs()), key) then 1 else 0
    {
      if closed {
        var _ := conn.Close();
        return Err(ManagerClosed);
      }
      if key in conns {
        var _ := conn.Close();
        return Ok(conns[key]);
      }
      conns := conns[key := conn];
      return Ok(conn);
    }

    /** Dial when no other call runs, `attempt` being what its dial function does. The outcome
        is the one-mutex manager's, except that a description that cannot be built fails even
        on a closed manager. */
    method Dial(dns: D.DNS?, attempt: Attempt<Conn>) returns (r: DialResult<Conn>)
      requires Valid() && (attempt.Opened? ==> attempt.conn !in conns.Values)
      modifies this, dns, if attempt.Opened? then {attempt.conn} else {}
      ensures Valid()
      ensures
        var q := if dns == null || Text.Blank(old(dns.service)) then Unbuildable(D.ServiceNameEmpty)
                 else Target(D.CacheKey(dnsManager.config, old(dns.Value())));
        (r, Abs()) == BuildFirstDial(old(Abs()), q, attempt)
      ensures attempt.Opened? ==> attempt.conn.closes == old(attempt.conn.closes)
    {
      var target := dnsManager.Build(dns);
      if target.Err? {
        return Err(BuildFailed(target.error));
      }
      var key := target.value.GRPCTarget();
      var fast := ReadLockedLookup(key);
      match fast {
        case Some(decided) => return decided;
        case None =>
      }
      var again := ReadLockedLookup(key);
      match again {
        case Some(decided) => return decided;
        case None =>
      }
      match attempt {
        case Refused(cause) => return Err(DialFailed(cause));
        case Opened(conn) => r := LockedPublish(key, conn);
      }
    }

    /** Closes every cached connection once, whatever the order and whatever fails; the
        error is some connection's, and there is one exactly when a connection has one. */
    method Close() returns (err: Option<string>)
      requires Valid()
      modifies this, conns.Values
      ensures Valid() && Abs() == Shut()
      ensures forall c :: c in old(conns.Values) ==> c.closes == old(c.closes) + 1
      ensures err.None? <==> forall c :: c in old(conns.Values) ==> c.closeError.None?
      ensures err.Some? ==> exists c :: c in old(conns.Values) && c.closeError == err
    {
      err := None;
      if closed {
        return;
      }
      closed := true;
      ghost var all, done := conns.Values, {};
      while conns != map[]
        invariant closed && OneKeyEach(conns)
        invariant done <= all && conns.Values == all - done
        invariant forall c :: c in all ==> c.closes == old(c.closes) + if c in done then 1 else 0
        invariant err.None? <==> forall c :: c in done ==> c.closeError.None?
        invariant err.Some? ==> exists c :: c in all && c.closeError == err
        decreases conns.Keys
      {
        var key :| key in conns;
        var conn := conns[key];
        assert conn in conns.Values;
        var failure := conn.Close();
        if failure.Some? && err.None? {
          err := failure;
        }
        ValuesWithout(conns, key);
        conns := conns - {key};
        done := done + {conn};
      }
      assert conns.Values == {} && done == all;
    }
  }

  lemma ValuesWithout<C>(m: map<string, C>, key: string)
    requires key in m && OneKeyEach(m)
    ensures (m - {key}).Values == m.Values - {m[key]} && OneKeyEach(m - {key})
  {
    forall c | c in m.Values && c != m[key] ensures c in (m - {key}).Values {
      var k :| k in m && m[k] == c;
      assert k in m - {key};
    }
  }

  // ----- The one difference from the one-mutex manager -----

  /** The two managers answer alike exactly when the description builds or the manager is open. */
  lemma DifferOnlyWhenClosed<C>(m: Cache<C>, q: Request, attempt: Attempt<C>)
    ensures BuildFirstDial(m, q, attempt) == AtomicDial(m, q, attempt) <==> q.Target? || !m.closed
  {
  }
}
