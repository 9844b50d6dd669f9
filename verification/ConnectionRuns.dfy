/** Any number of concurrent Dial and Close calls on one manager. Each lock section is one
    step, the dial function runs between two steps, and a run is any interleaving. */
module ConnectionRuns {
  import opened Wrappers
  import opened ConnectionManager
  import D = Dns

  type CallId = nat
  type ConnId = nat

  datatype Op = Dial(request: Request) | Close

  /** Where a call is: just before a section, inside the dial function, between the dial
      and the third section, or returned. */
  datatype Pc =
    | Building(request: Request)
    | FastCheck(key: string)
    | SecondCheck(key: string)
    | Dialling(key: string)
    | Holding(key: string, conn: ConnId)
    | Closing
    | DialReturned(request: Request, result: DialResult<ConnId>)
    | CloseReturned

  /** `closes` maps every connection ever dialled to the number of times it was closed. */
  datatype State = State(cache: Cache<ConnId>, calls: map<CallId, Pc>, closes: map<ConnId, nat>)

  datatype Action = Invoke(call: CallId, op: Op) | Advance(call: CallId) | DialReturns(call: CallId, attempt: Attempt<ConnId>)

  predicate Returned(pc: Pc) {
    pc.DialReturned? || pc.CloseReturned?
  }

  ghost predicate Enabled(s: State, a: Action) {
    match a
    case Invoke(t, _) => t !in s.calls
    case Advance(t) => t in s.calls && !Returned(s.calls[t]) && !s.calls[t].Dialling?
    case DialReturns(t, attempt) =>
      && t in s.calls && s.calls[t].Dialling?
      && (attempt.Opened? ==> attempt.conn !in s.closes) // a new connection
  }

  function AfterInvoke(op: Op): Pc {
    match op
    case Dial(q) => Building(q)
    case Close => Closing
  }

  /** One more close of every connection in `which`. */
  function Bump(closes: map<ConnId, nat>, which: set<ConnId>): map<ConnId, nat> {
    map c | c in closes :: if c in which then closes[c] + 1 else closes[c]
  }

  ghost function AdvanceCall(s: State, t: CallId): State
    requires Enabled(s, Advance(t))
  {
    match s.calls[t]
    case Building(Unbuildable(e)) =>
      s.(calls := s.calls[t := DialReturned(Unbuildable(e), Err(BuildFailed(e)))])
    case Building(Target(key)) =>
      s.(calls := s.calls[t := FastCheck(key)])
    case FastCheck(key) =>
      s.(calls := s.calls[t := Decided(Lookup(s.cache, key), key, SecondCheck(key))])
    case SecondCheck(key) =>
      s.(calls := s.calls[t := Decided(Lookup(s.cache, key), key, Dialling(key))])
    case Holding(key, conn) =>
      var (r, cache) := Publish(s.cache, key, conn);
      State(cache,
            s.calls[t := DialReturned(Target(key), r)],
            Bump(s.closes, if Discards(s.cache, key) then {conn} else {}))
    case Closing =>
      State(Shut(), s.calls[t := CloseReturned], Bump(s.closes, s.cache.conns.Values))
  }

  function Decided(r: Option<DialResult<ConnId>>, key: string, otherwise: Pc): Pc {
    match r
    case Some(result) => DialReturned(Target(key), result)
    case None => otherwise
  }

  ghost function Apply(s: State, a: Action): State
    requires Enabled(s, a)
  {
    match a
    case Invoke(t, op) => s.(calls := s.calls[t := AfterInvoke(op)])
    case Advance(t) => AdvanceCall(s, t)
    case DialReturns(t, Refused(cause)) =>
      s.(calls := s.calls[t := DialReturned(Target(s.calls[t].key), Err(DialFailed(cause)))])
    case DialReturns(t, Opened(conn)) =>
      s.(calls := s.calls[t := Holding(s.calls[t].key, conn)], closes := s.closes[conn := 0])
  }

  const INITIAL := State(Cache(map[], false), map[], map[])

  type Run = seq<Action>

  ghost predicate Legal(run: Run)
    decreases |run|, 0
  {
    run == [] || (Legal(run[..|run| - 1]) && Enabled(After(run[..|run| - 1]), run[|run| - 1]))
  }

  ghost function After(run: Run): State
    requires Legal(run)
    decreases |run|, 1
  {
    if run == [] then INITIAL else Apply(After(run[..|run| - 1]), run[|run| - 1])
  }

  lemma {:induction false} PrefixIsLegal(run: Run, i: nat)
    requires Legal(run) && i <= |run|
    ensures Legal(run[..i])
  {
    if i < |run| {
      PrefixIsLegal(run[..|run| - 1], i);
      assert run[..|run| - 1][..i] == run[..i];
    } else {
      assert run[..i] == run;
    }
  }

  /** The state before action `i` of a run. */
  ghost function At(run: Run, i: nat): State
    requires Legal(run) && i <= |run|
  {
    PrefixIsLegal(run, i);
    After(run[..i])
  }

  lemma StepAt(run: Run, i: nat)
    requires Legal(run) && i < |run|
    ensures Enabled(At(run, i), run[i]) && At(run, i + 1) == Apply(At(run, i), run[i])
    ensures At(run, |run|) == After(run) && At(run, 0) == INITIAL
  {
    PrefixIsLegal(run, i + 1);
    assert run[..i + 1][..i] == run[..i] && run[..i + 1][i] == run[i];
    assert run[..|run|] == run;
  }

  // ----- The looks before a dial -----

  /** In step `i` the call looked for its key, and found the manager open and the key not cached. */
  ghost predicate CleanLook(run: Run, i: nat, t: CallId, key: string)
    requires Legal(run) && i < |run|
  {
    run[i] == Advance(t) && !At(run, i).cache.closed && key !in At(run, i).cache.conns
  }

  lemma LookStep(s: State, a: Action, t: CallId)
    requires Enabled(s, a) && t in Apply(s, a).calls && (t !in s.calls || Apply(s, a).calls[t] != s.calls[t])
    ensures Apply(s, a).calls[t].SecondCheck? || Apply(s, a).calls[t].Dialling? ==>
      && t in s.calls && a == Advance(t) && !s.cache.closed && Apply(s, a).calls[t].key !in s.cache.conns
    ensures Apply(s, a).calls[t].SecondCheck? ==> s.calls[t] == FastCheck(Apply(s, a).calls[t].key)
    ensures Apply(s, a).calls[t].Dialling? ==> s.calls[t] == SecondCheck(Apply(s, a).calls[t].key)
  {
  }

  lemma {:induction false} OneLook(run: Run, n: nat, t: CallId) returns (i: nat)
    requires Legal(run) && n <= |run| && t in At(run, n).calls && At(run, n).calls[t].SecondCheck?
    ensures i < n && CleanLook(run, i, t, At(run, n).calls[t].key)
  {
    if n == 0 {
      AtStart(run);
      assert false;
    }
    StepAt(run, n - 1);
    if t in At(run, n - 1).calls && At(run, n - 1).calls[t] == At(run, n).calls[t] {
      i := OneLook(run, n - 1, t);
    } else {
      i := n - 1;
      LookStep(At(run, n - 1), run[n - 1], t);
    }
  }

  /** A call is in its dial function only after two looks that both found the manager open and the key
      not cached. */
  lemma {:induction false} DialsAfterTwoLooks(run: Run, n: nat, t: CallId) returns (i: nat, j: nat)
    requires Legal(run) && n <= |run| && t in At(run, n).calls && At(run, n).calls[t].Dialling?
    ensures i < j < n && CleanLook(run, i, t, At(run, n).calls[t].key) && CleanLook(run, j, t, At(run, n).calls[t].key)
  {
    if n == 0 {
      AtStart(run);
      assert false;
    }
    StepAt(run, n - 1);
    if t in At(run, n - 1).calls && At(run, n - 1).calls[t] == At(run, n).calls[t] {
      i, j := DialsAfterTwoLooks(run, n - 1, t);
    } else {
      LookStep(At(run, n - 1), run[n - 1], t);
      i := OneLook(run, n - 1, t);
      j := n - 1;
    }
  }

  lemma AtStart(run: Run)
    requires Legal(run)
    ensures At(run, 0) == INITIAL
  {
    assert run[..0] == [];
  }

  // ----- What every reachable state satisfies -----

  ghost predicate Holds(s: State, t: CallId, c: ConnId) {
    t in s.calls && s.calls[t].Holding? && s.calls[t].conn == c
  }

  ghost predicate Caches(s: State, key: string, c: ConnId) {
    key in s.cache.conns && s.cache.conns[key] == c
  }

  /** Call `t` returned connection `c` for `key`. */
  ghost predicate Gave(s: State, t: CallId, key: string, c: ConnId) {
    t in s.calls && s.calls[t] == DialReturned(Target(key), Ok(c))
  }

  ghost predicate Owned(s: State) {
    && (forall t, c :: Holds(s, t, c) ==> c in s.closes && s.closes[c] == 0)
    && (forall t, t', c :: Holds(s, t, c) && Holds(s, t', c) ==> t == t')
    && (forall k, c :: Caches(s, k, c) ==> c in s.closes && s.closes[c] == 0)
    && (forall k, k', c :: Caches(s, k, c) && Caches(s, k', c) ==> k == k')
    && (forall t, k, c :: !(Holds(s, t, c) && Caches(s, k, c)))
    && (forall c :: c in s.closes && s.closes[c] == 0 ==> (exists t :: Holds(s, t, c)) || (exists k :: Caches(s, k, c)))
    && (forall c :: c in s.closes ==> s.closes[c] <= 1)
    && (s.cache.closed ==> s.cache.conns == map[])
  }

  ghost predicate Agreed(s: State) {
    && (forall t, k, c :: Gave(s, t, k, c) ==> c in s.closes)
    && (forall t, k, c, t' :: Gave(s, t, k, c) ==> !Holds(s, t', c))
    && (forall t, k, c :: Gave(s, t, k, c) && !s.cache.closed ==> Caches(s, k, c))
    && (forall t, k, c, t', k', c' :: Gave(s, t, k, c) && Gave(s, t', k', c') ==> (k == k' <==> c == c'))
  }

  /** What one action changes: nothing of the other calls, and of the cache and the held
      connections only what its lock section is for. */
  lemma Frame(s: State, a: Action)
    requires Owned(s) && Enabled(s, a)
    ensures var s' := Apply(s, a);
      && (forall t, c :: t != a.call ==> (Holds(s', t, c) <==> Holds(s, t, c)))
      && (forall t, k, c :: t != a.call ==> (Gave(s', t, k, c) <==> Gave(s, t, k, c)))
      && (forall c :: Holds(s', a.call, c) <==> a == DialReturns(a.call, Opened(c)))
      && (forall k, c :: Caches(s', k, c) && !Caches(s, k, c) ==> Holds(s, a.call, c) && Gave(s', a.call, k, c) && k !in s.cache.conns)
      && (forall k, c :: Caches(s, k, c) && !Caches(s', k, c) ==> s'.cache == Shut())
      && (forall k, c :: Gave(s', a.call, k, c) ==> Caches(s', k, c) && !s'.cache.closed)
      && (forall k, c :: !Gave(s, a.call, k, c))
  {
    var s' := Apply(s, a);
    forall k, c | Caches(s', k, c) && !Caches(s, k, c)
      ensures Holds(s, a.call, c) && Gave(s', a.call, k, c) && k !in s.cache.conns
    {
      assert a.Advance? && s.calls[a.call].Holding?;
    }
  }

  /** What one action does to the close counts. */
  lemma Counts(s: State, a: Action, c: ConnId)
    requires Owned(s) && Enabled(s, a)
    ensures var s' := Apply(s, a);
      && (c in s'.closes <==> c in s.closes || a == DialReturns(a.call, Opened(c)))
      && (c in s'.closes && c !in s.closes ==> s'.closes[c] == 0)
      && (c in s.closes ==>
            s'.closes[c] == s.closes[c] +
              if (exists k :: Caches(s, k, c) && !Caches(s', k, c)) || (Holds(s, a.call, c) && forall k :: !Caches(s', k, c)) then 1 else 0)
  {
    var s' := Apply(s, a);
    if a.Advance? && s.calls[a.call] == Closing && c in s.closes {
      if c in s.cache.conns.Values {
        var k :| k in s.cache.conns && s.cache.conns[k] == c;
        assert Caches(s, k, c) && !Caches(s', k, c);
      }
    } else if Holds(s, a.call, c) {
      var key := s.calls[a.call].key;
      if !Discards(s.cache, key) {
        assert Caches(s', key, c);
      } else {
        assert s'.cache == s.cache && s'.closes[c] == s.closes[c] + 1;
        assert forall k :: Caches(s', k, c) ==> Caches(s, k, c);
      }
    }
  }

  lemma OwnedStep(s: State, a: Action)
    requires Owned(s) && Enabled(s, a)
    ensures Owned(Apply(s, a))
  {
    var s' := Apply(s, a);
    Frame(s, a);
    forall c ensures
      && ((exists t :: Holds(s', t, c)) || (exists k :: Caches(s', k, c)) ==> c in s'.closes && s'.closes[c] == 0)
      && (c in s'.closes && s'.closes[c] == 0 ==> (exists t :: Holds(s', t, c)) || (exists k :: Caches(s', k, c)))
      && (c in s'.closes ==> s'.closes[c] <= 1)
    {
      OwnedStepOf(s, a, c);
    }
  }

  lemma OwnedStepOf(s: State, a: Action, c: ConnId)
    requires Owned(s) && Enabled(s, a)
    ensures var s' := Apply(s, a);
      && ((exists t :: Holds(s', t, c)) || (exists k :: Caches(s', k, c)) ==> c in s'.closes && s'.closes[c] == 0)
      && (c in s'.closes && s'.closes[c] == 0 ==> (exists t :: Holds(s', t, c)) || (exists k :: Caches(s', k, c)))
      && (c in s'.closes ==> s'.closes[c] <= 1)
  {
    var s' := Apply(s, a);
    Frame(s, a);
    Counts(s, a, c);
    if t :| Holds(s', t, c) {
      assert t != a.call ==> Holds(s, t, c);
    }
    if c in s.closes && s.closes[c] == 0 {
      if t :| Holds(s, t, c) {
        assert t != a.call ==> Holds(s', t, c);
      } else {
        var k :| Caches(s, k, c);
      }
    }
  }

  lemma AgreedStep(s: State, a: Action)
    requires Owned(s) && Agreed(s) && Enabled(s, a)
    ensures Agreed(Apply(s, a))
  {
    var s' := Apply(s, a);
    Frame(s, a);
    OwnedStep(s, a);
    forall t, k, c | Gave(s', t, k, c)
      ensures c in s'.closes && (!s'.cache.closed ==> Caches(s', k, c)) && forall t' :: !Holds(s', t', c)
    {
      Counts(s, a, c);
    }
  }

  lemma {:induction false} Invariant(run: Run)
    requires Legal(run)
    ensures Owned(After(run)) && Agreed(After(run))
  {
    if run != [] {
      Invariant(run[..|run| - 1]);
      OwnedStep(After(run[..|run| - 1]), run[|run| - 1]);
      AgreedStep(After(run[..|run| - 1]), run[|run| - 1]);
    }
  }

  // ----- What holds of every run -----

  ghost predicate HeldByOneCall(s: State, c: ConnId) {
    exists t :: Holds(s, t, c) && forall t' :: Holds(s, t', c) ==> t' == t
  }

  ghost predicate CachedUnderOneKey(s: State, c: ConnId) {
    exists k :: Caches(s, k, c) && forall k' :: Caches(s, k', c) ==> k' == k
  }

  ghost predicate Unreachable(s: State, c: ConnId) {
    (forall t :: !Holds(s, t, c)) && (forall k :: !Caches(s, k, c))
  }

  /** Conservation: every connection ever dialled is open and held by exactly one call, or
      open and cached under exactly one key, or closed exactly once and out of reach. */
  lemma Conservation(run: Run, c: ConnId)
    requires Legal(run) && c in After(run).closes
    ensures var s := After(run);
      || (s.closes[c] == 0 && HeldByOneCall(s, c) && forall k :: !Caches(s, k, c))
      || (s.closes[c] == 0 && CachedUnderOneKey(s, c) && forall t :: !Holds(s, t, c))
      || (s.closes[c] == 1 && Unreachable(s, c))
  {
    Invariant(run);
    var s := After(run);
    if s.closes[c] == 0 {
      if t :| Holds(s, t, c) {
        assert HeldByOneCall(s, c);
      } else {
        var k :| Caches(s, k, c);
        assert CachedUnderOneKey(s, c);
      }
    }
  }

  /** Nothing leaks: once Close has run and every call has returned, every connection ever
      dialled has been closed exactly once. */
  lemma NothingLeaks(run: Run)
    requires Legal(run) && After(run).cache.closed
    requires forall t :: t in After(run).calls ==> Returned(After(run).calls[t])
    ensures forall c :: c in After(run).closes ==> After(run).closes[c] == 1
  {
    forall c | c in After(run).closes ensures After(run).closes[c] == 1 {
      Invariant(run);
      Conservation(run, c);
    }
  }

  /** A call that has returned stays returned, and a closed manager stays closed and empty. */
  lemma {:induction false} Stable(run: Run, i: nat, j: nat)
    requires Legal(run) && i <= j <= |run|
    ensures forall t :: t in At(run, i).calls ==> t in At(run, j).calls
    ensures forall t :: t in At(run, i).calls && Returned(At(run, i).calls[t]) ==> At(run, j).calls[t] == At(run, i).calls[t]
    ensures At(run, i).cache.closed ==> At(run, j).cache == Shut()
  {
    if i < j {
      Stable(run, i, j - 1);
      StepAt(run, j - 1);
    } else {
      PrefixIsLegal(run, i);
      Invariant(run[..i]);
    }
  }

  /** A dial that returns in a step taken after a Close returns no connection. */
  lemma NoConnectionAfterClose(run: Run, i: nat, j: nat)
    requires Legal(run) && i <= j < |run| && At(run, i).cache.closed
    requires var pc := At(run, j + 1).calls[run[j].call];
      run[j].call in At(run, j + 1).calls && !run[j].Invoke? && pc.DialReturned?
    ensures At(run, j + 1).calls[run[j].call].result.Err?
  {
    Stable(run, i, j);
    StepAt(run, j);
  }

  /** Agreement: two calls of one run that were given connections were given the same one
      exactly when the descriptions they dialled lead to the same endpoint. */
  lemma OneConnectionPerEndpoint(
      run: Run, config: D.UsableConfig, d: D.Description, d': D.Description, t: CallId, t': CallId, c: ConnId, c': ConnId)
    requires Legal(run)
    requires Gave(After(run), t, D.CacheKey(config, d), c) && Gave(After(run), t', D.CacheKey(config, d'), c')
    ensures c == c' <==> D.EndpointOf(config, d) == D.EndpointOf(config, d')
  {
    Invariant(run);
    D.CacheKeysAreExact(config, d, d');
  }

  /** While the manager is open, every connection it has given out is open. */
  lemma GivenConnectionsAreOpen(run: Run, t: CallId, key: string, c: ConnId)
    requires Legal(run) && Gave(After(run), t, key, c) && !After(run).cache.closed
    ensures c in After(run).closes && After(run).closes[c] == 0
  {
    Invariant(run);
  }
}
