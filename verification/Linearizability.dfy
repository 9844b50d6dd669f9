/** Which runs of concurrent Dial and Close calls have the outcome of a sequential run. Every run has
    one of a sequential manager that checks in the order of the new code, and it has one of the
    one-mutex manager exactly when no description that cannot be built is dialled on a closed manager. */
module Linearizability {
  import opened Wrappers
  import opened Sequences
  import opened ConnectionManager
  import opened ConnectionRuns
  import D = Dns

  // ----- Sequential runs -----

  /** A call together with its result, as the sequential manager executes it. */
  datatype Outcome = DialOutcome(request: Request, result: DialResult<ConnId>) | CloseOutcome

  /** `at` is the number of the step at which the call takes effect. */
  datatype Event = Event(call: CallId, outcome: Outcome, at: nat)

  /** A sequential manager: its cache, and every connection that it has ever opened. */
  datatype Manager = Manager(cache: Cache<ConnId>, used: set<ConnId>)

  const START := Manager(Cache(map[], false), {})

  /** The sequential manager can execute the call with that result. With `strict` it is the one-mutex
      manager, which reads its closed flag before it builds the target. */
  ghost predicate Executes(strict: bool, m: Manager, o: Outcome, m': Manager) {
    match o
    case DialOutcome(q, r) => exists attempt :: Serves(strict, m, q, attempt, r, m')
    case CloseOutcome => m' == Manager(Shut(), m.used)
  }

  /** Where the dial function is called and succeeds, it opens a new connection. */
  predicate Serves(strict: bool, m: Manager, q: Request, attempt: Attempt<ConnId>, r: DialResult<ConnId>, m': Manager) {
    && (if strict then AtomicDial(m.cache, q, attempt) else BuildFirstDial(m.cache, q, attempt)) == (r, m'.cache)
    && (if Calls(m.cache, q) && attempt.Opened? then attempt.conn !in m.used && m'.used == m.used + {attempt.conn}
        else m'.used == m.used)
  }

  predicate Calls(m: Cache<ConnId>, q: Request) {
    q.Target? && Lookup(m, q.key).None?
  }

  ghost predicate Sequential(strict: bool, m: Manager, h: seq<Event>, m': Manager) {
    if h == [] then m == m'
    else exists mid :: Sequential(strict, m, Front(h), mid) && Executes(strict, mid, Last(h).outcome, m')
  }

  // ----- The operation of a call -----

  /** The operation that a call was invoked with, as its program counter remembers it. */
  function OpOf(pc: Pc): Op {
    match pc
    case Building(q) => Dial(q)
    case FastCheck(key) => Dial(Target(key))
    case SecondCheck(key) => Dial(Target(key))
    case Dialling(key) => Dial(Target(key))
    case Holding(key, _) => Dial(Target(key))
    case DialReturned(q, _) => Dial(q)
    case Closing => Close
    case CloseReturned => Close
  }

  function OpOfOutcome(o: Outcome): Op {
    match o
    case DialOutcome(q, _) => Dial(q)
    case CloseOutcome => Close
  }

  function OutcomeOf(pc: Pc): Outcome
    requires Returned(pc)
  {
    match pc
    case DialReturned(q, r) => DialOutcome(q, r)
    case CloseReturned => CloseOutcome
  }

  /** A description that cannot be built has its build error as its result. */
  predicate FailsToBuild(pc: Pc) {
    pc.DialReturned? && pc.request.Unbuildable? ==> pc.result == Err(BuildFailed(pc.request.error))
  }

  lemma OpStep(s: State, a: Action, t: CallId)
    requires Enabled(s, a) && t in s.calls && FailsToBuild(s.calls[t])
    ensures t in Apply(s, a).calls
    ensures OpOf(Apply(s, a).calls[t]) == OpOf(s.calls[t]) && FailsToBuild(Apply(s, a).calls[t])
  {
  }

  /** Every call was invoked once, with the operation that it still carries. */
  lemma {:induction false} InvokedAs(run: Run, n: nat, t: CallId) returns (i: nat)
    requires Legal(run) && n <= |run| && t in At(run, n).calls
    ensures i < n && run[i] == Invoke(t, OpOf(At(run, n).calls[t]))
    ensures t !in At(run, i).calls && t in At(run, i + 1).calls
    ensures FailsToBuild(At(run, n).calls[t])
  {
    if n == 0 {
      StepAtEnds(run);
      assert false;
    }
    StepAt(run, n - 1);
    if t in At(run, n - 1).calls {
      i := InvokedAs(run, n - 1, t);
      OpStep(At(run, n - 1), run[n - 1], t);
    } else {
      i := n - 1;
    }
  }

  lemma {:induction false} OpIsStable(run: Run, i: nat, j: nat, t: CallId)
    requires Legal(run) && i <= j <= |run| && t in At(run, i).calls
    ensures t in At(run, j).calls && OpOf(At(run, j).calls[t]) == OpOf(At(run, i).calls[t])
  {
    if i < j {
      OpIsStable(run, i, j - 1, t);
      var _ := InvokedAs(run, j - 1, t);
      StepAt(run, j - 1);
      OpStep(At(run, j - 1), run[j - 1], t);
    }
  }

  lemma StepAtEnds(run: Run)
    requires Legal(run)
    ensures At(run, 0) == INITIAL && At(run, |run|) == After(run)
  {
    assert run[..0] == [] && run[..|run|] == run;
  }

  // ----- The point at which each call takes effect -----

  ghost predicate Returns(run: Run, t: CallId)
    requires Legal(run)
  {
    t in After(run).calls && Returned(After(run).calls[t])
  }

  predicate DialHasFailed(pc: Pc) {
    pc.DialReturned? && pc.result.Err? && pc.result.error.DialFailed?
  }

  /** The result of the call is settled: it has returned; or it will return, with the build error, or
      with the error of the dial function that it is in. */
  ghost predicate Decided(run: Run, i: nat, t: CallId)
    requires Legal(run) && i <= |run|
  {
    t in At(run, i).calls && Returns(run, t) && Settled(At(run, i).calls[t], After(run).calls[t])
  }

  predicate Settled(pc: Pc, final: Pc) {
    || Returned(pc)
    || (pc.Building? && pc.request.Unbuildable?)
    || (pc.Dialling? && DialHasFailed(final))
  }

  /** A call takes effect in the step that settles it: the section that returns; but a failing dial at
      its second section, and a dial that cannot build its target at its invocation. */
  ghost predicate TakesEffect(run: Run, i: nat)
    requires Legal(run) && i < |run|
  {
    !Decided(run, i, run[i].call) && Decided(run, i + 1, run[i].call)
  }

  ghost function Linearization(run: Run, i: nat): seq<Event>
    requires Legal(run) && i <= |run|
  {
    if i == 0 then []
    else
      var h := Linearization(run, i - 1);
      var t := run[i - 1].call;
      if TakesEffect(run, i - 1) then h + [Event(t, OutcomeOf(After(run).calls[t]), i - 1)] else h
  }

  /** `used` and the connection that the action puts into the cache, if it does. */
  function UsedStep(s: State, a: Action, used: set<ConnId>): set<ConnId> {
    if a.Advance? && a.call in s.calls && s.calls[a.call].Holding? && !Discards(s.cache, s.calls[a.call].key)
    then used + {s.calls[a.call].conn}
    else used
  }

  /** Every connection that was put into the cache before step `i`. */
  ghost function Used(run: Run, i: nat): set<ConnId>
    requires Legal(run) && i <= |run|
  {
    if i == 0 then {} else UsedStep(At(run, i - 1), run[i - 1], Used(run, i - 1))
  }

  /** A connection is put into the cache at most once, since no call holds it after that. */
  lemma {:induction false} UsedIsNotHeld(run: Run, i: nat)
    requires Legal(run) && i <= |run|
    ensures forall c :: c in Used(run, i) ==> c in At(run, i).closes && forall t :: !Holds(At(run, i), t, c)
  {
    if i > 0 {
      UsedIsNotHeld(run, i - 1);
      StepAt(run, i - 1);
      PrefixIsLegal(run, i - 1);
      Invariant(run[..i - 1]);
      var s, a := At(run, i - 1), run[i - 1];
      UsedIsNotHeldStep(s, a, Used(run, i - 1));
    }
  }

  lemma UsedIsNotHeldStep(s: State, a: Action, used: set<ConnId>)
    requires Owned(s) && Enabled(s, a) && forall c :: c in used ==> c in s.closes && forall t :: !Holds(s, t, c)
    ensures forall c :: c in UsedStep(s, a, used) ==> c in Apply(s, a).closes && forall t :: !Holds(Apply(s, a), t, c)
  {
    Frame(s, a);
    forall c | c in UsedStep(s, a, used) ensures c in Apply(s, a).closes && forall t :: !Holds(Apply(s, a), t, c) {
      Counts(s, a, c);
      assert c !in used ==> Holds(s, a.call, c);
    }
  }

  /** A call that holds a connection does not end in a failed dial. */
  lemma {:induction false} HoldersDoNotFail(run: Run, i: nat, j: nat, t: CallId)
    requires Legal(run) && i <= j <= |run| && t in At(run, i).calls && At(run, i).calls[t].Holding?
    ensures t in At(run, j).calls && PastDial(At(run, j).calls[t])
  {
    if i < j {
      HoldersDoNotFail(run, i, j - 1, t);
      StepAt(run, j - 1);
      PastDialStep(At(run, j - 1), run[j - 1], t);
    }
  }

  predicate PastDial(pc: Pc) {
    pc.Holding? || (pc.DialReturned? && !DialHasFailed(pc))
  }

  lemma PastDialStep(s: State, a: Action, t: CallId)
    requires Enabled(s, a) && t in s.calls && PastDial(s.calls[t])
    ensures t in Apply(s, a).calls && PastDial(Apply(s, a).calls[t])
  {
  }

  /** A call that has returned has its final program counter. */
  lemma ReturnedIsFinal(run: Run, i: nat, t: CallId)
    requires Legal(run) && i <= |run| && t in At(run, i).calls && Returned(At(run, i).calls[t])
    ensures Returns(run, t) && After(run).calls[t] == At(run, i).calls[t] && Decided(run, i, t)
  {
    Stable(run, i, |run|);
    StepAtEnds(run);
  }

  // ----- Each step is one sequential execution, or none -----

  /** Whether the call that is made in step `i` dials a description that cannot be built, on a closed manager. */
  ghost predicate TooLate(run: Run, i: nat)
    requires Legal(run) && i < |run|
  {
    && run[i].Invoke? && run[i].op.Dial? && run[i].op.request.Unbuildable?
    && At(run, i).cache.closed && Returns(run, run[i].call)
  }

  ghost function ManagerAt(run: Run, i: nat): Manager
    requires Legal(run) && i <= |run|
  {
    Manager(At(run, i).cache, Used(run, i))
  }

  lemma QuietStep(run: Run, i: nat)
    requires Legal(run) && i < |run| && !TakesEffect(run, i)
    ensures ManagerAt(run, i) == ManagerAt(run, i + 1)
  {
    StepAt(run, i);
    var t := run[i].call;
    if run[i].Advance? && Returned(At(run, i + 1).calls[t]) {
      ReturnedIsFinal(run, i + 1, t);
      assert Decided(run, i, t);
    }
  }

  lemma EffectOf(strict: bool, run: Run, i: nat)
    requires Legal(run) && i < |run| && TakesEffect(run, i) && !(strict && TooLate(run, i))
    ensures Executes(strict, ManagerAt(run, i), OutcomeOf(After(run).calls[run[i].call]), ManagerAt(run, i + 1))
  {
    StepAt(run, i);
    var t := run[i].call;
    var m, m', final := ManagerAt(run, i), ManagerAt(run, i + 1), After(run).calls[t];
    OpIsStable(run, i + 1, |run|, t);
    StepAtEnds(run);
    if Returned(At(run, i + 1).calls[t]) {
      ReturnedIsFinal(run, i + 1, t);
    }
    if run[i].Invoke? {
      var _ := InvokedAs(run, |run|, t);
      assert Serves(strict, m, final.request, Refused(""), final.result, m');
    } else {
      UsedIsNotHeld(run, i);
      AdvanceExecutes(strict, At(run, i), run[i], Used(run, i), final);
    }
  }

  /** The step that settles a call, other than its invocation, executes it. */
  lemma AdvanceExecutes(strict: bool, s: State, a: Action, used: set<ConnId>, final: Pc)
    requires Enabled(s, a) && !a.Invoke? && forall c :: c in used ==> !Holds(s, a.call, c)
    requires Returned(final) && !Settled(s.calls[a.call], final) && Settled(Apply(s, a).calls[a.call], final)
    requires OpOf(Apply(s, a).calls[a.call]) == OpOf(final)
    requires Returned(Apply(s, a).calls[a.call]) ==> final == Apply(s, a).calls[a.call]
    ensures
      Executes(strict, Manager(s.cache, used), OutcomeOf(final), Manager(Apply(s, a).cache, UsedStep(s, a, used)))
  {
    var m := Manager(s.cache, used);
    match s.calls[a.call] {
      case FastCheck(key) => LookupExecutes(strict, m, key, final.result);
      case SecondCheck(key) =>
        if DialHasFailed(final) {
          FailureExecutes(strict, m, key, final.result.error.cause);
        } else {
          LookupExecutes(strict, m, key, final.result);
        }
      case Holding(key, conn) =>
        assert Holds(s, a.call, conn);
        PublishExecutes(strict, m, key, conn);
      case Closing =>
    }
  }

  lemma LookupExecutes(strict: bool, m: Manager, key: string, r: DialResult<ConnId>)
    requires Lookup(m.cache, key) == Some(r)
    ensures Executes(strict, m, DialOutcome(Target(key), r), m)
  {
    assert Serves(strict, m, Target(key), Refused(""), r, m);
  }

  lemma FailureExecutes(strict: bool, m: Manager, key: string, cause: string)
    requires Lookup(m.cache, key).None?
    ensures Executes(strict, m, DialOutcome(Target(key), Err(DialFailed(cause))), m)
  {
    assert Serves(strict, m, Target(key), Refused(cause), Err(DialFailed(cause)), m);
  }

  lemma PublishExecutes(strict: bool, m: Manager, key: string, conn: ConnId)
    requires conn !in m.used
    ensures
      var (r, cache) := Publish(m.cache, key, conn);
      Executes(strict, m, DialOutcome(Target(key), r), Manager(cache, if Discards(m.cache, key) then m.used else m.used + {conn}))
  {
    var (r, cache) := Publish(m.cache, key, conn);
    assert Serves(strict, m, Target(key), Opened(conn), r,
                  Manager(cache, if Discards(m.cache, key) then m.used else m.used + {conn}));
  }

  lemma SequentialOneMore(strict: bool, h: seq<Event>, mid: Manager, e: Event, m': Manager)
    requires Sequential(strict, START, h, mid) && Executes(strict, mid, e.outcome, m')
    ensures Sequential(strict, START, h + [e], m')
  {
    assert Front(h + [e]) == h && Last(h + [e]) == e;
  }

  lemma {:induction false} LinearizationIsSequential(strict: bool, run: Run, i: nat)
    requires Legal(run) && i <= |run|
    requires strict ==> forall j :: 0 <= j < i ==> !TooLate(run, j)
    ensures Sequential(strict, START, Linearization(run, i), ManagerAt(run, i))
  {
    if i == 0 {
      StepAtEnds(run);
    } else {
      LinearizationIsSequential(strict, run, i - 1);
      if TakesEffect(run, i - 1) {
        EffectOf(strict, run, i - 1);
        SequentialOneMore(
          strict, Linearization(run, i - 1), ManagerAt(run, i - 1),
          Event(run[i - 1].call, OutcomeOf(After(run).calls[run[i - 1].call]), i - 1), ManagerAt(run, i));
      } else {
        QuietStep(run, i - 1);
      }
    }
  }

  // ----- Each returned call occurs once, inside its own interval -----

  /** Step `i` lies between the invocation of the call and its return, both included. */
  ghost predicate Within(run: Run, i: nat, t: CallId)
    requires Legal(run) && i < |run|
  {
    t in At(run, i + 1).calls && !(t in At(run, i).calls && Returned(At(run, i).calls[t]))
  }

  /** The event is one of the first `i` steps, a step of its own call within that call, with the result
      that the call finally returns. */
  ghost predicate Genuine(run: Run, i: nat, e: Event)
    requires Legal(run) && i <= |run|
  {
    && e.at < i && run[e.at].call == e.call && Within(run, e.at, e.call)
    && Returns(run, e.call) && e.outcome == OutcomeOf(After(run).calls[e.call])
  }

  ghost predicate Occurs(t: CallId, h: seq<Event>) {
    exists j :: 0 <= j < |h| && h[j].call == t
  }

  /** The events are genuine, in the order of their steps, of different calls, and of exactly
      the calls that have taken effect before step `i`. */
  ghost predicate Faithful(run: Run, i: nat, h: seq<Event>)
    requires Legal(run) && i <= |run|
  {
    && (forall j :: 0 <= j < |h| ==> Genuine(run, i, h[j]))
    && (forall j, k :: 0 <= j < k < |h| ==> h[j].at < h[k].at && h[j].call != h[k].call)
    && (forall t :: Decided(run, i, t) <==> Occurs(t, h))
  }

  /** Which calls become decided in one step: the one that takes effect in it and no other. */
  lemma DecidedStep(run: Run, i: nat, t: CallId)
    requires Legal(run) && i < |run|
    ensures Decided(run, i + 1, t) <==> Decided(run, i, t) || (TakesEffect(run, i) && run[i].call == t)
  {
    if run[i].call != t {
      OtherStep(run, i, t);
    } else if Decided(run, i, t) {
      StillDecided(run, i);
    }
  }

  lemma OtherStep(run: Run, i: nat, t: CallId)
    requires Legal(run) && i < |run| && run[i].call != t
    ensures t in At(run, i + 1).calls <==> t in At(run, i).calls
    ensures t in At(run, i).calls ==> At(run, i + 1).calls[t] == At(run, i).calls[t]
  {
    StepAt(run, i);
    OthersStay(At(run, i), run[i], t);
  }

  lemma OthersStay(s: State, a: Action, t: CallId)
    requires Enabled(s, a) && a.call != t
    ensures t in Apply(s, a).calls <==> t in s.calls
    ensures t in s.calls ==> Apply(s, a).calls[t] == s.calls[t]
  {
  }

  lemma StillDecided(run: Run, i: nat)
    requires Legal(run) && i < |run| && Decided(run, i, run[i].call)
    ensures Decided(run, i + 1, run[i].call)
  {
    StepAt(run, i);
    if run[i].DialReturns? && run[i].attempt.Opened? {
      HoldersDoNotFail(run, i + 1, |run|, run[i].call);
      StepAtEnds(run);
    }
  }

  lemma OccursInExtension(t: CallId, h: seq<Event>, e: Event)
    ensures Occurs(t, h + [e]) <==> Occurs(t, h) || e.call == t
  {
    if Occurs(t, h) {
      var j :| 0 <= j < |h| && h[j].call == t;
      assert (h + [e])[j].call == t;
    }
    assert (h + [e])[|h|] == e;
  }

  lemma {:induction false} LinearizationIsFaithful(run: Run, i: nat)
    requires Legal(run) && i <= |run|
    ensures Faithful(run, i, Linearization(run, i))
  {
    if i == 0 {
      StepAtEnds(run);
    } else {
      LinearizationIsFaithful(run, i - 1);
      var h := Linearization(run, i - 1);
      forall t ensures Decided(run, i, t) <==> Decided(run, i - 1, t) || (TakesEffect(run, i - 1) && run[i - 1].call == t) {
        DecidedStep(run, i - 1, t);
      }
      if TakesEffect(run, i - 1) {
        ExtendFaithful(run, i, h);
      } else {
        forall j | 0 <= j < |h| ensures Genuine(run, i, h[j]) {
          assert Genuine(run, i - 1, h[j]);
        }
      }
    }
  }

  lemma EffectIsWithin(run: Run, i: nat)
    requires Legal(run) && i < |run| && TakesEffect(run, i)
    ensures Within(run, i, run[i].call)
  {
    var t := run[i].call;
    if t in At(run, i).calls && Returned(At(run, i).calls[t]) {
      ReturnedIsFinal(run, i, t);
    }
  }

  lemma ExtendFaithful(run: Run, i: nat, h: seq<Event>)
    requires Legal(run) && 0 < i <= |run| && TakesEffect(run, i - 1)
    requires Faithful(run, i - 1, h)
    requires forall t :: Decided(run, i, t) <==> Decided(run, i - 1, t) || run[i - 1].call == t
    ensures Faithful(run, i, h + [Event(run[i - 1].call, OutcomeOf(After(run).calls[run[i - 1].call]), i - 1)])
  {
    var t := run[i - 1].call;
    var e := Event(t, OutcomeOf(After(run).calls[t]), i - 1);
    var h' := h + [e];
    EffectIsWithin(run, i - 1);
    assert Genuine(run, i, e);
    forall j | 0 <= j < |h| ensures Genuine(run, i, h[j]) {
      assert Genuine(run, i - 1, h[j]);
    }
    forall u ensures Decided(run, i, u) <==> Occurs(u, h') {
      OccursInExtension(u, h, e);
    }
    LaterThanAll(run, i - 1, h);
  }

  lemma LaterThanAll(run: Run, i: nat, h: seq<Event>)
    requires Legal(run) && i < |run| && TakesEffect(run, i) && Faithful(run, i, h)
    ensures forall j :: 0 <= j < |h| ==> h[j].at < i && h[j].call != run[i].call
  {
    forall j | 0 <= j < |h| ensures h[j].at < i && h[j].call != run[i].call {
      assert Genuine(run, i, h[j]);
      assert Occurs(h[j].call, h);
    }
  }

  // ----- Linearizability -----

  /** At step `i` the call `t` has returned and the call `u` has not been made. */
  ghost predicate Precedes(run: Run, i: nat, t: CallId, u: CallId)
    requires Legal(run) && i <= |run|
  {
    t in At(run, i).calls && Returned(At(run, i).calls[t]) && u !in At(run, i).calls
  }

  ghost predicate InvokedWith(run: Run, t: CallId, op: Op) {
    exists i :: 0 <= i < |run| && run[i] == Invoke(t, op)
  }

  /** A history of the run: each call that returned occurs once, with the operation that it was
      invoked with and the result that it returned, and after the calls that had returned when it was made. */
  ghost predicate HistoryOf(run: Run, h: seq<Event>)
    requires Legal(run)
  {
    && (forall t :: Occurs(t, h) <==> Returns(run, t))
    && (forall j :: 0 <= j < |h| ==> Matches(run, h[j]))
    && (forall j, k :: 0 <= j < k < |h| ==> h[j].call != h[k].call)
    && (forall i, j, k :: 0 <= i <= |run| && 0 <= j < |h| && 0 <= k < |h| && Precedes(run, i, h[j].call, h[k].call) ==> j < k)
  }

  ghost predicate Matches(run: Run, e: Event)
    requires Legal(run)
  {
    && Returns(run, e.call) && e.outcome == OutcomeOf(After(run).calls[e.call])
    && InvokedWith(run, e.call, OpOfOutcome(e.outcome))
  }

  /** The sequential manager can execute some history of the run, from the empty cache to the final one. */
  ghost predicate Linearizable(strict: bool, run: Run)
    requires Legal(run)
  {
    exists h, used :: HistoryOf(run, h) && Sequential(strict, START, h, Manager(After(run).cache, used))
  }

  lemma EarlierCallsComeFirst(run: Run, i: nat, e: Event, f: Event)
    requires Legal(run) && i <= |run|
    requires Genuine(run, |run|, e) && Genuine(run, |run|, f) && Precedes(run, i, e.call, f.call)
    ensures e.at < f.at
  {
    if i <= e.at {
      Stable(run, i, e.at);
    }
    if f.at + 1 <= i {
      Stable(run, f.at + 1, i);
    }
  }

  lemma GenuineMatches(run: Run, e: Event)
    requires Legal(run) && Genuine(run, |run|, e)
    ensures Matches(run, e)
  {
    StepAtEnds(run);
    var i := InvokedAs(run, |run|, e.call);
    assert run[i] == Invoke(e.call, OpOfOutcome(e.outcome));
  }

  lemma FaithfulIsInOrder(run: Run, h: seq<Event>, i: nat, j: nat, k: nat)
    requires Legal(run) && Faithful(run, |run|, h)
    requires i <= |run| && j < |h| && k < |h| && Precedes(run, i, h[j].call, h[k].call)
    ensures j < k
  {
    EarlierCallsComeFirst(run, i, h[j], h[k]);
  }

  lemma FaithfulIsComplete(run: Run, h: seq<Event>, t: CallId)
    requires Legal(run) && Faithful(run, |run|, h)
    ensures Occurs(t, h) <==> Returns(run, t)
  {
    StepAtEnds(run);
    assert Decided(run, |run|, t) <==> Returns(run, t);
  }

  lemma FaithfulIsHistory(run: Run, h: seq<Event>)
    requires Legal(run) && Faithful(run, |run|, h)
    ensures HistoryOf(run, h)
  {
    forall t ensures Occurs(t, h) <==> Returns(run, t) {
      FaithfulIsComplete(run, h, t);
    }
    forall j | 0 <= j < |h| ensures Matches(run, h[j]) {
      GenuineMatches(run, h[j]);
    }
    forall i, j, k | 0 <= i <= |run| && 0 <= j < |h| && 0 <= k < |h| && Precedes(run, i, h[j].call, h[k].call)
      ensures j < k
    {
      FaithfulIsInOrder(run, h, i, j, k);
    }
  }

  lemma HasHistory(strict: bool, run: Run)
    requires Legal(run) && (strict ==> forall j :: 0 <= j < |run| ==> !TooLate(run, j))
    ensures Linearizable(strict, run)
  {
    var h := Linearization(run, |run|);
    LinearizationIsSequential(strict, run, |run|);
    LinearizationIsFaithful(run, |run|);
    FaithfulIsHistory(run, h);
    StepAtEnds(run);
    assert Sequential(strict, START, h, Manager(After(run).cache, Used(run, |run|)));
  }

  /** A manager that has executed a Close stays closed. */
  lemma {:induction false} ClosedByHistory(strict: bool, m: Manager, h: seq<Event>, m': Manager, j: nat)
    requires Sequential(strict, m, h, m') && j < |h| && h[j].outcome.CloseOutcome?
    ensures m'.cache.closed
  {
    var mid :| Sequential(strict, m, Front(h), mid) && Executes(strict, mid, Last(h).outcome, m');
    if j < |h| - 1 {
      ClosedByHistory(strict, m, Front(h), mid, j);
      ClosedStays(strict, mid, Last(h).outcome, m');
    }
  }

  lemma ClosedStays(strict: bool, m: Manager, o: Outcome, m': Manager)
    requires m.cache.closed && Executes(strict, m, o, m')
    ensures m'.cache.closed
  {
    if o.DialOutcome? {
      var attempt :| Serves(strict, m, o.request, attempt, o.result, m');
    }
  }

  /** After a Close the one-mutex manager answers nothing but that it is closed. */
  lemma {:induction false} NoBuildErrorAfterClose(m: Manager, h: seq<Event>, m': Manager, j: nat, k: nat)
    requires Sequential(true, m, h, m') && j < k < |h| && h[j].outcome.CloseOutcome? && h[k].outcome.DialOutcome?
    ensures h[k].outcome.result == Err(ManagerClosed)
  {
    var mid :| Sequential(true, m, Front(h), mid) && Executes(true, mid, Last(h).outcome, m');
    if k < |h| - 1 {
      NoBuildErrorAfterClose(m, Front(h), mid, j, k);
    } else {
      ClosedByHistory(true, m, Front(h), mid, j);
      var o := Last(h).outcome;
      var attempt :| Serves(true, mid, o.request, attempt, o.result, m');
    }
  }

  /** A manager that is closed was closed by a call that has returned. */
  lemma {:induction false} SomeCloseReturned(run: Run, i: nat) returns (t: CallId)
    requires Legal(run) && i <= |run| && At(run, i).cache.closed
    ensures t in At(run, i).calls && At(run, i).calls[t] == CloseReturned
  {
    if i == 0 {
      StepAtEnds(run);
      assert false;
    }
    StepAt(run, i - 1);
    if At(run, i - 1).cache.closed {
      t := SomeCloseReturned(run, i - 1);
      Stable(run, i - 1, i);
    } else {
      t := run[i - 1].call;
      ClosingStep(At(run, i - 1), run[i - 1]);
    }
  }

  lemma ClosingStep(s: State, a: Action)
    requires Enabled(s, a) && !s.cache.closed && Apply(s, a).cache.closed
    ensures a.call in Apply(s, a).calls && Apply(s, a).calls[a.call] == CloseReturned
  {
  }

  lemma TooLateIsNotLinearizable(run: Run, i: nat)
    requires Legal(run) && i < |run| && TooLate(run, i)
    ensures !Linearizable(true, run)
  {
    var u := run[i].call;
    var t := SomeCloseReturned(run, i);
    ReturnedIsFinal(run, i, t);
    StepAt(run, i);
    OpIsStable(run, i + 1, |run|, u);
    var _ := InvokedAs(run, |run|, u);
    StepAtEnds(run);
    if h: seq<Event>, used: set<ConnId> :| HistoryOf(run, h) && Sequential(true, START, h, Manager(After(run).cache, used)) {
      assert Occurs(t, h) && Occurs(u, h);
      var j :| 0 <= j < |h| && h[j].call == t;
      var k :| 0 <= k < |h| && h[k].call == u;
      assert Precedes(run, i, t, u) && Matches(run, h[j]) && Matches(run, h[k]);
      NoBuildErrorAfterClose(START, h, Manager(After(run).cache, used), j, k);
      assert false;
    }
  }

  /** Every run is linearizable to the manager that builds first. It is linearizable to the one-mutex
      manager exactly when no dial that returned was invoked, on a closed manager, with a description
      that cannot be built. */
  lemma LinearizableExactly(run: Run)
    requires Legal(run)
    ensures Linearizable(false, run)
    ensures Linearizable(true, run) <==> forall i :: 0 <= i < |run| ==> !TooLate(run, i)
  {
    HasHistory(false, run);
    if i :| 0 <= i < |run| && TooLate(run, i) {
      TooLateIsNotLinearizable(run, i);
    } else {
      HasHistory(true, run);
    }
  }

  lemma LegalOneMore(run: Run, a: Action)
    requires Legal(run) && Enabled(After(run), a)
    ensures Legal(run + [a]) && After(run + [a]) == Apply(After(run), a) && At(run + [a], |run|) == After(run)
  {
    var run' := run + [a];
    assert run'[..|run'| - 1] == run && run'[|run'| - 1] == a;
    assert Legal(run');
    PrefixIsLegal(run', |run|);
    assert run'[..|run|] == run;
  }

  /** There is such a run: a Close, and then a dial without a service name. */
  lemma SomeRunIsNotLinearizable(e: D.DnsError) returns (run: Run)
    ensures Legal(run) && !Linearizable(true, run)
  {
    LegalOneMore([], Invoke(0, Close));
    LegalOneMore([Invoke(0, Close)], Advance(0));
    var closed := [Invoke(0, Close)] + [Advance(0)];
    LegalOneMore(closed, Invoke(1, Dial(Unbuildable(e))));
    var dialled := closed + [Invoke(1, Dial(Unbuildable(e)))];
    LegalOneMore(dialled, Advance(1));
    run := dialled + [Advance(1)];
    assert run[..2] == closed;
    TooLateIsNotLinearizable(run, 2);
  }

  /** In particular, every run whose dialled descriptions can be built is one of the one-mutex manager. */
  lemma BuildableRunsAreLinearizable(run: Run)
    requires Legal(run)
    requires forall i :: 0 <= i < |run| && run[i].Invoke? && run[i].op.Dial? ==> run[i].op.request.Target?
    ensures Linearizable(true, run)
  {
    LinearizableExactly(run);
  }
}
