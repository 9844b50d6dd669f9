/** One service-token provider under any interleaving of Start and Stop calls, cancellations of
    the contexts handed to Start, and the refresh loops that were started, stale ones included. */
module AuthorityRuns {
  import opened Text
  import opened Wrappers
  import opened ServiceAuthority

  type Generation = nat
  type ContextId = nat
  type StopId = nat

  /** Where a refresh loop is, from the top of its round to the end of its goroutine. */
  datatype Pc =
    | Top
    | Fetching
    | Got(fetch: Fetch)
    | Writing(write: Write)
    | Checking(refreshed: bool)
    | Sleeping
    | Exiting
    | Finished

  /** `parent` is the context handed to Start; `cancelled` says whether the loop's own cancel function was called. */
  datatype Loop = Loop(parent: ContextId, cancelled: bool, pc: Pc, retryCount: nat)

  /** `stops` holds the cancel functions that Stop calls have taken but not yet called. */
  datatype State = State(
    life: Lifecycle,
    cache: Cache,
    history: seq<Write>,
    loops: map<Generation, Loop>,
    stops: map<StopId, Generation>,
    cancelledParents: set<ContextId>,
    clock: Instant)

  datatype Action =
    | CallStart(parent: ContextId)
    | StopTakes(stop: StopId)
    | StopCancels(stop: StopId)
    | CancelParent(parent: ContextId)
    | Tick(elapsed: nat)
    | FetchStarts(g: Generation)
    | FetchReturns(g: Generation, fetch: Fetch)
    | ResultIsChecked(g: Generation)
    | CacheIsWritten(g: Generation)
    | ContextIsChecked(g: Generation)
    | TimerFires(g: Generation)
    | SleepIsCancelled(g: Generation)
    | LifecycleIsCleared(g: Generation)

  predicate ContextDone(s: State, g: Generation)
    requires g in s.loops
  {
    s.loops[g].cancelled || s.loops[g].parent in s.cancelledParents
  }

  predicate AtPc(s: State, g: Generation, pc: Pc) {
    g in s.loops && s.loops[g].pc == pc
  }

  predicate Enabled(s: State, a: Action) {
    match a
    case CallStart(_) => true
    case StopTakes(i) => i !in s.stops
    case StopCancels(i) => i in s.stops
    case CancelParent(_) => true
    case Tick(_) => true
    case FetchStarts(g) => AtPc(s, g, Top)
    case FetchReturns(g, _) => AtPc(s, g, Fetching)
    case ResultIsChecked(g) => g in s.loops && s.loops[g].pc.Got?
    case CacheIsWritten(g) => g in s.loops && s.loops[g].pc.Writing?
    case ContextIsChecked(g) => g in s.loops && s.loops[g].pc.Checking?
    case TimerFires(g) => AtPc(s, g, Sleeping)
    case SleepIsCancelled(g) => AtPc(s, g, Sleeping) && ContextDone(s, g)
    case LifecycleIsCleared(g) => AtPc(s, g, Exiting)
  }

  function Goto(s: State, g: Generation, pc: Pc): State
    requires g in s.loops
  {
    s.(loops := s.loops[g := s.loops[g].(pc := pc)])
  }

  function Apply(s: State, a: Action): State
    requires Enabled(s, a)
  {
    match a
    case CallStart(parent) =>
      var life := Started(s.life);
      if life == s.life then s else s.(life := life, loops := s.loops[life.id := Loop(parent, false, Top, 0)])
    case StopTakes(i) =>
      s.(life := Stopped(s.life), stops := if s.life.cancel.Some? then s.stops[i := s.life.cancel.value] else s.stops)
    case StopCancels(i) =>
      var g := s.stops[i];
      var loops := if g in s.loops then s.loops[g := s.loops[g].(cancelled := true)] else s.loops;
      s.(loops := loops, stops := s.stops - {i})
    case CancelParent(parent) => s.(cancelledParents := s.cancelledParents + {parent})
    case Tick(elapsed) => s.(clock := s.clock + elapsed)
    case FetchStarts(g) => Goto(s, g, Fetching)
    case FetchReturns(g, fetch) => Goto(s, g, Got(fetch))
    case ResultIsChecked(g) => Goto(s, g, Writing(WriteOf(s.loops[g].pc.fetch, s.clock)))
    case CacheIsWritten(g) =>
      var w := s.loops[g].pc.write;
      Goto(s, g, Checking(w.Install?)).(cache := Written(s.cache, w), history := s.history + [w])
    case ContextIsChecked(g) =>
      if ContextDone(s, g) then Goto(s, g, Exiting)
      else s.(loops := s.loops[g := s.loops[g].(
        pc := Sleeping, retryCount := if s.loops[g].pc.refreshed then 0 else s.loops[g].retryCount + 1)])
    case TimerFires(g) => Goto(s, g, Top)
    case SleepIsCancelled(g) => Goto(s, g, Exiting)
    case LifecycleIsCleared(g) => Goto(s, g, Finished).(life := Cleared(s.life, g))
  }

  function Initial(clock: Instant): State {
    State(Lifecycle(0, None), EMPTY, [], map[], map[], {}, clock)
  }

  // ----- Runs -----

  type Run = seq<Action>

  ghost predicate Legal(s: State, run: Run)
    decreases |run|
  {
    run == [] || (Enabled(s, run[0]) && Legal(Apply(s, run[0]), run[1..]))
  }

  ghost function After(s: State, run: Run): State
    requires Legal(s, run)
    decreases |run|
  {
    if run == [] then s else After(Apply(s, run[0]), run[1..])
  }

  // ----- Lifecycle -----

  predicate Unfinished(s: State, g: Generation) {
    g in s.loops && s.loops[g].pc != Finished
  }

  ghost predicate CancelIsPending(s: State, g: Generation) {
    exists i :: i in s.stops && s.stops[i] == g
  }

  ghost predicate LifecycleInvariant(s: State) {
    // The cancel function is set exactly when an unfinished loop carries the current generation.
    && (s.life.cancel.Some? <==> Unfinished(s, s.life.id))
    && (s.life.cancel.Some? ==> s.life.cancel.value == s.life.id)
    && (forall g: Generation :: g in s.loops ==> 1 <= g <= s.life.id)
    // Every unfinished loop of an older generation is cancelled, or a Stop holds its cancel function.
    && (forall g: Generation :: Unfinished(s, g) && g < s.life.id ==> s.loops[g].cancelled || CancelIsPending(s, g))
    && (forall i :: i in s.stops ==> s.stops[i] in s.loops && s.stops[i] < s.life.id)
  }

  /** A pending cancel stays pending until its Stop calls it. */
  lemma PendingStep(s: State, a: Action, g: Generation)
    requires Enabled(s, a) && g in s.loops && (s.loops[g].cancelled || CancelIsPending(s, g))
    ensures var s' := Apply(s, a); g in s'.loops ==> (a.CallStart? && s.life != s'.life && g == s'.life.id) || s'.loops[g].cancelled || CancelIsPending(s', g)
  {
    var s' := Apply(s, a);
    if !s.loops[g].cancelled {
      var i :| i in s.stops && s.stops[i] == g;
      if !(a.StopCancels? && a.stop == i) {
        assert i in s'.stops && s'.stops[i] == g;
      }
    }
  }

  lemma SupersededStep(s: State, a: Action, g: Generation)
    requires LifecycleInvariant(s) && Enabled(s, a) && Unfinished(Apply(s, a), g) && g < Apply(s, a).life.id
    ensures Apply(s, a).loops[g].cancelled || CancelIsPending(Apply(s, a), g)
  {
    if a.StopTakes? && s.life.cancel == Some(g) {
      assert Apply(s, a).stops[a.stop] == g;
    } else {
      assert Unfinished(s, g) && g < s.life.id;
      PendingStep(s, a, g);
    }
  }

  lemma CurrentStep(s: State, a: Action)
    requires LifecycleInvariant(s) && Enabled(s, a)
    ensures var s' := Apply(s, a);
      && (s'.life.cancel.Some? <==> Unfinished(s', s'.life.id))
      && (s'.life.cancel.Some? ==> s'.life.cancel.value == s'.life.id)
  {
  }

  lemma LifecycleStep(s: State, a: Action)
    requires LifecycleInvariant(s) && Enabled(s, a)
    ensures LifecycleInvariant(Apply(s, a))
  {
    var s' := Apply(s, a);
    CurrentStep(s, a);
    forall g: Generation | Unfinished(s', g) && g < s'.life.id ensures s'.loops[g].cancelled || CancelIsPending(s', g) {
      SupersededStep(s, a, g);
    }
  }

  lemma {:induction false} LifecycleHolds(s: State, run: Run)
    requires LifecycleInvariant(s) && Legal(s, run)
    ensures LifecycleInvariant(After(s, run))
    decreases |run|
  {
    if run != [] {
      LifecycleStep(s, run[0]);
      LifecycleHolds(Apply(s, run[0]), run[1..]);
    }
  }

  /** A loop that runs on: unfinished, its cancel function neither called nor held by a Stop. */
  ghost predicate RunsOn(s: State, g: Generation) {
    Unfinished(s, g) && !s.loops[g].cancelled && !CancelIsPending(s, g)
  }

  /** In every run, the provider reports itself started exactly when an unfinished loop carries
      the current generation, that is the loop whose cancel function is stored, and no other
      loop runs on. */
  lemma OneLoopRunsOn(clock: Instant, run: Run)
    requires Legal(Initial(clock), run)
    ensures var s := After(Initial(clock), run);
      && (s.life.cancel.Some? <==> Unfinished(s, s.life.id))
      && (s.life.cancel.Some? ==> s.life.cancel.value == s.life.id)
      && (forall g: Generation :: RunsOn(s, g) ==> s.life.cancel == Some(g))
  {
    LifecycleHolds(Initial(clock), run);
  }

  /** In every run, a step that empties a set cancel function is a Stop, or the exit of the very
      loop whose cancel function it was, its context being done: the exit of an older loop never
      clears a newer one. */
  lemma OldExitClearsNothing(clock: Instant, run: Run, a: Action)
    requires Legal(Initial(clock), run)
    requires var s := After(Initial(clock), run); Enabled(s, a) && s.life.cancel.Some? && Apply(s, a).life.cancel != s.life.cancel
    ensures var s := After(Initial(clock), run);
      var g := s.life.cancel.value;
      a.StopTakes? || (a == LifecycleIsCleared(g) && g in s.loops && ContextDone(s, g))
  {
    LifecycleHolds(Initial(clock), run);
    ExitHolds(Initial(clock), run);
  }

  /** A loop only exits once its context is done. */
  predicate ContextWasDone(s: State, g: Generation) {
    g in s.loops && (s.loops[g].pc in {Exiting, Finished} ==> ContextDone(s, g))
  }

  lemma {:induction false} ExitHolds(s: State, run: Run)
    requires Legal(s, run) && forall g: Generation :: g in s.loops ==> ContextWasDone(s, g)
    requires LifecycleInvariant(s)
    ensures forall g: Generation :: g in After(s, run).loops ==> ContextWasDone(After(s, run), g)
    decreases |run|
  {
    if run != [] {
      LifecycleStep(s, run[0]);
      assert forall g: Generation :: g in Apply(s, run[0]).loops && g in s.loops ==> ContextWasDone(s, g);
      ExitHolds(Apply(s, run[0]), run[1..]);
    }
  }

  // ----- The token cache -----

  ghost predicate CacheInvariant(s: State) {
    && s.cache == CacheAfter(s.history)
    && AllWellFormed(s.history)
    && PendingWellFormed(s)
  }

  ghost predicate AllWellFormed(h: seq<Write>) {
    forall j :: 0 <= j < |h| ==> WellFormed(h[j])
  }

  /** The writes that loops are about to make. */
  ghost predicate PendingWellFormed(s: State) {
    forall g: Generation :: g in s.loops ==> PcWellFormed(s.loops[g].pc)
  }

  predicate PcWellFormed(pc: Pc) {
    pc.Writing? ==> WellFormed(pc.write)
  }

  /** No action but the write of a loop touches the cache and its history. */
  lemma CacheFrame(s: State, a: Action)
    requires Enabled(s, a)
    ensures var s' := Apply(s, a);
      if a.CacheIsWritten? then
        var w := s.loops[a.g].pc.write; s'.cache == Written(s.cache, w) && s'.history == s.history + [w]
      else s'.cache == s.cache && s'.history == s.history
  {
  }

  lemma PendingFrame(s: State, a: Action, g: Generation)
    requires Enabled(s, a) && g in Apply(s, a).loops && (g in s.loops ==> PcWellFormed(s.loops[g].pc))
    ensures PcWellFormed(Apply(s, a).loops[g].pc)
  {
    if a == ResultIsChecked(g) {
      WritesAreWellFormed(s.loops[g].pc.fetch, s.clock);
    }
  }

  lemma CacheStep(s: State, a: Action)
    requires CacheInvariant(s) && Enabled(s, a)
    ensures CacheInvariant(Apply(s, a))
  {
    CacheFrame(s, a);
    forall g: Generation | g in Apply(s, a).loops ensures PcWellFormed(Apply(s, a).loops[g].pc) {
      PendingFrame(s, a, g);
    }
    if a.CacheIsWritten? {
      assert PcWellFormed(s.loops[a.g].pc);
      HistoryOneMore(s.history, s.loops[a.g].pc.write);
    }
  }

  lemma HistoryOneMore(h: seq<Write>, w: Write)
    ensures CacheAfter(h + [w]) == Written(CacheAfter(h), w)
  {
    assert (h + [w])[..|h + [w]| - 1] == h;
  }

  lemma {:induction false} CacheHolds(s: State, run: Run)
    requires CacheInvariant(s) && Legal(s, run)
    ensures CacheInvariant(After(s, run))
    decreases |run|
  {
    if run != [] {
      CacheStep(s, run[0]);
      CacheHolds(Apply(s, run[0]), run[1..]);
    }
  }

  /** Under any interleaving of loops the cache is the fold of the refreshes in the order in which
      they were written, and what the hot path and the status say at any time follows from them. */
  lemma CacheIsFoldOfRefreshes(clock: Instant, run: Run, now: Instant)
    requires Legal(Initial(clock), run)
    ensures
      var s := After(Initial(clock), run);
      var h := s.history;
      && (CurrentToken(s.cache, now).Ok? <==> exists i :: LatestInstall(h, i) && h[i].expiresAt > now)
      && (forall i :: LatestInstall(h, i) && h[i].expiresAt > now ==> CurrentToken(s.cache, now) == Ok(h[i].token))
      && (CurrentToken(s.cache, now).Err? ==>
            CurrentToken(s.cache, now).error.wrapped == if h != [] && h[|h| - 1].Record? then Some(h[|h| - 1].error) else None)
      && (Loaded(s.cache, now) <==> CurrentToken(s.cache, now).Ok?)
  {
    CacheHolds(Initial(clock), run);
    HotPath(After(Initial(clock), run).history, now);
  }

  // ----- One round of a loop, step by step -----

  /** What a loop does between its steps: what it writes follows from what it fetched and from the clock when
      it is checked; it exits when it finds its context done, and otherwise sleeps, with its failures counted. */
  lemma RoundOfLoop(s: State, a: Action, g: Generation)
    requires Enabled(s, a) && g in s.loops && (g in Apply(s, a).loops ==> Apply(s, a).loops[g].pc != s.loops[g].pc)
    requires a.ResultIsChecked? || a.CacheIsWritten? || a.ContextIsChecked? || a.TimerFires? || a.SleepIsCancelled?
    ensures g in Apply(s, a).loops
    ensures var l, l' := s.loops[g], Apply(s, a).loops[g];
      match a
      case ResultIsChecked(_) =>
        && l.pc.Got? && l'.pc.Writing?
        && (match l.pc.fetch
            case Failed(e) => l'.pc.write == Record(e)
            case Fetched(None) => l'.pc.write == Record(TokenMissing)
            case Fetched(Some(t)) =>
              if !Blank(t.token) && t.expiresAt != 0 && t.expiresAt > s.clock then l'.pc.write == Install(Trim(t.token), t.expiresAt)
              else l'.pc.write.Record?)
      case CacheIsWritten(_) =>
        l.pc.Writing? && Apply(s, a).history == s.history + [l.pc.write] && l'.pc == Checking(l.pc.write.Install?)
      case ContextIsChecked(_) =>
        && l.pc.Checking?
        && (if l.cancelled || l.parent in s.cancelledParents then l'.pc == Exiting && l'.retryCount == l.retryCount
            else l'.pc == Sleeping && l'.retryCount == if l.pc.refreshed then 0 else l.retryCount + 1)
      case TimerFires(_) => l.pc == Sleeping && l'.pc == Top
      case _ => l.pc == Sleeping && l'.pc == Exiting && (l.cancelled || l.parent in s.cancelledParents)
  {
    if a == ResultIsChecked(g) {
      OutcomeOfRefresh(s.loops[g].pc.fetch, s.clock);
    }
  }

  /** A Start makes a loop at the top of its first round exactly when no cancel function is set. */
  lemma StartMakesLoop(s: State, parent: ContextId)
    ensures
      if s.life.cancel.Some? then Apply(s, CallStart(parent)) == s
      else
        var g := s.life.id + 1;
        && Apply(s, CallStart(parent)).loops == s.loops[g := Loop(parent, false, Top, 0)]
        && Apply(s, CallStart(parent)).life == Lifecycle(g, Some(g))
  {
  }

  // ----- Termination after cancellation -----

  predicate IsStepOf(a: Action, g: Generation) {
    match a
    case FetchStarts(h) => h == g
    case FetchReturns(h, _) => h == g
    case ResultIsChecked(h) => h == g
    case CacheIsWritten(h) => h == g
    case ContextIsChecked(h) => h == g
    case TimerFires(h) => h == g
    case SleepIsCancelled(h) => h == g
    case LifecycleIsCleared(h) => h == g
    case _ => false
  }

  /** How many steps a loop whose context is done can still take. */
  function Rank(pc: Pc): nat {
    match pc
    case Sleeping => 7
    case Top => 6
    case Fetching => 5
    case Got(_) => 4
    case Writing(_) => 3
    case Checking(_) => 2
    case Exiting => 1
    case Finished => 0
  }

  function StepsOf(run: Run, g: Generation): nat {
    if run == [] then 0 else (if IsStepOf(run[0], g) then 1 else 0) + StepsOf(run[1..], g)
  }

  function FetchesOf(run: Run, g: Generation): nat {
    if run == [] then 0 else (if run[0] == FetchStarts(g) then 1 else 0) + FetchesOf(run[1..], g)
  }

  function WritesOf(run: Run, g: Generation): nat {
    if run == [] then 0 else (if run[0] == CacheIsWritten(g) then 1 else 0) + WritesOf(run[1..], g)
  }

  /** Only a loop that has not made the write of its round can still make one. */
  function WritesLeft(pc: Pc): nat {
    if pc == Sleeping || pc == Top || pc == Fetching || pc.Got? || pc.Writing? then 1 else 0
  }

  /** Only a loop that is asleep or at the top of its round can still start a fetch. */
  function FetchesLeft(pc: Pc): nat {
    if pc == Sleeping || pc == Top then 1 else 0
  }

  /** One step of the run, seen from a loop whose context is done. */
  lemma RankStep(s: State, a: Action, g: Generation)
    requires LifecycleInvariant(s) && Enabled(s, a) && g in s.loops && ContextDone(s, g)
    ensures var s' := Apply(s, a);
      && g in s'.loops && ContextDone(s', g)
      && (if IsStepOf(a, g) then Rank(s'.loops[g].pc) < Rank(s.loops[g].pc) else s'.loops[g].pc == s.loops[g].pc)
      && (if a == FetchStarts(g) then 1 else 0) + FetchesLeft(s'.loops[g].pc) <= FetchesLeft(s.loops[g].pc)
      && (if a == CacheIsWritten(g) then 1 else 0) + WritesLeft(s'.loops[g].pc) <= WritesLeft(s.loops[g].pc)
  {
    ContextStaysDone(s, a, g);
    if !IsStepOf(a, g) {
      OthersKeepPc(s, a, g);
    }
  }

  lemma ContextStaysDone(s: State, a: Action, g: Generation)
    requires LifecycleInvariant(s) && Enabled(s, a) && g in s.loops && ContextDone(s, g)
    ensures g in Apply(s, a).loops && ContextDone(Apply(s, a), g)
  {
  }

  lemma OthersKeepPc(s: State, a: Action, g: Generation)
    requires LifecycleInvariant(s) && Enabled(s, a) && g in s.loops && !IsStepOf(a, g)
    ensures g in Apply(s, a).loops && Apply(s, a).loops[g].pc == s.loops[g].pc
  {
  }

  lemma {:induction false} RankBoundsSteps(s: State, run: Run, g: Generation)
    requires LifecycleInvariant(s) && Legal(s, run) && g in s.loops && ContextDone(s, g)
    ensures g in After(s, run).loops
    ensures StepsOf(run, g) + Rank(After(s, run).loops[g].pc) <= Rank(s.loops[g].pc)
    ensures FetchesOf(run, g) + FetchesLeft(After(s, run).loops[g].pc) <= FetchesLeft(s.loops[g].pc)
    ensures WritesOf(run, g) + WritesLeft(After(s, run).loops[g].pc) <= WritesLeft(s.loops[g].pc)
    decreases |run|
  {
    if run != [] {
      LifecycleStep(s, run[0]);
      RankStep(s, run[0], g);
      RankBoundsSteps(Apply(s, run[0]), run[1..], g);
    }
  }

  /** Once the context of a refresh loop is done, the loop takes at most seven more steps, starts
      at most one more fetch, and only if it was asleep or about to start its round, and writes the
      cache at most once more; and until it has finished it always has a step to take, given that
      fetches return. */
  lemma TerminatesAfterCancellation(clock: Instant, before: Run, after: Run, g: Generation)
    requires Legal(Initial(clock), before)
    requires g in After(Initial(clock), before).loops && ContextDone(After(Initial(clock), before), g)
    requires Legal(After(Initial(clock), before), after)
    ensures
      var s := After(Initial(clock), before);
      var s' := After(s, after);
      && StepsOf(after, g) <= Rank(s.loops[g].pc) <= 7
      && FetchesOf(after, g) <= FetchesLeft(s.loops[g].pc) <= 1
      && WritesOf(after, g) <= WritesLeft(s.loops[g].pc) <= 1
      && g in s'.loops
      && (s'.loops[g].pc != Finished ==> exists a :: IsStepOf(a, g) && Enabled(s', a))
  {
    LifecycleHolds(Initial(clock), before);
    var s := After(Initial(clock), before);
    RankBoundsSteps(s, after, g);
    var s' := After(s, after);
    var next := match s'.loops[g].pc
      case Top => FetchStarts(g)
      case Fetching => FetchReturns(g, Failed(TokenMissing))
      case Got(_) => ResultIsChecked(g)
      case Writing(_) => CacheIsWritten(g)
      case Checking(_) => ContextIsChecked(g)
      case Sleeping => TimerFires(g)
      case Exiting => LifecycleIsCleared(g)
      case Finished => Tick(0);
    assert s'.loops[g].pc != Finished ==> IsStepOf(next, g) && Enabled(s', next);
  }

  // ----- A superseded loop before its cancellation -----

  lemma RunFromHere(s: State, a: Action, run: Run, g: Generation)
    requires Enabled(s, a) && Legal(Apply(s, a), run)
    ensures Legal(s, [a] + run)
    ensures WritesOf([a] + run, g) == WritesOf(run, g) + if a == CacheIsWritten(g) then 1 else 0
  {
    assert ([a] + run)[1..] == run;
  }

  /** The step of a loop whose context is not done leads it on. */
  lemma NextPc(s: State, a: Action, g: Generation)
    requires Enabled(s, a) && IsStepOf(a, g) && g in s.loops && !ContextDone(s, g)
    ensures g in Apply(s, a).loops && !ContextDone(Apply(s, a), g)
    ensures a.FetchStarts? ==> Apply(s, a).loops[g].pc == Fetching
    ensures a.FetchReturns? ==> Apply(s, a).loops[g].pc.Got?
    ensures a.ResultIsChecked? ==> Apply(s, a).loops[g].pc.Writing?
    ensures a.CacheIsWritten? ==> Apply(s, a).loops[g].pc.Checking?
    ensures a.ContextIsChecked? ==> Apply(s, a).loops[g].pc == Sleeping
    ensures a.TimerFires? ==> Apply(s, a).loops[g].pc == Top
  {
  }

  /** A loop whose context is not done can go round and write the cache any number of times. */
  lemma {:induction false} RoundsOf(s: State, g: Generation, n: nat) returns (run: Run)
    requires AtPc(s, g, Top) && !ContextDone(s, g)
    ensures Legal(s, run) && WritesOf(run, g) == n
    decreases n, 2
  {
    if n == 0 {
      return [];
    }
    var a, b, c := FetchStarts(g), FetchReturns(g, Failed(TokenMissing)), ResultIsChecked(g);
    NextPc(s, a, g);
    NextPc(Apply(s, a), b, g);
    NextPc(Apply(Apply(s, a), b), c, g);
    run := RoundsFromWrite(Apply(Apply(Apply(s, a), b), c), g, n);
    RunFromHere(Apply(Apply(s, a), b), c, run, g);
    RunFromHere(Apply(s, a), b, [c] + run, g);
    RunFromHere(s, a, [b] + ([c] + run), g);
    run := [a] + ([b] + ([c] + run));
  }

  lemma {:induction false} RoundsFromWrite(s: State, g: Generation, n: nat) returns (run: Run)
    requires g in s.loops && s.loops[g].pc.Writing? && !ContextDone(s, g) && n > 0
    ensures Legal(s, run) && WritesOf(run, g) == n
    decreases n, 1
  {
    var a, b, c := CacheIsWritten(g), ContextIsChecked(g), TimerFires(g);
    NextPc(s, a, g);
    NextPc(Apply(s, a), b, g);
    NextPc(Apply(Apply(s, a), b), c, g);
    run := RoundsOf(Apply(Apply(Apply(s, a), b), c), g, n - 1);
    RunFromHere(Apply(Apply(s, a), b), c, run, g);
    RunFromHere(Apply(s, a), b, [c] + run, g);
    RunFromHere(s, a, [b] + ([c] + run), g);
    run := [a] + ([b] + ([c] + run));
  }

  /** So a loop that a Stop has superseded but not cancelled yet has no bound on its writes: after a Start and
      the locked part of a Stop, the first loop can write the cache `n` times. */
  lemma SupersededLoopWritesOn(clock: Instant, n: nat) returns (before: Run, after: Run)
    ensures Legal(Initial(clock), before) && Legal(After(Initial(clock), before), after)
    ensures 1 < After(Initial(clock), before).life.id && After(Initial(clock), before).life.cancel.None?
    ensures WritesOf(after, 1) == n
  {
    before := [CallStart(0), StopTakes(0)];
    var s := Apply(Apply(Initial(clock), CallStart(0)), StopTakes(0));
    assert before[1..] == [StopTakes(0)] && before[1..][1..] == [];
    assert After(Initial(clock), before) == s;
    after := RoundsOf(s, 1, n);
  }
}
