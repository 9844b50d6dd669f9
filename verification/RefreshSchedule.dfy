/** One refresh loop in time: when it fetches, how long it waits, and what its cache gives
    at every instant of the run. */
module RefreshSchedule {
  import opened Text
  import opened Wrappers
  import opened ServiceAuthority

  /** What the environment does in one round: the fetch result and when it arrives, the time from its
      check to the cache write, from the write to the computation of the delay, by which the timer
      is noticed late, and whether a timer that has fired wins over a context that is done as well. */
  datatype Round = Round(fetch: Fetch, latency: nat, store: nat, settle: nat, late: nat, timerWins: bool)
  {
    /** From the start of the round to its write. */
    function ToWrite(): nat { latency + store }
  }

  /** One round as the loop runs it. `failures` is its retry counter after the round; its timer fires at
      `due`, and it goes on at `wakes`. */
  datatype Attempt = Attempt(
    start: Instant, at: Instant, write: Write, failures: nat, wait: Duration, due: Instant, wakes: Instant)

  function AttemptOf(cfg: Config, now: Instant, failures: nat, r: Round): Attempt {
    var checked := now + r.latency;
    var at := checked + r.store;
    var w := WriteOf(r.fetch, checked);
    var k := if w.Install? then 0 else failures + 1;
    var wait := if w.Install? then NextRefreshDelay(cfg, w.expiresAt, at + r.settle) else RetryDelay(cfg, k);
    var due := at + r.settle + if wait <= 0 then 0 else wait;
    Attempt(now, at, w, k, wait, due, due + if wait <= 0 then 0 else r.late)
  }

  /** Whether the loop starts another round: its context is not done after the write, and the sleep, if
      there is one, ends with its timer. */
  predicate GoesOn(a: Attempt, r: Round, cancelled: Option<Instant>) {
    match cancelled
    case None => true
    case Some(c) => a.at < c && (a.wait <= 0 || a.wakes < c || (a.due <= c && r.timerWins))
  }

  function Schedule(cfg: Config, now: Instant, failures: nat, env: seq<Round>): (log: seq<Attempt>)
    ensures |log| == |env|
    decreases |env|
  {
    if env == [] then []
    else
      var a := AttemptOf(cfg, now, failures, env[0]);
      [a] + Schedule(cfg, a.wakes, a.failures, env[1..])
  }

  /** The cache at instant `t`, given the cache at the start of the run. */
  function CacheAt(c: Cache, log: seq<Attempt>, t: Instant): Cache
    decreases |log|
  {
    if log == [] || t < log[0].at then c else CacheAt(Written(c, log[0].write), log[1..], t)
  }

  function CacheAtEnd(c: Cache, log: seq<Attempt>): Cache
    decreases |log|
  {
    if log == [] then c else CacheAtEnd(Written(c, log[0].write), log[1..])
  }

  function End(now: Instant, log: seq<Attempt>): Instant {
    if log == [] then now else log[|log| - 1].wakes
  }

  /** One round of the loop, entered with its retry counter. */
  method RunRound(p: CachedServiceAuthorityProvider, now: Instant, failures: nat, r: Round) returns (a: Attempt)
    modifies p`token, p`expiresAt, p`lastRefreshErr
    ensures a == AttemptOf(p.config, now, failures, r)
    ensures p.Tokens() == Written(old(p.Tokens()), a.write)
  {
    var retryCount := failures;
    var checked := now + r.latency;
    var at := checked + r.store;
    var refreshed := p.RefreshOnce(r.fetch, checked);
    var wait;
    if refreshed {
      retryCount := 0;
      wait := NextRefreshDelay(p.config, p.expiresAt, at + r.settle);
    } else {
      retryCount := retryCount + 1;
      wait := RetryDelay(p.config, retryCount);
    }
    var due := at + r.settle + if wait <= 0 then 0 else wait;
    a := Attempt(now, at, WriteOf(r.fetch, checked), retryCount, wait, due, due + if wait <= 0 then 0 else r.late);
  }

  /** The refresh loop of one generation in a given environment, its context being done from the instant
      `cancelled` on. It runs a number of the rounds, each of which but the last goes on; and it stops
      short of them only in a round that does not go on. */
  method RunRefreshLoop(p: CachedServiceAuthorityProvider, start: Instant, env: seq<Round>, cancelled: Option<Instant>)
    returns (log: seq<Attempt>)
    modifies p`token, p`expiresAt, p`lastRefreshErr
    ensures |log| <= |env| && log == Schedule(p.config, start, 0, env[..|log|])
    ensures p.Tokens() == CacheAtEnd(old(p.Tokens()), log)
    ensures forall j :: 0 <= j < |log| - 1 ==> GoesOn(log[j], env[j], cancelled)
    ensures |log| < |env| ==> log != [] && !GoesOn(log[|log| - 1], env[|log| - 1], cancelled)
  {
    var retryCount := 0;
    var now := start;
    log := [];
    while |log| < |env|
      invariant |log| <= |env| && log == Schedule(p.config, start, 0, env[..|log|])
      invariant now == End(start, log) && retryCount == FailuresAtEnd(0, log)
      invariant p.Tokens() == CacheAtEnd(old(p.Tokens()), log)
      invariant forall j :: 0 <= j < |log| ==> GoesOn(log[j], env[j], cancelled)
      decreases |env| - |log|
    {
      var r := env[|log|];
      var a := RunRound(p, now, retryCount, r);
      CacheAtEndOfOneMore(old(p.Tokens()), log, a);
      NextRound(p.config, start, env, log);
      log := log + [a];
      if !GoesOn(a, r, cancelled) {
        return;
      }
      retryCount := a.failures;
      now := a.wakes;
    }
  }

  function FailuresAtEnd(failures: nat, log: seq<Attempt>): nat {
    if log == [] then failures else log[|log| - 1].failures
  }

  lemma {:induction false} ScheduleOneMore(cfg: Config, now: Instant, failures: nat, env: seq<Round>, r: Round)
    ensures
      var log := Schedule(cfg, now, failures, env);
      Schedule(cfg, now, failures, env + [r]) == log + [AttemptOf(cfg, End(now, log), FailuresAtEnd(failures, log), r)]
    decreases |env|
  {
    if env == [] {
      assert env + [r] == [r] && [r][1..] == [];
    } else {
      var a := AttemptOf(cfg, now, failures, env[0]);
      ScheduleOneMore(cfg, a.wakes, a.failures, env[1..], r);
      assert (env + [r])[1..] == env[1..] + [r];
    }
  }

  lemma NextRound(cfg: Config, start: Instant, env: seq<Round>, log: seq<Attempt>)
    requires |log| < |env| && log == Schedule(cfg, start, 0, env[..|log|])
    ensures Schedule(cfg, start, 0, env[..|log| + 1]) ==
      log + [AttemptOf(cfg, End(start, log), FailuresAtEnd(0, log), env[|log|])]
  {
    ScheduleOneMore(cfg, start, 0, env[..|log|], env[|log|]);
    assert env[..|log| + 1] == env[..|log|] + [env[|log|]];
  }

  /** A round that starts once the context is done is the last one. */
  lemma NoRoundAfterOneTooLate(cfg: Config, start: Instant, log: seq<Attempt>, env: seq<Round>, c: Instant, j: nat)
    requires |log| <= |env| && log == Schedule(cfg, start, 0, env[..|log|])
    requires forall i :: 0 <= i < |log| - 1 ==> GoesOn(log[i], env[i], Some(c))
    requires j < |log| && c <= log[j].start
    ensures j == |log| - 1
  {
    SuffixOfSchedule(cfg, start, 0, env[..|log|], j);
  }

  lemma {:induction false} CacheAtEndOfOneMore(c: Cache, log: seq<Attempt>, a: Attempt)
    ensures CacheAtEnd(c, log + [a]) == Written(CacheAtEnd(c, log), a.write)
    decreases |log|
  {
    if log != [] {
      assert (log + [a])[1..] == log[1..] + [a];
      CacheAtEndOfOneMore(Written(c, log[0].write), log[1..], a);
    }
  }

  lemma {:induction false} SuffixOfSchedule(cfg: Config, now: Instant, failures: nat, env: seq<Round>, i: nat)
    requires i < |env|
    ensures var log := Schedule(cfg, now, failures, env);
      log[i] == AttemptOf(cfg, if i == 0 then now else log[i - 1].wakes, if i == 0 then failures else log[i - 1].failures, env[i])
    decreases |env|
  {
    if i > 0 {
      var a := AttemptOf(cfg, now, failures, env[0]);
      SuffixOfSchedule(cfg, a.wakes, a.failures, env[1..], i - 1);
      var log := Schedule(cfg, now, failures, env);
      var rest := Schedule(cfg, a.wakes, a.failures, env[1..]);
      assert log == [a] + rest && log[i] == rest[i - 1];
      if i > 1 { assert log[i - 1] == rest[i - 2]; }
    }
  }

  // ----- The times of a run -----

  /** When the rounds of a run start, write and go on, and what they write. */
  lemma TimesOfRun(cfg: Config, start: Instant, env: seq<Round>, i: nat)
    requires i < |env|
    ensures
      var log := Schedule(cfg, start, 0, env);
      var checked := log[i].start + env[i].latency;
      && log[i].start == (if i == 0 then start else log[i - 1].wakes)
      && log[i].at == checked + env[i].store
      && log[i].due == log[i].at + env[i].settle + (if log[i].wait > 0 then log[i].wait else 0)
      && log[i].wakes == log[i].due + (if log[i].wait > 0 then env[i].late else 0)
      && match env[i].fetch
         case Failed(e) => log[i].write == Record(e)
         case Fetched(None) => log[i].write == Record(TokenMissing)
         case Fetched(Some(t)) =>
           if (exists j :: 0 <= j < |t.token| && !IsSpace(t.token[j])) && t.expiresAt != 0 && t.expiresAt > checked
           then log[i].write == Install(Trim(t.token), t.expiresAt)
           else log[i].write.Record?
  {
    SuffixOfSchedule(cfg, start, 0, env, i);
    OutcomeOfRefresh(env[i].fetch, Schedule(cfg, start, 0, env)[i].start + env[i].latency);
  }

  /** After a success the loop waits until the refresh window of the token opens, or for one second when
      it is open already or nothing is left of the token. */
  lemma WaitsForWindow(cfg: Config, start: Instant, env: seq<Round>, i: nat)
    requires i < |env| && Schedule(cfg, start, 0, env)[i].write.Install?
    ensures
      var a := Schedule(cfg, start, 0, env)[i];
      var ready, window := a.at + env[i].settle, a.write.expiresAt - cfg.refreshBefore;
      a.due == if window > ready then window else ready + 1_000_000_000
  {
    SuffixOfSchedule(cfg, start, 0, env, i);
    OutcomeOfRefresh(env[i].fetch, Schedule(cfg, start, 0, env)[i].start + env[i].latency);
  }

  lemma {:induction false} StartsAscend(cfg: Config, start: Instant, env: seq<Round>, i: nat, j: nat)
    requires i < j < |env|
    ensures Schedule(cfg, start, 0, env)[i].due <= Schedule(cfg, start, 0, env)[j].start
  {
    TimesOfRun(cfg, start, env, j);
    TimesOfRun(cfg, start, env, j - 1);
    if i < j - 1 {
      StartsAscend(cfg, start, env, i, j - 1);
    }
  }

  /** So no later fetch starts before the refresh window of an installed token opens. */
  lemma NoFetchBeforeWindow(cfg: Config, start: Instant, env: seq<Round>, i: nat, j: nat)
    requires i < j < |env| && Schedule(cfg, start, 0, env)[i].write.Install?
    ensures
      var log := Schedule(cfg, start, 0, env);
      log[i].write.expiresAt - cfg.refreshBefore <= log[j].start
  {
    WaitsForWindow(cfg, start, env, i);
    StartsAscend(cfg, start, env, i, j);
  }

  /** When a cancellation stops the loop after a round: at once if it comes up to the write, in the sleep
      if it comes before the timer fires, and not at all if it comes after the loop has gone on. */
  lemma WhenCancellationStops(a: Attempt, r: Round, c: Instant)
    requires a.due == a.at + r.settle + (if a.wait > 0 then a.wait else 0)
    requires a.wakes == a.due + (if a.wait > 0 then r.late else 0)
    ensures GoesOn(a, r, None)
    ensures c <= a.at ==> !GoesOn(a, r, Some(c))
    ensures a.wait > 0 && c < a.due ==> !GoesOn(a, r, Some(c))
    ensures a.wait > 0 && a.due <= c <= a.wakes && a.at < c ==> (GoesOn(a, r, Some(c)) <==> r.timerWins)
    ensures a.wait <= 0 && a.at < c ==> GoesOn(a, r, Some(c))
    ensures a.wakes < c ==> GoesOn(a, r, Some(c))
  {
  }

  // ----- Backoff -----

  function Min(a: int, b: int): int {
    if a <= b then a else b
  }

  /** The number of failed attempts in a row that end with attempt `i`. */
  function Streak(log: seq<Attempt>, i: nat): nat
    requires i < |log|
  {
    if log[i].write.Install? then 0 else 1 + if i == 0 then 0 else Streak(log, i - 1)
  }

  /** The streak counts back to the last success, or to the start of the run. */
  lemma {:induction false} StreakCounts(log: seq<Attempt>, i: nat)
    requires i < |log|
    ensures Streak(log, i) <= i + 1
    ensures forall j :: i - Streak(log, i) < j <= i ==> log[j].write.Record?
    ensures Streak(log, i) == i + 1 || log[i - Streak(log, i)].write.Install?
  {
    if log[i].write.Record? && i > 0 {
      StreakCounts(log, i - 1);
    }
  }

  lemma Int64Periodic(n: int, q: int)
    ensures Int64(n + q * TWO_64) == Int64(n)
  {
    assert (n + q * TWO_64 + TWO_63) % TWO_64 == (n + TWO_63) % TWO_64;
  }

  /** The product computed in 64 bits, step by step, is the exact product taken into 64 bits. */
  lemma ProductInInt64(n: int)
    ensures Int64(Int64(n) * RETRY_MULTIPLIER) == Int64(10 * n)
  {
    var q := (n + TWO_63) / TWO_64;
    assert Int64(n) == n - q * TWO_64;
    assert Int64(n) * RETRY_MULTIPLIER == 10 * n + (-10 * q) * TWO_64;
    Int64Periodic(10 * n, -10 * q);
  }

  /** The wait after the k-th failure in a row is min(10 * base * k, max) exactly when the product
      fits in 64 bits or its wrapped value reaches the maximum. */
  lemma RetryDelayIsExact(cfg: Config, k: nat)
    requires cfg.Valid() && k >= 1
    ensures RetryDelay(cfg, k) == Min(10 * (cfg.retryBase * k), cfg.retryMax)
      <==> 10 * (cfg.retryBase * k) < TWO_63 || Int64(10 * (cfg.retryBase * k)) >= cfg.retryMax
  {
    ProductInInt64(cfg.retryBase * k);
    assert cfg.retryBase * k >= cfg.retryBase by { Monotone(cfg.retryBase, 1, k); }
  }

  lemma Monotone(base: nat, k: nat, k': nat)
    requires k <= k'
    ensures base * k <= base * k'
  {
  }

  /** With the default intervals the bound holds up to 15372286 failures in a row. After one more
      the product wraps, and the loop does not wait at all. */
  lemma DefaultBackoffWraps()
    ensures
      var cfg := Config(0, 0, 0).Normalized();
      && 10 * (cfg.retryBase * 15372286) < TWO_63
      && RetryDelay(cfg, 15372286) == cfg.retryMax
      && RetryDelay(cfg, 15372287) < 0
  {
  }

  /** In every run, the wait after a failed attempt is min(10 * base * k, max), where k is the number
      of failures in a row; it is positive, at most max, and no shorter than after fewer failures. */
  lemma Backoff(cfg: Config, start: Instant, env: seq<Round>, i: nat)
    requires cfg.Valid() && i < |env|
    requires var log := Schedule(cfg, start, 0, env);
      log[i].write.Record? && 10 * (cfg.retryBase * Streak(log, i)) < TWO_63
    ensures
      var log := Schedule(cfg, start, 0, env);
      && log[i].wait == Min(10 * (cfg.retryBase * Streak(log, i)), cfg.retryMax)
      && 0 < log[i].wait <= cfg.retryMax
      && (i > 0 && log[i - 1].write.Record? ==> log[i - 1].wait <= log[i].wait)
  {
    var log := Schedule(cfg, start, 0, env);
    var k := Streak(log, i);
    WaitIsRetryDelay(cfg, start, env, i);
    DelayIsCapped(cfg, k);
    if i > 0 && log[i - 1].write.Record? {
      WaitIsRetryDelay(cfg, start, env, i - 1);
      Monotone(cfg.retryBase, k - 1, k);
      DelayIsCapped(cfg, k - 1);
    }
  }

  lemma DelayIsCapped(cfg: Config, k: nat)
    requires cfg.Valid() && k >= 1 && 10 * (cfg.retryBase * k) < TWO_63
    ensures RetryDelay(cfg, k) == Min(10 * (cfg.retryBase * k), cfg.retryMax) && 0 < RetryDelay(cfg, k) <= cfg.retryMax
  {
    RetryDelayIsExact(cfg, k);
    Monotone(cfg.retryBase, 1, k);
  }

  lemma WaitIsRetryDelay(cfg: Config, start: Instant, env: seq<Round>, i: nat)
    requires i < |env| && Schedule(cfg, start, 0, env)[i].write.Record?
    ensures var log := Schedule(cfg, start, 0, env); log[i].wait == RetryDelay(cfg, Streak(log, i)) && Streak(log, i) >= 1
  {
    FailuresAreStreak(cfg, start, env, i);
    SuffixOfSchedule(cfg, start, 0, env, i);
  }

  lemma {:induction false} FailuresAreStreak(cfg: Config, start: Instant, env: seq<Round>, i: nat)
    requires i < |env|
    ensures var log := Schedule(cfg, start, 0, env); log[i].failures == Streak(log, i)
  {
    SuffixOfSchedule(cfg, start, 0, env, i);
    if i > 0 {
      FailuresAreStreak(cfg, start, env, i - 1);
    }
  }

  /** During an outage, attempts are never further apart than the maximum wait and the time the
      environment takes in the round. */
  lemma OutageGap(cfg: Config, start: Instant, env: seq<Round>, i: nat)
    requires cfg.Valid() && i + 1 < |env| && Schedule(cfg, start, 0, env)[i].write.Record?
    ensures var log := Schedule(cfg, start, 0, env);
      log[i].start <= log[i + 1].start <= log[i].start + cfg.retryMax + env[i].ToWrite() + env[i].settle + env[i].late
  {
    SuffixOfSchedule(cfg, start, 0, env, i);
    SuffixOfSchedule(cfg, start, 0, env, i + 1);
  }

  // ----- Availability -----

  /** The cache at an instant is what the writes up to that instant have left. */
  lemma {:induction false} CacheAtInstant(c: Cache, log: seq<Attempt>, t: Instant, n: nat)
    requires n <= |log| && (forall j :: 0 <= j < n ==> log[j].at <= t) && (n < |log| ==> t < log[n].at)
    ensures CacheAt(c, log, t) == CacheAtEnd(c, log[..n])
    decreases |log|
  {
    if n > 0 {
      CacheAtInstant(Written(c, log[0].write), log[1..], t, n - 1);
      assert log[..n][1..] == log[1..][..n - 1];
    }
  }

  /** From round `n` on every fetch succeeds with a token that has more than one second and `slack`
      left when it is written, and the environment takes at most `slack` between a write and the next. */
  ghost predicate Prompt(log: seq<Attempt>, env: seq<Round>, n: nat, slack: nat)
    requires |log| == |env|
  {
    forall i :: n <= i < |log| ==> PromptAt(log, env, i, slack)
  }

  predicate PromptAt(log: seq<Attempt>, env: seq<Round>, i: nat, slack: nat)
    requires i < |log| == |env|
  {
    && log[i].write.Install?
    && log[i].write.expiresAt > log[i].at + SECOND + slack
    && env[i].settle + env[i].late + (if i + 1 < |env| then env[i + 1].ToWrite() else 0) <= slack
  }

  /** A prompt success leaves a token that outlives the next write. */
  lemma NextWriteIsInTime(cfg: Config, now: Instant, failures: nat, r: Round, next: nat, slack: nat)
    requires slack < cfg.refreshBefore && r.settle + r.late + next <= slack
    requires var a := AttemptOf(cfg, now, failures, r); a.write.Install? && a.write.expiresAt > a.at + SECOND + slack
    ensures var a := AttemptOf(cfg, now, failures, r); a.write.expiresAt > a.wakes + next
  {
  }

  lemma PromptSuffix(log: seq<Attempt>, env: seq<Round>, n: nat, slack: nat)
    requires |log| == |env| > 0 && Prompt(log, env, n, slack)
    ensures Prompt(log[1..], env[1..], if n == 0 then 0 else n - 1, slack)
  {
    forall i | (if n == 0 then 0 else n - 1) <= i < |log[1..]| ensures PromptAt(log[1..], env[1..], i, slack) {
      assert PromptAt(log, env, i + 1, slack);
    }
  }

  lemma FirstPromptWrite(cfg: Config, now: Instant, failures: nat, env: seq<Round>, slack: nat)
    requires slack < cfg.refreshBefore && env != [] && Prompt(Schedule(cfg, now, failures, env), env, 0, slack)
    ensures var a := AttemptOf(cfg, now, failures, env[0]);
      a.write.Install? && WellFormed(a.write) && a.write.expiresAt > a.wakes + if env[1..] == [] then 0 else env[1..][0].ToWrite()
  {
    var log := Schedule(cfg, now, failures, env);
    assert PromptAt(log, env, 0, slack);
    WritesAreWellFormed(env[0].fetch, now + env[0].latency);
    NextWriteIsInTime(cfg, now, failures, env[0], if |env| > 1 then env[1].ToWrite() else 0, slack);
  }

  /** A cached token that outlives the next write keeps the provider available to the end of the run. */
  lemma {:induction false} StaysAvailable(
      cfg: Config, c: Cache, now: Instant, failures: nat, env: seq<Round>, slack: nat, t: Instant)
    requires slack < cfg.refreshBefore
    requires Prompt(Schedule(cfg, now, failures, env), env, 0, slack)
    requires WellFormed(Install(c.token, c.expiresAt)) && c.expiresAt > now + if env == [] then 0 else env[0].ToWrite()
    requires t <= End(now, Schedule(cfg, now, failures, env))
    ensures CurrentToken(CacheAt(c, Schedule(cfg, now, failures, env), t), t).Ok?
    decreases |env|
  {
    var log := Schedule(cfg, now, failures, env);
    if log != [] && log[0].at <= t {
      var a := log[0];
      PromptSuffix(log, env, 0, slack);
      FirstPromptWrite(cfg, now, failures, env, slack);
      assert log[1..] == Schedule(cfg, a.wakes, a.failures, env[1..]);
      StaysAvailable(cfg, Written(c, a.write), a.wakes, a.failures, env[1..], slack, t);
    }
  }

  /** Timed availability: when every fetch from round `n` on is a prompt success and the slack is
      shorter than the refresh window, the provider is available at every instant of the run from
      the write of round `n` on, whatever happened before. */
  lemma {:induction false} Availability(
      cfg: Config, c: Cache, now: Instant, failures: nat, env: seq<Round>, n: nat, slack: nat, t: Instant)
    requires n < |env| && slack < cfg.refreshBefore
    requires Prompt(Schedule(cfg, now, failures, env), env, n, slack)
    requires Schedule(cfg, now, failures, env)[n].at <= t <= End(now, Schedule(cfg, now, failures, env))
    requires cfg.Valid()
    ensures CurrentToken(CacheAt(c, Schedule(cfg, now, failures, env), t), t).Ok?
    decreases |env|
  {
    var log := Schedule(cfg, now, failures, env);
    var a := log[0];
    PromptSuffix(log, env, n, slack);
    assert log[1..] == Schedule(cfg, a.wakes, a.failures, env[1..]);
    WritesAreNotBefore(cfg, now, failures, env, n);
    if n == 0 {
      FirstPromptWrite(cfg, now, failures, env, slack);
      StaysAvailable(cfg, Written(c, a.write), a.wakes, a.failures, env[1..], slack, t);
    } else {
      Availability(cfg, Written(c, a.write), a.wakes, a.failures, env[1..], n - 1, slack, t);
    }
  }

  lemma {:induction false} WritesAreNotBefore(cfg: Config, now: Instant, failures: nat, env: seq<Round>, n: nat)
    requires n < |env|
    ensures now <= Schedule(cfg, now, failures, env)[0].at <= Schedule(cfg, now, failures, env)[n].at
    decreases |env|
  {
    if n > 0 {
      var a := AttemptOf(cfg, now, failures, env[0]);
      WritesAreNotBefore(cfg, a.wakes, a.failures, env[1..], n - 1);
    }
  }
}
