/** The service-token provider: its token cache, its lifecycle and its delays as functions,
    and the object whose methods carry them out.

    An instant is a number of nanoseconds from the zero time, so that 0 is the zero value;
    a duration is a number of nanoseconds. */
module ServiceAuthority {
  import opened Wrappers
  import opened Text

  type Instant = int
  type Duration = int

  const SECOND: Duration := 1_000_000_000
  const MINUTE: Duration := 60 * SECOND
  const DEFAULT_REFRESH_BEFORE: Duration := MINUTE
  const DEFAULT_RETRY_BASE: Duration := MINUTE
  const DEFAULT_RETRY_MAX: Duration := 60 * MINUTE
  const RETRY_MULTIPLIER := 10

  datatype AuthorityError =
    | FetchFailed(cause: string)
    | TokenMissing
    | TokenExpiresAtMissing
    | TokenExpired
    | FetchMissing

  /** The error of the hot path, which wraps the last refresh error if there is one. */
  datatype Unavailable = Unavailable(wrapped: Option<AuthorityError>)

  // ----- Fetched tokens -----

  datatype Token = Token(token: string, expiresAt: Instant)

  /** What the fetch function returns. */
  datatype Fetch = Failed(error: AuthorityError) | Fetched(token: Option<Token>)

  function ValidateToken(token: Option<Token>, now: Instant): Option<AuthorityError> {
    match token
    case None => Some(TokenMissing)
    case Some(t) =>
      if Blank(t.token) then Some(TokenMissing)
      else if t.expiresAt == 0 then Some(TokenExpiresAtMissing)
      else if t.expiresAt <= now then Some(TokenExpired)
      else None
  }

  // ----- The token cache -----

  datatype Cache = Cache(token: string, expiresAt: Instant, lastError: Option<AuthorityError>)

  const EMPTY := Cache("", 0, None)

  /** What one refresh writes into the cache. */
  datatype Write = Install(token: string, expiresAt: Instant) | Record(error: AuthorityError)

  /** The write that follows a fetch whose result is checked at `now`. */
  function WriteOf(fetch: Fetch, now: Instant): Write {
    match fetch
    case Failed(e) => Record(e)
    case Fetched(token) =>
      match ValidateToken(token, now)
      case Some(e) => Record(e)
      case None => Install(Trim(token.value.token), token.value.expiresAt)
  }

  function Written(c: Cache, w: Write): Cache {
    match w
    case Install(token, expiresAt) => Cache(token, expiresAt, None)
    case Record(e) => c.(lastError := Some(e))
  }

  function CurrentToken(c: Cache, now: Instant): Result<string, Unavailable> {
    if Blank(c.token) || c.expiresAt == 0 || c.expiresAt <= now then Err(Unavailable(c.lastError))
    else Ok(Trim(c.token))
  }

  /** `expiresIn` counts whole seconds, and is negative once the token has expired. */
  datatype Status = Status(
    started: bool,
    loaded: bool,
    expiresAt: Option<Instant>,
    expiresIn: int,
    refreshBefore: Duration,
    lastError: Option<AuthorityError>)

  predicate Loaded(c: Cache, now: Instant) {
    Trim(c.token) != "" && c.expiresAt != 0 && c.expiresAt > now
  }

  // ----- The cache as a function of the history of its writes -----

  function CacheAfter(h: seq<Write>): Cache {
    if h == [] then EMPTY else Written(CacheAfter(h[..|h| - 1]), h[|h| - 1])
  }

  /** Writes that a checked refresh can make: an installed token is trimmed, not empty and has an expiry. */
  predicate WellFormed(w: Write) {
    w.Install? ==> w.token != "" && Trimmed(w.token) && w.expiresAt != 0
  }

  /** `i` is the latest successful refresh of the history. */
  predicate LatestInstall(h: seq<Write>, i: int) {
    0 <= i < |h| && h[i].Install? && forall j :: i < j < |h| ==> h[j].Record?
  }

  lemma WritesAreWellFormed(fetch: Fetch, now: Instant)
    ensures WellFormed(WriteOf(fetch, now))
    ensures WriteOf(fetch, now).Install? ==> WriteOf(fetch, now).expiresAt > now
  {
  }

  lemma RecordKeepsLatest(h: seq<Write>, w: Write)
    requires w.Record?
    ensures forall i :: LatestInstall(h + [w], i) <==> LatestInstall(h, i)
  {
    var h' := h + [w];
    forall i | LatestInstall(h', i) ensures LatestInstall(h, i) {
      assert forall j :: i < j < |h| ==> h[j] == h'[j];
    }
    forall i | LatestInstall(h, i) ensures LatestInstall(h', i) {
      assert forall j :: i < j < |h| ==> h'[j] == h[j];
    }
  }

  /** When a refresh installs a token, and what it records otherwise. */
  lemma OutcomeOfRefresh(fetch: Fetch, now: Instant)
    ensures
      match fetch
      case Failed(e) => WriteOf(fetch, now) == Record(e)
      case Fetched(None) => WriteOf(fetch, now) == Record(TokenMissing)
      case Fetched(Some(t)) =>
        if forall i :: 0 <= i < |t.token| ==> IsSpace(t.token[i]) then WriteOf(fetch, now) == Record(TokenMissing)
        else if t.expiresAt == 0 then WriteOf(fetch, now) == Record(TokenExpiresAtMissing)
        else if t.expiresAt > now then WriteOf(fetch, now) == Install(Trim(t.token), t.expiresAt)
        else WriteOf(fetch, now) == Record(TokenExpired)
  {
  }

  /** Token and expiry come from the latest successful refresh, and the error is that of the
      latest refresh if it failed. */
  lemma {:induction false} CacheIsFold(h: seq<Write>)
    ensures forall i :: LatestInstall(h, i) ==> CacheAfter(h).token == h[i].token && CacheAfter(h).expiresAt == h[i].expiresAt
    ensures (forall i :: !LatestInstall(h, i)) ==> CacheAfter(h).token == "" && CacheAfter(h).expiresAt == 0
    ensures CacheAfter(h).lastError == if h != [] && h[|h| - 1].Record? then Some(h[|h| - 1].error) else None
  {
    if h != [] {
      var front := h[..|h| - 1];
      CacheIsFold(front);
      if h[|h| - 1].Install? {
        assert LatestInstall(h, |h| - 1);
      } else {
        RecordKeepsLatest(front, h[|h| - 1]);
        assert front + [h[|h| - 1]] == h;
      }
    }
  }

  /** At time `now` the hot path gives the latest successfully refreshed token exactly when its
      expiry is after `now`; otherwise its error wraps an error exactly when the latest refresh
      failed, and then that one. The status reports the token as loaded exactly when it is given. */
  lemma HotPath(h: seq<Write>, now: Instant)
    requires forall j :: 0 <= j < |h| ==> WellFormed(h[j])
    ensures CurrentToken(CacheAfter(h), now).Ok? <==> exists i :: LatestInstall(h, i) && h[i].expiresAt > now
    ensures forall i :: LatestInstall(h, i) && h[i].expiresAt > now ==> CurrentToken(CacheAfter(h), now) == Ok(h[i].token)
    ensures CurrentToken(CacheAfter(h), now).Err? ==>
      CurrentToken(CacheAfter(h), now).error.wrapped == if h != [] && h[|h| - 1].Record? then Some(h[|h| - 1].error) else None
    ensures Loaded(CacheAfter(h), now) <==> CurrentToken(CacheAfter(h), now).Ok?
  {
    CacheIsFold(h);
  }

  // ----- Delays -----

  const TWO_63 := 0x8000_0000_0000_0000
  const TWO_64 := 0x1_0000_0000_0000_0000

  /** The value of a 64-bit signed computation whose exact value is `n`. */
  function Int64(n: int): (r: int)
    ensures -TWO_63 <= r < TWO_63
    ensures -TWO_63 <= n < TWO_63 ==> r == n
  {
    (n + TWO_63) % TWO_64 - TWO_63
  }

  /** The time from one instant to another, which Go keeps within 64 bits. */
  function Between(now: Instant, later: Instant): Duration {
    if later - now >= TWO_63 then TWO_63 - 1 else if later - now < -TWO_63 then -TWO_63 else later - now
  }

  /** Whole seconds, cut off towards zero. */
  function WholeSeconds(d: Duration): int {
    if d >= 0 then d / SECOND else -(-d / SECOND)
  }

  datatype Config = Config(refreshBefore: Duration, retryBase: Duration, retryMax: Duration)
  {
    /** What the constructor establishes. */
    predicate Valid() {
      0 < refreshBefore < TWO_63 && 0 < retryBase <= retryMax < TWO_63
    }

    function Normalized(): (c: Config)
      ensures refreshBefore < TWO_63 && retryBase < TWO_63 && retryMax < TWO_63 ==> c.Valid()
      ensures Valid() ==> c == this
      ensures c.refreshBefore == if refreshBefore > 0 then refreshBefore else 60 * SECOND
      ensures c.retryBase == if retryBase > 0 then retryBase else 60 * SECOND
      ensures c.retryMax >= c.retryBase
      ensures
        var max := if retryMax > 0 then retryMax else 3600 * SECOND;
        c.retryMax == if max < c.retryBase then c.retryBase else max
    {
      var before := if refreshBefore <= 0 then DEFAULT_REFRESH_BEFORE else refreshBefore;
      var base := if retryBase <= 0 then DEFAULT_RETRY_BASE else retryBase;
      var max := if retryMax <= 0 then DEFAULT_RETRY_MAX else retryMax;
      Config(before, base, if max < base then base else max)
    }
  }

  function RetryDelay(cfg: Config, retryCount: int): Duration {
    var k := if retryCount < 1 then 1 else retryCount;
    var delay := Int64(Int64(cfg.retryBase * k) * RETRY_MULTIPLIER);
    if delay > cfg.retryMax then cfg.retryMax else delay
  }

  function NextRefreshDelay(cfg: Config, expiresAt: Instant, now: Instant): Duration {
    if expiresAt == 0 then SECOND
    else if expiresAt - cfg.refreshBefore - now <= 0 then SECOND
    else expiresAt - cfg.refreshBefore - now
  }

  // ----- Lifecycle -----

  /** `cancel` names the loop whose cancel function is stored; a loop is named by its generation. */
  datatype Lifecycle = Lifecycle(id: nat, cancel: Option<nat>)

  function Started(l: Lifecycle): Lifecycle {
    if l.cancel.Some? then l else Lifecycle(l.id + 1, Some(l.id + 1))
  }

  function Stopped(l: Lifecycle): Lifecycle {
    Lifecycle(l.id + 1, None)
  }

  function Cleared(l: Lifecycle, id: nat): Lifecycle {
    if l.id == id then l.(cancel := None) else l
  }

  // ----- The object -----

  class CachedServiceAuthorityProvider {
    const config: Config
    var token: string
    var expiresAt: Instant
    var lastRefreshErr: Option<AuthorityError>
    var lifecycleCancel: Option<nat>
    var lifecycleID: nat

    function Tokens(): Cache
      reads this
    {
      Cache(token, expiresAt, lastRefreshErr)
    }

    function Life(): Lifecycle
      reads this
    {
      Lifecycle(lifecycleID, lifecycleCancel)
    }

    constructor (options: Config)
      ensures config == options.Normalized() && Tokens() == EMPTY && Life() == Lifecycle(0, None)
    {
      config := options.Normalized();
      token, expiresAt, lastRefreshErr := "", 0, None;
      lifecycleCancel, lifecycleID := None, 0;
    }

    /** The generation of the loop that this call starts, if it starts one. */
    method Start() returns (launched: Option<nat>)
      modifies `lifecycleID, `lifecycleCancel
      ensures Life() == Started(old(Life()))
      ensures launched == if old(lifecycleCancel).Some? then None else Some(lifecycleID)
    {
      if lifecycleCancel.Some? {
        return None;
      }
      lifecycleID := lifecycleID + 1;
      lifecycleCancel := Some(lifecycleID);
      return Some(lifecycleID);
    }

    /** The locked part of Stop; its caller then cancels the returned loop outside the lock. */
    method Stop() returns (cancel: Option<nat>)
      modifies `lifecycleID, `lifecycleCancel
      ensures Life() == Stopped(old(Life())) && cancel == old(lifecycleCancel)
    {
      cancel := lifecycleCancel;
      lifecycleCancel := None;
      lifecycleID := lifecycleID + 1;
    }

    method ClearLifecycle(id: nat)
      modifies `lifecycleCancel
      ensures Life() == Cleared(old(Life()), id)
    {
      if lifecycleID == id {
        lifecycleCancel := None;
      }
    }

    method RecordRefreshError(e: AuthorityError)
      modifies `lastRefreshErr
      ensures Tokens() == Written(old(Tokens()), Record(e))
    {
      lastRefreshErr := Some(e);
    }

    /** One refresh, given what the fetch function returns and when its result is checked. */
    method RefreshOnce(fetch: Fetch, now: Instant) returns (refreshed: bool)
      modifies `token, `expiresAt, `lastRefreshErr
      ensures Tokens() == Written(old(Tokens()), WriteOf(fetch, now))
      ensures refreshed == WriteOf(fetch, now).Install?
    {
      match fetch {
        case Failed(e) =>
          RecordRefreshError(e);
          return false;
        case Fetched(t) =>
          var invalid := ValidateToken(t, now);
          if invalid.Some? {
            RecordRefreshError(invalid.value);
            return false;
          }
          token := Trim(t.value.token);
          expiresAt := t.value.expiresAt;
          lastRefreshErr := None;
          return true;
      }
    }

    method ServiceAuthority(now: Instant) returns (r: Result<string, Unavailable>)
      ensures r == CurrentToken(Tokens(), now)
    {
      var t := Trim(token);
      if t == "" || expiresAt == 0 || expiresAt <= now {
        return Err(Unavailable(lastRefreshErr));
      }
      return Ok(t);
    }

    method ServiceAuthorityStatus(now: Instant) returns (s: Status)
      ensures s.started <==> lifecycleCancel.Some?
      ensures s.loaded <==> CurrentToken(Tokens(), now).Ok?
      ensures s.expiresAt == if expiresAt == 0 then None else Some(expiresAt)
      ensures expiresAt == 0 ==> s.expiresIn == 0
      ensures expiresAt != 0 ==>
        var rest := expiresAt - now;
        var left := if rest >= 0x8000_0000_0000_0000 then 0x7fff_ffff_ffff_ffff
                    else if rest < -0x8000_0000_0000_0000 then -0x8000_0000_0000_0000 else rest;
        if left >= 0 then s.expiresIn * SECOND <= left < (s.expiresIn + 1) * SECOND
        else (s.expiresIn - 1) * SECOND < left <= s.expiresIn * SECOND
      ensures s.refreshBefore == config.refreshBefore && s.lastError == lastRefreshErr
    {
      var t := Trim(token);
      s := Status(
        lifecycleCancel.Some?,
        t != "" && expiresAt != 0 && expiresAt > now,
        if expiresAt == 0 then None else Some(expiresAt),
        if expiresAt == 0 then 0 else WholeSeconds(Between(now, expiresAt)),
        config.refreshBefore,
        lastRefreshErr);
    }
  }
}
