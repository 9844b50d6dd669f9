/** The application and tenant that a request may choose for itself, and the interceptor that lets
    it run only with a choice that was authorized. */
module RequestScope {
  import opened Wrappers

  // ----- Policies -----

  /** The modes that a policy may have; any other string is unknown. */
  datatype Mode = NoScope | CreateOwner | QueryRange | UpdateOwner | TransferOwner | Unknown(name: string)

  datatype Policy = Policy(mode: Mode, allowAppId: bool, allowTenantId: bool)

  predicate PolicyValid(p: Policy) {
    p.mode.NoScope? || (!p.mode.Unknown? && (p.allowAppId || p.allowTenantId))
  }

  datatype PolicyError = EmptyFullMethod | InvalidPolicy(fullMethod: string)

  type Registry = map<string, Policy>

  ghost predicate RegistryValid(r: Registry) {
    forall m :: m in r ==> m != "" && PolicyValid(r[m])
  }

  /** NewRequestScopePolicyRegistry: all policies or none, visited in any order. */
  method NewRequestScopePolicyRegistry(policies: Registry) returns (r: Result<Registry, PolicyError>)
    ensures match r
      case Ok(registry) => registry == policies && RegistryValid(policies)
      case Err(EmptyFullMethod) => "" in policies
      case Err(InvalidPolicy(m)) => m in policies && m != "" && !PolicyValid(policies[m])
  {
    var result: Registry := map[];
    var rest := policies.Keys;
    while rest != {}
      invariant rest <= policies.Keys && result == policies - rest && RegistryValid(result)
      decreases rest
    {
      var m :| m in rest;
      if m == "" {
        return Err(EmptyFullMethod);
      } else if !PolicyValid(policies[m]) {
        return Err(InvalidPolicy(m));
      }
      result := result[m := policies[m]];
      rest := rest - {m};
    }
    assert policies - {} == policies;
    return Ok(result);
  }

  function Lookup(registry: Option<Registry>, fullMethod: string): Option<Policy> {
    if registry.None? || fullMethod == "" || fullMethod !in registry.value then None
    else Some(registry.value[fullMethod])
  }

  // ----- What a request chooses -----

  /** A field of a message: a single string, or anything else. */
  datatype Field = Text(value: string) | NotText

  /** The fields that a message's type declares at its top level. */
  type Message = map<string, Field>

  const APP_ID := "app_id"
  const TENANT_ID := "tenant_id"

  datatype Scope = Scope(appId: string, tenantId: string, appIdPresent: bool, tenantIdPresent: bool)

  predicate Explicit(s: Scope) { s.appIdPresent || s.tenantIdPresent }

  datatype ScopeError = PolicyInvalid | MessageMissing | FieldNotText(field: string)

  /** A dimension is chosen when the message has a non-empty string for it. */
  predicate Chosen(m: Message, field: string) {
    field in m && m[field].Text? && m[field].value != ""
  }

  predicate Misused(m: Message, field: string) {
    field in m && m[field].NotText?
  }

  /** The scope that a policy lets a message choose. */
  ghost predicate Chooses(m: Message, p: Policy, s: Scope) {
    && (s.appIdPresent <==> p.allowAppId && Chosen(m, APP_ID))
    && s.appId == (if s.appIdPresent then m[APP_ID].value else "")
    && (s.tenantIdPresent <==> p.allowTenantId && Chosen(m, TENANT_ID))
    && s.tenantId == (if s.tenantIdPresent then m[TENANT_ID].value else "")
  }

  /** What extraction gives: a scope, or the first thing that is wrong. */
  ghost predicate Extracts(message: Option<Message>, p: Policy, r: Result<Scope, ScopeError>) {
    match r
    case Err(PolicyInvalid) => !PolicyValid(p)
    case Err(MessageMissing) => PolicyValid(p) && !p.mode.NoScope? && message.None?
    case Err(FieldNotText(field)) =>
      && PolicyValid(p) && !p.mode.NoScope? && message.Some?
      && if p.allowAppId && Misused(message.value, APP_ID) then field == APP_ID
         else field == TENANT_ID && p.allowTenantId && Misused(message.value, TENANT_ID)
    case Ok(s) =>
      && PolicyValid(p)
      && if p.mode.NoScope? then s == Scope("", "", false, false)
         else
           && message.Some?
           && !(p.allowAppId && Misused(message.value, APP_ID)) && !(p.allowTenantId && Misused(message.value, TENANT_ID))
           && Chooses(message.value, p, s)
  }

  method ReadString(m: Message, field: string) returns (r: Result<Option<string>, ScopeError>)
    ensures match r
      case Err(e) => Misused(m, field) && e == FieldNotText(field)
      case Ok(None) => !Misused(m, field) && !Chosen(m, field)
      case Ok(Some(v)) => Chosen(m, field) && v == m[field].value
  {
    if field !in m {
      return Ok(None);
    }
    match m[field]
    case NotText => return Err(FieldNotText(field));
    case Text(v) => return Ok(if v == "" then None else Some(v));
  }

  method ExtractRequestScope(message: Option<Message>, p: Policy) returns (r: Result<Scope, ScopeError>)
    ensures Extracts(message, p, r)
  {
    if !PolicyValid(p) {
      return Err(PolicyInvalid);
    }
    var result := Scope("", "", false, false);
    if p.mode.NoScope? {
      return Ok(result);
    }
    match message
    case None => return Err(MessageMissing);
    case Some(m) =>
      if p.allowAppId {
        var value := ReadString(m, APP_ID);
        match value
        case Err(e) => return Err(e);
        case Ok(None) =>
        case Ok(Some(v)) => result := result.(appId := v, appIdPresent := true);
      }
      if p.allowTenantId {
        var value := ReadString(m, TENANT_ID);
        match value
        case Err(e) => return Err(e);
        case Ok(None) =>
        case Ok(Some(v)) => result := result.(tenantId := v, tenantIdPresent := true);
      }
      return Ok(result);
  }

  /** Messages agree on the dimensions that the policy allows. */
  ghost predicate AgreeOnAllowed(m: Message, m': Message, p: Policy) {
    && (p.allowAppId ==> (APP_ID in m <==> APP_ID in m') && (APP_ID in m ==> m[APP_ID] == m'[APP_ID]))
    && (p.allowTenantId ==> (TENANT_ID in m <==> TENANT_ID in m') && (TENANT_ID in m ==> m[TENANT_ID] == m'[TENANT_ID]))
  }

  /** Nothing but the allowed dimensions has any influence on what is extracted. */
  lemma OtherFieldsDoNotMatter(
      m: Message, m': Message, p: Policy, r: Result<Scope, ScopeError>, r': Result<Scope, ScopeError>)
    requires Extracts(Some(m), p, r) && Extracts(Some(m'), p, r') && AgreeOnAllowed(m, m', p)
    ensures r == r'
  {
    match (r, r') {
      case (Ok(s), Ok(s')) => assert s == s';
      case (_, _) =>
    }
  }

  // ----- Decisions -----

  datatype Authorized = Authorized(appIds: seq<string>, tenantIds: seq<string>, allApplications: bool, allTenants: bool)

  datatype Decision = Decision(allowed: bool, authorized: Authorized, decisionId: string, reason: string, expiresAt: int)

  datatype DecisionError = DecisionExpired | AppNotAuthorized | TenantNotAuthorized

  ghost predicate Unexpired(d: Decision, now: int) { d.expiresAt != 0 ==> now < d.expiresAt }

  ghost predicate CoversApp(a: Authorized, s: Scope) { s.appIdPresent ==> a.allApplications || s.appId in a.appIds }

  ghost predicate CoversTenant(a: Authorized, s: Scope) { s.tenantIdPresent ==> a.allTenants || s.tenantId in a.tenantIds }

  /** A decision under which a request with this scope may run. */
  ghost predicate Permits(d: Decision, s: Scope, now: int) {
    d.allowed && Unexpired(d, now) && CoversApp(d.authorized, s) && CoversTenant(d.authorized, s)
  }

  method ContainsScopeValue(values: seq<string>, target: string) returns (r: bool)
    ensures r <==> target in values
  {
    for i := 0 to |values|
      invariant target !in values[..i]
    {
      if values[i] == target {
        return true;
      }
    }
    return false;
  }

  /** RequestScopeDecision.Validate: a decision that does not allow passes, since it is refused elsewhere. */
  method ValidateDecision(d: Decision, requested: Scope, now: int) returns (error: Option<DecisionError>)
    ensures error.None? <==> !d.allowed || Permits(d, requested, now)
    ensures error == Some(DecisionExpired) <==> d.allowed && !Unexpired(d, now)
    ensures error == Some(TenantNotAuthorized) ==> CoversApp(d.authorized, requested) && !CoversTenant(d.authorized, requested)
    ensures error == Some(AppNotAuthorized) ==> !CoversApp(d.authorized, requested)
  {
    if !d.allowed {
      return None;
    }
    if d.expiresAt != 0 && d.expiresAt <= now {
      return Some(DecisionExpired);
    }
    if requested.appIdPresent && !d.authorized.allApplications {
      var found := ContainsScopeValue(d.authorized.appIds, requested.appId);
      if !found {
        return Some(AppNotAuthorized);
      }
    }
    if requested.tenantIdPresent && !d.authorized.allTenants {
      var found := ContainsScopeValue(d.authorized.tenantIds, requested.tenantId);
      if !found {
        return Some(TenantNotAuthorized);
      }
    }
    return None;
  }

  // ----- The interceptor -----

  datatype Authorization = Authorization(fullMethod: string, policy: Policy, requested: Scope)

  /** What the handler finds about the scope in its context. */
  datatype ScopeContext = ScopeContext(fullMethod: string, policy: Policy, requested: Scope, decision: Option<Decision>)

  /** An authorizer may answer anything, or fail. It is asked at most once for a request. */
  type Authorizer = Authorization -> Result<Decision, string>

  datatype Options = Options(registry: Option<Registry>, authorizer: Option<Authorizer>)

  /** `message` is the request when it is a protobuf message; a nil message has no fields to read. */
  datatype Request = Request(fullMethod: Option<string>, message: Option<Option<Message>>)

  datatype Reply<R> =
    | Answer(value: R)
    | HandlerMissing
    | NotProtobuf
    | InvalidArgument(scopeError: ScopeError)
    | AuthorizerMissing
    | AuthorizerFailed(error: string)
    | PermissionDenied(reason: string)
    | BadDecision(decisionError: DecisionError)

  const DEFAULT_REASON := "request scope is not allowed"

  /** The policy that binds a request, if its method is registered with one that reads a scope. */
  function Binding(o: Options, r: Request): Option<Policy> {
    if r.fullMethod.None? then None
    else
      var p := Lookup(o.registry, r.fullMethod.value);
      if p.Some? && !p.value.mode.NoScope? then p else None
  }

  /** A context with which a bound request may run. */
  ghost predicate Safe(o: Options, r: Request, now: int, c: ScopeContext) {
    && Binding(o, r) == Some(c.policy) && r.fullMethod == Some(c.fullMethod)
    && r.message.Some? && Extracts(r.message.value, c.policy, Ok(c.requested))
    && (c.decision.None? <==> !Explicit(c.requested))
    && (c.decision.Some? ==>
      && Permits(c.decision.value, c.requested, now)
      && o.authorizer.Some?
      && o.authorizer.value(Authorization(c.fullMethod, c.policy, c.requested)) == Ok(c.decision.value))
  }

  /** The request is bound, well formed, and chooses a scope: this is what the authorizer must be asked. */
  ghost predicate Question(o: Options, r: Request, q: Authorization) {
    && Binding(o, r) == Some(q.policy) && r.fullMethod == Some(q.fullMethod)
    && r.message.Some? && Extracts(r.message.value, q.policy, Ok(q.requested)) && Explicit(q.requested)
  }

  /** What a refusal means, given the questions that were asked. */
  ghost predicate Refusal<R>(o: Options, r: Request, now: int, reply: Reply<R>, asked: seq<Authorization>)
    requires o.authorizer.Some? || asked == []
  {
    match reply
    case Answer(_) => false
    case HandlerMissing => false
    case NotProtobuf => Binding(o, r).Some? && r.message.None?
    case InvalidArgument(e) =>
      Binding(o, r).Some? && r.message.Some? && Extracts(r.message.value, Binding(o, r).value, Err(e))
    case AuthorizerMissing => o.authorizer.None? && exists q :: Question(o, r, q)
    case AuthorizerFailed(e) => |asked| == 1 && o.authorizer.value(asked[0]) == Err(e)
    case PermissionDenied(reason) =>
      && |asked| == 1 && reason != ""
      && o.authorizer.value(asked[0]).Ok? && !o.authorizer.value(asked[0]).value.allowed
      && var own := o.authorizer.value(asked[0]).value.reason;
      reason == if own == "" then "request scope is not allowed" else own
    case BadDecision(_) =>
      |asked| == 1 && exists d :: o.authorizer.value(asked[0]) == Ok(d) && d.allowed && !Permits(d, asked[0].requested, now)
  }

  /** The request scope interceptor. `calls` has the scope with which each call of the handler was
      made, `asked` the questions put to the authorizer. */
  method Intercept<R>(o: Options, r: Request, now: int, handler: Option<Option<ScopeContext> -> R>)
    returns (reply: Reply<R>, calls: seq<Option<ScopeContext>>, asked: seq<Authorization>)
    ensures |calls| <= 1 && |asked| <= 1
    ensures reply.Answer? <==> |calls| == 1
    ensures |calls| == 1 ==> handler.Some? && reply == Answer(handler.value(calls[0]))
    ensures |calls| == 1 ==> if Binding(o, r).None? then calls[0].None? else calls[0].Some? && Safe(o, r, now, calls[0].value)
    ensures calls == [] ==> handler.None? || (Binding(o, r).Some? && forall c :: !Safe(o, r, now, c))
    ensures o.authorizer.Some? && handler.Some? ==> forall q :: q in asked <==> Question(o, r, q)
    ensures o.authorizer.None? || handler.None? ==> asked == []
    ensures calls == [] ==> if handler.None? then reply == HandlerMissing else Refusal(o, r, now, reply, asked)
  {
    calls, asked := [], [];
    if handler.None? {
      return HandlerMissing, calls, asked;
    }
    var binding := Binding(o, r);
    if binding.None? {
      return Answer(handler.value(None)), [None], asked;
    }
    if r.message.None? {
      return NotProtobuf, calls, asked;
    }
    var fullMethod, policy := r.fullMethod.value, binding.value;
    var extracted := ExtractRequestScope(r.message.value, policy);
    match extracted
    case Err(e) => return InvalidArgument(e), calls, asked;
    case Ok(requested) =>
      var scope := ScopeContext(fullMethod, policy, requested, None);
      if Explicit(requested) {
        var question := Authorization(fullMethod, policy, requested);
        assert Question(o, r, question);
        if o.authorizer.None? {
          return AuthorizerMissing, calls, asked;
        }
        var answer := o.authorizer.value(question);
        asked := [question];
        match answer
        case Err(e) => return AuthorizerFailed(e), calls, asked;
        case Ok(decision) =>
          if !decision.allowed {
            return PermissionDenied(if decision.reason == "" then DEFAULT_REASON else decision.reason), calls, asked;
          }
          var fault := ValidateDecision(decision, requested, now);
          if fault.Some? {
            return BadDecision(fault.value), calls, asked;
          }
          scope := scope.(decision := Some(decision));
      }
      return Answer(handler.value(Some(scope))), [Some(scope)], asked;
  }

  // ----- The same in the terms of registry, message and decision -----

  lemma PolicyValidExactly(p: Policy)
    ensures PolicyValid(p) <==>
      match p.mode
      case NoScope => true
      case Unknown(_) => false
      case _ => p.allowAppId || p.allowTenantId
  {
  }

  /** Which policy binds a request. */
  lemma BindingExactly(o: Options, r: Request, m: string)
    requires r.fullMethod == Some(m)
    ensures
      if o.registry.Some? && m != "" && m in o.registry.value && o.registry.value[m].mode != NoScope
      then Binding(o, r) == Some(o.registry.value[m])
      else Binding(o, r).None?
  {
  }

  /** What a scope has of a field that its policy allows or not: a single non-empty string of the message,
      and nothing in every other case but that of another kind of field. */
  predicate Told(m: Message, field: string, allowed: bool, present: bool, value: string) {
    if allowed && field in m then
      match m[field]
      case NotText => false
      case Text(v) => value == v && present == (v != "")
    else !present && value == ""
  }

  /** What is extracted: nothing for a NONE method, and otherwise the two fields that are told. */
  lemma ExtractsExactly(message: Option<Message>, p: Policy, s: Scope)
    requires p.mode != NoScope && !p.mode.Unknown? && (p.allowAppId || p.allowTenantId)
    ensures Extracts(message, p, Ok(s)) <==>
      && message.Some?
      && Told(message.value, "app_id", p.allowAppId, s.appIdPresent, s.appId)
      && Told(message.value, "tenant_id", p.allowTenantId, s.tenantIdPresent, s.tenantId)
  {
  }

  /** Why nothing is extracted: no message, or a field of another kind, the application's first; and a NONE
      method has the empty scope without a look at the message. */
  lemma FaultsExactly(message: Option<Message>, p: Policy, r: Result<Scope, ScopeError>)
    requires Extracts(message, p, r) && PolicyValid(p)
    ensures p.mode == NoScope ==> r == Ok(Scope("", "", false, false))
    ensures p.mode != NoScope && message.None? ==> r == Err(MessageMissing)
    ensures p.mode != NoScope && message.Some? ==>
      var m := message.value;
      if p.allowAppId && "app_id" in m && m["app_id"] == NotText then r == Err(FieldNotText("app_id"))
      else if p.allowTenantId && "tenant_id" in m && m["tenant_id"] == NotText then r == Err(FieldNotText("tenant_id"))
      else r.Ok?
  {
  }

  /** When a bound request may run with a scope: exactly when that is what its message tells, and nothing is
      chosen and nothing decided, or the authorizer's decision allows it, is not expired, and covers each
      dimension that is chosen. */
  lemma SafeExactly(o: Options, r: Request, now: int, c: ScopeContext)
    requires o.registry.Some? && r.fullMethod == Some(c.fullMethod) && c.fullMethod != "" && c.fullMethod in o.registry.value
    requires c.policy == o.registry.value[c.fullMethod]
    requires c.policy.mode != NoScope && !c.policy.mode.Unknown? && (c.policy.allowAppId || c.policy.allowTenantId)
    ensures Safe(o, r, now, c) <==>
      && r.message.Some? && r.message.value.Some?
      && Told(r.message.value.value, "app_id", c.policy.allowAppId, c.requested.appIdPresent, c.requested.appId)
      && Told(r.message.value.value, "tenant_id", c.policy.allowTenantId, c.requested.tenantIdPresent, c.requested.tenantId)
      && match c.decision
         case None => !c.requested.appIdPresent && !c.requested.tenantIdPresent
         case Some(d) =>
           && (c.requested.appIdPresent || c.requested.tenantIdPresent)
           && d.allowed && (d.expiresAt == 0 || now < d.expiresAt)
           && (c.requested.appIdPresent ==> d.authorized.allApplications || c.requested.appId in d.authorized.appIds)
           && (c.requested.tenantIdPresent ==> d.authorized.allTenants || c.requested.tenantId in d.authorized.tenantIds)
           && o.authorizer.Some?
           && o.authorizer.value(Authorization(c.fullMethod, c.policy, c.requested)) == Ok(d)
  {
    ExtractsExactly(if r.message.Some? then r.message.value else None, c.policy, c.requested);
  }

  /** A tenant that the message names, and an application, is decided on: the handler runs only with a
      decision that allows it; and without either it runs with none. */
  lemma ChosenIsDecided(o: Options, r: Request, now: int, c: ScopeContext)
    requires Safe(o, r, now, c)
    ensures var m := r.message.value.value;
      c.policy.allowTenantId && "tenant_id" in m && m["tenant_id"].Text? && m["tenant_id"].value != "" ==>
        && c.decision.Some? && c.decision.value.allowed
        && (c.decision.value.expiresAt == 0 || now < c.decision.value.expiresAt)
        && (c.decision.value.authorized.allTenants || m["tenant_id"].value in c.decision.value.authorized.tenantIds)
    ensures var m := r.message.value.value;
      c.policy.allowAppId && "app_id" in m && m["app_id"].Text? && m["app_id"].value != "" ==>
        && c.decision.Some? && c.decision.value.allowed
        && (c.decision.value.expiresAt == 0 || now < c.decision.value.expiresAt)
        && (c.decision.value.authorized.allApplications || m["app_id"].value in c.decision.value.authorized.appIds)
    ensures var m := r.message.value.value;
      var noTenant := !c.policy.allowTenantId || "tenant_id" !in m || m["tenant_id"] == Text("");
      var noApp := !c.policy.allowAppId || "app_id" !in m || m["app_id"] == Text("");
      noTenant && noApp ==> c.decision.None?
  {
  }

  // ----- Consequences -----

  /** The scope with which a bound request runs keeps to the dimensions that its policy allows. */
  lemma ScopeIsLimited(o: Options, r: Request, now: int, c: ScopeContext)
    requires Safe(o, r, now, c)
    ensures PolicyValid(c.policy) && !c.policy.mode.NoScope?
    ensures !c.policy.allowAppId ==> !c.requested.appIdPresent && c.requested.appId == ""
    ensures !c.policy.allowTenantId ==> !c.requested.tenantIdPresent && c.requested.tenantId == ""
    ensures c.requested.appIdPresent ==> c.requested.appId != "" && c.requested.appId == r.message.value.value[APP_ID].value
  {
  }

  /** Two runs of bound requests that agree on method and allowed dimensions get the same scope, and two
      safe contexts of one request are equal: the authorizer cannot widen what was asked for. */
  lemma SafeIsUnique(o: Options, r: Request, r': Request, now: int, now': int, c: ScopeContext, c': ScopeContext)
    requires Safe(o, r, now, c) && Safe(o, r', now', c') && r.fullMethod == r'.fullMethod
    requires AgreeOnAllowed(r.message.value.value, r'.message.value.value, c.policy)
    ensures c == c'
  {
    OtherFieldsDoNotMatter(
      r.message.value.value, r'.message.value.value, c.policy, Ok(c.requested), Ok(c'.requested));
  }

  /** A request that may run at an instant may run at another exactly when its decision, if it needed
      one, has not expired by then. */
  lemma SafeUntilExpiry(o: Options, r: Request, now: int, later: int, c: ScopeContext)
    requires Safe(o, r, now, c)
    ensures Safe(o, r, later, c) <==> (c.decision.Some? ==> Unexpired(c.decision.value, later))
  {
  }
}
