/** The context that a service builds for one request: read from metadata, and, when
    verification is on, overwritten by the claims of the request's signature. */
module ServiceContext {
  import opened Wrappers
  import opened Metadata
  import S = AuthzSign

  // ----- The context as a value -----

  datatype DecisionContext = DecisionContext(
    subjectType: string,
    invokeAppId: string,
    targetAppId: string,
    routeMethod: string,
    routePath: string,
    targetMethod: string,
    targetPath: string,
    decisionId: string)
  {
    predicate Present()
      ensures Present() <==> this != NO_DECISION
    {
      subjectType != "" || invokeAppId != "" || targetAppId != "" || routeMethod != "" || routePath != "" ||
      targetMethod != "" || targetPath != "" || decisionId != ""
    }
  }

  datatype ContextView = ContextView(
    serviceAppId: string,
    serviceInstanceId: string,
    appLanguage: string,
    user: S.UserClaims,
    decision: DecisionContext,
    authzSignJWS: string,
    verified: Option<S.Claims>,
    traceId: string,
    userContext: Option<S.UserClaims>,
    invokeServiceAppId: string,
    targetServiceAppId: string,
    decisionContext: Option<DecisionContext>)

  datatype BuildOptions = BuildOptions(serviceAppId: string, serviceInstanceId: string, verification: Option<S.Options>)

  const NO_USER := S.UserClaims("", "", "", "", [], [], [])
  const NO_DECISION := DecisionContext("", "", "", "", "", "", "", "")

  /** The grouped view of a decision: there is none when every field is empty. */
  function Grouped(d: DecisionContext): Option<DecisionContext> {
    if d.Present() then Some(d) else None
  }

  function UserOf(md: MD): S.UserClaims {
    S.UserClaims(First(md, USER_ID), First(md, APP_ID), First(md, TENANT_ID), First(md, SESSION),
                 Values(md, ORG_IDS), Values(md, POST_IDS), Values(md, ROLE_IDS))
  }

  function DecisionOf(md: MD): DecisionContext {
    DecisionContext(First(md, SUBJECT_TYPE), First(md, INVOKE_APP_ID), First(md, TARGET_APP_ID), First(md, ROUTE_METHOD),
                    First(md, ROUTE_PATH), First(md, TARGET_METHOD), First(md, TARGET_PATH), First(md, DECISION_ID))
  }

  /** What the context says before anything is verified. */
  function MetadataView(md: Option<MD>, o: BuildOptions, span: string): ContextView {
    var m := if md.Some? then md.value else map[];
    var user, decision := UserOf(m), DecisionOf(m);
    ContextView(
      o.serviceAppId, o.serviceInstanceId, First(m, APP_LANGUAGE), user, decision, First(m, AUTHZ_SIGN), None, span,
      if user == NO_USER then None else Some(user),
      if decision.subjectType == S.SUBJECT_SERVICE then decision.invokeAppId else "",
      decision.targetAppId,
      Grouped(decision))
  }

  function SignedDecision(c: S.CoreClaims): DecisionContext {
    DecisionContext(c.subjectType, c.invokeAppId, c.targetAppId, c.routeMethod, c.routePath, c.targetMethod, c.targetPath, c.decisionId)
  }

  function SignedUser(c: S.Claims): S.UserClaims {
    if c.user.Some? then c.user.value else NO_USER
  }

  /** What remains of a context once verified claims are laid over it. */
  function Overlay(v: ContextView, c: S.Claims): ContextView {
    v.(user := SignedUser(c),
       decision := SignedDecision(c.core),
       verified := Some(c),
       userContext := c.user,
       invokeServiceAppId := c.core.invokeServiceAppId,
       targetServiceAppId := c.core.targetServiceAppId,
       decisionContext := Grouped(SignedDecision(c.core)))
  }

  /** What BuildVerifiedContext returns, as a value. */
  function Outcome(codec: S.Codec, md: Option<MD>, o: BuildOptions, span: string, now: int): Result<ContextView, S.SignError> {
    var v := MetadataView(md, o, span);
    if o.verification.None? then Ok(v)
    else Bound(v, S.Verify(codec, v.authzSignJWS, o.verification.value, now))
  }

  /** The verdict on the signature, bound to this service. */
  function Bound(v: ContextView, verdict: Result<S.Claims, S.SignError>): Result<ContextView, S.SignError> {
    match verdict
    case Err(e) => Err(e)
    case Ok(c) =>
      if v.serviceAppId == "" || c.core.targetAppId != v.serviceAppId then Err(S.InvalidClaims)
      else Ok(Overlay(v, c))
  }

  // ----- Lists in storage -----

  /** A stored list. Two references share storage when they are the same object; nothing here
      writes into a list once it is made. */
  class List {
    const items: seq<string>

    constructor (items: seq<string>)
      ensures this.items == items
    {
      this.items := items;
    }
  }

  function Items(a: List?): seq<string> {
    if a == null then [] else a.items
  }

  method NewList(s: seq<string>) returns (a: List?)
    ensures Items(a) == s && (a != null ==> fresh(a))
  {
    if |s| == 0 {
      return null;
    }
    a := new List(s);
  }

  method CloneStrings(values: List?) returns (a: List?)
    ensures Items(a) == Items(values) && (a != null ==> fresh(a))
  {
    a := NewList(Items(values));
  }

  /** A user's identity with its lists in storage. */
  datatype UserContext = UserContext(
    userId: string, appId: string, tenantId: string, session: string, orgIds: List?, postIds: List?, roleIds: List?)
  {
    function Value(): S.UserClaims
    {
      S.UserClaims(userId, appId, tenantId, session, Items(orgIds), Items(postIds), Items(roleIds))
    }

    predicate Present()
      ensures Present() <==> Value() != NO_USER
    {
      userId != "" || appId != "" || tenantId != "" || session != "" ||
      |Items(orgIds)| > 0 || |Items(postIds)| > 0 || |Items(roleIds)| > 0
    }

    function Lists(): set<List?> {
      {orgIds, postIds, roleIds} - {null}
    }
  }

  method NewUserContext(u: S.UserClaims) returns (r: UserContext)
    ensures r.Value() == u && fresh(r.Lists())
  {
    var orgIds := NewList(u.orgIds);
    var postIds := NewList(u.postIds);
    var roleIds := NewList(u.roleIds);
    r := UserContext(u.userId, u.appId, u.tenantId, u.session, orgIds, postIds, roleIds);
  }

  const EMPTY_USER := UserContext("", "", "", "", null, null, null)

  method CloneUserContext(u: UserContext) returns (r: UserContext)
    ensures r.Value() == u.Value() && fresh(r.Lists())
  {
    var orgIds := CloneStrings(u.orgIds);
    var postIds := CloneStrings(u.postIds);
    var roleIds := CloneStrings(u.roleIds);
    r := u.(orgIds := orgIds, postIds := postIds, roleIds := roleIds);
  }

  // ----- The decoded payload -----

  /** `flat` holds the flat user fields, which are not part of the payload. */
  class AuthzSign {
    const keyId: string
    const core: S.CoreClaims
    const userContext: Option<UserContext>
    var flat: UserContext

    /** The object that JSON decoding fills. */
    constructor (keyId: string, core: S.CoreClaims, userContext: Option<UserContext>)
      ensures this.keyId == keyId && this.core == core && this.userContext == userContext && flat == EMPTY_USER
    {
      this.keyId, this.core, this.userContext := keyId, core, userContext;
      flat := EMPTY_USER;
    }

    function Claims(): S.Claims
    {
      S.Claims(keyId, core, if userContext.Some? then Some(userContext.value.Value()) else None)
    }

    function Lists(): set<List?>
      reads this
    {
      flat.Lists() + if userContext.Some? then userContext.value.Lists() else {}
    }

    /** Fills the flat fields from the signed user context, in new lists, if there is one. */
    method Normalize()
      modifies this
      ensures if userContext.Some? then flat.Value() == userContext.value.Value() && fresh(flat.Lists()) else flat == old(flat)
    {
      if userContext.Some? {
        var copy := CloneUserContext(userContext.value);
        flat := copy;
      }
    }
  }

  /** VerifyAuthzSign: the decoded object is returned only if its claims are accepted. */
  method VerifyAuthzSign(codec: S.Codec, raw: string, o: S.Options, now: int) returns (r: Result<AuthzSign, S.SignError>)
    ensures match S.Verify(codec, raw, o, now)
      case Err(e) => r == Err(e)
      case Ok(c) =>
        && r.Ok? && fresh(r.value) && fresh(r.value.Lists())
        && r.value.Claims() == c && r.value.flat.Value() == SignedUser(c)
  {
    match S.Decode(codec, raw, o) {
      case Err(e) => return Err(e);
      case Ok(c) =>
        var user: Option<UserContext> := None;
        if c.user.Some? {
          var u := NewUserContext(c.user.value);
          user := Some(u);
        }
        var claims := new AuthzSign(c.keyId, c.core, user);
        claims.Normalize();
        match S.ValidateClaims(c, o, now) {
          case Some(e) => return Err(e);
          case None => return Ok(claims);
        }
    }
  }

  // ----- The context object -----

  /** `user` and `decision` hold the flat fields, `userContext` and `decisionContext` the grouped views. */
  class Context {
    const serviceAppId: string
    const serviceInstanceId: string
    var appLanguage: string
    var user: UserContext
    var decision: DecisionContext
    var authzSignJWS: string
    var verifiedAuthzSign: AuthzSign?
    var traceId: string
    var userContext: Option<UserContext>
    var invokeServiceAppId: string
    var targetServiceAppId: string
    var decisionContext: Option<DecisionContext>

    constructor (serviceAppId: string, serviceInstanceId: string)
      ensures this.serviceAppId == serviceAppId && this.serviceInstanceId == serviceInstanceId
      ensures appLanguage == "" && authzSignJWS == "" && verifiedAuthzSign == null && traceId == ""
      ensures user == EMPTY_USER && decision == NO_DECISION
    {
      this.serviceAppId, this.serviceInstanceId := serviceAppId, serviceInstanceId;
      appLanguage, user, decision := "", EMPTY_USER, NO_DECISION;
      authzSignJWS, verifiedAuthzSign, traceId := "", null, "";
      userContext, invokeServiceAppId, targetServiceAppId, decisionContext := None, "", "", None;
    }

    function Lists(): set<List?>
      reads this
    {
      user.Lists() + if userContext.Some? then userContext.value.Lists() else {}
    }

    function View(): ContextView
      reads this
    {
      ContextView(
        serviceAppId, serviceInstanceId, appLanguage, user.Value(), decision, authzSignJWS,
        if verifiedAuthzSign == null then None else Some(verifiedAuthzSign.Claims()),
        traceId,
        if userContext.Some? then Some(userContext.value.Value()) else None,
        invokeServiceAppId, targetServiceAppId, decisionContext)
    }

    method RebuildDecisionContext()
      modifies `decisionContext
      ensures decisionContext == Grouped(decision)
    {
      if decision.Present() {
        decisionContext := Some(decision);
      } else {
        decisionContext := None;
      }
    }

    method RebuildDerivedContexts()
      modifies `userContext, `invokeServiceAppId, `targetServiceAppId, `decisionContext
      ensures userContext.Some? ==> userContext.value.Value() == user.Value() && fresh(userContext.value.Lists())
      ensures userContext.None? <==> user.Value() == NO_USER
      ensures invokeServiceAppId == if decision.subjectType == S.SUBJECT_SERVICE then decision.invokeAppId else ""
      ensures targetServiceAppId == decision.targetAppId
      ensures decisionContext == Grouped(decision)
    {
      if user.Present() {
        var copy := CloneUserContext(user);
        userContext := Some(copy);
      } else {
        userContext := None;
      }
      if decision.subjectType == S.SUBJECT_SERVICE && decision.invokeAppId != "" {
        invokeServiceAppId := decision.invokeAppId;
      } else {
        invokeServiceAppId := "";
      }
      if decision.targetAppId != "" {
        targetServiceAppId := decision.targetAppId;
      } else {
        targetServiceAppId := "";
      }
      RebuildDecisionContext();
    }

    /** The user's identity as it is signed, in new lists. */
    method ApplySignedUser(sign: AuthzSign)
      requires sign.flat.Value() == SignedUser(sign.Claims())
      modifies `user, `userContext
      ensures user.Value() == SignedUser(sign.Claims())
      ensures (if userContext.Some? then Some(userContext.value.Value()) else None) == sign.Claims().user
      ensures fresh(Lists()) && Lists() !! sign.Lists()
    {
      if sign.userContext.Some? {
        var grouped := CloneUserContext(sign.userContext.value);
        userContext := Some(grouped);
      } else {
        userContext := None;
      }
      var flat := CloneUserContext(sign.flat);
      user := flat;
    }

    /** Overwrites everything that the metadata said with what is signed. Every list of the
        context is a new copy. */
    method ApplyVerifiedAuthzSign(sign: AuthzSign)
      requires sign.flat.Value() == SignedUser(sign.Claims())
      modifies this
      ensures View() == Overlay(old(View()), sign.Claims())
      ensures fresh(Lists()) && Lists() !! sign.Lists() && verifiedAuthzSign == sign
    {
      ApplySignedUser(sign);
      verifiedAuthzSign := sign;
      decision := SignedDecision(sign.core);
      invokeServiceAppId := sign.core.invokeServiceAppId;
      targetServiceAppId := sign.core.targetServiceAppId;
      RebuildDecisionContext();
    }

    /** The fields that are read from the metadata of the request. */
    method ReadMetadata(m: MD)
      modifies `appLanguage, `user, `decision, `authzSignJWS
      ensures appLanguage == First(m, APP_LANGUAGE) && authzSignJWS == First(m, AUTHZ_SIGN)
      ensures user.Value() == UserOf(m) && fresh(user.Lists())
      ensures decision == DecisionOf(m)
    {
      appLanguage := First(m, APP_LANGUAGE);
      decision := DecisionContext(
        First(m, SUBJECT_TYPE), First(m, INVOKE_APP_ID), First(m, TARGET_APP_ID), First(m, ROUTE_METHOD), First(m, ROUTE_PATH),
        First(m, TARGET_METHOD), First(m, TARGET_PATH), First(m, DECISION_ID));
      authzSignJWS := First(m, AUTHZ_SIGN);
      var orgIds := NewList(Values(m, ORG_IDS));
      var postIds := NewList(Values(m, POST_IDS));
      var roleIds := NewList(Values(m, ROLE_IDS));
      user := UserContext(
        First(m, USER_ID), First(m, APP_ID), First(m, TENANT_ID), First(m, SESSION), orgIds, postIds, roleIds);
    }
  }

  lemma EmptyMetadataSaysNothing()
    ensures UserOf(map[]) == NO_USER && DecisionOf(map[]) == NO_DECISION
    ensures First(map[], APP_LANGUAGE) == First(map[], AUTHZ_SIGN) == ""
  {
  }

  /** The new context, before anything is derived. */
  method ContextOf(md: Option<MD>, o: BuildOptions) returns (c: Context)
    ensures fresh(c) && fresh(c.user.Lists())
    ensures c.serviceAppId == o.serviceAppId && c.serviceInstanceId == o.serviceInstanceId && c.verifiedAuthzSign == null
    ensures
      var m := if md.Some? then md.value else map[];
      && c.appLanguage == First(m, APP_LANGUAGE) && c.authzSignJWS == First(m, AUTHZ_SIGN)
      && c.user.Value() == UserOf(m) && c.decision == DecisionOf(m)
  {
    EmptyMetadataSaysNothing();
    c := new Context(o.serviceAppId, o.serviceInstanceId);
    if md.Some? {
      c.ReadMetadata(md.value);
    }
  }

  method BuildContext(md: Option<MD>, o: BuildOptions, span: string) returns (c: Context)
    ensures fresh(c) && fresh(c.Lists())
    ensures c.View() == MetadataView(md, o, span)
  {
    c := ContextOf(md, o);
    c.RebuildDerivedContexts();
    c.traceId := span;
  }

  /** Lays accepted claims over the context if they are meant for this service. */
  method BindContext(value: Context, sign: AuthzSign) returns (r: Result<Context, S.SignError>)
    requires sign.flat.Value() == SignedUser(sign.Claims())
    modifies value
    ensures match Bound(old(value.View()), Ok(sign.Claims()))
      case Err(e) => r == Err(e)
      case Ok(v) => r == Ok(value) && value.View() == v && value.Lists() !! sign.Lists() && value.verifiedAuthzSign == sign
  {
    if value.serviceAppId == "" {
      return Err(S.InvalidClaims);
    }
    if sign.core.targetAppId != value.serviceAppId {
      return Err(S.InvalidClaims);
    }
    value.ApplyVerifiedAuthzSign(sign);
    return Ok(value);
  }

  /** The context is the value that `Outcome` describes, and none of its lists is a list of the claims. */
  method BuildVerifiedContext(codec: S.Codec, md: Option<MD>, o: BuildOptions, span: string, now: int)
    returns (r: Result<Context, S.SignError>)
    ensures match Outcome(codec, md, o, span, now)
      case Err(e) => r == Err(e)
      case Ok(v) =>
        && r.Ok? && fresh(r.value) && r.value.View() == v
        && (r.value.verifiedAuthzSign != null ==> r.value.Lists() !! r.value.verifiedAuthzSign.Lists())
  {
    var value := BuildContext(md, o, span);
    if o.verification.None? {
      return Ok(value);
    }
    var sign := VerifyAuthzSign(codec, value.authzSignJWS, o.verification.value, now);
    if sign.Err? {
      return Err(sign.error);
    }
    r := BindContext(value, sign.value);
  }

  // ----- What verified contexts satisfy -----

  lemma VerifiedOutcome(codec: S.Codec, md: Option<MD>, o: BuildOptions, span: string, now: int)
    requires o.verification.Some? && Outcome(codec, md, o, span, now).Ok?
    ensures
      var verdict := S.Verify(codec, MetadataView(md, o, span).authzSignJWS, o.verification.value, now);
      verdict.Ok? && verdict.value.core.targetAppId == o.serviceAppId != ""
  {
  }

  /** Every field of a verified context, one by one: each equals its claim, is empty without one, or comes
      from the service and its span. The grouped views say the same. */
  lemma VerifiedFields(codec: S.Codec, md: Option<MD>, o: BuildOptions, span: string, now: int) returns (c: S.Claims)
    requires o.verification.Some? && Outcome(codec, md, o, span, now).Ok?
    ensures
      var jws := First(if md.Some? then md.value else map[], "x-firefly-authz-sign");
      S.Verify(codec, jws, o.verification.value, now) == Ok(c) && Outcome(codec, md, o, span, now).value.authzSignJWS == jws
    ensures var v, d := Outcome(codec, md, o, span, now).value, Outcome(codec, md, o, span, now).value.decision;
      && d.subjectType == c.core.subjectType && d.invokeAppId == c.core.invokeAppId && d.targetAppId == c.core.targetAppId
      && d.routeMethod == c.core.routeMethod && d.routePath == c.core.routePath
      && d.targetMethod == c.core.targetMethod && d.targetPath == c.core.targetPath && d.decisionId == c.core.decisionId
      && v.decisionContext == Some(d)
      && v.invokeServiceAppId == c.core.invokeServiceAppId && v.targetServiceAppId == c.core.targetServiceAppId
      && v.verified == Some(c) && v.traceId == span
      && v.serviceAppId == o.serviceAppId == c.core.targetAppId && v.serviceInstanceId == o.serviceInstanceId
    ensures var v, u := Outcome(codec, md, o, span, now).value, Outcome(codec, md, o, span, now).value.user;
      && v.userContext == c.user
      && match c.user
         case None => u.userId == u.appId == u.tenantId == u.session == "" && u.orgIds == u.postIds == u.roleIds == []
         case Some(s) =>
           && u.userId == s.userId && u.appId == s.appId && u.tenantId == s.tenantId && u.session == s.session
           && u.orgIds == s.orgIds && u.postIds == s.postIds && u.roleIds == s.roleIds
  {
    var v := MetadataView(md, o, span);
    c := S.Verify(codec, v.authzSignJWS, o.verification.value, now).value;
    S.AcceptedExactly(codec, v.authzSignJWS, o.verification.value, now, c);
  }

  /** With verification on, a request fails with the error of its signature, or because the signature is not
      for this service, and succeeds otherwise. */
  lemma RefusedBecause(codec: S.Codec, md: Option<MD>, o: BuildOptions, span: string, now: int)
    requires o.verification.Some?
    ensures
      var jws := First(if md.Some? then md.value else map[], "x-firefly-authz-sign");
      match S.Verify(codec, jws, o.verification.value, now)
      case Err(e) => Outcome(codec, md, o, span, now) == Err(e)
      case Ok(c) =>
        if o.serviceAppId == "" || c.core.targetAppId != o.serviceAppId then Outcome(codec, md, o, span, now) == Err(S.InvalidClaims)
        else Outcome(codec, md, o, span, now).Ok?
  {
  }

  /** Every field of a context that is not verified: each comes from its own header. */
  lemma UnverifiedFields(codec: S.Codec, md: Option<MD>, o: BuildOptions, span: string, now: int)
    requires o.verification.None?
    ensures Outcome(codec, md, o, span, now).Ok?
    ensures var v, m := Outcome(codec, md, o, span, now).value, if md.Some? then md.value else map[];
      && v.serviceAppId == o.serviceAppId && v.serviceInstanceId == o.serviceInstanceId
      && v.verified.None? && v.traceId == span
      && v.appLanguage == First(m, "x-firefly-app-language") && v.authzSignJWS == First(m, "x-firefly-authz-sign")
      && v.user.userId == First(m, "x-firefly-user-id") && v.user.appId == First(m, "x-firefly-app-id")
      && v.user.tenantId == First(m, "x-firefly-tenant-id") && v.user.session == First(m, "x-firefly-session")
      && v.user.orgIds == Values(m, "x-firefly-org-ids") && v.user.postIds == Values(m, "x-firefly-post-ids")
      && v.user.roleIds == Values(m, "x-firefly-role-ids")
    ensures var v, m := Outcome(codec, md, o, span, now).value, if md.Some? then md.value else map[];
      && v.decision.subjectType == First(m, "x-firefly-subject-type")
      && v.decision.invokeAppId == First(m, "x-firefly-invoke-app-id")
      && v.decision.targetAppId == First(m, "x-firefly-target-app-id")
      && v.decision.routeMethod == First(m, "x-firefly-route-method")
      && v.decision.routePath == First(m, "x-firefly-route-path")
      && v.decision.targetMethod == First(m, "x-firefly-target-method")
      && v.decision.targetPath == First(m, "x-firefly-target-path")
      && v.decision.decisionId == First(m, "x-firefly-decision-id")
    ensures var v := Outcome(codec, md, o, span, now).value;
      && v.invokeServiceAppId == (if v.decision.subjectType == "service" then v.decision.invokeAppId else "")
      && v.targetServiceAppId == v.decision.targetAppId
  {
  }

  /** The grouped views of a context that is not verified are there exactly when one of their fields is. */
  lemma UnverifiedGroups(codec: S.Codec, md: Option<MD>, o: BuildOptions, span: string, now: int)
    requires o.verification.None?
    ensures var v, u := Outcome(codec, md, o, span, now).value, Outcome(codec, md, o, span, now).value.user;
      if u.userId != "" || u.appId != "" || u.tenantId != "" || u.session != "" || |u.orgIds| + |u.postIds| + |u.roleIds| > 0
      then v.userContext == Some(u) else v.userContext.None?
    ensures var v, d := Outcome(codec, md, o, span, now).value, Outcome(codec, md, o, span, now).value.decision;
      if d.subjectType != "" || d.invokeAppId != "" || d.targetAppId != "" || d.routeMethod != "" || d.routePath != ""
        || d.targetMethod != "" || d.targetPath != "" || d.decisionId != ""
      then v.decisionContext == Some(d) else v.decisionContext.None?
  {
  }

  /** The flat fields and the grouped views tell the same story. */
  predicate Agrees(v: ContextView) {
    && (v.userContext.Some? ==> v.userContext.value == v.user)
    && (v.userContext.None? ==> v.user == NO_USER)
    && (v.decisionContext.Some? ==> v.decisionContext.value == v.decision)
    && (v.decisionContext.None? ==> v.decision == NO_DECISION)
  }

  lemma OverlayAgrees(v: ContextView, c: S.Claims)
    ensures Agrees(Overlay(v, c))
  {
  }

  lemma MetadataViewAgrees(md: Option<MD>, o: BuildOptions, span: string)
    ensures Agrees(MetadataView(md, o, span))
  {
  }

  /** The subject of a verified context is the one the signature names, and the service is its target. */
  predicate SubjectIsSigned(v: ContextView) {
    && v.decisionContext.Some?
    && v.decision.targetAppId == v.targetServiceAppId == v.serviceAppId
    && (v.decision.subjectType == S.SUBJECT_USER ==> v.userContext.Some? && v.user.appId == v.decision.invokeAppId && v.user.userId != "")
    && (v.decision.subjectType == S.SUBJECT_SERVICE ==> v.invokeServiceAppId == v.decision.invokeAppId != "")
  }

  lemma BoundIsSigned(v: ContextView, c: S.Claims, o: S.Options)
    requires S.Structured(c.core, c.user, o) && Bound(v, Ok(c)).Ok?
    ensures SubjectIsSigned(Bound(v, Ok(c)).value)
  {
  }

  lemma GroupsAgreeWithFields(codec: S.Codec, md: Option<MD>, o: BuildOptions, span: string, now: int)
    requires Outcome(codec, md, o, span, now).Ok?
    ensures Agrees(Outcome(codec, md, o, span, now).value)
    ensures o.verification.Some? ==> SubjectIsSigned(Outcome(codec, md, o, span, now).value)
  {
    var v := MetadataView(md, o, span);
    if o.verification.None? {
      MetadataViewAgrees(md, o, span);
    } else {
      var c := S.Verify(codec, v.authzSignJWS, o.verification.value, now).value;
      OverlayAgrees(v, c);
      BoundIsSigned(v, c, o.verification.value);
    }
  }

  /** The fields that come from the service, its span and the request's signature. */
  predicate SameOrigin(v: ContextView, v': ContextView) {
    && v.serviceAppId == v'.serviceAppId
    && v.serviceInstanceId == v'.serviceInstanceId
    && v.authzSignJWS == v'.authzSignJWS
    && v.traceId == v'.traceId
  }

  predicate EqualButForLanguage(r: Result<ContextView, S.SignError>, r': Result<ContextView, S.SignError>) {
    match (r, r')
    case (Ok(v), Ok(v')) => v.(appLanguage := "") == v'.(appLanguage := "")
    case (Err(e), Err(e')) => e == e'
    case _ => false
  }

  lemma BoundKeepsOrigin(v: ContextView, v': ContextView, verdict: Result<S.Claims, S.SignError>)
    requires SameOrigin(v, v')
    ensures EqualButForLanguage(Bound(v, verdict), Bound(v', verdict))
  {
  }

  /** Noninterference: with verification on, two requests that carry the same signature and are
      handled with the same options, span and clock have the same outcome, in every field but the
      language, whatever else their metadata says. */
  lemma Noninterference(codec: S.Codec, md: Option<MD>, md': Option<MD>, o: BuildOptions, span: string, now: int)
    requires o.verification.Some?
    requires MetadataView(md, o, span).authzSignJWS == MetadataView(md', o, span).authzSignJWS
    ensures EqualButForLanguage(Outcome(codec, md, o, span, now), Outcome(codec, md', o, span, now))
  {
    var v, v' := MetadataView(md, o, span), MetadataView(md', o, span);
    BoundKeepsOrigin(v, v', S.Verify(codec, v.authzSignJWS, o.verification.value, now));
  }
}
