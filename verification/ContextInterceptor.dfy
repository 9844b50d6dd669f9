/** The entry of a gRPC service: it writes the service's own identity into the incoming metadata,
    decides which target the request's signature must name, and builds the request's context. */
module ContextInterceptor {
  import opened Wrappers
  import opened Text
  import opened Metadata
  import opened ServiceContext
  import S = AuthzSign

  datatype Config = Config(
    serviceAppId: string,
    serviceInstanceId: string,
    verification: Option<S.Options>,
    skipMethods: seq<string>)

  /** `fullMethod` is what gRPC says about the call, if it says anything. */
  datatype Request = Request(metadata: Option<MD>, fullMethod: Option<string>, span: string, now: int)

  /** The identity of the service itself, put over whatever the caller sent under those names. */
  function WithLocalIdentity(md: Option<MD>, appId: string, instanceId: string): Option<MD> {
    if appId == "" && instanceId == "" then md
    else
      var m := if md.Some? then md.value else map[];
      var m1 := if appId != "" then m[SERVICE_APP_ID := [appId]] else m;
      Some(if instanceId != "" then m1[SERVICE_INSTANCE_ID := [instanceId]] else m1)
  }

  predicate Skips(cfg: Config, fullMethod: Option<string>) {
    fullMethod.Some? && fullMethod.value != "" && fullMethod.value in cfg.skipMethods
  }

  predicate Verifies(cfg: Config, r: Request) {
    cfg.verification.Some? && !Skips(cfg, r.fullMethod)
  }

  /** The options of one request: its own method is the expected target unless another is configured. */
  function Resolved(o: S.Options, fullMethod: Option<string>): S.Options {
    o.(expectedTargetMethod := if o.expectedTargetMethod == "" then S.METHOD_GRPC else o.expectedTargetMethod,
       expectedTargetPath := if o.expectedTargetPath == "" && fullMethod.Some? then fullMethod.value else o.expectedTargetPath)
  }

  function BuildOptionsOf(cfg: Config, r: Request): BuildOptions {
    BuildOptions(cfg.serviceAppId, cfg.serviceInstanceId,
                 if Verifies(cfg, r) then Some(Resolved(cfg.verification.value, r.fullMethod)) else None)
  }

  /** The context handed to the handler, or the error with which the request is refused. */
  function Handled(codec: S.Codec, cfg: Config, r: Request): Result<ContextView, S.SignError> {
    Outcome(codec, WithLocalIdentity(r.metadata, cfg.serviceAppId, cfg.serviceInstanceId), BuildOptionsOf(cfg, r), r.span, r.now)
  }

  /** The signature that a request carries. */
  function SignatureOf(r: Request): string {
    if r.metadata.Some? then First(r.metadata.value, AUTHZ_SIGN) else ""
  }

  // ----- The interceptor -----

  /** The verification options, an object that all requests of all interceptors share. */
  class SharedOptions {
    var value: S.Options

    constructor (o: S.Options)
      ensures value == o
    {
      value := o;
    }
  }

  method SkipSet(methods: seq<string>) returns (result: set<string>)
    ensures result == set m | m in methods && m != ""
  {
    result := {};
    for i := 0 to |methods|
      invariant result == set m | m in methods[..i] && m != ""
    {
      if methods[i] != "" {
        result := result + {methods[i]};
      }
    }
    assert methods[..|methods|] == methods;
  }

  class ServiceContextInterceptor {
    const serviceAppId: string
    const serviceInstanceId: string
    const verification: SharedOptions?
    const skip: set<string>
    ghost const skipMethods: seq<string>

    constructor (serviceAppId: string, serviceInstanceId: string, verification: SharedOptions?, skipMethods: seq<string>)
      ensures Valid() && this.verification == verification
      ensures Configuration() == Config(
        serviceAppId, serviceInstanceId, if verification == null then None else Some(verification.value), skipMethods)
    {
      var s := SkipSet(skipMethods);
      this.serviceAppId, this.serviceInstanceId, this.verification := serviceAppId, serviceInstanceId, verification;
      this.skip := s;
      this.skipMethods := skipMethods;
    }

    ghost predicate Valid() {
      skip == set m | m in skipMethods && m != ""
    }

    ghost function Configuration(): Config
      reads verification
    {
      Config(serviceAppId, serviceInstanceId, if verification == null then None else Some(verification.value), skipMethods)
    }

    /** The options of one request: a copy of the shared ones, which stay as they are. */
    method ResolveOptions(r: Request) returns (options: BuildOptions)
      requires Valid()
      ensures options == BuildOptionsOf(Configuration(), r)
    {
      options := BuildOptions(serviceAppId, serviceInstanceId, None);
      if verification == null || (r.fullMethod.Some? && r.fullMethod.value in skip) {
        return;
      }
      var resolved := verification.value;
      if resolved.expectedTargetMethod == "" {
        resolved := resolved.(expectedTargetMethod := S.METHOD_GRPC);
      }
      if resolved.expectedTargetPath == "" && r.fullMethod.Some? {
        resolved := resolved.(expectedTargetPath := r.fullMethod.value);
      }
      options := options.(verification := Some(resolved));
    }

    /** One request. Nothing that existed before it is written. */
    method Handle(codec: S.Codec, r: Request) returns (c: Result<Context, S.SignError>)
      requires Valid()
      ensures match Handled(codec, Configuration(), r)
        case Err(e) => c == Err(e)
        case Ok(v) => c.Ok? && fresh(c.value) && c.value.View() == v
    {
      var md := WithLocalIdentity(r.metadata, serviceAppId, serviceInstanceId);
      var options := ResolveOptions(r);
      c := BuildVerifiedContext(codec, md, options, r.span, r.now);
    }

    /** One request, answered with the value of its context. */
    method Answer(codec: S.Codec, r: Request) returns (outcome: Result<ContextView, S.SignError>)
      requires Valid()
      ensures outcome == Handled(codec, Configuration(), r)
    {
      var c := Handle(codec, r);
      match c {
        case Err(e) => return Err(e);
        case Ok(context) => return Ok(context.View());
      }
    }

    /** Any sequence of requests: each is checked against its own method, whatever came before. */
    method HandleAll(codec: S.Codec, requests: seq<Request>) returns (outcomes: seq<Result<ContextView, S.SignError>>)
      requires Valid()
      ensures |outcomes| == |requests|
      ensures forall i :: 0 <= i < |requests| ==> outcomes[i] == Handled(codec, Configuration(), requests[i])
    {
      outcomes := [];
      for i := 0 to |requests|
        invariant |outcomes| == i
        invariant forall j :: 0 <= j < i ==> outcomes[j] == Handled(codec, Configuration(), requests[j])
      {
        var outcome := Answer(codec, requests[i]);
        outcomes := outcomes + [outcome];
      }
    }
  }

  // ----- Where a signature is accepted -----

  ghost predicate Accepts(codec: S.Codec, cfg: Config, r: Request) {
    Verifies(cfg, r) && Handled(codec, cfg, r).Ok?
  }

  lemma LocalIdentityKeepsSignature(cfg: Config, r: Request)
    ensures MetadataView(
      WithLocalIdentity(r.metadata, cfg.serviceAppId, cfg.serviceInstanceId), BuildOptionsOf(cfg, r), r.span).authzSignJWS == SignatureOf(r)
  {
    assert AUTHZ_SIGN[10] != SERVICE_APP_ID[10] && AUTHZ_SIGN[10] != SERVICE_INSTANCE_ID[10];
  }

  /** A checked request is accepted exactly when its signature is, for this service. */
  lemma AcceptanceIsExact(codec: S.Codec, cfg: Config, r: Request)
    requires Verifies(cfg, r)
    ensures
      var verdict := S.Verify(codec, SignatureOf(r), Resolved(cfg.verification.value, r.fullMethod), r.now);
      Accepts(codec, cfg, r) <==> verdict.Ok? && verdict.value.core.targetAppId == cfg.serviceAppId != ""
  {
    LocalIdentityKeepsSignature(cfg, r);
  }

  /** The local identity is written over what was sent under its two names, each where it is configured,
      and nothing else changes; without one there is no metadata where there was none. */
  lemma LocalIdentityIsWritten(md: Option<MD>, appId: string, instanceId: string, k: string)
    ensures var md' := WithLocalIdentity(md, appId, instanceId);
      var m, m' := if md.Some? then md.value else map[], if md'.Some? then md'.value else map[];
      && (md'.None? <==> md.None? && appId == "" && instanceId == "")
      && (k in m ==> k in m')
      && (if k == "x-firefly-service-app-id" && appId != "" then Values(m', k) == [appId]
          else if k == "x-firefly-service-instance-id" && instanceId != "" then Values(m', k) == [instanceId]
          else Values(m', k) == Values(m, k))
  {
  }

  /** Requests to a skipped method, and all requests without verification, are let in unverified; every
      other request is let in exactly when its signature is accepted, for this service, with GRPC and its own
      method as the expected target where none is configured. */
  lemma CheckedExactly(codec: S.Codec, cfg: Config, r: Request)
    ensures
      var skipped := r.fullMethod.Some? && r.fullMethod.value != "" && r.fullMethod.value in cfg.skipMethods;
      if cfg.verification.None? || skipped then Handled(codec, cfg, r).Ok? && Handled(codec, cfg, r).value.verified.None?
      else
        var o := cfg.verification.value;
        var action := if o.expectedTargetMethod == "" then "GRPC" else o.expectedTargetMethod;
        var path := if o.expectedTargetPath == "" && r.fullMethod.Some? then r.fullMethod.value else o.expectedTargetPath;
        match S.Verify(codec, SignatureOf(r), o.(expectedTargetMethod := action, expectedTargetPath := path), r.now)
        case Err(e) => Handled(codec, cfg, r) == Err(e)
        case Ok(c) =>
          if cfg.serviceAppId == "" || c.core.targetAppId != cfg.serviceAppId then Handled(codec, cfg, r) == Err(S.InvalidClaims)
          else Handled(codec, cfg, r).Ok? && Handled(codec, cfg, r).value.verified == Some(c)
  {
    var md := WithLocalIdentity(r.metadata, cfg.serviceAppId, cfg.serviceInstanceId);
    if Verifies(cfg, r) {
      LocalIdentityKeepsSignature(cfg, r);
      RefusedBecause(codec, md, BuildOptionsOf(cfg, r), r.span, r.now);
    } else {
      UnverifiedFields(codec, md, BuildOptionsOf(cfg, r), r.span, r.now);
    }
  }

  /** A request that is let in gets the identity of the service and the trace of its own span. */
  lemma HandledOrigin(codec: S.Codec, cfg: Config, r: Request)
    requires Handled(codec, cfg, r).Ok?
    ensures var v := Handled(codec, cfg, r).value;
      v.serviceAppId == cfg.serviceAppId && v.serviceInstanceId == cfg.serviceInstanceId && v.traceId == r.span
  {
  }

  /** What acceptance says about the claims: they are meant for this service and, where the request
      names its method and no other target is configured, for that method. */
  lemma AcceptedClaims(codec: S.Codec, cfg: Config, r: Request) returns (c: S.Claims)
    requires Accepts(codec, cfg, r)
    ensures S.Decode(codec, SignatureOf(r), Resolved(cfg.verification.value, r.fullMethod)) == Ok(c)
    ensures S.Verify(codec, SignatureOf(r), Resolved(cfg.verification.value, r.fullMethod), r.now) == Ok(c)
    ensures c.core.targetAppId == cfg.serviceAppId != ""
    ensures cfg.verification.value.expectedTargetPath == "" && r.fullMethod.Some? && r.fullMethod.value != "" ==>
      S.EffectiveTarget(c.core).1 == r.fullMethod.value
  {
    var o := Resolved(cfg.verification.value, r.fullMethod);
    LocalIdentityKeepsSignature(cfg, r);
    VerifiedOutcome(
      codec, WithLocalIdentity(r.metadata, cfg.serviceAppId, cfg.serviceInstanceId), BuildOptionsOf(cfg, r), r.span, r.now);
    c := S.Verify(codec, SignatureOf(r), o, r.now).value;
    S.AcceptedTarget(codec, SignatureOf(r), o, r.now);
  }

  /** A signature binds to one place: with no target configured, two requests that carry the same
      signature and are both accepted, by any two services with any keys at any two times, name
      the same service and the same method. */
  lemma BindsToOnePlace(codec: S.Codec, cfg: Config, cfg': Config, r: Request, r': Request)
    requires Accepts(codec, cfg, r) && Accepts(codec, cfg', r') && SignatureOf(r) == SignatureOf(r')
    requires cfg.verification.value.expectedTargetPath == "" && cfg'.verification.value.expectedTargetPath == ""
    requires r.fullMethod.Some? && r.fullMethod.value != "" && r'.fullMethod.Some? && r'.fullMethod.value != ""
    ensures cfg.serviceAppId == cfg'.serviceAppId && r.fullMethod == r'.fullMethod
  {
    var c := AcceptedClaims(codec, cfg, r);
    var c' := AcceptedClaims(codec, cfg', r');
    ClaimsDoNotDependOnOptions(
      codec, SignatureOf(r), Resolved(cfg.verification.value, r.fullMethod), Resolved(cfg'.verification.value, r'.fullMethod));
  }

  lemma ClaimsDoNotDependOnOptions(codec: S.Codec, raw: string, o: S.Options, o': S.Options)
    requires S.Decode(codec, raw, o).Ok? && S.Decode(codec, raw, o').Ok?
    ensures S.Decode(codec, raw, o) == S.Decode(codec, raw, o')
  {
  }

  lemma AcceptedUnderSameOptions(codec: S.Codec, cfg: Config, r: Request, r': Request)
    requires Accepts(codec, cfg, r) && Verifies(cfg, r') && SignatureOf(r) == SignatureOf(r') && r.now == r'.now
    requires Resolved(cfg.verification.value, r.fullMethod) == Resolved(cfg.verification.value, r'.fullMethod)
    ensures Accepts(codec, cfg, r')
  {
    AcceptanceIsExact(codec, cfg, r);
    AcceptanceIsExact(codec, cfg, r');
  }

  /** Exactly when the binding holds: a request that is accepted for its method would be accepted for
      another method that is not skipped if and only if a target path is configured. */
  lemma BindingIsExact(codec: S.Codec, cfg: Config, r: Request, other: string)
    requires Accepts(codec, cfg, r) && r.fullMethod.Some? && r.fullMethod.value != ""
    requires other != "" && other != r.fullMethod.value && other !in cfg.skipMethods
    ensures Accepts(codec, cfg, r.(fullMethod := Some(other))) <==> cfg.verification.value.expectedTargetPath != ""
  {
    var r' := r.(fullMethod := Some(other));
    if cfg.verification.value.expectedTargetPath != "" {
      AcceptedUnderSameOptions(codec, cfg, r, r');
    } else if Accepts(codec, cfg, r') {
      BindsToOnePlace(codec, cfg, cfg, r, r');
    }
  }

  // ----- A signature that is accepted -----

  /** Claims about an anonymous subject that name a service and one of its methods. */
  function SomeClaims(service: string, fullMethod: string): S.CoreClaims {
    S.CoreClaims("", "s", S.SUBJECT_ANONYMOUS, "", service, "r", "r", S.METHOD_GRPC, fullMethod, S.DECISION_ALLOW, "", "", "",
                 service, 0, 0, 1)
  }

  /** Libraries that read the given claims from any payload, and accept any signature. */
  function Trusting(core: S.CoreClaims): S.Codec {
    S.Codec(_ => Some([]), _ => Some(S.Header(S.EDDSA, "")), _ => Some((core, None)), (_, _, _) => true)
  }

  lemma SomeClaimsAreValid(service: string, fullMethod: string, o: S.Options)
    requires service != "" && fullMethod != ""
    requires o.issuer == "" && o.expectedRouteMethod == "" && o.expectedRoutePath == "" && o.clockSkew == 0
    requires o.expectedTargetMethod == S.METHOD_GRPC && o.expectedTargetPath == fullMethod
    ensures S.ValidateClaims(S.Claims("", SomeClaims(service, fullMethod), None), o, 0) == None
  {
  }

  lemma TrustingDecodes(core: S.CoreClaims, o: S.Options)
    requires |o.publicKey| == S.PUBLIC_KEY_SIZE && o.publicKeys == map[]
    ensures S.Decode(Trusting(core), "h.p.s", o) == Ok(S.Claims("", core, None))
  {
    assert Trimmed("h.p.s") && "h.p.s" == "h" + "." + "p" + "." + "s";
    S.DecodeOfParts(Trusting(core), "h.p.s", o, "h", "p", "s");
  }

  function SomeConfig(service: string, key: S.Bytes, targetPath: string): Config {
    Config(service, "", Some(S.Options(key, map[], "", "", "", "", targetPath, 0)), [])
  }

  function SomeRequest(fullMethod: string): Request {
    Request(Some(map[AUTHZ_SIGN := ["h.p.s"]]), Some(fullMethod), "", 0)
  }

  lemma ClaimsAreAccepted(service: string, target: string, key: S.Bytes, targetPath: string, fullMethod: string)
    requires service != "" && target != "" && |key| == S.PUBLIC_KEY_SIZE
    requires target == if targetPath == "" then fullMethod else targetPath
    ensures Accepts(Trusting(SomeClaims(service, target)), SomeConfig(service, key, targetPath), SomeRequest(fullMethod))
  {
    var core, cfg, r := SomeClaims(service, target), SomeConfig(service, key, targetPath), SomeRequest(fullMethod);
    var o := Resolved(cfg.verification.value, r.fullMethod);
    TrustingDecodes(core, o);
    SomeClaimsAreValid(service, target, o);
    AcceptanceIsExact(Trusting(core), cfg, r);
  }

  /** The results above are not about an empty set of requests: any method of any service accepts some
      signature with no target configured, */
  lemma SomeSignatureIsAccepted(service: string, fullMethod: string, key: S.Bytes)
    returns (codec: S.Codec, cfg: Config, r: Request)
    requires service != "" && fullMethod != "" && |key| == S.PUBLIC_KEY_SIZE
    ensures Accepts(codec, cfg, r) && cfg.serviceAppId == service && r.fullMethod == Some(fullMethod)
    ensures cfg.verification.value.expectedTargetPath == ""
  {
    ClaimsAreAccepted(service, fullMethod, key, "", fullMethod);
    codec, cfg, r := Trusting(SomeClaims(service, fullMethod)), SomeConfig(service, key, ""), SomeRequest(fullMethod);
  }

  /** and with a configured target some signature is accepted for any two methods. */
  lemma SomeSignatureIsAcceptedTwice(service: string, targetPath: string, key: S.Bytes, fullMethod: string, other: string)
    returns (codec: S.Codec, cfg: Config, r: Request)
    requires service != "" && targetPath != "" && |key| == S.PUBLIC_KEY_SIZE
    ensures Accepts(codec, cfg, r) && Accepts(codec, cfg, r.(fullMethod := Some(other)))
    ensures cfg.verification.value.expectedTargetPath == targetPath && r.fullMethod == Some(fullMethod)
  {
    ClaimsAreAccepted(service, targetPath, key, targetPath, fullMethod);
    ClaimsAreAccepted(service, targetPath, key, targetPath, other);
    codec, cfg := Trusting(SomeClaims(service, targetPath)), SomeConfig(service, key, targetPath);
    r := SomeRequest(fullMethod);
  }
}
