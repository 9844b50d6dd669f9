/** Verification of the compact JWS (section 7.1 of RFC 7515) that authz puts on a request.
    Base64url and JSON decoding and the Ed25519 check (section 3.1 of RFC 8037) are parameters. The time
    claims are seconds, and instants nanoseconds, since the Unix epoch. */
module AuthzSign {
  import opened Wrappers
  import opened Text

  const EDDSA := "EdDSA"
  const DECISION_ALLOW := "allow"
  const SUBJECT_ANONYMOUS := "anonymous"
  const SUBJECT_USER := "user"
  const SUBJECT_SERVICE := "service"
  const METHOD_GRPC := "GRPC"
  const PUBLIC_KEY_SIZE := 32
  const SECOND := 1_000_000_000

  datatype SignError =
    | Missing
    | Malformed
    | PublicKeyMissing
    | UnsupportedAlg
    | InvalidSignature
    | InvalidClaims
    | Expired
    | NotYetValid

  type Bytes = seq<bv8>

  // ----- Claims -----

  datatype UserClaims = UserClaims(
    userId: string,
    appId: string,
    tenantId: string,
    session: string,
    orgIds: seq<string>,
    postIds: seq<string>,
    roleIds: seq<string>)

  datatype CoreClaims = CoreClaims(
    issuer: string,
    subjectId: string,
    subjectType: string,
    invokeAppId: string,
    targetAppId: string,
    routeMethod: string,
    routePath: string,
    targetMethod: string,
    targetPath: string,
    decision: string,
    decisionId: string,
    traceId: string,
    invokeServiceAppId: string,
    targetServiceAppId: string,
    issuedAt: int,
    notBefore: int,
    expiresAt: int)

  datatype Claims = Claims(keyId: string, core: CoreClaims, user: Option<UserClaims>)

  datatype Header = Header(alg: string, kid: string)

  // ----- Parameters -----

  /** The libraries that take a JWS apart. Parsed claims do not carry the key id. */
  datatype Codec = Codec(
    decodeSegment: string -> Option<Bytes>,
    parseHeader: Bytes -> Option<Header>,
    parseClaims: Bytes -> Option<(CoreClaims, Option<UserClaims>)>,
    checkSignature: (Bytes, string, Bytes) -> bool)

  datatype Options = Options(
    publicKey: Bytes,
    publicKeys: map<string, Bytes>,
    issuer: string,
    expectedRouteMethod: string,
    expectedRoutePath: string,
    expectedTargetMethod: string,
    expectedTargetPath: string,
    clockSkew: int)

  // ----- Verification -----

  /** strings.Split with the separator ".". */
  function SplitDots(s: string): (parts: seq<string>)
    ensures |parts| >= 1
    ensures |parts| == 1 <==> '.' !in s
    ensures |parts| == 1 ==> parts[0] == s
  {
    if s == "" then [""]
    else
      var rest := SplitDots(s[1..]);
      if s[0] == '.' then [""] + rest else [[s[0]] + rest[0]] + rest[1..]
  }

  function ResolvePublicKey(kid: string, o: Options): Option<Bytes> {
    if |o.publicKeys| > 0 then
      if kid in o.publicKeys && |o.publicKeys[kid]| == PUBLIC_KEY_SIZE then Some(o.publicKeys[kid]) else None
    else if |o.publicKey| == PUBLIC_KEY_SIZE then Some(o.publicKey)
    else None
  }

  /** Everything up to the parsed payload: no clock and no expected value is read. */
  function Decode(codec: Codec, raw: string, o: Options): Result<Claims, SignError> {
    var parts := SplitDots(Trim(raw));
    if Trim(raw) == "" then Err(Missing)
    else if |parts| != 3 || parts[0] == "" || parts[1] == "" || parts[2] == "" then Err(Malformed)
    else match ParseHeader(codec, parts[0])
      case None => Err(Malformed)
      case Some(header) =>
        if header.alg != EDDSA then Err(UnsupportedAlg)
        else match ResolvePublicKey(header.kid, o)
          case None => Err(PublicKeyMissing)
          case Some(key) =>
            match codec.decodeSegment(parts[2])
            case None => Err(Malformed)
            case Some(signature) =>
              if !codec.checkSignature(key, parts[0] + "." + parts[1], signature) then Err(InvalidSignature)
              else match ParsePayload(codec, parts[1])
                case None => Err(Malformed)
                case Some((core, user)) => Ok(Claims(header.kid, core, user))
  }

  function ParseHeader(codec: Codec, segment: string): Option<Header> {
    match codec.decodeSegment(segment)
    case None => None
    case Some(data) => codec.parseHeader(data)
  }

  function ParsePayload(codec: Codec, segment: string): Option<(CoreClaims, Option<UserClaims>)> {
    match codec.decodeSegment(segment)
    case None => None
    case Some(data) => codec.parseClaims(data)
  }

  /** The checks that come before the clock is read. */
  predicate Structured(c: CoreClaims, user: Option<UserClaims>, o: Options) {
    && (o.issuer != "" ==> c.issuer == o.issuer)
    && c.subjectId != "" && c.subjectType != "" && c.targetAppId != "" && c.routeMethod != "" && c.routePath != ""
    && (c.subjectType != SUBJECT_ANONYMOUS ==> c.invokeAppId != "")
    && (c.subjectType == SUBJECT_USER ==> user.Some? && user.value.userId != "" && user.value.appId != "")
    && (c.subjectType == SUBJECT_SERVICE ==> c.invokeServiceAppId != "")
    && c.targetServiceAppId != ""
    && c.targetAppId == c.targetServiceAppId
    && (c.subjectType == SUBJECT_SERVICE ==> c.invokeAppId == c.invokeServiceAppId)
    && (c.subjectType == SUBJECT_USER ==> c.invokeAppId == user.value.appId)
    && c.decision == DECISION_ALLOW
    && (c.targetMethod == "" <==> c.targetPath == "")
  }

  predicate IsExpired(c: CoreClaims, skew: int, now: int) {
    c.expiresAt <= 0 || now - skew >= c.expiresAt * SECOND
  }

  predicate IsEarly(c: CoreClaims, skew: int, now: int) {
    c.notBefore > 0 && now + skew < c.notBefore * SECOND
  }

  /** The backend target that the claims authorise; the route itself for a gRPC route without one. */
  function EffectiveTarget(c: CoreClaims): (string, string) {
    if c.targetMethod != "" || c.targetPath != "" then (c.targetMethod, c.targetPath)
    else if EqualFold(c.routeMethod, METHOD_GRPC) then (c.routeMethod, c.routePath)
    else ("", "")
  }

  predicate MatchesExpected(c: CoreClaims, o: Options) {
    var (action, path) := EffectiveTarget(c);
    && (o.expectedRouteMethod != "" ==> EqualFold(c.routeMethod, o.expectedRouteMethod))
    && (o.expectedRoutePath != "" ==> c.routePath == o.expectedRoutePath)
    && (o.expectedTargetMethod != "" ==> action != "" && EqualFold(action, o.expectedTargetMethod))
    && (o.expectedTargetPath != "" ==> path != "" && path == o.expectedTargetPath)
  }

  function ValidateClaims(c: Claims, o: Options, now: int): Option<SignError> {
    if !Structured(c.core, c.user, o) then Some(InvalidClaims)
    else if IsExpired(c.core, o.clockSkew, now) then Some(Expired)
    else if IsEarly(c.core, o.clockSkew, now) then Some(NotYetValid)
    else if !MatchesExpected(c.core, o) then Some(InvalidClaims)
    else None
  }

  function Verify(codec: Codec, raw: string, o: Options, now: int): Result<Claims, SignError> {
    match Decode(codec, raw, o)
    case Err(e) => Err(e)
    case Ok(c) =>
      match ValidateClaims(c, o, now)
      case Some(e) => Err(e)
      case None => Ok(c)
  }

  /** An accepted token names the expected target, where one is set. */
  lemma AcceptedTarget(codec: Codec, raw: string, o: Options, now: int)
    requires Verify(codec, raw, o, now).Ok?
    ensures Decode(codec, raw, o) == Verify(codec, raw, o, now)
    ensures o.expectedTargetPath != "" ==> EffectiveTarget(Verify(codec, raw, o, now).value.core).1 == o.expectedTargetPath
  {
  }

  // ----- What is signed -----

  /** `i` is the position of the last dot of `s`. */
  predicate LastDot(s: string, i: nat) {
    i < |s| && s[i] == '.' && '.' !in s[i + 1..]
  }

  function JoinDots(parts: seq<string>): string
    requires parts != []
  {
    if |parts| == 1 then parts[0] else parts[0] + "." + JoinDots(parts[1..])
  }

  lemma {:induction false} SplitIsExact(s: string)
    ensures JoinDots(SplitDots(s)) == s
    ensures forall i :: 0 <= i < |SplitDots(s)| ==> '.' !in SplitDots(s)[i]
  {
    if s != "" {
      SplitIsExact(s[1..]);
      assert s == [s[0]] + s[1..];
      if s[0] == '.' {
        JoinAfterDot(SplitDots(s[1..]));
      } else {
        JoinLonger(s[0], SplitDots(s[1..]));
      }
    }
  }

  lemma JoinAfterDot(parts: seq<string>)
    requires parts != []
    ensures JoinDots([""] + parts) == "." + JoinDots(parts)
  {
    assert ([""] + parts)[1..] == parts;
  }

  lemma JoinLonger(c: char, parts: seq<string>)
    requires parts != []
    ensures JoinDots([[c] + parts[0]] + parts[1..]) == [c] + JoinDots(parts)
  {
    var longer := [[c] + parts[0]] + parts[1..];
    assert longer[1..] == parts[1..];
    if |parts| > 1 {
      assert [c] + parts[0] + "." + JoinDots(parts[1..]) == [c] + (parts[0] + "." + JoinDots(parts[1..]));
    }
  }

  lemma {:induction false} SplitAtFirstDot(head: string, rest: string)
    requires '.' !in head
    ensures SplitDots(head + "." + rest) == [head] + SplitDots(rest)
  {
    var s := head + "." + rest;
    if head == "" {
      assert s[1..] == rest;
    } else {
      assert s[1..] == head[1..] + "." + rest;
      SplitAtFirstDot(head[1..], rest);
      assert [s[0]] + head[1..] == head;
    }
  }

  lemma SplitOfThree(header: string, payload: string, signature: string)
    requires '.' !in header && '.' !in payload && '.' !in signature
    ensures SplitDots(header + "." + payload + "." + signature) == [header, payload, signature]
  {
    assert header + "." + payload + "." + signature == header + "." + (payload + "." + signature);
    SplitAtFirstDot(header, payload + "." + signature);
    SplitAtFirstDot(payload, signature);
    assert SplitDots(signature) == [signature];
  }

  /** A string of three parts is cut at its first and its last dot. */
  lemma SplitInThree(s: string)
    requires |SplitDots(s)| == 3
    ensures var p := SplitDots(s);
      var i := |p[0]| + 1 + |p[1]|;
      && LastDot(s, i) && LastDot(s[..i], |p[0]|) && '.' !in p[0]
      && s[..i] == p[0] + "." + p[1] && s[i + 1..] == p[2]
      && s[..|p[0]|] == p[0] && s[|p[0]| + 1..i] == p[1]
  {
    SplitIsExact(s);
    var p := SplitDots(s);
    assert p[1..][1..] == [p[2]] && JoinDots(p[1..]) == p[1] + "." + p[2];
    assert s == p[0] + "." + (p[1] + "." + p[2]);
    var i := |p[0]| + 1 + |p[1]|;
    assert s[..i] == p[0] + "." + p[1] && s[i + 1..] == p[2];
    assert s[..i][|p[0]| + 1..] == p[1];
  }

  /** An accepted JWS carries, after its last dot `i`, a signature under a configured key of the
      right size over exactly the trimmed input up to that dot; its header comes before its only
      other dot `j`, and its claims are what the bytes between the two dots decode to. */
  lemma SignedBytes(codec: Codec, raw: string, o: Options, now: int)
    returns (i: nat, j: nat, key: Bytes, signature: Bytes)
    requires Verify(codec, raw, o, now).Ok?
    ensures LastDot(Trim(raw), i) && LastDot(Trim(raw)[..i], j) && '.' !in Trim(raw)[..j]
    ensures |key| == PUBLIC_KEY_SIZE && (key == o.publicKey || key in o.publicKeys.Values)
    ensures codec.decodeSegment(Trim(raw)[i + 1..]) == Some(signature)
    ensures codec.checkSignature(key, Trim(raw)[..i], signature)
    ensures ParseHeader(codec, Trim(raw)[..j]) == Some(Header(EDDSA, Verify(codec, raw, o, now).value.keyId))
    ensures ParsePayload(codec, Trim(raw)[j + 1..i]) ==
      Some((Verify(codec, raw, o, now).value.core, Verify(codec, raw, o, now).value.user))
    ensures var kid := Verify(codec, raw, o, now).value.keyId;
      if |o.publicKeys| > 0 then kid in o.publicKeys && key == o.publicKeys[kid] else key == o.publicKey
  {
    var p := SplitDots(Trim(raw));
    SplitInThree(Trim(raw));
    j := |p[0]|;
    i := j + 1 + |p[1]|;
    key := ResolvePublicKey(ParseHeader(codec, p[0]).value.kid, o).value;
    signature := codec.decodeSegment(p[2]).value;
  }

  /** What a token of three parts decodes to, or the first thing that is wrong with it. */
  lemma DecodeOfParts(codec: Codec, raw: string, o: Options, header: string, payload: string, signature: string)
    requires header != "" && payload != "" && signature != ""
    requires '.' !in header && '.' !in payload && '.' !in signature
    requires Trim(raw) == header + "." + payload + "." + signature
    ensures
      var r := Decode(codec, raw, o);
      if codec.decodeSegment(header).None? || codec.parseHeader(codec.decodeSegment(header).value).None? then r == Err(Malformed)
      else
        var h := codec.parseHeader(codec.decodeSegment(header).value).value;
        if h.alg != "EdDSA" then r == Err(UnsupportedAlg)
        else if |o.publicKeys| > 0 && !(h.kid in o.publicKeys && |o.publicKeys[h.kid]| == 32) then r == Err(PublicKeyMissing)
        else if |o.publicKeys| == 0 && |o.publicKey| != 32 then r == Err(PublicKeyMissing)
        else if codec.decodeSegment(signature).None? then r == Err(Malformed)
        else
          var key := if |o.publicKeys| > 0 then o.publicKeys[h.kid] else o.publicKey;
          if !codec.checkSignature(key, header + "." + payload, codec.decodeSegment(signature).value) then r == Err(InvalidSignature)
          else if codec.decodeSegment(payload).None? || codec.parseClaims(codec.decodeSegment(payload).value).None? then r == Err(Malformed)
          else
            var (core, user) := codec.parseClaims(codec.decodeSegment(payload).value).value;
            r == Ok(Claims(h.kid, core, user))
  {
    SplitOfThree(header, payload, signature);
  }

  /** A token without three non-empty parts is missing or malformed. */
  lemma OtherTextIsMalformed(codec: Codec, raw: string, o: Options)
    ensures Trim(raw) == "" ==> Decode(codec, raw, o) == Err(Missing)
    ensures Trim(raw) != "" && Decode(codec, raw, o) != Err(Malformed) ==>
      exists header, payload, signature ::
        && header != "" && payload != "" && signature != "" && '.' !in header && '.' !in payload && '.' !in signature
        && Trim(raw) == JoinDots([header, payload, signature])
  {
    SplitIsExact(Trim(raw));
    var p := SplitDots(Trim(raw));
    if |p| == 3 {
      assert p == [p[0], p[1], p[2]];
    }
  }

  // ----- Which claims are accepted -----

  /** Claims about a subject that the repository's rules let into a service, told field by field. */
  predicate SoundSubject(c: CoreClaims, user: Option<UserClaims>) {
    && c.subjectId != "" && c.subjectType != ""
    && (c.subjectType == "anonymous" || c.invokeAppId != "")
    && (c.subjectType == "user" ==>
      user.Some? && user.value.userId != "" && user.value.appId != "" && user.value.appId == c.invokeAppId)
    && (c.subjectType == "service" ==> c.invokeServiceAppId != "" && c.invokeServiceAppId == c.invokeAppId)
  }

  /** Claims about a route and a target that are complete and meet the given expectations. Without a target
      of its own, a GRPC route is its target, and any other route has none. */
  predicate SoundTarget(c: CoreClaims, o: Options) {
    var own := c.targetMethod != "" && c.targetPath != "";
    var none := c.targetMethod == "" && c.targetPath == "";
    var grpc := none && EqualFold(c.routeMethod, "GRPC");
    && c.targetAppId != "" && c.targetAppId == c.targetServiceAppId && c.routeMethod != "" && c.routePath != ""
    && (own || none)
    && (o.expectedRouteMethod == "" || EqualFold(c.routeMethod, o.expectedRouteMethod))
    && (o.expectedRoutePath == "" || c.routePath == o.expectedRoutePath)
    && (o.expectedTargetMethod == "" ||
      (own && EqualFold(c.targetMethod, o.expectedTargetMethod)) || (grpc && EqualFold(c.routeMethod, o.expectedTargetMethod)))
    && (o.expectedTargetPath == "" ||
      (own && c.targetPath == o.expectedTargetPath) || (grpc && c.routePath == o.expectedTargetPath))
  }

  /** A token is accepted exactly when it decodes to claims that allow the request, come from the expected
      issuer, are about a sound subject and a sound target, and are within their time. */
  lemma AcceptedExactly(codec: Codec, raw: string, o: Options, now: int, c: Claims)
    ensures Verify(codec, raw, o, now) == Ok(c) <==>
      && Decode(codec, raw, o) == Ok(c)
      && c.core.decision == "allow" && (o.issuer == "" || c.core.issuer == o.issuer)
      && SoundSubject(c.core, c.user) && SoundTarget(c.core, o)
      && c.core.expiresAt > 0 && now - o.clockSkew < c.core.expiresAt * 1_000_000_000
      && (c.core.notBefore > 0 ==> now + o.clockSkew >= c.core.notBefore * 1_000_000_000)
  {
  }

  /** Why decoded claims are not accepted: those that are not sound in themselves are invalid at any time,
      and the others expired, or not valid yet, or not what is expected. */
  lemma RejectedBecause(codec: Codec, raw: string, o: Options, now: int, c: Claims)
    requires Decode(codec, raw, o) == Ok(c)
    ensures
      var r := Verify(codec, raw, o, now);
      var unexpecting := o.(expectedRouteMethod := "", expectedRoutePath := "", expectedTargetMethod := "", expectedTargetPath := "");
      if c.core.decision != "allow" || (o.issuer != "" && c.core.issuer != o.issuer)
        || !SoundSubject(c.core, c.user) || !SoundTarget(c.core, unexpecting) then r == Err(InvalidClaims)
      else if c.core.expiresAt <= 0 || now - o.clockSkew >= c.core.expiresAt * 1_000_000_000 then r == Err(Expired)
      else if c.core.notBefore > 0 && now + o.clockSkew < c.core.notBefore * 1_000_000_000 then r == Err(NotYetValid)
      else if !SoundTarget(c.core, o) then r == Err(InvalidClaims)
      else r == Ok(c)
  {
  }

  // ----- The verdict over time -----

  /** Not yet valid, then decided, then expired. */
  function Stage(v: Result<Claims, SignError>): nat {
    if v == Err(NotYetValid) then 0 else if v == Err(Expired) then 2 else 1
  }

  /** For a fixed token and fixed options the verdict only moves forward as the clock advances:
      it is first not yet valid, then one fixed verdict, then expired for ever. */
  lemma VerdictIsMonotone(codec: Codec, raw: string, o: Options, now: int, later: int)
    requires now <= later
    ensures
      var v, v' := Verify(codec, raw, o, now), Verify(codec, raw, o, later);
      && Stage(v) <= Stage(v')
      && (Stage(v) == Stage(v') ==> v == v')
  {
  }

  /** Verdicts that only move forward. */
  ghost predicate Forward(verdicts: seq<Result<Claims, SignError>>) {
    forall i, j :: 0 <= i < j < |verdicts| ==>
      Stage(verdicts[i]) <= Stage(verdicts[j]) && (Stage(verdicts[i]) == Stage(verdicts[j]) ==> verdicts[i] == verdicts[j])
  }

  lemma {:induction false} ThreePhases(verdicts: seq<Result<Claims, SignError>>) returns (valid: nat, expired: nat)
    requires Forward(verdicts)
    ensures valid <= expired <= |verdicts|
    ensures forall i :: 0 <= i < valid ==> Stage(verdicts[i]) == 0
    ensures forall i :: valid <= i < expired ==> Stage(verdicts[i]) == 1
    ensures forall i :: expired <= i < |verdicts| ==> Stage(verdicts[i]) == 2
  {
    valid, expired := 0, 0;
    if verdicts != [] {
      var n := |verdicts| - 1;
      valid, expired := ThreePhases(verdicts[..n]);
      if Stage(verdicts[n]) == 0 {
        valid, expired := n + 1, n + 1;
      } else if Stage(verdicts[n]) == 1 {
        expired := n + 1;
      }
    }
  }

  /** The verdicts on one token at ever later times: not yet valid up to the first of two
      moments, one and the same decision up to the second, and expired from then on. */
  lemma VerdictsComeInThreePhases(codec: Codec, raw: string, o: Options, times: seq<int>)
    returns (valid: nat, expired: nat)
    requires forall i, j :: 0 <= i < j < |times| ==> times[i] <= times[j]
    ensures valid <= expired <= |times|
    ensures forall i :: 0 <= i < valid ==> Verify(codec, raw, o, times[i]) == Err(NotYetValid)
    ensures forall i, j :: valid <= i < expired && valid <= j < expired ==>
      Verify(codec, raw, o, times[i]) == Verify(codec, raw, o, times[j])
    ensures forall i :: valid <= i < expired ==> Verify(codec, raw, o, times[i]) !in {Err(NotYetValid), Err(Expired)}
    ensures forall i :: expired <= i < |times| ==> Verify(codec, raw, o, times[i]) == Err(Expired)
  {
    var verdicts := seq(|times|, i requires 0 <= i < |times| => Verify(codec, raw, o, times[i]));
    forall i, j | 0 <= i < j < |times|
      ensures Stage(verdicts[i]) <= Stage(verdicts[j]) && (Stage(verdicts[i]) == Stage(verdicts[j]) ==> verdicts[i] == verdicts[j])
    {
      VerdictIsMonotone(codec, raw, o, times[i], times[j]);
    }
    valid, expired := ThreePhases(verdicts);
    forall i | 0 <= i < |times| ensures Verify(codec, raw, o, times[i]) == verdicts[i] {
    }
    forall i, j | valid <= i < expired && valid <= j < expired ensures verdicts[i] == verdicts[j] {
      assert i == j || Stage(verdicts[i]) == Stage(verdicts[j]);
    }
  }

  /** Claims that fail a structural check are rejected alike at all times. */
  lemma UnstructuredIsRejected(codec: Codec, raw: string, o: Options, now: int)
    requires Decode(codec, raw, o).Ok?
    requires !Structured(Decode(codec, raw, o).value.core, Decode(codec, raw, o).value.user, o)
    ensures Verify(codec, raw, o, now) == Err(InvalidClaims)
  {
  }

  /** A token is accepted exactly when it decodes to claims that are structured, match what is expected
      and expire at all, from nbf - skew, if nbf is set, up to but excluding exp + skew; and always with
      the same claims. */
  lemma AcceptingTimesAreAnInterval(codec: Codec, raw: string, o: Options, now: int)
    ensures Verify(codec, raw, o, now).Ok? <==>
      && Decode(codec, raw, o).Ok?
      && var c := Decode(codec, raw, o).value;
      && Structured(c.core, c.user, o) && MatchesExpected(c.core, o) && c.core.expiresAt > 0
      && (c.core.notBefore > 0 ==> c.core.notBefore * SECOND - o.clockSkew <= now)
      && now < c.core.expiresAt * SECOND + o.clockSkew
    ensures Verify(codec, raw, o, now).Ok? ==> Verify(codec, raw, o, now) == Decode(codec, raw, o)
  {
  }
}
