/** The metadata of an outgoing call: a filter that keeps only allowlisted keys, the token of the
    calling service, and what is left of a request's metadata after any number of hops. */
module AuthorityMetadata {
  import opened Wrappers
  import opened Text
  import opened Metadata
  import opened KeyFilter
  import A = ServiceAuthority

  const ALLOWED := {
    USER_AUTHORITY, AUTHZ_SIGN, TRACE_PARENT, TRACE_STATE, BAGGAGE, X_REAL_IP, X_FORWARDED_FOR, APP_LANGUAGE,
    APP_VERSION, SYSTEM_TYPE, SYSTEM_NAME, SYSTEM_VERSION, CLIENT_TYPE, CLIENT_NAME, CLIENT_VERSION
  }

  function Normal(key: string): string {
    ToLower(Trim(key))
  }

  const RULE := Rule(ALLOWED, Normal)

  lemma NormalIsIdempotent(key: string)
    ensures Normal(Normal(key)) == Normal(key)
  {
    var t, n := Trim(key), Normal(key);
    assert Trimmed(n) by {
      assert t != "" ==> n[0] == LowerChar(t[0]) && n[|n| - 1] == LowerChar(t[|t| - 1]);
    }
    assert ToLower(n) == n;
  }

  lemma AllowedNames()
    ensures USER_AUTHORITY in ALLOWED && SERVICE_AUTHORITY !in ALLOWED
    ensures SERVICE_APP_ID !in ALLOWED && SERVICE_INSTANCE_ID !in ALLOWED
  {
    NotAllowed(SERVICE_AUTHORITY);
    NotAllowed(SERVICE_APP_ID);
    NotAllowed(SERVICE_INSTANCE_ID);
  }

  /** The allowlist, name by name. */
  lemma AllowedExactly(k: string)
    ensures k in ALLOWED <==>
      || k == "x-firefly-user-authority" || k == "x-firefly-authz-sign" || k == "traceparent" || k == "tracestate"
      || k == "baggage" || k == "x-real-ip" || k == "x-forwarded-for" || k == "x-firefly-app-language"
      || k == "x-firefly-app-version" || k == "x-firefly-system-type" || k == "x-firefly-system-name"
      || k == "x-firefly-system-version" || k == "x-firefly-client-type" || k == "x-firefly-client-name"
      || k == "x-firefly-client-version"
  {
  }

  /** The normal form of a key: what is between its blank ends, with the letters from A to Z in lower case. */
  lemma NormalExactly(before: string, k: string, after: string, i: nat)
    requires Blank(before) && Blank(after) && Trimmed(k) && i < |k| && k[i] < '\U{0080}'
    ensures |Normal(before + k + after)| == |k|
    ensures Normal(before + k + after)[i] == if 'A' <= k[i] <= 'Z' then (k[i] as int + 32) as char else k[i]
  {
    MiddleIsTrim(before, k, after);
    LowerOnAscii(k, i);
  }

  /** No allowed name starts like the names that concern the service itself. */
  lemma NotAllowed(name: string)
    requires |name| > 11 && name[10] == 's' && name[11] == 'e'
    ensures name !in ALLOWED
  {
  }

  // ----- Preparing a call -----

  /** What the token provider answers when it is asked. */
  type Answer = Result<string, A.Unavailable>

  datatype PrepareError = ProviderFailed(cause: A.Unavailable) | TokenMissing

  /** `sent` is the filtered input, in some order of its keys, with the caller's token put over it. */
  ghost predicate Sends(md: MD, token: string, sent: MD) {
    exists order :: Enumerates(order, md) && sent == FilterInOrder(RULE, md, order)[SERVICE_AUTHORITY := [token]]
  }

  ghost predicate Cleans(md: MD, sent: MD) {
    exists order :: Enumerates(order, md) && sent == FilterInOrder(RULE, md, order)
  }

  /** Without a provider the call leaves filtered only; with one it leaves with its token, or not at all. */
  method PrepareOutgoing(md: MD, provider: Option<Answer>) returns (r: Result<MD, PrepareError>)
    ensures match provider
      case None => r.Ok? && Cleans(md, r.value)
      case Some(Err(e)) => r == Err(ProviderFailed(e))
      case Some(Ok(token)) => if token == "" then r == Err(TokenMissing) else r.Ok? && Sends(md, token, r.value)
  {
    var filtered, order := Filter(RULE, Some(md));
    match provider {
      case None => return Ok(filtered);
      case Some(Err(e)) => return Err(ProviderFailed(e));
      case Some(Ok(token)) =>
        if token == "" {
          return Err(TokenMissing);
        }
        return Ok(filtered[SERVICE_AUTHORITY := [token]]);
    }
  }

  /** Everything that can be said of a call that leaves with a token. */
  lemma SentMetadata(md: MD, token: string, sent: MD, values: multiset<string>)
    requires Sends(md, token, sent) && Carries(RULE, md, USER_AUTHORITY, values)
    ensures forall k :: k in sent ==> k in ALLOWED || k == SERVICE_AUTHORITY
    ensures sent[SERVICE_AUTHORITY] == [token]
    ensures SERVICE_APP_ID !in sent && SERVICE_INSTANCE_ID !in sent
    ensures multiset(Values(sent, USER_AUTHORITY)) == values
    ensures (forall k :: k in md && Normal(k) == USER_AUTHORITY ==> k == USER_AUTHORITY) ==>
      Values(sent, USER_AUTHORITY) == Values(md, USER_AUTHORITY)
  {
    AllowedNames();
    var order :| Enumerates(order, md) && sent == FilterInOrder(RULE, md, order)[SERVICE_AUTHORITY := [token]];
    forall k | k in FilterInOrder(RULE, md, order) ensures k in ALLOWED {
      FilteredKeys(RULE, md, order, k);
    }
    FilteredValues(RULE, md, order, USER_AUTHORITY, values);
    SpellingOfUserAuthority();
    if forall k :: k in md && Normal(k) == USER_AUTHORITY ==> k == USER_AUTHORITY {
      FilteredInPlace(RULE, md, order, USER_AUTHORITY);
    }
  }

  /** Under every allowed name, not only the user's, exactly the values of all its spellings are sent, with a
      token or without; and without one nothing else is sent at all. */
  lemma SentValues(md: MD, token: string, sent: MD, key: string, values: multiset<string>)
    requires key in ALLOWED && Carries(RULE, md, key, values)
    ensures Sends(md, token, sent) || Cleans(md, sent) ==> multiset(Values(sent, key)) == values
    ensures Cleans(md, sent) ==> forall k :: k in sent ==> k in ALLOWED
    ensures Sends(md, token, sent) ==> sent["x-firefly-service-authority"] == [token]
  {
    AllowedNames();
    if Sends(md, token, sent) {
      var order :| Enumerates(order, md) && sent == FilterInOrder(RULE, md, order)[SERVICE_AUTHORITY := [token]];
      FilteredValues(RULE, md, order, key, values);
    }
    if Cleans(md, sent) {
      var order :| Enumerates(order, md) && sent == FilterInOrder(RULE, md, order);
      FilteredValues(RULE, md, order, key, values);
      forall k | k in sent ensures k in ALLOWED {
        FilteredKeys(RULE, md, order, k);
      }
    }
  }

  lemma SpellingOfUserAuthority()
    ensures Normal(USER_AUTHORITY) == USER_AUTHORITY
  {
    var s := USER_AUTHORITY;
    assert !IsSpace(s[0]) && !IsSpace(s[|s| - 1]);
    assert forall i :: 0 <= i < |s| ==> s[i] == '-' || 'a' <= s[i] <= 'z';
    assert ToLower(s) == s;
  }

  // ----- Call chains -----

  /** One hop: what the service received, the metadata of the context from which it calls on, the
      token of its own provider, and what it sent. */
  datatype Hop = Hop(received: MD, context: MD, token: string, sent: MD)

  /** Whatever a service or the network adds or drops, it neither adds nor drops a value of the
      user's authority. */
  ghost predicate KeepsUserAuthority(md: MD, md': MD) {
    forall values :: Carries(RULE, md, USER_AUTHORITY, values) ==> Carries(RULE, md', USER_AUTHORITY, values)
  }

  ghost predicate Chain(hops: seq<Hop>) {
    && (forall i :: 0 <= i < |hops| ==> Sends(hops[i].context, hops[i].token, hops[i].sent))
    && (forall i :: 0 <= i < |hops| ==> KeepsUserAuthority(hops[i].received, hops[i].context))
    && (forall i, j :: 0 <= i && j == i + 1 && j < |hops| ==> KeepsUserAuthority(hops[i].sent, hops[j].received))
  }

  lemma {:induction false} ContextsCarry(hops: seq<Hop>, values: multiset<string>, i: nat)
    requires Chain(hops) && i < |hops| && Carries(RULE, hops[0].received, USER_AUTHORITY, values)
    ensures Carries(RULE, hops[i].context, USER_AUTHORITY, values)
  {
    if i > 0 {
      ContextsCarry(hops, values, i - 1);
      SentCarries(hops[i - 1].context, hops[i - 1].token, hops[i - 1].sent, values);
      assert KeepsUserAuthority(hops[i - 1].sent, hops[i].received);
    }
    assert KeepsUserAuthority(hops[i].received, hops[i].context);
  }

  /** What is sent carries the user's authority as it was. */
  lemma SentCarries(md: MD, token: string, sent: MD, values: multiset<string>)
    requires Sends(md, token, sent) && Carries(RULE, md, USER_AUTHORITY, values)
    ensures Carries(RULE, sent, USER_AUTHORITY, values)
  {
    SentMetadata(md, token, sent, values);
    SentKeysAreNormal(md, token, sent);
    NormalizedCarries(RULE, sent, USER_AUTHORITY);
  }

  lemma SentKeysAreNormal(md: MD, token: string, sent: MD)
    requires Sends(md, token, sent)
    ensures forall k :: k in sent ==> Normal(k) == k
  {
    var order :| Enumerates(order, md) && sent == FilterInOrder(RULE, md, order)[SERVICE_AUTHORITY := [token]];
    SpellingOfServiceAuthority();
    forall k | k in sent ensures Normal(k) == k {
      if k != SERVICE_AUTHORITY {
        FilteredKeys(RULE, md, order, k);
        var k' :| k' in order && Normal(k') == k;
        NormalIsIdempotent(k');
      }
    }
  }

  lemma SpellingOfServiceAuthority()
    ensures Normal(SERVICE_AUTHORITY) == SERVICE_AUTHORITY
  {
    var s := SERVICE_AUTHORITY;
    assert !IsSpace(s[0]) && !IsSpace(s[|s| - 1]);
    assert forall i :: 0 <= i < |s| ==> s[i] == '-' || 'a' <= s[i] <= 'z';
    assert ToLower(s) == s;
  }

  /** Call chains of any length: every hop leaves with allowlisted keys and exactly its own token,
      without the local identity of its service, and with exactly the user-authority values that
      entered the chain; and while contexts spell the key in the normal way, in the same order. */
  lemma CallChain(hops: seq<Hop>, values: multiset<string>, i: nat)
    requires Chain(hops) && i < |hops| && Carries(RULE, hops[0].received, USER_AUTHORITY, values)
    ensures forall k :: k in hops[i].sent ==> k in ALLOWED || k == SERVICE_AUTHORITY
    ensures hops[i].sent[SERVICE_AUTHORITY] == [hops[i].token]
    ensures SERVICE_APP_ID !in hops[i].sent && SERVICE_INSTANCE_ID !in hops[i].sent
    ensures multiset(Values(hops[i].sent, USER_AUTHORITY)) == values
  {
    ContextsCarry(hops, values, i);
    SentMetadata(hops[i].context, hops[i].token, hops[i].sent, values);
  }

  /** A context that spells the user's authority in the normal way only, with the values that were received. */
  ghost predicate Plain(md: MD, values: seq<string>) {
    && Values(md, USER_AUTHORITY) == values
    && forall k :: k in md && Normal(k) == USER_AUTHORITY ==> k == USER_AUTHORITY
  }

  /** Along a chain whose contexts are plain, the user-authority values keep their order. */
  lemma {:induction false} CallChainInOrder(hops: seq<Hop>, i: nat)
    requires i < |hops|
    requires forall j :: 0 <= j < |hops| ==> Sends(hops[j].context, hops[j].token, hops[j].sent)
    requires Plain(hops[0].context, Values(hops[0].received, USER_AUTHORITY))
    requires forall j, k :: 0 <= j && k == j + 1 && k < |hops| ==> Plain(hops[k].context, Values(hops[j].sent, USER_AUTHORITY))
    ensures Values(hops[i].sent, USER_AUTHORITY) == Values(hops[0].received, USER_AUTHORITY)
  {
    if i > 0 {
      CallChainInOrder(hops, i - 1);
      assert Plain(hops[i].context, Values(hops[i - 1].sent, USER_AUTHORITY));
    }
    var values := TotalValues(RULE, hops[i].context, USER_AUTHORITY);
    SentMetadata(hops[i].context, hops[i].token, hops[i].sent, values);
  }
}
