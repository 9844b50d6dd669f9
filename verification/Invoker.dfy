/** The caller's side of a unary call: which metadata it starts from, and in which order it asks
    for a token, dials and invokes. */
module Invoker {
  import opened Wrappers
  import opened Metadata
  import opened KeyFilter
  import opened AuthorityMetadata
  import opened Text
  import C = ConnectionManager
  import I = ContextInterceptor

  const DEFAULT_TIMEOUT := 5_000_000_000

  /** The metadata that a context carries, if any. */
  datatype CallContext = CallContext(incoming: Option<MD>, outgoing: Option<MD>)

  /** The invoker continues the request that the process serves, before a call that it makes. */
  function InvokerBase(ctx: CallContext): MD {
    if ctx.incoming.Some? then ctx.incoming.value
    else if ctx.outgoing.Some? then ctx.outgoing.value
    else map[]
  }

  /** The client interceptor continues a call that the process makes, before the request that it serves. */
  function InterceptorBase(ctx: CallContext): MD {
    if ctx.outgoing.Some? then ctx.outgoing.value
    else if ctx.incoming.Some? then ctx.incoming.value
    else map[]
  }

  /** Where a call starts from, when both kinds of metadata are there and when only one is. */
  lemma BasesExactly(incoming: Option<MD>, outgoing: Option<MD>)
    ensures forall i, o :: incoming == Some(i) && outgoing == Some(o) ==>
      InvokerBase(CallContext(incoming, outgoing)) == i && InterceptorBase(CallContext(incoming, outgoing)) == o
    ensures forall i :: incoming == Some(i) && outgoing.None? ==>
      InvokerBase(CallContext(incoming, outgoing)) == InterceptorBase(CallContext(incoming, outgoing)) == i
    ensures forall o :: incoming.None? && outgoing == Some(o) ==>
      InvokerBase(CallContext(incoming, outgoing)) == InterceptorBase(CallContext(incoming, outgoing)) == o
    ensures incoming.None? && outgoing.None? ==>
      InvokerBase(CallContext(incoming, outgoing)) == InterceptorBase(CallContext(incoming, outgoing)) == map[]
  {
  }

  datatype Effect = TokenAsked | Dialled | Invoked(conn: nat, metadata: MD, timeout: int)

  datatype InvokeError =
    | DialerIsNil
    | MethodEmpty
    | NotPrepared(cause: PrepareError)
    | NotDialled(error: C.DialError)
    | Remote(status: string)

  /** The answers that the environment gives when it is asked. */
  datatype Environment = Environment(token: Answer, dial: C.DialResult<nat>, remote: Option<string>)

  class UnaryInvoker {
    const hasDialer: bool
    var hasProvider: bool
    var timeout: int

    constructor (hasDialer: bool, timeout: int)
      ensures this.hasDialer == hasDialer && !hasProvider
      ensures this.timeout == if timeout > 0 then timeout else 5_000_000_000
    {
      this.hasDialer := hasDialer;
      hasProvider := false;
      this.timeout := if timeout <= 0 then DEFAULT_TIMEOUT else timeout;
    }

    method WithServiceAuthorityProvider(present: bool) returns (u: UnaryInvoker)
      modifies `hasProvider
      ensures u == this && hasProvider == present
    {
      hasProvider := present;
      u := this;
    }

    /** Nothing leaves without a dialer, a method, a connection and, where a provider is configured,
        a token; the token is asked for before the dial, and a failure stops everything after it. */
    method Invoke(ctx: CallContext, name: string, env: Environment) returns (err: Option<InvokeError>, effects: seq<Effect>)
      ensures !hasDialer ==> err == Some(DialerIsNil) && effects == []
      ensures hasDialer && name == "" ==> err == Some(MethodEmpty) && effects == []
      ensures hasDialer && name != "" ==>
        var asked := if hasProvider then [TokenAsked] else [];
        if hasProvider && (env.token.Err? || env.token.value == "") then
          effects == asked && err == Some(NotPrepared(if env.token.Err? then ProviderFailed(env.token.error) else TokenMissing))
        else if env.dial.Err? then
          effects == asked + [Dialled] && err == Some(NotDialled(env.dial.error))
        else
          exists sent ::
            && effects == asked + [Dialled, Invoked(env.dial.value, sent, if timeout <= 0 then DEFAULT_TIMEOUT else timeout)]
            && (if hasProvider then Sends(InvokerBase(ctx), env.token.value, sent) else Cleans(InvokerBase(ctx), sent))
            && err == (if env.remote.Some? then Some(Remote(env.remote.value)) else None)
    {
      effects := [];
      if !hasDialer {
        return Some(DialerIsNil), effects;
      }
      if name == "" {
        return Some(MethodEmpty), effects;
      }
      var limit := if timeout <= 0 then DEFAULT_TIMEOUT else timeout;
      if hasProvider {
        effects := effects + [TokenAsked];
      }
      var prepared := PrepareOutgoing(InvokerBase(ctx), if hasProvider then Some(env.token) else None);
      if prepared.Err? {
        return Some(NotPrepared(prepared.error)), effects;
      }
      effects := effects + [Dialled];
      match env.dial {
        case Err(e) => return Some(NotDialled(e)), effects;
        case Ok(conn) =>
          effects := effects + [Invoked(conn, prepared.value, limit)];
          err := if env.remote.Some? then Some(Remote(env.remote.value)) else None;
      }
    }
  }

  /** An invoker and an interceptor in one call: the interceptor starts from what the invoker has put
      into the outgoing context, and with the same token it changes nothing. */
  lemma PreparingTwice(ctx: CallContext, token: string, sent: MD, again: MD)
    requires Sends(InvokerBase(ctx), token, sent)
    requires Sends(InterceptorBase(ctx.(outgoing := Some(sent))), token, again)
    ensures again == sent
  {
    var md := InvokerBase(ctx);
    var order :| Enumerates(order, md) && sent == FilterInOrder(RULE, md, order)[SERVICE_AUTHORITY := [token]];
    var order' :| Enumerates(order', sent) && again == FilterInOrder(RULE, sent, order')[SERVICE_AUTHORITY := [token]];
    AllowedNames();
    SentKeysAreNormal(md, token, sent);
    FilterTwice(RULE, md, order, sent, order', SERVICE_AUTHORITY, [token]);
  }

  // ----- From entry to invocation -----

  /** `md'` carries the user's authority of `md`, and spells it in the normal way if `md` does. */
  ghost predicate Continues(md: MD, md': MD) {
    && KeepsUserAuthority(md, md')
    && (Plain(md, Values(md, USER_AUTHORITY)) ==> Plain(md', Values(md, USER_AUTHORITY)))
  }

  /** A service that writes its own identity into a request and continues it through the invoker is a
      hop of a call chain. */
  lemma EntryKeepsUserAuthority(md: MD, appId: string, instanceId: string, outgoing: Option<MD>)
    ensures Continues(md, InvokerBase(CallContext(I.WithLocalIdentity(Some(md), appId, instanceId), outgoing)))
  {
    SpellingOfLocalIdentity();
    TwoNamesBeside(md, if appId == "" then None else Some([appId]), if instanceId == "" then None else Some([instanceId]),
                   SERVICE_APP_ID, SERVICE_INSTANCE_ID);
  }

  function Put(md: MD, name: string, put: Option<seq<string>>): MD {
    if put.None? then md else md[name := put.value]
  }

  lemma TwoNamesBeside(
      md: MD, put: Option<seq<string>>, put': Option<seq<string>>, name: string, name': string)
    requires Normal(name) != USER_AUTHORITY && Normal(name') != USER_AUTHORITY
    requires name != USER_AUTHORITY && name' != USER_AUTHORITY
    ensures Continues(md, Put(Put(md, name, put), name', put'))
  {
    var md1 := Put(md, name, put);
    var md2 := Put(md1, name', put');
    forall values | Carries(RULE, md, USER_AUTHORITY, values) ensures Carries(RULE, md2, USER_AUTHORITY, values) {
      NameBeside(md, name, put, values);
      NameBeside(md1, name', put', values);
    }
  }

  lemma NameBeside(md: MD, name: string, put: Option<seq<string>>, values: multiset<string>)
    requires Normal(name) != USER_AUTHORITY && Carries(RULE, md, USER_AUTHORITY, values)
    ensures Carries(RULE, Put(md, name, put), USER_AUTHORITY, values)
  {
    if put.Some? {
      CarriesBeside(RULE, md, name, put.value, USER_AUTHORITY, values);
    }
  }

  lemma SpellingOfLocalIdentity()
    ensures Normal(SERVICE_APP_ID) != USER_AUTHORITY && Normal(SERVICE_INSTANCE_ID) != USER_AUTHORITY
    ensures SERVICE_APP_ID != USER_AUTHORITY && SERVICE_INSTANCE_ID != USER_AUTHORITY
  {
    assert Trimmed(SERVICE_APP_ID) && Trimmed(SERVICE_INSTANCE_ID);
    assert |SERVICE_APP_ID| == 24 && |USER_AUTHORITY| == 24;
    assert SERVICE_APP_ID[10] == 's' && USER_AUTHORITY[10] == 'u';
    assert |SERVICE_INSTANCE_ID| != |USER_AUTHORITY|;
  }
}
