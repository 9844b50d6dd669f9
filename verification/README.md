# Verified model of go-micro's protocols

This Dafny project models the parts of `go-micro`, a base library for Go micro-services, whose correctness
depends on many steps, many goroutines or several files at once, and proves what they are for. Every
method is proved against a specification that is a function or a predicate on values; the main results
are lemmas about those specifications, for all inputs, all runs and all interleavings.

- **Connection cache.** `ConnectionManager.dfy` has the lock sections of `Dial` and `Close` as functions,
  the object whose methods run them, and the one-mutex manager of the repository's benchmark.
  `ConnectionRuns.dfy` lets any number of calls run concurrently, one lock section a step, and proves that
  connections are conserved and that callers agree. `Linearizability.dfy` proves which runs have the
  outcome of a sequential run of the one-mutex manager: exactly those in which no description that cannot
  be built is dialled after a close. The cache's key comes from `Dns.dfy`, which proves that keys are exact.
- **Service tokens.** `ServiceAuthority.dfy` has the token cache, the delays and the lifecycle of the
  provider, and its object. `AuthorityRuns.dfy` interleaves `Start`, `Stop`, cancellations and refresh
  loops, stale ones included. `RefreshSchedule.dfy` runs one loop in time and proves availability and
  backoff.
- **Signed contexts.** `AuthzSign.dfy` verifies a compact JWS (section 7.1 of RFC 7515, with EdDSA as in
  section 3.1 of RFC 8037 and the time claims of sections 4.1.4 and 4.1.5 of RFC 7519).
  `ServiceContext.dfy` builds the request context, and `ContextInterceptor.dfy` is the gRPC entry.
- **Metadata per hop.** `KeyFilter.dfy` and `AuthorityMetadata.dfy` have the outgoing filter and call chains
  of any length; `Invoker.dfy` is the caller that uses them.
- **Data access and request scope.** `DecisionStore.dfy` keeps decisions, with arrays nested in arrays, in
  contexts; `DecisionSession.dfy` proves that they are isolated from code that changes its own decisions in
  place. `DataAccess.dfy` validates decisions, `PolicyRegistry.dfy` builds the canonical policy table, and
  `RequestScope.dfy` is the fail-closed interceptor.

`Text.dfy`, `Sequences.dfy`, `Metadata.dfy` and `Wrappers.dfy` hold what several modules share. Instants and
durations are numbers of nanoseconds. Instants count from Go's zero time, so that 0 is the zero value, except
in the verification of signatures (`AuthzSign.dfy` and the modules that call it), where they count from the
Unix epoch as the time claims do.

Points at which the code does something that a reader of its comments, or of the benchmark's older form,
would not expect; the model follows the code:

- `Dial` builds its target before it reads the closed flag, so a description that cannot be built gives the
  build error even on a closed manager, where the one-mutex manager says that it is closed
  (`DifferOnlyWhenClosed`, `SomeRunIsNotLinearizable`).
- A superseded refresh loop goes on writing the token cache, any number of times, until the Stop that
  superseded it calls its cancel function (`SupersededLoopWritesOn`); from then on it writes at most once
  (`TerminatesAfterCancellation`). The cache is the fold of all writes.
- The backoff product is computed in 64 bits. With the default intervals it wraps after 15372287 failures
  in a row, and the loop then does not wait (`DefaultBackoffWraps`).
- A configured expected target path replaces the request's own method, so a signature then no longer binds
  to one method (`BindingIsExact`, `SomeSignatureIsAcceptedTwice`).
- A resource and action can share their key with others, exactly when the key has a NUL other than the
  separator at which it also falls into two trimmed parts (`KeyStandsForOne`). The policy registry then takes
  different entries for repeated ones (`KeysAreNotExactWithNul`, `RepeatsAreFoundExactly`).
- Two methods that are equal once trimmed overwrite each other in the policy table, in the order in which
  the map happens to be visited (`VisitingOrderMatters`, `OutcomeIsDetermined`).

## Model

| member | source | states |
|---|---|---|
| Dns.DnsConfig.Normalized | invocation/dns.go:114-136 | each blank field gets its default (default, svc, cluster.local, 9090, dns) and each other field is kept |
| Dns.DnsManager.Normalize | invocation/dns.go:183-209 | fills exactly the blank fields of the caller's own object with the defaults, or a new object when there is none |
| Dns.DnsManager.BuildTarget | invocation/dns.go:219-251 | for a filled description the only possible error is a blank service name; the target has the joined host and port |
| Dns.DnsManager.Build | invocation/dns.go:212-251 | succeeds exactly when there is a description with a non-blank service name, and gives the target of the defaulted and trimmed host and port |
| Dns.DnsManager.BuildTwice | invocation/dns.go:212-251 | the defaults that the first build fills in place do not change the target of a second one |
| Dns.Target.CacheDerivedStrings | invocation/target.go:66-75 | computes both strings from the fields, whatever was cached; when nothing was cached, what the target answers does not change |
| Dns.JoinHostPortIsInjective | invocation/target.go:44-51 | host and decimal port can be read back from the joined form, also when the host has colons |
| Dns.CacheKeysAreExact | invocation/target.go:54-63 | two descriptions share a cache key exactly when their defaulted and trimmed host and port are equal |
| Dns.TargetInFull | invocation/dns.go:225-245 | the target of a description in full: scheme, service, namespace, service type, cluster domain and port in this order, defaulted and trimmed, with brackets exactly for a host with a colon |
| Dns.KeysOfLabelsAreExact | invocation/dns.go:225-231 | for dot-free labels a shared key means that all five defaulted and trimmed fields are equal |
| Text.DecimalRoundTrip | invocation/target.go:50 | the decimal text of a port determines the port |
| Text.TrimIsMiddle | invocation/dns.go:225-231 | trimming takes blank text off both ends and nothing else |
| Text.MiddleIsTrim | invocation/dns.go:225-231 | and it takes off all of it |
| Text.LessIsLexicographic | access/access.go:330-335 | the order of texts is the lexicographic one on characters |
| Text.FoldOnAscii | service/authz_context.go:302-313 | on ASCII text the comparison without case makes exactly the two cases of a letter equal |
| ConnectionManager.ConnectionManager.ReadLockedLookup | invocation/manager.go:139-149 | the decision of the read-locked section, which is also that of the second section |
| ConnectionManager.ConnectionManager.LockedPublish | invocation/manager.go:174-190 | stores the new connection, or closes it exactly once and gives the cached one or the closed error |
| ConnectionManager.ConnectionManager.Dial | invocation/manager.go:128-191 | a dial that runs alone has the result and the effect of the one-mutex manager, except that a build error comes first |
| ConnectionManager.ConnectionManager.Close | invocation/manager.go:196-219 | every cached connection is closed exactly once whatever fails and in whatever order, the map is empty, and there is an error exactly when some connection gave one |
| ConnectionManager.DifferOnlyWhenClosed | invocation/optimization_benchmark_test.go:261-287 | the new order of checks differs from the one-mutex manager exactly on descriptions that cannot be built, on a closed manager |
| ConnectionRuns.Frame | invocation/manager.go:139-191 | what one lock section changes of the cache and of the held and given connections, and that nothing else changes |
| ConnectionRuns.Counts | invocation/manager.go:177-185 | one section closes exactly the connections that leave the cache or are discarded |
| ConnectionRuns.DialsAfterTwoLooks | invocation/manager.go:137-167 | a call is in its dial function only after two looks, in two steps of its own, that both found the manager open and its key not cached |
| ConnectionRuns.OwnedStep | invocation/manager.go:128-219 | every step keeps ownership: an open connection is held by one call or cached under one key, and none is closed twice |
| ConnectionRuns.AgreedStep | invocation/manager.go:128-219 | every step keeps agreement: given connections are cached while the manager is open, one for each key |
| ConnectionRuns.Invariant | invocation/manager.go:128-219 | both hold in every state that any interleaving reaches |
| ConnectionRuns.Conservation | invocation/manager.go:128-219 | every connection ever dialled is open and held by exactly one call, or open and cached under exactly one key, or closed exactly once and out of reach |
| ConnectionRuns.NothingLeaks | invocation/manager.go:193-219 | once Close has run and every call has returned, every connection was closed exactly once |
| ConnectionRuns.Stable | invocation/manager.go:196-204 | closed is permanent and the map stays empty after it; a returned call keeps its result |
| ConnectionRuns.NoConnectionAfterClose | invocation/manager.go:139-191 | a dial whose deciding section follows a close returns no connection |
| ConnectionRuns.OneConnectionPerEndpoint | invocation/manager.go:123-127 | over a whole run, two callers get the same connection exactly when their descriptions lead to the same endpoint |
| ConnectionRuns.GivenConnectionsAreOpen | invocation/manager.go:139-191 | while the manager is open, every connection that it gave out is open |
| Linearizability.InvokedAs | invocation/manager.go:128-219 | every call was invoked in one earlier step, with the operation that it still carries out |
| Linearizability.UsedIsNotHeld | invocation/manager.go:174-190 | a connection is put into the cache at most once: after that no call holds it |
| Linearizability.EffectOf | invocation/manager.go:128-191 | the step at which a call takes effect is one execution of the sequential manager with the final result of the call, where a called dial function opens a connection that was never opened before |
| Linearizability.QuietStep | invocation/manager.go:128-191 | every other step leaves the cache as it was |
| Linearizability.LinearizationIsSequential | invocation/optimization_benchmark_test.go:261-287 | the history of effects is executable by the sequential manager, and ends in the cache of the run; for the one-mutex manager unless a dial was too late |
| Linearizability.LinearizationIsFaithful | invocation/manager.go:128-219 | every decided call is in the history once, at a step between its invocation and its return, with its final result |
| Linearizability.LinearizableExactly | invocation/optimization_benchmark_test.go:261-287 | every run has a sequential history of exactly its returned calls, with the operations that they were invoked with, their results, their real-time order and the final cache; the one-mutex manager can execute one exactly when no returned dial of a description that cannot be built was invoked on a closed manager |
| Linearizability.BuildableRunsAreLinearizable | invocation/optimization_benchmark_test.go:261-287 | every run whose dialled descriptions can be built is linearizable to the one-mutex manager |
| Linearizability.TooLateIsNotLinearizable | invocation/manager.go:131-143 | a run with such a dial after a close is not |
| Linearizability.SomeRunIsNotLinearizable | invocation/manager.go:131-143 | there is such a run: a close and then a dial without a service name |
| ServiceAuthority.WritesAreWellFormed | authz/authority.go:330-348 | what a refresh installs is trimmed, not empty and not yet expired when it is checked |
| ServiceAuthority.OutcomeOfRefresh | authz/authority.go:459-478 | which token is installed and which error is recorded, for every result of a fetch |
| ServiceAuthority.CacheIsFold | authz/authority.go:330-378 | token and expiry are those of the latest successful refresh, and the error is that of the latest refresh if it failed |
| ServiceAuthority.HotPath | authz/authority.go:351-366 | the token is given exactly while the latest installed expiry is in the future; otherwise the error wraps exactly the latest failure; the status agrees |
| ServiceAuthority.Config.Normalized | authz/authority.go:160-191 | the intervals of a built provider: one minute, one minute and one hour where they are not positive, and a maximum of at least the base |
| ServiceAuthority.CachedServiceAuthorityProvider.Start | authz/authority.go:247-271 | starts a loop of a new generation exactly when no cancel function is set |
| ServiceAuthority.CachedServiceAuthorityProvider.Stop | authz/authority.go:274-289 | takes the cancel function, if any, and moves to a new generation |
| ServiceAuthority.CachedServiceAuthorityProvider.ClearLifecycle | authz/authority.go:320-327 | clears the cancel function exactly when the generation is the loop's own |
| ServiceAuthority.CachedServiceAuthorityProvider.RefreshOnce | authz/authority.go:330-348 | a valid token replaces the cache and clears the error; a failure only records its error |
| ServiceAuthority.CachedServiceAuthorityProvider.RecordRefreshError | authz/authority.go:369-378 | changes the error and nothing else |
| ServiceAuthority.CachedServiceAuthorityProvider.ServiceAuthority | authz/authority.go:194-207 | the hot path answers what the cache says at that instant and changes nothing |
| ServiceAuthority.CachedServiceAuthorityProvider.ServiceAuthorityStatus | authz/authority.go:210-244 | started, loaded, expiry, whole seconds left cut off towards zero, refresh window and last error |
| AuthorityRuns.LifecycleStep | authz/authority.go:247-327 | every action keeps the lifecycle invariant, with cancels that a Stop has taken but not called yet |
| AuthorityRuns.LifecycleHolds | authz/authority.go:247-327 | it holds after every run |
| AuthorityRuns.OneLoopRunsOn | authz/authority.go:247-327 | the cancel function is set exactly when an unfinished loop carries the current generation, and every other unfinished loop is cancelled or its cancel is pending in a Stop |
| AuthorityRuns.OldExitClearsNothing | authz/authority.go:320-327 | only a Stop, or the exit of the very loop it belongs to, clears the cancel function |
| AuthorityRuns.StartMakesLoop | authz/authority.go:247-271 | a Start makes a loop of the next generation exactly when no cancel function is set |
| AuthorityRuns.RoundOfLoop | authz/authority.go:292-318 | what one round writes, when it exits and how it counts failures, step by step |
| AuthorityRuns.CacheIsFoldOfRefreshes | authz/authority.go:330-378 | under any interleaving of loops, cache, hot path and status are those of the refreshes in the order in which they were written |
| AuthorityRuns.RankBoundsSteps | authz/authority.go:292-318 | explicit measures bound the remaining steps, fetches and writes of a loop whose context is done |
| AuthorityRuns.TerminatesAfterCancellation | authz/authority.go:292-318 | after cancellation a loop takes at most seven more steps, starts at most one more fetch and writes the cache at most once, and it can always take the next step |
| AuthorityRuns.SupersededLoopWritesOn | authz/authority.go:274-289 | between the locked part of a Stop and its call of cancel, the superseded loop can write the cache any number of times |
| RefreshSchedule.RunRound | authz/authority.go:297-316 | one round of the loop, with the check of the token before its write: what it writes, its failure counter, its wait, when its timer fires and when it goes on |
| RefreshSchedule.RunRefreshLoop | authz/authority.go:292-318 | the loop follows the schedule, leaves the cache of its writes, and stops exactly in the round whose check after the write or whose sleep finds the context done |
| RefreshSchedule.TimesOfRun | authz/authority.go:292-318 | when each round of a run starts, writes, fires its timer and goes on, and what it writes |
| RefreshSchedule.WaitsForWindow | authz/authority.go:380-397 | after a success the timer fires when the refresh window of the token opens, or one second later when it is open already |
| RefreshSchedule.NoFetchBeforeWindow | authz/authority.go:292-318 | in a run no later fetch starts before the window of an installed token opens |
| RefreshSchedule.WhenCancellationStops | authz/authority.go:413-427 | which cancellations stop the loop after a round, for every instant at which they come |
| RefreshSchedule.NoRoundAfterOneTooLate | authz/authority.go:297-303 | a round that starts once the context is done is the last one |
| RefreshSchedule.ProductInInt64 | authz/authority.go:405 | the 64-bit product computed step by step is the exact product taken into 64 bits |
| RefreshSchedule.RetryDelayIsExact | authz/authority.go:399-411 | the wait is min(10 * base * k, max) exactly when the product fits in 64 bits or wraps to at least the maximum |
| RefreshSchedule.DefaultBackoffWraps | authz/authority.go:12-21 | with the defaults the bound is 15372286 failures; one more gives a negative delay |
| RefreshSchedule.Backoff | authz/authority.go:292-318 | in every run the wait after the k-th failure in a row is min(10 * base * k, max), positive, at most max and not shorter than the one before |
| RefreshSchedule.StreakCounts | authz/authority.go:294-314 | the failures in a row are those since the last success |
| RefreshSchedule.OutageGap | authz/authority.go:292-318 | during an outage attempts are at most the maximum wait and the environment's own time apart |
| RefreshSchedule.StaysAvailable | authz/authority.go:292-411 | a token that outlives the next write keeps the provider available while fetches stay prompt |
| RefreshSchedule.CacheAtInstant | authz/authority.go:330-348 | the cache at an instant is what the writes up to it have left |
| RefreshSchedule.Availability | authz/authority.go:292-411 | when every fetch from some round on is prompt, the provider is available at every later instant of the run, whatever happened before |
| AuthzSign.SplitIsExact | service/authz_context.go:150-154 | splitting at dots loses nothing and leaves no dot in a part |
| AuthzSign.SignedBytes | service/authz_context.go:141-201 | an accepted JWS has, after its last dot, a signature over exactly the trimmed input up to that dot, under the key of its kid where several are configured and else under the single key, and its claims are what lies between its dots |
| AuthzSign.DecodeOfParts | service/authz_context.go:141-201 | what a token of three parts decodes to, or its first fault: header, algorithm, key of its kid, signature, payload |
| AuthzSign.OtherTextIsMalformed | service/authz_context.go:143-154 | every other text is missing or malformed |
| AuthzSign.AcceptedExactly | service/authz_context.go:235-323 | a token is accepted exactly when it decodes to claims that allow the request, come from the expected issuer, are field by field about a sound subject and the expected route and target, and are within their time |
| AuthzSign.RejectedBecause | service/authz_context.go:235-323 | which error decoded claims are rejected with, in the order of the checks |
| AuthzSign.VerdictIsMonotone | service/authz_context.go:285-300 | as the clock advances the verdict only moves from not yet valid to one fixed verdict to expired |
| AuthzSign.VerdictsComeInThreePhases | service/authz_context.go:285-300 | over any non-decreasing sequence of times the verdicts form those three phases |
| AuthzSign.UnstructuredIsRejected | service/authz_context.go:235-283 | claims that fail a structural check are rejected alike at all times |
| AuthzSign.AcceptingTimesAreAnInterval | service/authz_context.go:235-323 | a token is accepted exactly when it decodes to structured claims that match what is expected and expire at all, from nbf - skew, if nbf is set, up to but excluding exp + skew |
| AuthzSign.AcceptedTarget | service/authz_context.go:310-338 | an accepted token names the expected target path where one is set |
| ServiceContext.VerifyAuthzSign | service/authz_context.go:141-201 | returns a new object with the accepted claims and the flat user fields in lists of their own, or the verdict's error |
| ServiceContext.AuthzSign.Normalize | service/authz_context.go:340-356 | with a signed user context the flat fields become that, in new lists; without one they stay as they are |
| ServiceContext.Context.RebuildDecisionContext | service/context.go:347-366 | the grouped decision is there exactly when a flat field is set, and equals them |
| ServiceContext.Context.RebuildDerivedContexts | service/context.go:312-345 | grouped user, service ids and grouped decision follow from the flat fields, in new lists |
| ServiceContext.Context.ApplyVerifiedAuthzSign | service/context.go:253-310 | every field that metadata could forge is overwritten by the claims, and no list is shared with them |
| ServiceContext.Context.ReadMetadata | service/context.go:207-242 | every field is the first value, or for lists a copy of all values, of its own header |
| ServiceContext.BuildContext | service/context.go:200-250 | the context of the metadata, with its derived groups, in lists of its own |
| ServiceContext.BindContext | service/context.go:185-195 | refuses without a local service id or for another service, and otherwise lays the claims over the context |
| ServiceContext.BuildVerifiedContext | service/context.go:171-197 | the whole outcome of a request as one value, and lists that are not those of the claims |
| ServiceContext.VerifiedFields | service/context.go:253-310 | every field of a verified context, one by one, equals its claim, is empty without one, or comes from the service and its span |
| ServiceContext.RefusedBecause | service/context.go:171-197 | with verification on, a request fails with the error of its signature or because the signature is not for this service, and else succeeds |
| ServiceContext.UnverifiedFields | service/context.go:200-250 | every field of a context that is not verified comes from its own header |
| ServiceContext.UnverifiedGroups | service/context.go:312-366 | its grouped views are there exactly when one of their fields is |
| ServiceContext.VerifiedOutcome | service/context.go:180-193 | success with verification on means that the signature was accepted for this very service |
| ServiceContext.GroupsAgreeWithFields | service/context.go:253-366 | grouped views agree with the flat fields, and a verified subject and target are those that are signed |
| ServiceContext.Noninterference | service/context.go:171-310 | with verification on, two requests with the same signature, options, span and clock have equal outcomes in every field but the language |
| ContextInterceptor.SkipSet | middleware/grpc/service_context.go:98-116 | the set of the non-empty configured methods |
| ContextInterceptor.ServiceContextInterceptor.ResolveOptions | middleware/grpc/service_context.go:75-92 | the options of one request, computed without a change to the shared ones |
| ContextInterceptor.ServiceContextInterceptor.Handle | middleware/grpc/service_context.go:27-53 | one request gives a new context with the specified value, or the specified error |
| ContextInterceptor.ServiceContextInterceptor.HandleAll | middleware/grpc/service_context.go:27-53 | in any sequence of requests each one is checked against its own method |
| ContextInterceptor.LocalIdentityKeepsSignature | middleware/grpc/service_context.go:55-73 | writing the local identity does not touch the signature of the request |
| ContextInterceptor.LocalIdentityIsWritten | middleware/grpc/service_context.go:55-73 | the configured local identity is written under its two names and nothing else changes |
| ContextInterceptor.CheckedExactly | middleware/grpc/service_context.go:75-124 | skipped methods are let in unverified, and every other request exactly when its signature is accepted for this service with GRPC and its own method as the default target |
| ContextInterceptor.HandledOrigin | middleware/grpc/service_context.go:27-53 | a context has the identity of its service and the trace of its span |
| ContextInterceptor.AcceptanceIsExact | middleware/grpc/service_context.go:75-96 | a checked request is accepted exactly when its signature is accepted under its own options and names this service |
| ContextInterceptor.AcceptedClaims | middleware/grpc/service_context.go:75-96 | accepted claims name this service and, without a configured target, the method of the request |
| ContextInterceptor.BindsToOnePlace | middleware/grpc/service_context.go:83-90 | two accepted requests with one signature, at any services, keys and times, name the same service and method |
| ContextInterceptor.BindingIsExact | middleware/grpc/service_context.go:83-90 | an accepted request would be accepted for another checked method exactly when a target path is configured |
| ContextInterceptor.SomeSignatureIsAccepted | service/context.go:171-197 | any method of any service accepts some signature with no target configured, so the binding results are about something |
| ContextInterceptor.SomeSignatureIsAcceptedTwice | middleware/grpc/service_context.go:83-90 | with a configured target some signature is accepted for any two methods |
| KeyFilter.Filter | authz/authority_metadata.go:105-124 | the filter as a fold over some order of the map's keys |
| KeyFilter.CountIsOrderFree | authz/authority_metadata.go:112 | how often a value passes does not depend on the order of the map |
| KeyFilter.FilteredKeys | authz/authority_metadata.go:112-121 | exactly the allowlisted keys that some key is a spelling of remain |
| KeyFilter.FilteredValues | authz/authority_metadata.go:112-121 | each keeps exactly the values of all its spellings |
| KeyFilter.FilteredInPlace | authz/authority_metadata.go:112-121 | a key with one spelling keeps its values in order |
| AuthorityMetadata.PrepareOutgoing | authz/authority_metadata.go:37-59 | filtered only without a provider; with one, filtered with its token put over it, or not sent at all |
| AuthorityMetadata.AllowedNames | authz/authority_metadata.go:12-34 | the user's authority may pass; the service's authority and its local identity may not |
| AuthorityMetadata.AllowedExactly | authz/authority_metadata.go:12-34 | the allowlist, name by name |
| AuthorityMetadata.NormalExactly | authz/authority_metadata.go:112-114 | keys are compared without blank ends and with ASCII letters in lower case |
| AuthorityMetadata.SentMetadata | authz/authority_metadata.go:37-59 | a call leaves with allowlisted keys and exactly its own token, without local identity, and with the user's authority as it was |
| AuthorityMetadata.SentValues | authz/authority_metadata.go:37-59 | under every allowed name exactly the values of all its spellings are sent, with a token or without; without one nothing else is |
| AuthorityMetadata.SentCarries | authz/authority_metadata.go:105-124 | preparing keeps the user-authority values with their multiplicities |
| AuthorityMetadata.CallChain | authz/authority_metadata.go:37-124 | the same for every hop of a chain of any length, whatever is injected between hops |
| AuthorityMetadata.CallChainInOrder | authz/authority_metadata.go:105-124 | along contexts that spell the key in the normal way the values also keep their order |
| Invoker.UnaryInvoker.Invoke | invocation/invoker.go:92-130 | the order of token, dial and call, what is sent, and that a failure stops everything after it |
| Invoker.UnaryInvoker.WithServiceAuthorityProvider | invocation/invoker.go:80-88 | sets the provider and returns the same invoker |
| Invoker.UnaryInvoker.constructor | invocation/invoker.go:72-77 | the given timeout if it is positive, and five seconds otherwise |
| Invoker.BasesExactly | invocation/invoker.go:132-155 | an invoker starts from the incoming metadata before the outgoing, an interceptor the other way round, and both from none |
| Invoker.PreparingTwice | authz/authority_metadata.go:75-103 | an interceptor that starts from what an invoker has put into the outgoing context sends the same |
| Invoker.EntryKeepsUserAuthority | middleware/grpc/service_context.go:55-73 | a service that writes its own identity at entry and continues through the invoker is a hop of a call chain |
| DecisionStore.CloneEntries | access/access.go:405-412 | equal entries in new arrays, with new arrays below them |
| DecisionStore.CloneDecision | access/access.go:404-414 | an equal decision in new storage on both levels |
| DecisionStore.SameValueIsEqual | access/access.go:404-414 | two decisions with one value are equal in every field, entry and item |
| DecisionStore.DecisionKeyIsExact | access/access.go:290-292 | for all resources and actions, two keys are equal exactly when resource and action are equal once trimmed or one resource runs over, at a NUL, into the other action |
| DecisionStore.KeyStandsForOne | access/access.go:290-292 | a key stands for one trimmed resource and action exactly when at no other NUL it falls into two trimmed parts |
| DecisionStore.NulFreeIsUnambiguous | access/access.go:290-292 | which is so without a NUL in either |
| DecisionStore.DecisionKeyIsNotExactWithNul | access/access.go:290-292 | a NUL in a resource can make two keys equal |
| DecisionStore.Derive | access/access.go:253-260 | a new context with copies of all earlier decisions and of the new one, which replaces only its own key |
| DecisionStore.WithDataAccessDecision | access/access.go:249-261 | the same under the key of the decision; without a decision the context itself |
| DecisionStore.DataAccessDecisionFromContext | access/access.go:264-278 | a copy, in new storage, of what the context holds under that key, if anything |
| DecisionSession.ContextsNeverChange | access/access.go:247-261 | no later event changes what an existing context holds, be it a parent or a sibling |
| DecisionSession.StoredIsFound | access/access.go:249-278 | a child gives the new decision under every resource and action that share its key, which for an unambiguous key are its own ones trimmed, and otherwise what its parent gives |
| DecisionSession.LookupIsLastStored | access/access.go:249-278 | what a context holds under a key is the last decision stored under it on the way from the root |
| DecisionSession.ReadsGiveLastStored | access/access.go:264-278 | in the log of a session, every read gave the last decision stored under its key in its context; for a resource and action with an unambiguous key, the last one stored for them |
| DecisionSession.Session.PutDecision | access/access.go:249-261 | storing logs the decision's value at that moment, and keeps the log explained by the contexts |
| DecisionSession.Session.GetDecision | access/access.go:264-278 | a read gives new arrays with the value that the log explains, which the caller may then change |
| DecisionSession.Session.Change | access/access.go:247-261 | changing any array that the process ever made or was given leaves the log explained |
| DataAccess.CheckItems | access/access.go:358-368 | the scan of references, and of actions: nothing empty and nothing repeated, or the first item that is |
| DataAccess.CleanMeansDistinct | access/access.go:358-368 | a clean list is one whose normalised items are non-empty and pairwise distinct |
| DataAccess.WellFormedRowExactly | access/access.go:353-383 | a well-formed row in its own terms and with the numbers of the dimensions |
| DataAccess.RowFaultExactly | access/access.go:353-383 | which fault of a row is reported |
| DataAccess.WellFormedFieldExactly | access/access.go:385-402 | a well-formed field in its own terms |
| DataAccess.ValidateRowConstraints | access/access.go:353-383 | every row is well formed, or the first that is not and why |
| DataAccess.ValidateFieldActions | access/access.go:385-402 | every field is well formed, or the first that is not and why |
| DataAccess.ValidateRequest | access/access.go:74-82 | a request needs a non-blank resource and a non-blank action |
| DataAccess.Validate | access/access.go:158-187 | a decision is acceptable for the request at that instant, or has the reported fault |
| DataAccess.AcceptableExactly | access/access.go:158-187 | an acceptable decision in the terms of request, decision and instant |
| DataAccess.FaultExactly | access/access.go:158-187 | which fault of a decision is reported, in the order of the checks |
| DataAccess.ExpiredExactly | access/access.go:190-198 | a decision without an expiry is expired, and a zero time stands for the clock |
| DataAccess.VerdictIsUnique | access/access.go:158-187 | acceptance and the faults exclude each other, so that the verdict is determined |
| DataAccess.AcceptedUntilExpiry | access/access.go:158-198 | a decision accepted once is accepted exactly until it expires, and then has no other fault |
| DataAccess.Authorize | access/access.go:210-225 | no error exactly when the authorizer decided and the decision is acceptable; the caller's copy shares no storage with it |
| PolicyRegistry.SortedIsUnique | access/access.go:330-335 | a set of entries has only one strictly sorted order |
| PolicyRegistry.ListingOrderIsFree | access/access.go:317-335 | two lists of distinct entries sort to the same sequence exactly when they have the same entries |
| PolicyRegistry.KeysAreExact | access/access.go:323-327 | trimmed entries have distinct keys exactly when they are distinct and none runs over, at a NUL, into another |
| PolicyRegistry.RepeatsAreFoundExactly | access/access.go:323-327 | so the check for repeated entries is exact if and only if no two distinct entries of the list run over into each other |
| PolicyRegistry.NulFreeNeverRunsOver | access/access.go:323-327 | which none does when no resource has a NUL |
| PolicyRegistry.ListingValidExactly | access/access.go:308-339 | a listing is accepted exactly when no method or list is empty and the entries of each method are named, distinct and do not run over |
| PolicyRegistry.KeysAreNotExactWithNul | access/access.go:323-327 | with a NUL, two different entries can be taken for one |
| PolicyRegistry.BuildEntries | access/access.go:315-336 | the entries of one method: all named and no key repeated, and then sorted, or what is wrong |
| PolicyRegistry.NewDataAccessPolicyRegistry | access/access.go:308-339 | succeeds exactly when no method, list or entry is blank or empty and no entry repeats; the table is in new storage |
| PolicyRegistry.TableIsCanonical | access/access.go:308-339 | the table does not depend on the listing order or on the order in which the map is visited |
| PolicyRegistry.TableIsDetermined | access/access.go:310-336 | a listing determines its table exactly when methods with one name have the same entries |
| PolicyRegistry.TableHoldsListing | access/access.go:330-336 | for methods that stay distinct once trimmed, the table of an accepted listing has under each method exactly its entries, strictly sorted |
| PolicyRegistry.TableIsInOrder | access/access.go:330-335 | the entries of a table stand in the lexicographic order of their resources, and of their actions where those are equal |
| PolicyRegistry.EntriesAreTrimmed | access/access.go:317-319 | the entries are the given ones with resource and action trimmed |
| PolicyRegistry.FailsExactly | access/access.go:310-327 | what each error says about its method |
| PolicyRegistry.TableIsUnique | access/access.go:308-339 | the same methods with the same entries give the same table, in whatever order they are listed and visited |
| PolicyRegistry.OutcomeIsDetermined | access/access.go:310-336 | an accepted listing has one possible table exactly when methods that are equal once trimmed have the same entries |
| PolicyRegistry.VisitingOrderMatters | access/access.go:310-336 | a listing with two such methods that has two possible tables |
| PolicyRegistry.PolicyRegistry.Lookup | access/access.go:342-351 | the entries of the trimmed method in an array of the caller's own |
| PolicyRegistry.PolicyRegistry.CallerWrites | access/access.go:307-351 | writing to an input or to an answer leaves the table as it is |
| RequestScope.NewRequestScopePolicyRegistry | service/request_scope.go:83-101 | all policies when all are valid, and otherwise the fault of one of them |
| RequestScope.PolicyValidExactly | service/request_scope.go:56-73 | which policies are valid, mode by mode |
| RequestScope.ExtractRequestScope | service/request_scope.go:235-275 | the scope that the policy lets the message choose, or the first thing that is wrong |
| RequestScope.ExtractsExactly | service/request_scope.go:235-275 | the extracted scope in the terms of the message: the two named fields where the policy allows them |
| RequestScope.FaultsExactly | service/request_scope.go:235-295 | why nothing is extracted, and that a NONE method extracts the empty scope |
| RequestScope.OtherFieldsDoNotMatter | service/request_scope.go:233-275 | nothing but the allowed dimensions has any influence on the extracted scope |
| RequestScope.ContainsScopeValue | service/request_scope.go:300-309 | membership |
| RequestScope.ValidateDecision | service/request_scope.go:161-180 | an allowing decision passes exactly when it is unexpired and covers every explicit dimension |
| RequestScope.Intercept | middleware/grpc/request_scope.go:34-104 | the handler runs at most once, and exactly when it may; on a bound method only with a scope whose decision is absent exactly when nothing was explicit, and else is the authorizer's own, allowed, unexpired and covering |
| RequestScope.BindingExactly | service/request_scope.go:104-112 | a method is bound exactly by its registered policy, unless its mode is NONE |
| RequestScope.SafeExactly | middleware/grpc/request_scope.go:50-104 | when a bound request may run with a scope, in the terms of registry, message and decision, both ways |
| RequestScope.ChosenIsDecided | middleware/grpc/request_scope.go:67-101 | an application or tenant that the message names runs only with a decision that allows and covers it, and a request that names neither with none |
| RequestScope.ScopeIsLimited | middleware/grpc/request_scope.go:50-68 | the scope with which a handler runs keeps to the dimensions of the policy |
| RequestScope.SafeIsUnique | middleware/grpc/request_scope.go:50-101 | requests that agree on method and allowed dimensions run with the same scope and decision |
| RequestScope.SafeUntilExpiry | service/request_scope.go:166-169 | what may run at an instant may run at another exactly while its decision is unexpired |

## Left out

- Real network dialling, gRPC transport, dial options and OpenTelemetry: a dial, a fetch and a remote call are outcomes that the environment chooses; a successful dial gives a new connection.
- Signature check, base64url, JSON, PEM and key loading: parameters of `AuthzSign.Verify`; nothing is assumed about them.
- Logging, host inspection, configuration sources, error rendering, HTTP middleware, application wiring and the remote-service map: plumbing with little state, about which there is little to prove.
- Parsing of RFC 3339 times and of durations: the model starts from instants and durations.
- Nil receivers and nil contexts, and the checks of constructors for missing functions.
- Races of the Go memory model: each lock section is one atomic step, and each cached field that a lock protects is read in one.
- Dns.DnsManager.Build: two goroutines that fill one shared description at the same time are not modelled.
- Wrap-around of the 64-bit generation counter, and of instants and durations other than the backoff product, which are unbounded.
- RefreshSchedule.RunRefreshLoop: one loop runs alone. Interleaved loops are the subject of `AuthorityRuns`, without time.
- AuthorityRuns.TerminatesAfterCancellation: that a fetch returns is taken from the environment.
- ServiceAuthority.CachedServiceAuthorityProvider.ServiceAuthorityStatus: the refresh window is a duration and not its text, and the seconds left are exact, where the floating-point division of the source can round a last nanosecond up for lifetimes of months.
- Text.ToLower and `EqualFold`: case pairs are those of the ASCII letters and of the other characters that fold to them; Go folds further pairs of non-ASCII letters. Strings are sequences of characters, not of bytes.
- The filter's input: gRPC lower-cases incoming keys before the filter sees them; the model's filter takes any spelling.
- Nil and empty slices are one value, and a list of a request context is an object whose content never changes, so that the model shows which lists are shared but not writes into them. Writes into shared storage are modelled for data-access decisions and for policy tables.
- ServiceContext.Context.ReadMetadata: the flat user and decision fields of a context are kept in two records rather than in fourteen fields.
- RequestScope.Intercept: protobuf reflection is a map from the names of a message's top-level fields to a string or something else; an authorizer is any function of the question put to it, and its answer is taken as a value, so that an authorizer that changes its own lists after answering is not modelled. An unknown mode is a case of its own.
- PolicyRegistry.BuildEntries: sorting is the library's; the model sorts by insertion, and `SortedIsUnique` says that no other sorted order exists.
- DataAccess.Authorize: the answer of the authorizer is a parameter, and a nil authorizer is its absence.
- The loop of `Close` over nil connections: a dial that succeeds gives a connection, so none is cached.
