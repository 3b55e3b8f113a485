# Verified model of the SDKWork web framework

A Dafny model of the parts of the framework whose correctness is a statement about runs,
interleavings or arbitrary inputs, with proofs of those statements. `dafny verify dfyconfig.toml`
checks everything.

The project has six parts.

- **Guard call chain and concurrency leases.** `ChainPolicy`, `AdmissionStore`, `CallChain` and
  `Leases`: the ordered chain of guard stages, the concurrency stage's leases on the shared counting
  store, and any number of contexts interleaved over that store.
- **Request lifecycle.** `Lifecycle` is the middleware around the 18-stage interceptor chain, as the
  sequence of calls one request makes on the idempotency and admission stores. `Interleavings`,
  `ReplaySafety`, `Retries` and `Admission` run any number of requests over the shared stores, one store
  call at a time, and `Expire` removes entries as retention and the store budgets do.
- **API assembly.** `Text`, `Json`, `Routes`, `RouteOperations`, `Inventory`, `OpenApiBuild` and
  `OpenApiGenerated` go from manifest to document and back. `OpenApiMerge`, `OpenApiDocuments` and
  `OpenApiWriting` merge documents and write the result; `OpenApiShapes`, `OpenApiSections`, `OpenApiLists`,
  `OpenApiVersions`, `OpenApiCombined` and `OpenApiDetermined` say what that result is in terms of the
  contributed documents alone. `Operations`, `Manifests`, `Composition` and `Assembly` compose owners;
  `Occurrences` and `ModuleRegistry` are the registry.
- **Metrics.** `Metrics` is the bounded series registry against one bounded map, `MetricsSeries` says what that
  map shows of the observations, `MetricsRecorders` is the 64 locked shards and the atomic counter under
  interleaved recorders.
- **Codecs.** `Bits`, `Base64Url` (section 5 of RFC 4648) and `Fnv`; the unmasked `u32` and `u64` buffers
  are modelled with their wrap-around.
- **Authorization-scope cache.** `ScopeKeys`, `ScopeCache` and `ScopeRuns`: keys, prefixes, the TTL cache
  and interleaved lookups, resolutions, stores and invalidations.

Stated assumptions: stores answer atomically; a failed acquire changes nothing; the in-process stores
behave as in `stores.rs` and `policy_cache.rs`, and a distributed admission store may additionally be
unavailable; clocks, handlers, stage verdicts, audit outcomes, the shard hash and the JSON serializer
are parameters. Where the combined security list is concerned, the serializer tells different requirements
apart (`OpenApiWriting.Separates`); the combined document itself is determined for any serializer.

Results that are not simply "the intended property holds":

- Lease and slot counts equal their holders exactly as long as no zero limit is used: the store grants a
  zero limit without counting it, and the later release takes a slot another request holds
  (`Leases.UncountedReleaseSteals`).
- A request whose before chain fails after its admission releases its slot twice, and one that fails or
  panics as a leader releases its reservation twice. The slot counts survive exactly the second releases
  that find nothing. A second release of a reservation that another leader relies on does not by itself
  make two leaders, but it frees the key: leaders stay exclusive under everything harmless that can follow
  exactly when no such release (or expiry of a reservation in progress) happened
  (`Interleavings.RunExclusiveExactly`). `Interleavings.ExclusivityFails` and
  `Admission.LateFailureLosesSlot` are runs in which it happens.
- A request cancelled in its handler keeps its slot: once every request is over, the holders of a key are
  exactly those (`Admission.QuiescentHolders`).
- Under one positive limit a key's holders stay within it under everything harmless that can follow exactly
  when no second release found a live count (`Admission.LimitExactly`).
- Once the before chain has passed and the handler has answered or timed out, a leader's reservation stays
  pending exactly when the audit hook fails or the body is too large to buffer. If the handler was cancelled
  it is released, and so it is when the chain failed or the handler panicked.
- An authorization scope resolved before an invalidation can be stored after it
  (`ScopeRuns.StaleAfterInvalidation`); the cache stays current, and callers go on being served current
  scopes, exactly when no such answer is stored (`ScopeRuns.RunServesCurrent`).
- The doc comment of `ApiModuleRegistry::try_compose` (lines 454-456) says a contribution exposed twice by
  one module is always mounted. The code mounts both, and the composition then always refuses the second.
- A scope cached for one subject is served to another exactly when the two share a key: with caching on, a
  caller is safe from that exactly when none of its fields contains a bar and no optional field is absent or
  a literal dash (`ScopeRuns.ServedOwnExactly`). Invalidating a tenant also drops the entries of tenants
  whose id continues the tenant's behind a bar, and invalidating a subject those of tenants whose id
  continues the subject's key (`ScopeKeys.SubjectSweeps`).
- The comment on `ResolvedChainPolicy::origin` (policy.rs:136) promises the most specific layer that
  contributed, with the key's id. The code names the per-key layer without an id, and names it even when
  that layer sets nothing (`ChainPolicy.OriginExactly`).
- The doc comment of `invalidate_user` says "across contexts"; the prefix contains the organization, so
  only the contexts of that organization are dropped.

## Model

| member | source | states |
|---|---|---|
| AdmissionStore.Store.TryAcquire | crates/sdkwork-web-core/src/stores.rs:86-100 | an acquire succeeds below the limit and adds one; at the limit, or when the store is unreachable, nothing changes; a zero limit succeeds uncounted |
| AdmissionStore.Store.ReleaseKeys | crates/sdkwork-web-chain/src/concurrency.rs:77-87 | the loop releases the keys in reverse and leaves the store of the pure release function |
| AdmissionStore.ReleaseAllCounts | crates/sdkwork-web-chain/src/concurrency.rs:77-87 | releasing a list lowers each key's count by its multiplicity, never below zero |
| CallChain.Build | crates/sdkwork-web-chain/src/chain.rs:340-356 | building refuses exactly lists with a repeated stage name, and otherwise arranges the given stages so that lower orders run first and equal orders in ascending lexicographic order of their names |
| CallChain.BuildCanonical | crates/sdkwork-web-chain/src/chain.rs:340-356 | two lists of distinctly named stages build the same chain exactly when they are permutations of each other, and that chain is in run order |
| ChainPolicy.MostSpecificWins | crates/sdkwork-web-chain/src/policy.rs:162-228 | limits, IP access, whitelist and denylist of the merged policy are each that of the most specific layer that sets it, and unset when none does |
| ChainPolicy.OriginExactly | crates/sdkwork-web-chain/src/policy.rs:134-228 | the origin is the documented most specific contributing layer exactly when the layer it names sets a field or is the defaults |
| CallChain.EnabledUnderLayers | crates/sdkwork-web-chain/src/policy.rs:95-116 | under a merged policy a stage takes part exactly when the deciding whitelist has it and the deciding denylist has not |
| CallChain.KeysSeparate | crates/sdkwork-web-chain/src/concurrency.rs:61-75 | two leases go under one store key exactly when they are for the same scope and the same id in it |
| CallChain.WantExactly | crates/sdkwork-web-chain/src/policy.rs:48-57 | the limit asked for is the override of the scope's own name, else the shared maximum, and nothing is asked for without an id or a limit |
| CallChain.GrantedCounts | crates/sdkwork-web-chain/src/concurrency.rs:100-146 | with positive limits the granted leases are what the store gained, and a refusal leaves no trace |
| CallChain.GrantedExactly | crates/sdkwork-web-chain/src/concurrency.rs:100-146 | leases are granted exactly when every ask the store answers is below its limit, earlier asks for the same key included; then they are the keys of those asks in order, and otherwise none |
| CallChain.Chain.LeaseBefore | crates/sdkwork-web-chain/src/concurrency.rs:100-146 | with positive limits, on pass the store gains exactly the recorded leases and on rejection every count is where it was |
| CallChain.Chain.LeaseCleanup | crates/sdkwork-web-chain/src/concurrency.rs:148-161 | the lease state is taken and every lease given back, once |
| CallChain.Chain.RunBefore | crates/sdkwork-web-chain/src/chain.rs:228-253 | on success every enabled stage ran in order, and an enabled concurrency stage holds the leases granted on the store as it was; a rejection or failure at the k-th enabled stage undoes exactly the stages before it in reverse; no hook runs before that of an enabled stage of lower order; disabled stages run no hook; with positive limits an error has net effect zero on every key |
| CallChain.Chain.RunAfter | crates/sdkwork-web-chain/src/chain.rs:257-264 | hooks run backwards until the first failing one, and the leases go back exactly when the concurrency stage is reached |
| CallChain.Chain.RunOnError | crates/sdkwork-web-chain/src/chain.rs:268-281 | every enabled hook runs in exact reverse order and the leases go back |
| CallChain.ReleasedOnce | crates/sdkwork-web-chain/src/chain.rs:62-79 | over any sequence of `after` and `on_error` calls, with hooks failing arbitrarily, the leases are released at most once, and exactly once as soon as one call reaches the concurrency stage |
| CallChain.CleanCallReleases | crates/sdkwork-web-chain/src/chain.rs:257-281 | an `on_error` or an error-free `after` always reaches it |
| Leases.StepConserves | crates/sdkwork-web-chain/src/concurrency.rs:77-162 | with positive limits every step of any context keeps each key's count equal to the leases held by live, starting and releasing contexts |
| Leases.LimitHolds | crates/sdkwork-web-chain/src/concurrency.rs:100-146 | with one fixed limit per key the count never exceeds it in any interleaving |
| Leases.ConservationExactly | crates/sdkwork-web-core/src/stores.rs:86-111 | conservation holds in every reachable state exactly when no context acquires under a zero limit |
| Leases.UncountedReleaseSteals | crates/sdkwork-web-core/src/stores.rs:86-111 | a run in which an uncounted lease, given back, frees a slot another context holds |
| Leases.Lease | crates/sdkwork-web-chain/src/concurrency.rs:100-146 | the stage on a context is a run of the interleaved machine: its program is the wants of the scopes, and store and leases end up the same |
| Lifecycle.StandardPositions | crates/sdkwork-web-core/src/api_chain.rs:662-720 | where the two protocols and the fallible audit hook sit among the 18 stages |
| Lifecycle.Host.IdempotencyBefore | crates/sdkwork-web-core/src/interceptors.rs:350-403 | the result is the store's answer for the given key and fingerprint, one call is made, and the state reflects leader or replay |
| Lifecycle.Host.TryAcquireTenantConcurrency | crates/sdkwork-web-core/src/interceptors.rs:1238-1261 | the slot is taken or refused as the store answers for the given key and limit, and the key is recorded exactly when it was granted |
| Lifecycle.Host.ChainBefore | crates/sdkwork-web-core/src/api_chain.rs:748-774 | the reported failure is the plan's first failing stage, and each of the two protocol stages called its store, with the plan's key, exactly when the chain came to it |
| Lifecycle.Host.IdempotencyAfter | crates/sdkwork-web-core/src/interceptors.rs:525-602 | a leader's buffered 2xx answer is stored in its entry; streams and other statuses free the key if it is still reserved; an oversized body fails and changes nothing; others leave the entries alone |
| Lifecycle.Host.ChainAfter | crates/sdkwork-web-core/src/api_chain.rs:776-789 | hooks run in reverse and the first failure skips the rest |
| Lifecycle.Host.FinalizeResponse | crates/sdkwork-web-axum/src/middleware.rs:358-386 | after chain, then the slot release whatever it answered, then the answer or the problem |
| Lifecycle.Host.Middleware | crates/sdkwork-web-axum/src/middleware.rs:388-491 | the code's store calls are exactly the calls of the returned run, for every exit, and the run is the one the plan comes to on these stores |
| Lifecycle.FollowsUnique | crates/sdkwork-web-axum/src/middleware.rs:388-491 | plan and stores determine the run |
| Lifecycle.PossibleExactly | crates/sdkwork-web-core/src/api_chain.rs:748-774 | the runs the interleavings quantify over, where the stores give their first answers, are exactly those that some plan comes to |
| Lifecycle.SlotReleaseCount | crates/sdkwork-web-axum/src/middleware.rs:311-318 | a slot is released twice exactly when a later stage failed, never when cancelled in the handler, once otherwise |
| Lifecycle.LeaderResolution | crates/sdkwork-web-axum/src/middleware.rs:320-386 | once the before chain passed and the handler answered or timed out, a reservation is left pending exactly when audit failed or the body was too large; every other run resolves it |
| Lifecycle.DoubleReleaseExactly | crates/sdkwork-web-axum/src/middleware.rs:418-485 | a run resolves its reservation at most twice, and twice exactly on a failed stage or a panic whose after chain passes |
| Lifecycle.CompleteExactly | crates/sdkwork-web-core/src/interceptors.rs:525-602 | a run stores a record under a key and fingerprint exactly when it led them, its whole before chain passed, the audit hook did not fail, and its handler gave a 2xx answer that is no stream and small enough to buffer; the record is that answer |
| Lifecycle.ReplayExactly | crates/sdkwork-web-axum/src/middleware.rs:439-447 | a replayed record is the answer exactly of a request that got it from the store and whose before chain passed, with no audit failure |
| Interleavings.StepExact | crates/sdkwork-web-axum/src/middleware.rs:298-309 | unresolved leaders and reservations correspond one to one, and one step keeps that exactly unless it is a second release or expiry that finds a reservation in progress |
| Interleavings.RunExact | crates/sdkwork-web-axum/src/middleware.rs:418-485 | the same equivalence over whole interleaved runs; without a stray step every unresolved leader has its reservation and no two share a key |
| Interleavings.ExclusiveExactly | crates/sdkwork-web-axum/src/middleware.rs:298-309 | leaders stay exclusive under everything harmless that may follow a step exactly when the step is not a stray release or expiry |
| Interleavings.RunExclusiveExactly | crates/sdkwork-web-axum/src/middleware.rs:418-485 | over a whole run exclusivity is secure at every moment exactly when no step is stray |
| Interleavings.ExclusivityExactly | crates/sdkwork-web-axum/src/middleware.rs:418-485 | both equivalences for every run from empty stores |
| Interleavings.AloneExactly | crates/sdkwork-web-axum/src/middleware.rs:388-491 | a request left alone makes its calls exactly when the stores give the answers its run records, and leaves the stores after those calls |
| Interleavings.Serve | crates/sdkwork-web-axum/src/middleware.rs:388-491 | the middleware on its own stores follows its plan and is a run of the interleaved machine with the same final stores |
| Interleavings.OnceExclusive | crates/sdkwork-web-core/src/interceptors.rs:573-590 | requests that resolve at most once are exclusive leaders in every interleaving |
| Interleavings.ExclusivityFails | crates/sdkwork-web-axum/src/middleware.rs:418-427 | a reachable world with two unresolved leaders on one key and fingerprint, after a refused request's second release |
| ReplaySafety.RecordsEarned | crates/sdkwork-web-core/src/interceptors.rs:525-602 | in every reachable world every stored record was earned under its key and fingerprint |
| ReplaySafety.ReplaysEarned | crates/sdkwork-web-core/src/interceptors.rs:350-403 | in every reachable world a replayed answer went to a request whose stages all passed, from a record earned by a leader with the same key and fingerprint |
| Retries.KeyAnswers | crates/sdkwork-web-core/src/stores.rs:229-265 | in any world only one answer is possible for a key: leader if it is free, conflict while it is reserved, replay of the stored record for its fingerprint and conflict for any other |
| Retries.PendingConflicts | crates/sdkwork-web-core/src/stores.rs:229-265 | over any run without a stray step, as long as a leader has not resolved, every request for its key is refused |
| Retries.CompletedAnswers | crates/sdkwork-web-core/src/stores.rs:229-300 | once a leader has completed, over any run until its entry expires, the only answer to its key is the replay of its record, and a conflict for every other fingerprint |
| Retries.RetryAnswered | crates/sdkwork-web-axum/src/middleware.rs:388-491 | the second of two lone requests with a key replays the record the first one completed, leads if the first one released the key, and is refused if it left it pending or has another fingerprint |
| Retries.RetryReplays | crates/sdkwork-web-axum/src/middleware.rs:439-447 | it is answered with that record exactly when its own before chain and audit pass |
| Retries.ServeTwice | crates/sdkwork-web-axum/src/middleware.rs:388-491 | the same of the middleware serving one request after the other on its stores |
| Admission.StepConserves | crates/sdkwork-web-axum/src/middleware.rs:311-318 | one step keeps counts equal to slot holders exactly unless it is a second release on a live count or a zero-limit admission |
| Admission.RunConserves | crates/sdkwork-web-axum/src/middleware.rs:358-491 | the same equivalence over whole interleaved runs |
| Admission.CleanRunsConserve | crates/sdkwork-web-axum/src/middleware.rs:358-491 | without a stage failure behind Authentication and with positive limits every interleaving conserves slots |
| Admission.QuiescentHolders | crates/sdkwork-web-axum/src/middleware.rs:311-318 | once every request of a reachable world is over, the holders of a key are exactly the admitted requests cancelled in their handler |
| Admission.HoldersWithinLimit | crates/sdkwork-web-core/src/interceptors.rs:1238-1261 | such requests never hold more slots than one positive limit allows |
| Admission.WithinExactly | crates/sdkwork-web-core/src/interceptors.rs:1238-1261 | a key used under one positive limit: its holders stay within the limit under everything harmless that may follow a step exactly when the step is not a second release on a live count |
| Admission.RunWithinExactly | crates/sdkwork-web-axum/src/middleware.rs:311-318 | over a whole run the limit is secure at every moment exactly when the key is never miscounted |
| Admission.LimitExactly | crates/sdkwork-web-axum/src/middleware.rs:358-491 | the same for every run from empty stores |
| Admission.CountWithinLimit | crates/sdkwork-web-core/src/stores.rs:86-100 | with one limit per key the count stays within it in every interleaving, stray releases included |
| Admission.LateFailureLosesSlot | crates/sdkwork-web-axum/src/middleware.rs:418-427 | a reachable world with a holder and a zero count, and then two holders under a limit of one |
| Base64Url.DecodeJwt | crates/sdkwork-web-core/src/jwt.rs:128-153 | accepts exactly strings whose symbols before the first `=` are all legal, and returns their decoding: floor(3n/4) bytes |
| Base64Url.DecodeClaims | crates/sdkwork-web-core/src/parsers.rs:315-341 | the second decoder, against the same specification |
| Base64Url.DecodingUnique | crates/sdkwork-web-core/src/jwt.rs:128-153 | an accepted string has one decoding |
| Base64Url.DecodersAgree | crates/sdkwork-web-core/src/parsers.rs:315-341 | both decoders accept the same strings and return the same bytes |
| Base64Url.Encode | crates/sdkwork-web-core/src/jwt_fixtures.rs:181-208 | the encoder spells its bytes in the URL-safe alphabet without padding |
| Base64Url.RoundTrip | crates/sdkwork-web-core/src/jwt_fixtures.rs:181-208 | decoding what encodes a byte string gives that byte string back |
| Base64Url.ConstantTimeEq | crates/sdkwork-web-core/src/jwt.rs:155-164 | the accumulated difference is zero exactly for equal byte strings |
| Base64Url.AlphabetExactly | crates/sdkwork-web-core/src/jwt.rs:137-144 | the symbols of a value are its own in table 2 of RFC 4648 and, for 62 and 63, those of the standard alphabet |
| Fnv.Fnv1a64 | crates/sdkwork-web-core/src/hashing.rs:5-12 | the loop folds xor and wrapping multiply |
| Fnv.HashSnoc | crates/sdkwork-web-core/src/hashing.rs:1-12 | no bytes hash to the offset basis, and one more byte is xored in before the multiplication by the prime modulo 2^64 |
| Fnv.MulUndo | crates/sdkwork-web-core/src/hashing.rs:5-12 | the wrapping multiply by the prime has an inverse |
| Fnv.HashSeparation | crates/sdkwork-web-core/src/hashing.rs:5-12 | two materials with a common suffix collide exactly when their prefixes do |
| Fnv.OneByteSeparates | crates/sdkwork-web-core/src/hashing.rs:14-17 | materials of equal length that differ in one byte never share a key |
| Fnv.HexRoundTrip | crates/sdkwork-web-core/src/hashing.rs:14-17 | sixteen hex digits determine the hash |
| Metrics.RecordedCoherent | crates/sdkwork-web-core/src/metrics.rs:388-401 | recording keeps the duration count equal to the bucket sum, at saturation too |
| Metrics.RecordedGrows | crates/sdkwork-web-core/src/metrics.rs:388-401 | a duration raises the count, the duration count and its own bucket by one and no other bucket, and the duration sum by its microseconds, all saturating; without a duration only the count rises |
| Metrics.SettleGrows | crates/sdkwork-web-core/src/metrics.rs:267-297 | an observation of a stored key, or of a new one while there is room, grows that series and no other; any other is one more drop |
| Metrics.RenderBuckets | crates/sdkwork-web-core/src/metrics.rs:416-433 | rendered cumulative buckets never decrease and end at the duration count |
| Metrics.SettleCounts | crates/sdkwork-web-core/src/metrics.rs:267-297 | one observation adds one to the series counts or to the drops, up to saturation |
| Metrics.ReplayConserves | crates/sdkwork-web-core/src/metrics.rs:267-297 | after any observations series counts plus drops equal their number, saturating as one u64 counter; the series stay within the maximum |
| MetricsSeries.StoredExactly | crates/sdkwork-web-core/src/metrics.rs:267-297 | after any observations a key has a series exactly when its text is not too long and it was first seen before the maximum of other keys |
| MetricsSeries.SeriesShows | crates/sdkwork-web-core/src/metrics.rs:388-401 | each stored series shows the observations of its key: their number, the number with a duration, the number in each bucket and the sum of the microseconds, clamped |
| MetricsSeries.DroppedExactly | crates/sdkwork-web-core/src/metrics.rs:267-297 | the drops are the number of observations of keys without a series, clamped |
| Metrics.MergedWrite | crates/sdkwork-web-core/src/metrics.rs:410-414 | a series written in its own shard is written in the one map the shards stand for |
| Metrics.Registry.RecordRequestObservation | crates/sdkwork-web-core/src/metrics.rs:267-297 | the sharded registry does what the single bounded map does: the one series of the key grows by the observation, or there is one more drop; the total rises by one and accounts for every series and drop |
| MetricsRecorders.MutualExclusion | crates/sdkwork-web-core/src/metrics.rs:278-297 | two recorders are never inside the same shard |
| MetricsRecorders.InsertIsFresh | crates/sdkwork-web-core/src/metrics.rs:284-297 | an insert never overwrites a series |
| MetricsRecorders.StepRefines | crates/sdkwork-web-core/src/metrics.rs:267-297 | every step leaves the single map alone or settles one observation on it |
| MetricsRecorders.RunRefines | crates/sdkwork-web-core/src/metrics.rs:267-297 | every interleaving does what some one-at-a-time order does; the counter is the stored series plus the reservations and within the maximum |
| MetricsRecorders.Accounting | crates/sdkwork-web-core/src/metrics.rs:251-297 | the total of every reachable registry is series counts plus drops plus requests in flight |
| MetricsRecorders.QuiescentRun | crates/sdkwork-web-core/src/metrics.rs:267-297 | when every call has returned, shards, counter, drops and total are those of the single map after a permutation of the observations |
| ScopeKeys.KeyIsOwnExactly | crates/sdkwork-web-core/src/authz_scope.rs:137-149 | among subjects without a literal dash, exactly those without a bar in any field have a key of their own |
| ScopeKeys.KeyIsAloneExactly | crates/sdkwork-web-core/src/authz_scope.rs:137-149 | among all subjects, exactly those without a bar in a field and without a dash for an optional share their key with nobody |
| ScopeKeys.DashCollides | crates/sdkwork-web-core/src/authz_scope.rs:137-149 | an absent optional field and the literal dash give two subjects one key |
| ScopeKeys.TenantSelects | crates/sdkwork-web-core/src/authz_scope.rs:152-154 | for a tenant id without a bar the prefix selects, among all subjects, those of that tenant id or of one that continues it behind a bar |
| ScopeKeys.TenantSelectsExactly | crates/sdkwork-web-core/src/authz_scope.rs:152-154 | for any tenant id, bars included, the keys selected: their pieces between bars begin with those of the id |
| ScopeKeys.UserSelectsExactly | crates/sdkwork-web-core/src/authz_scope.rs:157-164 | for any two subjects, whether the user prefix of one selects the key of the other, in terms of the pieces between bars |
| ScopeKeys.UserSelects | crates/sdkwork-web-core/src/authz_scope.rs:157-164 | when tenant, organization and user are unambiguous the user prefix selects exactly the keys of the same three, whatever app and session hold |
| ScopeKeys.SubjectSelectsExactly | crates/sdkwork-web-core/src/authz_scope.rs:380-382 | for any two subjects, whether the key of one, used as a prefix, selects the key of the other, in terms of the pieces between bars |
| ScopeKeys.SubjectSelects | crates/sdkwork-web-core/src/authz_scope.rs:380-382 | a subject without a bar in a field is selected exactly under its own key, whatever the invalidated subject holds |
| ScopeKeys.SubjectSweeps | crates/sdkwork-web-core/src/authz_scope.rs:380-382 | every invalidated subject also selects another one, whose tenant id continues its key |
| ScopeKeys.BarTenantIsSwept | crates/sdkwork-web-core/src/authz_scope.rs:391-393 | a tenant id that continues another behind a bar is hit by the other's invalidation |
| ScopeCache.TtlCache.GetValid | crates/sdkwork-web-core/src/policy_cache.rs:38-50 | an entry is served strictly before it expires, and an expired one is dropped |
| ScopeCache.TtlCache.InvalidatePrefix | crates/sdkwork-web-core/src/policy_cache.rs:63-66 | a key is left exactly when it was there and lacks the prefix, and what is left keeps its value |
| ScopeCache.Provider.Materialize | crates/sdkwork-web-core/src/authz_scope.rs:331-376 | live entry, else source answer cached for one TTL (absence too); a scope is granted, an absence granted as the credential's claims or refused as configured; a source error caches nothing |
| ScopeCache.Provider.InvalidateSubject | crates/sdkwork-web-core/src/authz_scope.rs:380-382 | for every subject whether its entry goes, in terms of pieces; of those without a bar in a field exactly the ones with the invalidated key go |
| ScopeCache.Provider.InvalidateUser | crates/sdkwork-web-core/src/authz_scope.rs:385-387 | for every subject whether its entry goes, in terms of pieces; exactly the user in the same organization among subjects whose first three fields are unambiguous |
| ScopeCache.Provider.InvalidateTenant | crates/sdkwork-web-core/src/authz_scope.rs:391-393 | for every subject whether its entry goes, in terms of pieces; for a tenant id without a bar exactly when the subject's id is the given one or continues it behind a bar |
| ScopeRuns.GrantedFromSource | crates/sdkwork-web-core/src/authz_scope.rs:331-376 | in every interleaving a granted scope is the source's answer for a caller of the run with the same key, cached less than one TTL earlier, or the credential's under the claims fallback; never the credential's under Deny |
| ScopeRuns.FallbackDecides | crates/sdkwork-web-core/src/authz_scope.rs:331-376 | in every interleaving a lookup that ends without a scope of the source got an error or an absence for its own key from it, and an absence is the credential's grant under the claims fallback and a refusal under Deny |
| ScopeRuns.ServedExactly | crates/sdkwork-web-core/src/authz_scope.rs:331-376 | some run serves a caller the scope resolved for a subject exactly when they share a key and are equal or caching is on |
| ScopeRuns.ServedOwnExactly | crates/sdkwork-web-core/src/authz_scope.rs:137-149 | with caching on, no run serves a caller another subject's scope exactly when no field of it has a bar and no optional shows as a dash |
| ScopeRuns.StepCurrent | crates/sdkwork-web-core/src/authz_scope.rs:344-358 | one step keeps the cache free of scopes older than an invalidation covering them exactly unless it stores an overtaken answer |
| ScopeRuns.RunCurrent | crates/sdkwork-web-core/src/authz_scope.rs:344-394 | the same equivalence over whole runs |
| ScopeRuns.StepServesCurrent | crates/sdkwork-web-core/src/authz_scope.rs:331-376 | with caching on, no later lookup can be served an entry older than an invalidation covering it exactly when the step does not store an overtaken answer |
| ScopeRuns.RunServesCurrent | crates/sdkwork-web-core/src/authz_scope.rs:331-394 | the same over whole runs |
| ScopeRuns.StaleAfterInvalidation | crates/sdkwork-web-core/src/authz_scope.rs:344-394 | a run in which a caller that looks up after the tenant was invalidated is served the scope resolved before |
| Routes.LabelsAgree | crates/sdkwork-web-contract/src/openapi.rs:1220-1238 | the document's auth mode and the manifest's auth profile are the same label |
| Routes.OperationFacts | crates/sdkwork-web-contract/src/openapi.rs:260-344 | a built operation carries the route's id, surface and auth profile where the reader looks, whatever else it carries |
| RouteOperations.SurfaceExactly | crates/sdkwork-web-contract/src/openapi.rs:126-142 | each reserved surface is told by its own prefix alone, and only paths without a leading slash have none |
| RouteOperations.OperationSecurity | crates/sdkwork-web-contract/src/openapi.rs:278-300 | the credentials that open a built operation are exactly those its authentication asks for, and outside anonymous and open-API routes the access token is always among them |
| RouteOperations.OperationExtensions | crates/sdkwork-web-contract/src/openapi.rs:144-212 | forbidden headers, rate tier, retention, permissions, required surface, context and auth label stand in the operation exactly when and as the route declares them |
| RouteOperations.UpstreamKept | crates/sdkwork-web-contract/src/openapi.rs:306-344 | a compatibility operation keeps its upstream except for security and extensions, and names its external protocol |
| RouteOperations.AuthorityNamesSurface | crates/sdkwork-web-contract/src/openapi.rs:27-81 | a stamped operation names its owner, and its authority is the owner and the surface the operation declares |
| Inventory.SortedEntries | crates/sdkwork-web-contract/src/inventory.rs:32-39 | two inventories are equal exactly when they hold the same rows |
| Inventory.ReadInventory | crates/sdkwork-web-contract/src/inventory.rs:41-93 | the reader succeeds exactly when every path item is an object and every listed operation has the three texts, and returns one row for each of them in ascending order |
| Inventory.RowMember | crates/sdkwork-web-contract/src/inventory.rs:48-90 | the rows it visits are the operations with a listed method in any letter case |
| Inventory.InventoriesExactly | crates/sdkwork-web-contract/src/inventory.rs:41-93 | one row for each listed operation with its three non-blank texts, ascending field by field: that is the inventory of a readable document and of no other list |
| Inventory.SegmentsExactly | crates/sdkwork-web-contract/src/inventory.rs:96-115 | the segments of a path are what stands between the slashes of the path without blanks and slashes at its ends |
| Inventory.NormalizedSegments | crates/sdkwork-web-contract/src/inventory.rs:96-115 | the normalized path is its segments behind slashes, colon parameters in braces, and splits into them again |
| Inventory.NormalizedExactly | crates/sdkwork-web-contract/src/inventory.rs:96-115 | two paths have one normal form exactly when their segments are equal or write one parameter behind a colon and in braces, and no colon parameter is left in it |
| OpenApiBuild.BuildDocument | crates/sdkwork-web-contract/src/openapi.rs:366-475 | the loop assembles one operation per route, later routes over earlier ones at the same place |
| OpenApiBuild.AssembledRows | crates/sdkwork-web-contract/src/openapi.rs:390-400 | the document's rows are the last route of every path and method |
| OpenApiBuild.RoundTripExactly | crates/sdkwork-web-contract/src/inventory.rs:32-93 | the document reads back as the manifest's inventory exactly when no path and method repeats and every operation id is non-blank |
| OpenApiGenerated.GeneratedHolds | crates/sdkwork-web-contract/src/openapi.rs:366-475 | a generated document holds its version, title, components and paths |
| OpenApiGenerated.GeneratedAccepted | crates/sdkwork-web-contract/src/openapi_merge.rs:271-322 | the merge accepts a generated document exactly when its title is not blank, its components are well formed and every route starts with a slash |
| OpenApiMerge.RunExactly | crates/sdkwork-web-contract/src/openapi_merge.rs:271-703 | entries merge exactly when shapes are valid, versions agree pairwise, exclusive entries are single and compatible ones equal; the result holds the first entry of each location and a highest version |
| OpenApiMerge.RunOrderIndependent | crates/sdkwork-web-contract/src/openapi_merge.rs:271-703 | the order of entries decides neither success nor anything but first-wins values |
| OpenApiDocuments.MergeState.MergeVersion | crates/sdkwork-web-contract/src/openapi_merge.rs:327-366 | one minor line keeps its higher patch, anything else conflicts |
| OpenApiDocuments.MergeState.MergeValue | crates/sdkwork-web-contract/src/openapi_merge.rs:678-703 | a second value is refused, compared or ignored as its location demands |
| OpenApiDocuments.MergeDocuments | crates/sdkwork-web-contract/src/openapi_merge.rs:239-269 | the loop over contributions computes the fold of their entries, with its first error; what that fold means is `OpenApiCombined.MergeableExactly` and `MergedCombines` |
| OpenApiDocuments.MergesExactly | crates/sdkwork-web-contract/src/openapi_merge.rs:239-269 | when a list of documents merges, in terms of the entries they make |
| OpenApiDocuments.MergeOrderIndependent | crates/sdkwork-web-contract/src/openapi_merge.rs:239-387 | permuting the documents changes neither success, nor the locations present, nor any value that is not first-wins, nor the version rank |
| OpenApiWriting.MaterializedSection | crates/sdkwork-web-contract/src/openapi_merge.rs:705-781 | where each optional section of the written document stands, and what stands there when no contribution has it |
| OpenApiWriting.ListedInOrder | crates/sdkwork-web-contract/src/openapi_merge.rs:705-781 | the written servers and tags are exactly the distinct urls and names, in ascending order |
| OpenApiWriting.SameSecurity | crates/sdkwork-web-contract/src/openapi_merge.rs:615-641 | the combined security list does not depend on the order of the contributions |
| OpenApiWriting.WrittenInAnyOrder | crates/sdkwork-web-contract/src/openapi_merge.rs:239-269 | two written documents of the same contributions in different orders have equal paths, webhooks, tags and security, the same server urls, component names, top-level fields and version rank |
| OpenApiShapes.DocumentTells | crates/sdkwork-web-contract/src/openapi_merge.rs:271-676 | exactly which documents have an acceptable shape, and that the entries of such a document are everything it holds, each where it stands, and its version |
| OpenApiShapes.ExtensionExactly | crates/sdkwork-web-contract/src/openapi_merge.rs:301 | extensions are the fields that start with `x-` |
| OpenApiVersions.NumberedExactly | crates/sdkwork-web-contract/src/openapi_merge.rs:368-374 | what a version text reads as: two numerals of 32 bits between dots, and a third, or zero when it is none |
| OpenApiVersions.VersionsAgreeExactly | crates/sdkwork-web-contract/src/openapi_merge.rs:327-387 | versions agree when equal or of one major and minor number, and of two that agree the higher patch ranks higher |
| OpenApiCombined.MergeableExactly | crates/sdkwork-web-contract/src/openapi_merge.rs:239-703 | documents merge exactly when the title, owners and shapes are acceptable, versions are of one line, no two have one operation, and tags, path fields, webhooks and the other members that may not differ agree |
| OpenApiCombined.MergedCombines | crates/sdkwork-web-contract/src/openapi_merge.rs:389-781 | the written document has the first version of the highest patch and the trimmed title; every info field, path, path field, operation, component, extension, webhook and top-level field some contribution has, with the value of the first; and the first tag, server and requirement of every name, url and spelling, ascending |
| OpenApiCombined.MergeOpenApiDocuments | crates/sdkwork-web-contract/src/openapi_merge.rs:239-269 | both, of the whole merge: it succeeds exactly on such documents, returns that document, and otherwise the first error |
| OpenApiDetermined.CombinesUnique | crates/sdkwork-web-contract/src/openapi_merge.rs:705-781 | only one document says all that: nothing is added and nothing is left open |
| Operations.OperationEntries | crates/sdkwork-web-contract/src/openapi_merge.rs:430-500 | the merge enters exactly the document's operations |
| Operations.OperationOnce | crates/sdkwork-web-contract/src/openapi_merge.rs:430-500 | and each of them once |
| Operations.RowsAreOperations | crates/sdkwork-web-contract/src/inventory.rs:48-90 | in an accepted document the reader's rows are the delete, get, patch, post and put operations |
| Manifests.ValidateManifest | crates/sdkwork-web-bootstrap/src/api_assembly.rs:648-672 | accepts exactly manifests whose routes may be served and of which no two are the same endpoint: same method, and segment by segment equal or both parameters |
| Manifests.CollidesExactly | crates/sdkwork-web-bootstrap/src/api_assembly.rs:674-691 | two routes have one collision key exactly when they are the same endpoint |
| Manifests.RouteOkExactly | crates/sdkwork-web-bootstrap/src/api_assembly.rs:648-672 | which routes may be served: compatibility declarations, retention texts and infrastructure paths said of the texts themselves |
| Composition.CombinedRows | crates/sdkwork-web-contract/src/openapi_merge.rs:430-500 | the combined document's rows are the disjoint union of the contributions' rows |
| Composition.CompositionAgrees | crates/sdkwork-web-bootstrap/src/api_assembly.rs:552-564 | if owners validate and their documents merge, the combined document lists exactly the combined manifest |
| Composition.NoOperationConflict | crates/sdkwork-web-bootstrap/src/api_assembly.rs:648-691 | without a collision in the combined manifest the merge never reports a conflict between listed operations |
| Assembly.Validate | crates/sdkwork-web-bootstrap/src/api_assembly.rs:206-265 | accepts exactly contributions of a platform owner whose routes may be served and do not collide, whose document lists those routes and names the owner in every listed operation, and whose permissions are those the routes name, once and ascending |
| Assembly.FromManifestExactly | crates/sdkwork-web-bootstrap/src/api_assembly.rs:84-103 | a contribution generated from a manifest validates exactly when its owner is well formed, the manifest is valid and every operation id is non-blank |
| Assembly.TryCompose | crates/sdkwork-web-bootstrap/src/api_assembly.rs:521-575 | succeeds exactly on composable contributions, with their owners and routes, the document that combines theirs, and the permissions their routes name; no two routes are one endpoint; the last two checks never refuse |
| ModuleRegistry.KeptFirst | crates/sdkwork-web-bootstrap/src/api_assembly.rs:384-400 | after any adds the kept owners are the first occurrences in order, and kept plus ignored equals adds |
| ModuleRegistry.RepeatedIgnored | crates/sdkwork-web-bootstrap/src/api_assembly.rs:353-362 | registering modules of owners already registered changes nothing |
| ModuleRegistry.ApiModuleRegistry.AddModule | crates/sdkwork-web-bootstrap/src/api_assembly.rs:384-400 | one add extends the history and keeps modules, owner set and duplicates what the history says |
| ModuleRegistry.MountModule | crates/sdkwork-web-bootstrap/src/api_assembly.rs:464-481 | the two owner sets of the loop admit exactly contributions whose owner no earlier module mounted |
| ModuleRegistry.RepeatsExactly | crates/sdkwork-web-bootstrap/src/api_assembly.rs:461-483 | the flattened owners repeat exactly when some module introduces a fresh owner twice |
| ModuleRegistry.OwnersAreFirst | crates/sdkwork-web-bootstrap/src/api_assembly.rs:461-483 | otherwise they are the first occurrences of all contribution owners |
| ModuleRegistry.ApiModuleRegistry.TryCompose | crates/sdkwork-web-bootstrap/src/api_assembly.rs:461-483 | a module that introduces an owner twice always makes it fail; a success lists the first occurrences |
| ModuleRegistry.ComposeModules | crates/sdkwork-web-bootstrap/src/api_assembly.rs:402-433 | adding modules to an empty registry and composing succeeds exactly when the flattened first registrations compose, with the owners in order of first occurrence |
| Occurrences.DedupeOrdered | crates/sdkwork-web-bootstrap/src/api_assembly.rs:384-400 | deduplication keeps every element once, ordered by first occurrence |

## Left out

- Lifecycle.Host.Middleware: a request is reduced to its calls on the two stores; the pass-through for an already classified request, headers, metrics, CORS, rate limits and custom interceptors are not modelled, a stage that fails for its own reasons is a parameter, and a stored record that cannot be rebuilt into a response is not distinguished from one that can.
- Lifecycle.LeaderResolution: cancellation is modelled where the code guards against it, while the handler runs; dropping the future inside a before or after hook is not.
- Interleavings.StepExact: retention time, the entry count and the byte budget of the idempotency store appear only as a step that may remove any entry at any time.
- Leases.ConservationExactly: store releases succeed and other stages leave the lease state alone; distributed stores are modelled only as possibly unavailable.
- Metrics.Registry.RecordRequestObservation: `duration_bucket` is any function into the 13 buckets, because it compares floating-point seconds; the shard hash is any function.
- MetricsRecorders.RunRefines: a lookup or update under a shard lock is one step; rendering while recorders run is not modelled.
- OpenApiBuild.BuildDocument: responses, parameters, component schemas and security schemes are inputs; the context-selector validators, which stop the program on a violation, are not modelled.
- Routes.OperationFacts: the JSON text of a compatibility operation is given as the value it parses to, and the validation of the declared authentication scheme as its outcome.
- OpenApiDocuments.MergeDocuments: owners appear in the source's error messages and stored values; the model keeps neither, only which error occurs and where.
- OpenApiDocuments.MergeState.Absorb: the eight maps of the merge state are one map keyed by location, and each `merge_*` function is the list of entries it adds, applied by one loop.
- OpenApiWriting.WrittenInAnyOrder: the serializer of security requirements is any function that tells them apart; first-wins values themselves (info, servers, component bodies) depend on the order and are left out of the comparison.
- Assembly.FromManifestExactly: the two stamping passes over a generated document (openapi.rs:27-66 and 214-257) appear as their net effect on each operation.
- Assembly.TryCompose: routers, readiness checks and domain injectors are merged by the host and not modelled.
- ScopeRuns.GrantedFromSource: the time between a source answer and its store is not bounded by the code; one TTL is counted from the store.
- Pipeline-stage duration series, label escaping and infrastructure-path filtering: short members of the same shape as the request series.
- Chain stages other than concurrency (IP, rate limit, authentication guards): each is an arbitrary verdict; address matching is library code.
- JWT verification, claim parsing, locale, configuration, administration handlers and the schema registry tool.
- Redis and SQL stores, enriching authored documents (`from_openapi_documents`), `merge_dependency_contribution` and route matching.
