# Verified model of the SDKWork RPC framework

A Dafny model of the stateful core of the SDKWork RPC framework (a Rust gRPC client/server
framework), with proofs of what its protocols promise over whole runs. Check everything with
`dafny verify dfyconfig.toml`.

| file | what it models |
|---|---|
| `WatchResolver.dfy` | the watch-driven endpoint cache: the resolver object, its stream sessions and reconnect loop, `resolve`, and what a cache-served answer guarantees |
| `WatchProtocol.dfy` | registry log, breaking sessions, cursor, cache and discover snapshots as one state machine; agreement of the cache with the log, also for the resolver object itself |
| `WatchRecovery.dfy` | the same machine beyond its limits: cursor moves and snapshots that skip events, and exactly when every continuation still recovers |
| `Endpoints.dfy` | discovered instances, their mapping and the health filter |
| `CircuitBreaker.dfy` | the circuit breaker with calls taken one at a time |
| `BreakerInterleaving.dfy` | the same breaker shared by any number of threads, one atomic access or clock reading a step |
| `BreakerBlackout.dfy` | that breaker after an opening: exactly when the blackout holds, and the races around the opening instant |
| `LoadBalance.dfy` | pick-first, round-robin and weighted picking |
| `RetryBudget.dfy` | per-service token buckets for retries |
| `Retry.dfy`, `Backoff.dfy` | retry policy, per-call budget, the two decision paths, deadline and backoff arithmetic |
| `LeaseRenewal.dfy`, `LeaseShutdown.dfy` | the lease renewal loop, and renewal beside serve, drain, deregister and abort in real time |
| `CallerContext.dfy`, `ContextJson.dfy`, `Base64Url.dfy` | signed caller contexts: builder, signer, verifier, payload text and encoding |
| `MachineInt.dfy`, `Decimal.dfy`, `Wrappers.dfy` | machine integers, decimal text, options and results |

Objects the source updates in place are classes whose methods are proved against functions on
values (`Edited`, `Step`, `PushbackPath`, ...); the results about runs are lemmas about those
functions. Clock readings, random draws, RPC replies and nonces are parameters. Fixed-width
arithmetic is explicit: saturation, wrap-around of `fetch_add`, truncation of nanoseconds to 64
bits, and the `Duration` range.

## Where the documentation promises more than the code keeps

Each of these is proved together with the exact condition.

- The breaker documentation says half-open admission is enforced atomically. One call at a time
  that holds exactly (`TrialQuota`). Under interleaving, a reset of the probe counter can land after
  another thread was admitted, and more than the quota is then admitted in one episode: some
  schedule does so exactly when the quota is positive (`EpisodeOvershootIff`). What always holds is
  the conservation law and the bound per reset (`ProbeConservation`, `AdmissionBound`).
- An opening recorded as instant zero never recovers by time (`RecoversByTimeIff`). One call at a time
  this takes a failure at the very instant of creation, or at a multiple of 2^64 nanoseconds
  (`StrandedAtIff`). Under interleaving it takes no odd clock: the last write of a success that lands
  after another thread's opening leaves the breaker open with instant zero, in every configuration
  (`LateClearStrands`), and then no interleaving of requests is ever admitted (`StrandedForever`).
- An open breaker is documented to fail fast, until its timeout has passed. One call at a time that
  holds up to the 64-bit nanosecond range (`BlackoutLeftEarlyIff`). Under interleaving a request can
  get through exactly when a success is still on its way to close the breaker, or, with a positive
  quota, some thread is left over from before the opening: in the probe loop, past a refresh with an
  older instant, or an opener that has read the clock earlier and not stored it yet
  (`InterleavedBlackoutIff`; `RacingOpenersLeakIff` reaches such a state in every configuration).
  Between the switch to open and the store of its instant the previous instant still counts, which
  admits a request exactly when timeout and quota are positive (`StaleInstantLeakIff`).
- "The first retry against any service is always admitted" needs a capacity of at least one
  (`FirstRetryAdmittedIff`).
- Delays "never exceed" the maximum backoff only if the maximum is positive or the initial delay is
  zero, and attempt 0 of a retry returns the initial backoff uncapped (`RetryBackoffWithinCapIff`,
  `DurationBackoffWithinCapIff`).
- The signer's error message asks for a lifetime of at least one second, but a shorter one is
  signed; it then never verifies (`SignVerifyRoundTrip`).
- The renewal configuration is documented as capped at the renew interval, but the default cap is a
  fixed 10 seconds. How many attempts are certain to reach the registry within the lease follows from
  the settings and the latency alone (`AttemptsFitIff`); with the defaults and instantaneous calls
  three do from 8 seconds on (`DefaultsFitThreeIff`), and in the documented example of 30 seconds
  exactly four do, or three up to a latency of 3.5 seconds (`ThirtySecondLeaseFitsFour`).
- The load-balancing cursor saturates instead of wrapping, so fairness ends there
  (`WeightedFairnessIff`, `RoundRobinFairnessIff`).
- The watch cursor is one per resolver although every service is watched separately, a snapshot may
  be stored after newer events, and the watch task may be aborted between the cursor advance and the
  cache edit of a message. An open stream that does not break loses nothing by a cursor move. Over
  all continuations of its own stream, heartbeats included, the client recovers exactly when no place
  where the stream can stop leaves an endpoint with its last word, in another state, among the events
  that the next start skips; the next start depends on whether the server resumes after the cursor or
  at it (`ForeignAdvanceSafeIff`, `StaleSnapshotSafeIff`, `AbortSafeIff`, with a reachable history for
  each).

## Model

| member | source | states |
|---|---|---|
| WatchResolver.WatchingResolver.constructor | crates/sdkwork-rpc-client/src/watching_discovery_resolver.rs:86-96 | a new resolver has an empty cache and cursor zero |
| WatchResolver.WatchingResolver.HandleMessage | crates/sdkwork-rpc-client/src/watching_discovery_resolver.rs:188-248 | one stream message advances the cursor to the maximum and changes the table of its service alone: a deregistration or any status but serving and degraded takes the endpoint out, otherwise a named endpoint is in with weight max(weight, 1); only usable endpoints are cached |
| WatchResolver.MessageMeansChange | crates/sdkwork-rpc-client/src/watching_discovery_resolver.rs:209-248 | the list edits (insert, replace in place, retain, drop of an emptied entry) amount to one put, one removal or nothing on the table endpoint to weight |
| WatchResolver.MessageEffect | crates/sdkwork-rpc-client/src/watching_discovery_resolver.rs:205-248 | the effect of a message on the table in the fields of the message, for every event kind, status and name, with every other name left alone |
| WatchResolver.UpsertMeansPut | crates/sdkwork-rpc-client/src/watching_discovery_resolver.rs:294-303 | upsert is a map update, also on lists with duplicates |
| WatchResolver.UpsertInPlace | crates/sdkwork-rpc-client/src/watching_discovery_resolver.rs:294-303 | upsert replaces the first entry of the name where it stands, or appends |
| WatchResolver.UpsertKeepsDistinct | crates/sdkwork-rpc-client/src/watching_discovery_resolver.rs:294-303 | upsert never introduces a second entry of one name |
| WatchResolver.WithoutMeansRemove | crates/sdkwork-rpc-client/src/watching_discovery_resolver.rs:237-243 | retain removes exactly one name from the table |
| WatchResolver.WithoutInOrder | crates/sdkwork-rpc-client/src/watching_discovery_resolver.rs:238-240 | retain acts piece by piece, so the other entries keep their order |
| WatchResolver.WatchingResolver.RunWatchSession | crates/sdkwork-rpc-client/src/watching_discovery_resolver.rs:159-251 | a session asks for the stream from the cursor and applies its deliveries in order to cache and cursor, whatever its end |
| WatchResolver.WatchingResolver.RunReconnectLoop | crates/sdkwork-rpc-client/src/watching_discovery_resolver.rs:119-152 | over any number of sessions, each asking for the cursor its predecessors left, cache and cursor see the concatenated stream; no delay after a clean end, otherwise the backoff of the failures since the last clean end |
| WatchResolver.WatchingResolver.CachedEndpointsFor | crates/sdkwork-rpc-client/src/watching_discovery_resolver.rs:254-265 | an answer exists exactly while the entry is nonempty and at most the time-to-live old, and is nonempty and usable |
| WatchResolver.WatchingResolver.Resolve | crates/sdkwork-rpc-client/src/watching_discovery_resolver.rs:270-291 | a fresh entry is returned unchanged; otherwise, whatever other tasks do to the cache while the reply is awaited, the reply decides and on success replaces the entry of then; every success is nonempty, healthy, named, weight at least 1 |
| WatchResolver.ServedAnswerIsFresh | crates/sdkwork-rpc-client/src/watching_discovery_resolver.rs:209-291 | over every interleaving of events and snapshot stores, a cache-served answer is nonempty, usable, duplicate-free if snapshots are, and some upsert, heartbeat or store for that service happened within the time-to-live |
| WatchResolver.ServedIff | crates/sdkwork-rpc-client/src/watching_discovery_resolver.rs:206-265 | over every interleaving, the cache answers exactly while the service has an endpoint and its last upsert, heartbeat or snapshot store is at most the time-to-live old, and the answer is the cached list |
| WatchResolver.DelaysExactly | crates/sdkwork-rpc-client/src/watching_discovery_resolver.rs:119-152 | the possible delays after a session: none after a clean end, otherwise exactly the whole milliseconds up to the initial delay doubled per failure since the last clean end, sixteen times at most, and capped |
| WatchProtocol.ReplayIsLastWriterWins | crates/sdkwork-rpc-client/src/watching_discovery_resolver.rs:217-247 | the state of an endpoint after a replay is what the last event about it says, and untouched endpoints keep theirs |
| WatchProtocol.ReplayLongerSuffix | crates/sdkwork-rpc-client/src/watching_discovery_resolver.rs:188-248 | replaying any already applied suffix of the log to its end leaves the table unchanged |
| WatchProtocol.StepKeepsSound | crates/sdkwork-rpc-client/src/watching_discovery_resolver.rs:159-291 | every step (append, connect after or from the cursor, receive, edit, break, heartbeat, cursor move, snapshot) keeps: replaying what is still to come brings the cache to the registry state |
| WatchProtocol.CacheConverges | crates/sdkwork-rpc-client/src/watching_discovery_resolver.rs:188-290 | in every behavior with snapshots no older than the cursor, once all events up to the last snapshot are received the cached table is the fold of the log up to the cursor |
| WatchProtocol.LosslessResume | crates/sdkwork-rpc-client/src/watching_discovery_resolver.rs:119-251 | without snapshots, wherever and however often sessions break, after each fully processed message the cached table is the fold of all events up to the cursor |
| WatchProtocol.RunRecords | crates/sdkwork-rpc-client/src/watching_discovery_resolver.rs:193-200 | over every run the log grows by exactly the mutations of the service and the cursor never falls behind a revision it was shown |
| WatchProtocol.SessionsAreLossless | crates/sdkwork-rpc-client/src/watching_discovery_resolver.rs:119-251 | for the resolver's own session and cursor functions: if every session streams the log from the revision it asked for, events in order mixed with heartbeats, the cached table is the fold of the log up to the cursor |
| WatchProtocol.SpawnWatchLoop | crates/sdkwork-rpc-client/src/watching_discovery_resolver.rs:86-152 | the same end to end for a newly created resolver object running its reconnect loop |
| WatchRecovery.GapHarmlessIff | crates/sdkwork-rpc-client/src/watching_discovery_resolver.rs:163-200 | a table that the log from one position on would bring to the registry state, and that is replayed from another, gets there exactly when no endpoint has its last word, with another state, among skipped events |
| WatchRecovery.StepKeepsRepairable | crates/sdkwork-rpc-client/src/watching_discovery_resolver.rs:119-251 | every step of the registry and of the service's own stream (appends, receives, edits, heartbeats, breaks, reconnects) keeps a repairable state repairable, whatever was skipped before |
| WatchRecovery.RecoversIff | crates/sdkwork-rpc-client/src/watching_discovery_resolver.rs:119-251 | from any state, also with a message half processed, every continuation by these steps that is delivered everything ends with the registry's table exactly when going on and breaking off at every possible place both come right |
| WatchRecovery.ForeignAdvanceSafeIff | crates/sdkwork-rpc-client/src/watching_discovery_resolver.rs:163-200 | after a cursor move by another service in any state of any behavior, for servers that start after or at the cursor: every continuation recovers exactly when the skipped events are harmless, with an open stream from every place it may break; an unbroken open stream loses nothing |
| WatchRecovery.StaleSnapshotSafeIff | crates/sdkwork-rpc-client/src/watching_discovery_resolver.rs:281-290 | after storing a snapshot no newer than the cursor in any state of any behavior, for both kinds of server: every continuation recovers exactly when the events between it and the next edit, and between messages also those up to the next start, are harmless |
| WatchRecovery.AbortSafeIff | crates/sdkwork-rpc-client/src/watching_discovery_resolver.rs:195-247 | after aborting the watch task in any state of any behavior: every continuation recovers exactly when the message being processed is harmless to miss; always between messages, and always if the server starts at the cursor and that message is at it |
| WatchRecovery.SharedCursorSkipsEvents | crates/sdkwork-rpc-client/src/watching_discovery_resolver.rs:75-76 | a reachable state in which another service's event moves the shared cursor past an undelivered event and some continuation misses it, for both kinds of server |
| WatchRecovery.StaleSnapshotRevives | crates/sdkwork-rpc-client/src/watching_discovery_resolver.rs:281-289 | a reachable state, deregistration processed and stream broken off, in which storing an older snapshot brings the endpoint back if the server starts after the cursor, and is repaired if it starts at it |
| WatchRecovery.AbortLosesEvent | crates/sdkwork-rpc-client/src/watching_discovery_resolver.rs:195-222 | a reachable state in which aborting between cursor advance and cache edit loses a registration if the server starts after the cursor, and not if it starts at it |
| Endpoints.HealthyEndpointsAre | crates/sdkwork-rpc-client/src/discovery_resolver.rs:134-196 | discovery yields exactly the instances that are serving or degraded and have a name, healthy and with weight max(weight, 1) |
| Endpoints.HealthyEndpointsInOrder | crates/sdkwork-rpc-client/src/discovery_resolver.rs:134-139 | discovery acts piece by piece, so it keeps the registry's order |
| Endpoints.DiscoverEndpointsFailsIff | crates/sdkwork-rpc-client/src/discovery_resolver.rs:128-159 | a round trip fails with the registry's error, or exactly when no instance is serving or degraded with a name |
| Endpoints.HealthyEndpointsKeepDistinct | crates/sdkwork-rpc-client/src/discovery_resolver.rs:134-139 | instances with distinct endpoints give a duplicate-free snapshot |
| CircuitBreaker.CircuitBreaker.constructor | crates/sdkwork-rpc-resilience/src/circuit_breaker.rs:70-79 | a new breaker is closed with all counters zero |
| CircuitBreaker.CircuitBreaker.RefreshState | crates/sdkwork-rpc-resilience/src/circuit_breaker.rs:176-207 | an open breaker with a nonzero opening instant becomes half-open with counters reset once the timeout has elapsed; nothing else changes |
| CircuitBreaker.CircuitBreaker.State | crates/sdkwork-rpc-resilience/src/circuit_breaker.rs:82-85 | the reported mode is the mode after the timed transition |
| CircuitBreaker.CircuitBreaker.AllowRequest | crates/sdkwork-rpc-resilience/src/circuit_breaker.rs:94-102 | admission and new state of a request in each mode |
| CircuitBreaker.CircuitBreaker.AcquireHalfOpenProbe | crates/sdkwork-rpc-resilience/src/circuit_breaker.rs:104-123 | a slot is taken exactly when one is free, and counted |
| CircuitBreaker.CircuitBreaker.RecordSuccess | crates/sdkwork-rpc-resilience/src/circuit_breaker.rs:125-140 | a success returns the breaker to its initial state |
| CircuitBreaker.CircuitBreaker.RecordFailure | crates/sdkwork-rpc-resilience/src/circuit_breaker.rs:142-157 | a failure reopens a half-open breaker, otherwise counts (with wrap-around) and opens at the threshold |
| CircuitBreaker.CircuitBreaker.OpenAt | crates/sdkwork-rpc-resilience/src/circuit_breaker.rs:159-174 | opening stores the truncated instant and clears the probe counter |
| CircuitBreaker.ClosedIffShortFailureRun | crates/sdkwork-rpc-resilience/src/circuit_breaker.rs:125-200 | in every run, closed exactly while the failures since the last success are below max(1, threshold), and then the counter equals them |
| CircuitBreaker.LeavesClosedExactlyAtThreshold | crates/sdkwork-rpc-resilience/src/circuit_breaker.rs:150-157 | closed is left exactly on the failure that brings the run to max(1, threshold) |
| CircuitBreaker.Blackout | crates/sdkwork-rpc-resilience/src/circuit_breaker.rs:142-190 | while the stored instant is zero or not before the start, no queries, requests and failures within the timeout admit anything, and failures only move the window later |
| CircuitBreaker.BlackoutLeftEarlyIff | crates/sdkwork-rpc-resilience/src/circuit_breaker.rs:159-190 | after an opening at a nonzero instant, some sequence of queries, requests and failures within the timeout is admitted exactly when the quota is positive and the window reaches past the wrap of the 64-bit instant |
| CircuitBreaker.FailedTrialRestartsBlackout | crates/sdkwork-rpc-resilience/src/circuit_breaker.rs:142-148 | a failed trial starts a new blackout at the instant of the failure |
| CircuitBreaker.HalfOpenQuota | crates/sdkwork-rpc-resilience/src/circuit_breaker.rs:94-123 | in half-open exactly the first free slots are admitted until an outcome is recorded |
| CircuitBreaker.TrialQuota | crates/sdkwork-rpc-resilience/src/circuit_breaker.rs:94-207 | after an opening, an outcome-free request is admitted exactly when the timeout has passed and fewer than the quota were made since |
| CircuitBreaker.ZeroInstantNeverRecovers | crates/sdkwork-rpc-resilience/src/circuit_breaker.rs:182-185 | an opening recorded as instant zero admits nothing without an outcome |
| CircuitBreaker.RecoversByTimeIff | crates/sdkwork-rpc-resilience/src/circuit_breaker.rs:176-200 | an open breaker can admit again by time alone exactly when its opening instant is nonzero and the quota positive |
| CircuitBreaker.StrandedNeedsZeroReading | crates/sdkwork-rpc-resilience/src/circuit_breaker.rs:159-165 | no run from creation whose failures are all recorded at nonzero instants ends open with instant zero |
| CircuitBreaker.StrandedAtIff | crates/sdkwork-rpc-resilience/src/circuit_breaker.rs:159-185 | for every configuration, calls at one clock reading can bring a new breaker to open with instant zero exactly when that reading is recorded as zero, and from there it never admits by time |
| BreakerInterleaving.AdvanceKeepsSound | crates/sdkwork-rpc-resilience/src/circuit_breaker.rs:94-207 | every atomic step of every thread keeps the probe accounting |
| BreakerInterleaving.ProbeConservation | crates/sdkwork-rpc-resilience/src/circuit_breaker.rs:104-132 | under every interleaving the probe counter equals the successful exchanges since the last zero-store and is at most the quota |
| BreakerInterleaving.AdmissionBound | crates/sdkwork-rpc-resilience/src/circuit_breaker.rs:104-200 | half-open admissions in any window are at most the quota times one more than the zero-stores in it |
| BreakerInterleaving.LostRacesAreCharged | crates/sdkwork-rpc-resilience/src/circuit_breaker.rs:106-122 | a thread in the probe loop has lost at most as many exchanges as other threads made probe writes since it entered |
| BreakerInterleaving.LostIsExact | crates/sdkwork-rpc-resilience/src/circuit_breaker.rs:106-122 | the tally of a thread in the probe loop is exactly the exchanges it has lost there, read off the schedule |
| BreakerInterleaving.EpisodeWithinQuota | crates/sdkwork-rpc-resilience/src/circuit_breaker.rs:87-93 | an episode keeps to the quota unless a zero-store lands after one of its admissions |
| BreakerInterleaving.EpisodeOvershootIff | crates/sdkwork-rpc-resilience/src/circuit_breaker.rs:192-200 | for every configuration, some schedule with a clock that never runs back admits more than the quota in one half-open episode exactly when the quota is positive |
| BreakerBlackout.InterleavedBlackout | crates/sdkwork-rpc-resilience/src/circuit_breaker.rs:142-190 | once no success is on its way to close the breaker and no thread is left over from before the opening, no interleaving of queries, requests and failures within the timeout admits anything |
| BreakerBlackout.InterleavedBlackoutIff | crates/sdkwork-rpc-resilience/src/circuit_breaker.rs:94-190 | from any sound open state, some interleaving within the timeout admits a request exactly when such a success exists, or the quota is positive and such a thread exists or the window passes the wrap of the stored instant |
| BreakerBlackout.RacingOpenersLeakIff | crates/sdkwork-rpc-resilience/src/circuit_breaker.rs:159-165 | for every configuration a reachable state with the instant of one opener stored and an older reading of another still to be stored; the blackout can be left from it exactly when quota and timeout are positive |
| BreakerBlackout.StaleInstantLeakIff | crates/sdkwork-rpc-resilience/src/circuit_breaker.rs:159-190 | between the switch to open and the store of its instant, with all other threads idle, some schedule within the timeout admits a request exactly when quota and timeout are positive |
| BreakerBlackout.LateClearStrands | crates/sdkwork-rpc-resilience/src/circuit_breaker.rs:125-165 | for every configuration a schedule with all clock readings equal to one ends with all threads idle, open and instant zero, and no later queries and requests are admitted |
| BreakerBlackout.StrandedForever | crates/sdkwork-rpc-resilience/src/circuit_breaker.rs:176-190 | from open with instant zero no interleaving of queries and requests, at any times, admits anything |
| BreakerInterleaving.SoloCallIsSequential | crates/sdkwork-rpc-resilience/src/circuit_breaker.rs:82-207 | a call without interference does, step by step, what the one-call-at-a-time breaker does |
| LoadBalance.CandidatesPreferHealthy | crates/sdkwork-rpc-client/src/load_balance.rs:30-35 | candidates are exactly the healthy endpoints, or all when none is healthy |
| LoadBalance.HealthyInOrder | crates/sdkwork-rpc-client/src/load_balance.rs:30-30 | the health filter acts piece by piece, so the candidates keep the order of the snapshot |
| LoadBalance.ScanForSlot | crates/sdkwork-rpc-client/src/load_balance.rs:60-68 | the scan finds the candidate in whose stretch of the running total the slot falls, which is the entry of the list with every candidate repeated by its weight; the fallback is never taken |
| LoadBalance.PickWeighted | crates/sdkwork-rpc-client/src/load_balance.rs:48-69 | a weighted pick is the entry of the repeated list under the cursor, which advances with saturation; no candidates, no pick |
| LoadBalance.PickEndpoint | crates/sdkwork-rpc-client/src/load_balance.rs:21-46 | each algorithm picks the entry of its wheel under the cursor; pick-first returns the first healthy endpoint of the snapshot, or the first one when none is healthy, and keeps the cursor; an empty snapshot gives none |
| LoadBalance.WeightedFairnessIff | crates/sdkwork-rpc-client/src/load_balance.rs:48-69 | from every cursor, total-weight consecutive picks choose each candidate exactly max(weight, 1) times if and only if saturation cuts off nothing but the entry it sticks to; always so while the cursor does not saturate |
| LoadBalance.RoundRobinFairnessIff | crates/sdkwork-rpc-client/src/load_balance.rs:39-43 | from every cursor, n consecutive picks choose each of n candidates once if and only if the cursor does not saturate in between or n is 1 |
| LoadBalance.PicksPastSaturation | crates/sdkwork-rpc-client/src/load_balance.rs:57-58 | picks are consecutive wheel entries up to the last cursor value and one entry over and over from there |
| RetryBudget.RetryBudgetRegistry.constructor | crates/sdkwork-rpc-client/src/retry_budget.rs:99-104 | a new registry has no buckets |
| RetryBudget.RetryBudgetRegistry.TryAcquire | crates/sdkwork-rpc-client/src/retry_budget.rs:117-134 | a retry is granted exactly when the created-full or refilled bucket holds a token, which is then taken |
| RetryBudget.RetryBudgetRegistry.AvailableTokens | crates/sdkwork-rpc-client/src/retry_budget.rs:140-147 | a count below one means exactly that a retry at this instant would be refused |
| RetryBudget.FirstRetryAdmittedIff | crates/sdkwork-rpc-client/src/retry_budget.rs:115-121 | the first retry of an unseen service is admitted exactly when the capacity is at least one |
| RetryBudget.LevelExactly | crates/sdkwork-rpc-client/src/retry_budget.rs:66-147 | a bucket left with L tokens at t holds min(L + (u - t) x rate, capacity) at u, an unseen service the capacity; a retry is granted exactly when that is at least one, and takes one |
| RetryBudget.RefillComposes | crates/sdkwork-rpc-client/src/retry_budget.rs:66-74 | refilling on the way changes nothing later |
| RetryBudget.ObservationTransparency | crates/sdkwork-rpc-client/src/retry_budget.rs:117-147 | runs with the same acquisitions for a service answer them alike, whatever observations and other services come in between |
| RetryBudget.RateBound | crates/sdkwork-rpc-client/src/retry_budget.rs:66-84 | in any contiguous window of any run the admitted retries are at most capacity plus rate times window length |
| RetryBudget.GreedyIsOptimal | crates/sdkwork-rpc-client/src/retry_budget.rs:76-84 | no other rule spending only existing tokens on the same requests has admitted more after any prefix |
| Retry.RetryBudgetTracker.constructor | crates/sdkwork-rpc-resilience/src/lib.rs:188-190 | a tracker starts with the given budget |
| Retry.RetryBudgetTracker.Consume | crates/sdkwork-rpc-resilience/src/lib.rs:193-199 | a token is granted exactly when one is left, and taken |
| Retry.ShouldRetryWithDeadline | crates/sdkwork-rpc-resilience/src/lib.rs:144-172 | retries exactly below the attempt limit, with a retryable code, a token left and a deadline that covers backoff and reserve; a retry takes one token, a stop none |
| Retry.ShouldRetryCallWithDeadline | crates/sdkwork-rpc-resilience/src/idempotency.rs:51-63 | the same, and only if the method needs no idempotency key or the call has one |
| Retry.ShouldRetryCallWithPushback | crates/sdkwork-rpc-resilience/src/pushback.rs:79-133 | retries exactly under these conditions and, on RESOURCE_EXHAUSTED, with a readable pushback, which capped is then the backoff; a retry takes one token, a stop none |
| Retry.PathsAgree | crates/sdkwork-rpc-resilience/src/pushback.rs:57-133 | for one draw: off RESOURCE_EXHAUSTED both paths decide alike with the same budget left; on it, stop without a readable pushback, otherwise the deadline path with the capped pushback as backoff |
| Retry.DeadlinePathIff | crates/sdkwork-rpc-resilience/src/lib.rs:144-172 | the deadline decision and the budget left, in the fields they depend on |
| Retry.PushbackPathIff | crates/sdkwork-rpc-resilience/src/pushback.rs:79-133 | the pushback decision, its backoff and the budget left, in the fields they depend on |
| Retry.DecisionSpendsOneToken | crates/sdkwork-rpc-resilience/src/pushback.rs:114-132 | every stop keeps the budget, every retry takes one token below the attempt limit and within the deadline |
| Retry.CallRetryBound | crates/sdkwork-rpc-resilience/src/pushback.rs:79-133 | over a call with increasing attempts the retries equal the tokens spent and are at most the budget and the attempts left |
| Retry.CallFitsDeadline | crates/sdkwork-rpc-resilience/src/lib.rs:43-60 | all backoffs slept fit the initial deadline, for every deadline; so does the reserve of the last retry unless the deadline left was u64::MAX milliseconds or more and too short |
| Retry.DeadlineCoversExactly | crates/sdkwork-rpc-resilience/src/lib.rs:43-60 | the saturating check is the exact one, except that u64::MAX milliseconds and more always pass |
| Retry.UnboundedDeadlineNeverBlocks | crates/sdkwork-rpc-resilience/src/lib.rs:128-135 | the deadline-ignoring wrappers never stop on the deadline; some backoff passes that the exact check would refuse exactly in the stretch from u64::MAX up to its own need |
| Retry.PushbackRoundTrip | crates/sdkwork-rpc-resilience/src/pushback.rs:43-47 | every printed 64-bit millisecond count is read back; larger and negative numbers are refused |
| Retry.PushbackReadsIff | crates/sdkwork-rpc-resilience/src/pushback.rs:43-47 | a trailer is read exactly when it is one or more digits, with or without a plus sign, of a 64-bit value |
| Retry.ProfileBackoffWithinCap | crates/sdkwork-rpc-resilience/src/lib.rs:72-117 | in every built-in profile no effective backoff, pushback and attempt 0 included, exceeds the policy cap |
| Retry.ProfileRetriesWithinLimit | crates/sdkwork-rpc-resilience/src/lib.rs:72-117 | whatever happens during a call, the profiles retry at most 3, 2, 0, 0, 5 and 3 times and never run out of their own tokens |
| Retry.ProfileLimitIsReached | crates/sdkwork-rpc-resilience/src/lib.rs:72-117 | an unavailable server without a deadline brings every profile to that number of retries |
| Retry.ProfileDelaysExactly | crates/sdkwork-rpc-resilience/src/lib.rs:72-117 | the possible delays of each profile at each attempt |
| Backoff.RetryBaseMonotone | crates/sdkwork-rpc-resilience/src/backoff.rs:28-32 | the saturated ceiling equals min(initial x 2^e, cap) and never falls with the attempt |
| Backoff.RetryBackoffWithinCapIff | crates/sdkwork-rpc-resilience/src/backoff.rs:23-43 | every draw stays within ceiling and cap, exactly unless an early return bypasses the cap |
| Backoff.RetryDelaysExactly | crates/sdkwork-rpc-resilience/src/backoff.rs:23-43 | attempt 0 waits the initial backoff; later attempts can wait exactly every value from zero to the initial backoff doubled per attempt, sixteen times at most, and capped |
| Backoff.DurationBaseMonotone | crates/sdkwork-rpc-client/src/watching_discovery_resolver.rs:312-314 | the saturated duration ceiling equals the exact one and never falls with the count (reconnect and renewal share the formula) |
| Backoff.DurationBackoffWithinCapIff | crates/sdkwork-rpc-discovery/src/lifecycle.rs:364-375 | every draw stays within the cap exactly when the cap is positive or the initial delay zero, and below the ceiling when both are positive |
| Backoff.DurationDelaysExactly | crates/sdkwork-rpc-discovery/src/lifecycle.rs:364-375 | the possible delays are exactly the whole milliseconds from zero to the initial delay doubled per failure, sixteen times at most, and capped |
| LeaseRenewal.RenewInterval | crates/sdkwork-rpc-discovery/src/lifecycle.rs:173-173 | three intervals fit a lease of at least three seconds |
| LeaseRenewal.RunRenewLoop | crates/sdkwork-rpc-discovery/src/lifecycle.rs:213-267 | each attempt starts, after the previous call has returned, after the interval when that succeeded and otherwise after the backoff of the failure streak |
| LeaseRenewal.AttemptIsOnTime | crates/sdkwork-rpc-discovery/src/lifecycle.rs:213-267 | the k-th attempt after the last success reaches the registry no later than the interval, the ceilings of the failures in between (the initial delay where the cap is zero) and k+1 latencies after the lease was last extended, for every configuration |
| LeaseRenewal.AttemptsFitIff | crates/sdkwork-rpc-discovery/src/lifecycle.rs:207-267 | for every configuration, lease, latency and k, the first k attempts reach the registry within the lease for all outcomes, draws and trip times exactly when the interval, the largest k-1 delays and k+1 latencies fit it |
| LeaseRenewal.ThreeAttemptsAlwaysFit | crates/sdkwork-rpc-discovery/src/lifecycle.rs:87-89 | with a cap between zero and the interval and a lease of at least 3 seconds, three attempts always fit with instantaneous calls, and with any latency that fits four times into what three intervals leave |
| LeaseRenewal.DefaultsFitThreeIff | crates/sdkwork-rpc-discovery/src/lifecycle.rs:97-105 | with the default configuration three attempts are certain to fit exactly when interval, 6 seconds and four latencies do; with instantaneous calls from a lease of 8 seconds on |
| LeaseRenewal.ThirtySecondLeaseFitsFour | crates/sdkwork-rpc-discovery/src/lifecycle.rs:87-105 | with the defaults and a lease of 30 seconds, k attempts are certain to fit exactly when k is at most four with instantaneous calls, and three exactly up to a latency of 3.5 seconds |
| LeaseShutdown.LeaseAliveIff | crates/sdkwork-rpc-server/src/lib.rs:159-223 | on every path and for every drain length the lease is live at every instant until deregister has returned and the loop is aborted, exactly when interval plus two latencies fit the lease |
| LeaseShutdown.DerivedIntervalKeepsLease | crates/sdkwork-rpc-discovery/src/lifecycle.rs:173-173 | with the derived interval this holds, for every lease, exactly when two latencies fit what the interval leaves; from 3 seconds on any latency up to a third of the lease will do |
| LeaseShutdown.AbortOnceAfterDeregister | crates/sdkwork-rpc-server/src/lib.rs:199-223 | the renewal loop is aborted exactly once, at completion, after deregister returned in either way; error exits before it abort nothing |
| LeaseShutdown.PhaseFollowsSteps | crates/sdkwork-rpc-server/src/lib.rs:143-223 | over every run: the server leaves without deregistering exactly after a bind, serve or drain error, deregisters exactly after it stopped by itself, drained or ran out of drain time, and ends with the result of the deregistration |
| LeaseShutdown.DrainCutOffAfterTimeout | crates/sdkwork-rpc-server/src/lib.rs:179-195 | a drain is cut off only when the drain timeout has passed since the signal |
| LeaseShutdown.DrainCutOffOnTime | crates/sdkwork-rpc-server/src/lib.rs:179-195 | and it can be at that very instant |
| CallerContext.BuildExactly | crates/sdkwork-rpc-core/src/caller_context.rs:120-151 | the builder makes exactly the valid contexts and loses no field |
| CallerContext.IdentifierIsPlain | crates/sdkwork-rpc-core/src/service_identity.rs:162-177 | a validated identifier is at most 128 bytes and needs no JSON escape |
| CallerContext.IdentifierIsValidIff | crates/sdkwork-rpc-core/src/service_identity.rs:162-177 | exactly one to 128 letters, digits, hyphens, underscores, full stops and colons |
| CallerContext.SignSucceedsIff | crates/sdkwork-rpc-core/src/caller_context.rs:220-239 | signing succeeds exactly for lifetimes in (0, 300 s] and times whose seconds stay in the 64-bit range |
| CallerContext.SignedExactly | crates/sdkwork-rpc-core/src/caller_context.rs:240-269 | what is encoded and what is signed, field by field of the context |
| CallerContext.WindowExact | crates/sdkwork-rpc-core/src/caller_context.rs:537-557 | for all 64-bit timestamps saturation never changes the time-window answer |
| CallerContext.SignVerifyRoundTrip | crates/sdkwork-rpc-core/src/caller_context.rs:365-438 | a signed built context verifies, to the same fields, exactly when the lifetime has a whole second and the clock lies within 30 seconds of its validity |
| CallerContext.SignedFitsMetadata | crates/sdkwork-rpc-core/src/caller_context.rs:372-378 | every signed built context is strictly below the metadata limit of the verifier |
| CallerContext.EncodingIsUnambiguous | crates/sdkwork-rpc-core/src/caller_context.rs:240-265 | no two issued payloads share a signature input |
| CallerContext.AcceptedMeansAuthentic | crates/sdkwork-rpc-core/src/caller_context.rs:379-421 | whatever arrives and whatever JSON reader is used, acceptance implies the tag of the received text under the peer's key, audience, validity of all fields, window and idempotency match |
| CallerContext.VerifyAcceptsIff | crates/sdkwork-rpc-core/src/caller_context.rs:365-570 | for any JSON reader, verification accepts exactly when all its conditions hold, written out, and returns the payload field by field |
| ContextJson.DeserializeSerialize | crates/sdkwork-rpc-core/src/caller_context.rs:441-458 | reading a serialized payload gives it back |
| ContextJson.SerializedText | crates/sdkwork-rpc-core/src/caller_context.rs:441-458 | the compact text of a payload: fourteen fields under their names and in their order |
| ContextJson.ReaderIsStrict | crates/sdkwork-rpc-core/src/caller_context.rs:441-442 | any text read as a payload is the compact text of an object whose members are the payload's own, none unknown or repeated, only optional ones missing |
| ContextJson.EscapeDenotes | crates/sdkwork-rpc-core/src/caller_context.rs:256-260 | every character prints as itself or as an escape that denotes it |
| ContextJson.SerializedLength | crates/sdkwork-rpc-core/src/caller_context.rs:441-458 | the compact payload is at most 14 members of 154 characters |
| Base64Url.RoundTrip | crates/sdkwork-rpc-core/src/caller_context.rs:261-261 | base64url decoding undoes encoding |
| Base64Url.DecodedTextIsUnique | crates/sdkwork-rpc-core/src/caller_context.rs:379-381 | a text that decodes is the one text that encodes the result |

## Left out

- TLS setup, channels, PEM and certificate parsing, interceptors, metadata headers, logging and Ctrl-C handling: I/O and foreign libraries.
- Enum parsing, identity URIs, registration metadata, endpoint normalisation, static and composite resolvers: one-branch facts.
- HMAC and UUID internals: the MAC is an arbitrary function with 32-byte tags, so nothing is claimed about forging; the nonce is any 32 lower-case hexadecimal digits.
- JSON beyond the payload: the reader takes compact objects of ASCII text without escapes, so white space and escape sequences that `serde_json` also accepts are not modelled, and text beyond ASCII is a schema error where the source would reach the field checks; printing escapes as `serde_json` does.
- Base64url decoding refuses nonzero left-over bits; the library behind the source is not part of this model.
- `is_blank` is taken as empty or all of space, tab, line feed and carriage return; the library behind it is not part of this model.
- Floating-point rounding in the token bucket: tokens and time are real numbers, with a refill rate of at least zero.
- Weak-memory effects of the breaker's atomic orderings: interleavings are sequentially consistent.
- The sum of weights is an unbounded number; overflowing `u64` would take more than four thousand million candidates.
- Events whose response carries no revision, and several events with one revision: the registry log has strictly increasing, positive revisions.
- The watch cache is compared as a table from endpoint to weight; the order of the cached list is not.
- Entries are keyed by endpoint, so an instance that changes its endpoint without a removal event keeps its old entry, in the log's fold as well as in the cache.
- Jitter distribution: a draw is any value of the sampled range.
- The time a breaker call takes one call at a time: a call reads the clock once. Under interleaving every reading is its own step.
- StepKeepsSound: admits cursor moves by other services only past no event of this one, and snapshots only at or after the cursor; what happens otherwise is the subject of ForeignAdvanceSafeIff and StaleSnapshotSafeIff.
- CacheConverges: inherits these two limits of the state machine.
- LosslessResume: inherits the first of them.
- Blackout: assumes that failures are recorded in order after truncation to 64 bits; the exact condition is BlackoutLeftEarlyIff.
- FailedTrialRestartsBlackout: the same assumption, and BlackoutLeftEarlyIff applies to the state it speaks of.
- InterleavedBlackout: the safe direction; the exact condition is InterleavedBlackoutIff.
- RecoversIff: continuations hold no further cursor moves by other services and no further snapshots; each of these leads to another state, and RecoversIff applies to that one again.
- EpisodeWithinQuota: one direction only; a late zero-store need not cause an overshoot.
- LeaseAliveIff: every renewal succeeds, within the latency; failing renewals with latency are in AttemptsFitIff.
- LeaseShutdown makes no claim that early error exits (bind, serve or drain failure) deregister: the source returns without doing so and leaves the loop running.
