# Gateway state machines, coverage merge and diff scanner: a verified model

The Dafny files in this directory model the stateful core of the repository and prove what it promises over
every run.

* **Telegram dedup cache** (`JsMap.dfy`, `Eviction.dfy`, `DedupSpec.dfy`, `DedupProofs.dfy`, `DedupBound.dfy`,
  `DedupHistory.dfy`, `DedupRotation.dfy`, `DedupCache.dfy`) and its string-keyed sibling (`StringDedup.dfy`,
  `StringHistory.dfy`): reservations, expiry, capacity eviction, the high-water mark, and the generations that
  separate one bot from the next.
* **Log throttle** and **rate limiter** of the authentication fallback (`LogThrottle.dfy`,
  `AuthRateLimiter.dfy`): bounded tables measured against the full history of calls.
* **Credential cache** and **credential watcher** (`CredentialCache.dfy`, `CredentialWatcher.dfy`): reads that
  complete in any order, outages, invalidations, debounced and forced polls, change events.
* **Platform identity** (`PlatformIdentity.dfy`, `PlatformIdentityHistory.dfy`): ids bound to credential fingerprints,
  one validate call at a time, and a cooldown after failures.
* **Fallback counts** (`FallbackCounts.dfy`): the count tracker and the reporter whose flushes overlap and fail.
* **CES RPC server** (`Text.dfy`, `CesRpcServer.dfy`, `CesRpcAnswers.dfy`): newline framing and a dispatcher
  behind a handshake.
* **`runPool` and `mergeLcov`** of the test driver (`RunPool.dfy`, `Decimal.dfy`, `Lcov.dfy`, `LcovSums.dfy`,
  `LcovReading.dfy`, `LcovFormat.dfy`, `LcovProper.dfy`, `LcovRemerge.dfy`, `LcovFixedPoint.dfy`,
  `LcovByLines.dfy`, `LcovTotals.dfy`): every interleaving of the worker pool, and the coverage merge from report
  text to report text.
* **`parseUnifiedDiff`** of the example checker (`UnifiedDiff.dfy`, `UnifiedDiffHeader.dfy`,
  `UnifiedDiffReport.dfy`): the line-tracking parser against applying the patch.

Each component has a specification on values (a state, one function per step, and runs over all sequences of
steps), lemmas over all runs, among them laws that tell its answers from the calls and what they were answered,
and the component in the source's own form: a class whose methods update fields, or methods with loops, each tied
by its contract to the step it takes. Asynchronous code is cut into steps at
its `await`s; what a reader, a validate call, a POST, a handler or a worker answers is an input of the step.
JavaScript's `Map` is a sequence of keys beside a table: setting a present key keeps its place, deleting and
setting it moves it to the end, iteration runs in that order.

Places where the code does something its comments or a first reading do not say, each with the exact condition
or an example in the model:

* A request after the handshake whose method is a property that every object inherits, like `toString`, is never
  answered: the registry finds it, and the schema lookup throws outside the handler's `try`. Exactly the runs
  without such a request answer everything that is due (`CesRpcServer.AnswersAreExact`,
  `CesRpcServer.InheritedMethodIsLost`).
* A forced credential poll that meets an outage or throws uses its force up, and only a new forced request brings one back
  (`CredentialWatcher.OutageSpendsForce`, `CredentialWatcher.SpentForceStaysSpent`).
* Storing a response under a reserved id, or marking a string key again, keeps the key's place in the eviction
  order, so the live keys behind it count against the capacity: the full bound holds exactly when there are none
  (`DedupBound.ResponseBoundIsExact`, with a run in `DedupBound.FinalizedResponseIsLost`;
  `StringDedup.BoundIsExact`, `StringDedup.FullBoundNeedsLastPlace`).
* A failed validation is forgotten as soon as other credentials are tried: then the first ones are validated again
  inside their cooldown, and only then (`PlatformIdentity.RetriesCoolDown`,
  `PlatformIdentity.CooldownIsForgotten`).
* Ids applied from outside are bound to whatever credentials are read next
  (`PlatformIdentity.AppliedIdsAreAdopted`).
* A worker pool with a concurrency below one resolves with nothing but holes (`RunPools.ResolvedIsComplete`).
* The diff parser loses, misnames or misnumbers lines exactly when an added line begins with `++`, a changed
  file's header does not name it (a path with a blank gets a tab at its end), or an added line comes after a blank
  line that is printed without its space (`UnifiedDiffReports.ParseIsFaithful`, with examples in
  `UnifiedDiffReports.MaskedLineIsLost`, `UnifiedDiffReports.TabbedHeaderMisnames` and
  `UnifiedDiffReports.LateLineIsMisnumbered`).
* Merging a merged coverage report reproduces it exactly when every function count is read back under its own
  name (`LcovFixedPoint.RemergeIsFixed`, `LcovByLines.RemergeIsFixedByLines`, with an example in
  `LcovByLines.RemergeCanChange`).
* The composite key of the count tracker tells two triples apart unless their words agree and the spaces are
  spread differently, so guards and failure kinds need to be free of spaces and paths do not
  (`FallbackCounts.KeysMixUp`, `FallbackCounts.KeyIsInjective`, `FallbackCounts.SpacesMixKeysUp`).
* An envelope of any kind that arrives before the handshake is answered with an error, responses included
  (`CesRpcServer.AnswersAreExact`).

`dafny verify dfyconfig.toml` checks the whole project.

## Model

| member | source | states |
|---|---|---|
| `Eviction.RoomyValid` | gateway/src/dedup-cache.ts:101-110 | Making room leaves entries as they are, and less than a full cache. |
| `Eviction.RoomyGuards` | gateway/src/dedup-cache.ts:101-110 | Making room takes no live key with fewer live keys behind it than the other places, and puts none behind it. |
| `Eviction.RoomyCounts` | gateway/src/dedup-cache.ts:101-110 | Making room keeps a key, with the same live keys behind it, if and only if the cache is not full, or the key is live and the live keys behind it leave a place. |
| `Eviction.InsertedPlace` | gateway/src/dedup-cache.ts:163-180 | Where an insertion puts its key: a key that stays when room is made keeps the live keys behind it, any other goes to the end. |
| `Eviction.InsertedCounts` | gateway/src/dedup-cache.ts:163-180 | A new live key goes behind every live key, or takes the place of the one whose live keys behind fill all the others. |
| `DedupProofs.StepFields` | gateway/src/dedup-cache.ts:142-202 | The generation grows by one at a reset and never else; the mark is cleared by a reset, raised by a finalize of the current generation, and untouched by every other call. |
| `DedupProofs.GenerationCountsResets` | gateway/src/dedup-cache.ts:34-46 | After any run the generation is the number of resets in it. |
| `DedupProofs.MarkIsMaximum` | gateway/src/dedup-cache.ts:26-33 | After any run the high-water mark is the maximum of the ids finalized in the current generation, and unset exactly if there are none. |
| `DedupProofs.ReserveAnswers` | gateway/src/dedup-cache.ts:81-120 | The three answers of `reserve`, read off the history: "duplicate" for an unexpired entry; otherwise "already processed" if an id at or above it was finalized since the last reset, and "reserved" if none was. |
| `DedupProofs.NoReplay` | gateway/src/dedup-cache.ts:26-33 | Whatever expired or was evicted, no id at or below a finalized one is admitted again before a reset. |
| `DedupProofs.EntryOrigin` | gateway/src/dedup-cache.ts:81-181 | An entry present after a call was either put there by it, good for `ttlMs`, or was there before and is unchanged. |
| `DedupProofs.DuplicateHasRecentClaim` | gateway/src/dedup-cache.ts:81-120 | Every entry goes back to a reserve or finalize in this generation whose time plus `ttlMs` is its expiry. |
| `DedupProofs.SizeBounded` | gateway/src/dedup-cache.ts:101-110 | In every run the cache holds at most `maxSize` entries (one, if `maxSize` is not positive). |
| `DedupProofs.StepGuards` | gateway/src/dedup-cache.ts:59-181 | No call that does not release an id takes its live entry, while fewer live keys stand behind it than there are other places; an inserting call puts at most one more behind it. |
| `DedupProofs.ReservationSurvives` | gateway/src/dedup-cache.ts:81-181 | After "reserved", another reserve of the id is told "duplicate" while at most `ttlMs` passed, nothing released it and fewer than `maxSize` later calls inserted (fewer than one, if `maxSize` is not positive). |
| `DedupProofs.ResponseReplayed` | gateway/src/dedup-cache.ts:59-181 | The response finalized under any id, reserved before or not, is what a later `get` returns within `ttlMs`, while the live keys behind the id after the finalize and the later insertions are together fewer than the cache has room for. |
| `DedupProofs.ReservedResponseReplayed` | gateway/src/dedup-cache.ts:54-181 | Reserve, finalize, get: the stored response is returned within `ttlMs` of the finalize if fewer than `maxSize` other calls inserted since the reservation. |
| `DedupBound.SurvivalBoundIsExact` | gateway/src/dedup-cache.ts:81-181 | The bound on a reservation is exact: after any run, every continuation within its lifetime that does not release the id and inserts fewer than `b` says "duplicate", if and only if `b` is at most what the cache has room for. |
| `DedupBound.ReservedTwice` | gateway/src/dedup-cache.ts:81-120 | With as many insertions as the cache has room for, an id is handed out twice within the lifetime of its reservation. |
| `DedupBound.FloodPushesOut` | gateway/src/dedup-cache.ts:101-119 | With one new id for each place that the live keys behind an id leave free, its entry is pushed out within its lifetime. |
| `DedupBound.ResponseBoundIsExact` | gateway/src/dedup-cache.ts:54-181 | The bound on a stored response is exact: after any run and a finalize of any id, every continuation within its lifetime that neither claims nor releases the id and inserts fewer than `b` is answered with the response, if and only if `b` and the live keys behind the id fit into the cache together. |
| `DedupBound.FinalizePlace` | gateway/src/dedup-cache.ts:163-180 | A finalized id whose entry stays when room is made keeps the live keys behind it; otherwise it goes to the end. |
| `DedupBound.ResponseBoundByPlace` | gateway/src/dedup-cache.ts:54-181 | The same bound told before the finalize: the live keys behind an id count exactly if its entry stays. |
| `DedupBound.FinalizedResponseIsLost` | gateway/src/dedup-cache.ts:163-180 | In a cache for three, reserve 1, reserve 2, finalize 1, reserve 3, reserve 4: the response of 1 is gone after two insertions. |
| `DedupHistory.ReserveFollowsTheCalls` | gateway/src/dedup-cache.ts:81-181 | What `reserve` answers after any run, read off the calls and the reserves that were granted: "duplicate" if and only if the id was claimed within the last `ttlMs` and since then neither the cache was reset, nor the id claimed anew, nor given back while unfinished by a handler of the current generation, nor pushed out by an insertion; otherwise "already processed" if and only if it or a later id was finalized since the last reset, else "reserved". |
| `DedupHistory.GetFollowsTheCalls` | gateway/src/dedup-cache.ts:59-181 | `get` returns a response if and only if a finalize with that response stands in the same sense, at most `ttlMs` old; an id still being processed returns nothing. |
| `DedupHistory.UnreservedIsFree` | gateway/src/dedup-cache.ts:131-139 | An id that was given back after its reserve, and not claimed since, is never "duplicate": the next reserve is granted unless it or a later id was finalized. |
| `DedupHistory.UnreserveSparesOthers` | gateway/src/dedup-cache.ts:131-139 | An unreserve takes no response away and changes no answer about other ids. |
| `DedupHistory.LapsedAreDropped` | gateway/src/dedup-cache.ts:59-98 | A `get` or `reserve` leaves no lapsed entry of its id behind, and a sweep none at all. |
| `DedupRotation.StaleCompletionsDoNothing` | gateway/src/dedup-cache.ts:131-181 | Erasing every stale `set` and `unreserve` from a run changes no state, no answer, no finalized id. |
| `DedupRotation.MirrorsStep` | gateway/src/dedup-cache.ts:131-202 | Every operation, in state and answer, looks at generations only by comparing them. |
| `DedupRotation.ResetIsFreshStart` | gateway/src/dedup-cache.ts:187-202 | After a reset the cache is, in state and in answers, a new cache that saw only the calls since. |
| `DedupRotation.ResetsFollowFingerprints` | gateway/src/index.ts:2879-2892 | For any hash, the gateway's cache saw its traffic and a reset wherever the fingerprint changed. |
| `DedupRotation.ResetsFollowTokens` | gateway/src/index.ts:2884-2892 | The gateway's cache is the cache that saw its traffic and a reset wherever the stored token changed, if and only if no token of the run is replaced by another one with the same fingerprint; re-polls with the same token do nothing. |
| `DedupRotation.DistinctHashesSuffice` | gateway/src/index.ts:2879-2883 | Different fingerprints for the different tokens of the run are enough for that. |
| `DedupRotation.MarkFollowsToken` | gateway/src/index.ts:2866-2892 | After any mix of traffic and polls without such a collision the mark is the highest id finalized since the token last changed. |
| `DedupCache.DedupCache.constructor` | gateway/src/dedup-cache.ts:49-52 | A new cache is the empty one of the specification. |
| `DedupCache.DedupCache.Get` | gateway/src/dedup-cache.ts:59-68 | Returns the finished response of an unexpired entry, drops an expired entry, changes nothing else. |
| `DedupCache.DedupCache.Reserve` | gateway/src/dedup-cache.ts:81-120 | Takes exactly the specified step and gives the specified answer. |
| `DedupCache.DedupCache.Unreserve` | gateway/src/dedup-cache.ts:131-139 | Takes the specified step: the entry goes only in its own generation and only while processing. What that does to every later answer is `DedupHistory.ReserveFollowsTheCalls` and `DedupHistory.UnreservedIsFree`. |
| `DedupCache.DedupCache.Finalize` | gateway/src/dedup-cache.ts:142-181 | Takes exactly the specified step: mark, eviction and entry, or nothing when stale. |
| `DedupCache.DedupCache.Reset` | gateway/src/dedup-cache.ts:198-202 | Forgets entries and mark, starts the next generation. |
| `DedupCache.DedupCache.EvictExpired` | gateway/src/dedup-cache.ts:217-230 | Walking the map and deleting expired entries in place leaves exactly the unexpired ones in their order. |
| `DedupCache.DedupCache.ClearSpace` | gateway/src/dedup-cache.ts:101-110 | The eviction shared by `reserve` and `set`: sweep at capacity, then drop the first key. |
| `DedupCache.TokenGuard.OnCredentialChange` | gateway/src/index.ts:2884-2892 | Compares fingerprints and resets exactly when they differ. |
| `StringDedup.StepProcessing` | gateway/src/dedup-cache.ts:258-323 | A key becomes held by a reserve that answers true and is let go by `unreserve` or `mark` only. |
| `StringDedup.ProcessingIsHeld` | gateway/src/dedup-cache.ts:241-323 | After any run the reserved keys are those whose last claim, `unreserve` or `mark` is a claim. |
| `StringDedup.OneHandlerAtATime` | gateway/src/dedup-cache.ts:279-300 | Between two reserves of a key that answer true it was unreserved or marked, however long that took. |
| `StringDedup.SizeBounded` | gateway/src/dedup-cache.ts:311-320 | In every run the cache holds at most `maxSize` entries (one, if `maxSize` is not positive). |
| `StringDedup.MarkSurvives` | gateway/src/dedup-cache.ts:302-323 | A marked key, new or renewed, is known for `ttlMs` while the live keys behind it after its mark and the later calls that add an entry are together fewer than the cache has room for. |
| `StringDedup.NewKeyIsLast` | gateway/src/dedup-cache.ts:311-322 | A marked key that had no entry has no key behind it. |
| `StringDedup.MarkPlace` | gateway/src/dedup-cache.ts:311-322 | Where a mark puts a key, the cache full or not: a key whose entry stays keeps the live keys behind it; a new key, a lapsed one in a full cache, and the first of as many live keys as there is room for go to the end. |
| `StringDedup.RenewalCounts` | gateway/src/dedup-cache.ts:322-323 | With room left, renewing a key leaves the same live keys behind it. |
| `StringDedup.FloodPushesOut` | gateway/src/dedup-cache.ts:311-322 | With one new key for each place that the live keys behind a key leave free, the key is pushed out within its lifetime. |
| `StringDedup.BoundIsExact` | gateway/src/dedup-cache.ts:302-323 | After any run and a mark of any key: every continuation within its lifetime that adds fewer than `b` entries knows the key, if and only if `b` and the live keys behind it fit into the cache together. |
| `StringDedup.BoundByPlace` | gateway/src/dedup-cache.ts:302-323 | The same bound told before the mark: the live keys behind a key count exactly if its entry stays. |
| `StringDedup.FullBoundNeedsLastPlace` | gateway/src/dedup-cache.ts:302-323 | Fewer than `maxSize` added entries are always survived if and only if no live key stands behind the marked one. |
| `StringDedup.RenewedKeyCanBeDropped` | gateway/src/dedup-cache.ts:307-323 | After any run, renewing a key whose entry stays and that has live keys behind it does not earn the full bound: some continuation with fewer than `maxSize` added entries drops the key within its lifetime. |
| `StringHistory.KnownFollowsTheCalls` | gateway/src/dedup-cache.ts:258-323 | After any run a key is known if and only if a handler holds it, or it was marked within the last `ttlMs` and nothing has pushed it out since. |
| `StringHistory.LapsedAreDropped` | gateway/src/dedup-cache.ts:268-357 | Asking for a key that is not known leaves no lapsed entry of it, and a sweep leaves none at all. |
| `StringDedup.StringDedupCache.constructor` | gateway/src/dedup-cache.ts:249-252 | A new cache is the empty one of the specification. |
| `StringDedup.StringDedupCache.Seen` | gateway/src/dedup-cache.ts:258-262 | Answers whether the key was known and marks it if not. |
| `StringDedup.StringDedupCache.Has` | gateway/src/dedup-cache.ts:268-277 | Answers whether the key is being processed or has an unexpired entry; drops an expired one. |
| `StringDedup.StringDedupCache.Reserve` | gateway/src/dedup-cache.ts:288-292 | Claims the key exactly if it is not known. |
| `StringDedup.StringDedupCache.Unreserve` | gateway/src/dedup-cache.ts:298-300 | Lets the key go, touching no entry. |
| `StringDedup.StringDedupCache.MarkSeen` | gateway/src/dedup-cache.ts:307-323 | Lets the key go, makes room, and renews or adds its entry. |
| `StringDedup.StringDedupCache.ClearSpace` | gateway/src/dedup-cache.ts:311-320 | Sweep at capacity, then drop the first key. |
| `StringDedup.StringDedupCache.EvictExpired` | gateway/src/dedup-cache.ts:346-357 | Deleting in place leaves exactly the unexpired entries in their order. |
| `LogThrottle.SortIsInTimeOrder` | gateway/src/auth-fallback-log-throttle.ts:41-43 | Sorting the entries by time gives a permutation in time order. |
| `LogThrottle.DropOldestIsHead` | gateway/src/auth-fallback-log-throttle.ts:40-48 | On a table at its limit the hard cap removes exactly one entry, the oldest. |
| `LogThrottle.TableBoundedAndSorted` | gateway/src/auth-fallback-log-throttle.ts:33-53 | In every run with a clock that does not run backwards the table keeps within its cap and its insertion order is its time order. |
| `LogThrottle.RepeatNeedsFlood` | gateway/src/auth-fallback-log-throttle.ts:25-53 | Two lines for one key less than a cooldown apart mean that at least `MAX_TRACKED_KEYS` distinct other keys were logged in between. |
| `LogThrottle.EntriesWereLogged` | gateway/src/auth-fallback-log-throttle.ts:51-52 | Every entry of the table is a line that was logged at the time it says. |
| `LogThrottle.SuppressedHasRecentLine` | gateway/src/auth-fallback-log-throttle.ts:26-28 | A suppressed line always has a line for the same key less than a cooldown before it. |
| `LogThrottle.StaleArePurged` | gateway/src/auth-fallback-log-throttle.ts:25-53 | A logged line is remembered at its time; with fewer than `MAX_TRACKED_KEYS` other keys nothing else changes, and with as many no key past its cooldown stays. |
| `LogThrottle.AuthFallbackLogThrottle.constructor` | gateway/src/auth-fallback-log-throttle.ts:15-17 | A new throttle remembers nothing. |
| `LogThrottle.AuthFallbackLogThrottle.ShouldLogNow` | gateway/src/auth-fallback-log-throttle.ts:25-53 | Gives the specified answer and the specified table. |
| `LogThrottle.AuthFallbackLogThrottle.MakeRoom` | gateway/src/auth-fallback-log-throttle.ts:36-49 | Purge, then hard cap, as specified. |
| `LogThrottle.AuthFallbackLogThrottle.PurgeExpired` | gateway/src/auth-fallback-log-throttle.ts:37-39 | Deleting in place leaves exactly the unexpired entries in their order. |
| `LogThrottle.AuthFallbackLogThrottle.RemoveOldest` | gateway/src/auth-fallback-log-throttle.ts:40-48 | Deleting the first sorted entries in place is the specified drop. |
| `AuthRateLimiter.TableBounded` | gateway/src/auth-rate-limiter.ts:26-37 | In every run at most `MAX_TRACKED_IPS` addresses are tracked and every kept list is non-empty. |
| `AuthRateLimiter.TimesAreSuffix` | gateway/src/auth-rate-limiter.ts:22-79 | What is kept for an address is the newest part of its failures since it was last cleared. |
| `AuthRateLimiter.TimesSorted` | gateway/src/auth-rate-limiter.ts:39-53 | With a clock that does not run backwards every kept list is sorted. |
| `AuthRateLimiter.CountsAgree` | gateway/src/auth-rate-limiter.ts:22-79 | Table and full log count the same failures after a cutoff, unless the cap threw the address out after it. |
| `AuthRateLimiter.BlocksLikeTheLog` | gateway/src/auth-rate-limiter.ts:42-61 | `isBlocked` holds exactly if the log has `maxFailures` (at least one) failures in the window since the last clear, for every address the cap did not throw out within the window. |
| `AuthRateLimiter.NeverOvercounts` | gateway/src/auth-rate-limiter.ts:42-61 | Whatever was thrown out, a blocked address is blocked by the full log. |
| `AuthRateLimiter.EvictionKeepsAnswers` | gateway/src/auth-rate-limiter.ts:68-79 | Stale eviction changes no answer, now or later. |
| `AuthRateLimiter.DropNeedsFullLog` | gateway/src/auth-rate-limiter.ts:26-34 | The cap throws an address out only when the log is full: exactly `MAX_TRACKED_IPS` addresses, it among them and the new one not, have failures within the window. |
| `AuthRateLimiter.OthersKeptBelowCap` | gateway/src/auth-rate-limiter.ts:26-40 | Below the cap a failure touches the list of its own address only. |
| `AuthRateLimiter.AuthRateLimiter.constructor` | gateway/src/auth-rate-limiter.ts:13-19 | A new limiter tracks nothing. |
| `AuthRateLimiter.AuthRateLimiter.RecordFailure` | gateway/src/auth-rate-limiter.ts:22-40 | Records the failure as specified, making room for a new address. |
| `AuthRateLimiter.AuthRateLimiter.ClearSpace` | gateway/src/auth-rate-limiter.ts:27-34 | Stale eviction at the cap, then the first address is dropped. |
| `AuthRateLimiter.AuthRateLimiter.IsBlocked` | gateway/src/auth-rate-limiter.ts:43-61 | Gives the specified answer and prunes that address as specified. |
| `AuthRateLimiter.AuthRateLimiter.ClearIp` | gateway/src/auth-rate-limiter.ts:64-66 | Forgets one address. |
| `AuthRateLimiter.AuthRateLimiter.EvictStaleEntries` | gateway/src/auth-rate-limiter.ts:68-79 | The walk over the map with its inner shift loops is the specified eviction. |
| `AuthRateLimiter.ShiftExpired` | gateway/src/auth-rate-limiter.ts:50-53 | The shift loop drops exactly the leading times at or before the cutoff. |
| `CredentialCache.CachedIsLatestAnswer` | gateway/src/credential-cache.ts:43-150 | In every reachable state a cached value is the answer of the latest-started reachable read of its key begun since the last invalidation, undefined if there is none; outages, rejections and older reads leave no mark. |
| `CredentialCache.ReadsCoalesce` | gateway/src/credential-cache.ts:97-104 | At most one read of a key is outstanding in each generation, and it is the one in `inflight`. |
| `CredentialCache.AskingAgainStartsNothing` | gateway/src/credential-cache.ts:100-104 | Asking while a read is in flight starts no second one. |
| `CredentialCache.AwaitedIsLatestAnswer` | gateway/src/credential-cache.ts:112-138 | Whoever awaited a read of the current generation is told its own answer or, in an outage, the latest answer there was; the cache then holds the same. |
| `CredentialCache.StaleReadNeverLands` | gateway/src/credential-cache.ts:109-111 | A read begun before an invalidation changes neither entries nor `inflight`. |
| `CredentialCache.EntryLapses` | gateway/src/credential-cache.ts:107-143 | Every cached entry is dated `ttlMs` from the last read of its key that landed in this generation, reachable or not. |
| `CredentialCache.LandedIsThere` | gateway/src/credential-cache.ts:107-143 | The entry of the last read that landed in this generation is there, dated `ttlMs` from it. |
| `CredentialCache.GetIsServed` | gateway/src/credential-cache.ts:43-57 | After any run a `get` is answered from the cache if and only if it is not forced and the last read of its key that landed since the last invalidation did so less than `ttlMs` ago; the answer is that of the latest-started answered read. |
| `CredentialCache.GetReads` | gateway/src/credential-cache.ts:43-104 | Every other `get` begins a read of its key, the next in number, unless one begun since the last invalidation has not ended; then, and when it is served, it begins nothing. |
| `CredentialCache.RefreshReads` | gateway/src/credential-cache.ts:64-67 | A refresh is one fetch after the other: each of its keys is in flight afterwards and nothing cached has changed. |
| `CredentialCache.RefreshIsReading` | gateway/src/credential-cache.ts:64-104 | After a refresh each of its keys has a read of this generation under way. |
| `CredentialCache.RunKeeps` | gateway/src/credential-cache.ts:23-150 | The invariant behind these: `inflight` and the outstanding reads of the generation are in one-to-one correspondence, and entries follow the trace. |
| `CredentialCache.CredentialCache.constructor` | gateway/src/credential-cache.ts:31-33 | A new cache is the empty one of the specification. |
| `CredentialCache.CredentialCache.Get` | gateway/src/credential-cache.ts:43-57 | Answers what `GetIsServed` says is served, or names the read in flight for its key, started only if there was none. |
| `CredentialCache.CredentialCache.FetchRead` | gateway/src/credential-cache.ts:100-149 | Joins the read in flight or starts one in the current generation. |
| `CredentialCache.CredentialCache.RefreshNow` | gateway/src/credential-cache.ts:64-67 | Starts or joins a read for each given key, or for each cached key. |
| `CredentialCache.CredentialCache.OnCompleted` | gateway/src/credential-cache.ts:107-146 | The completion callbacks take the specified step and hand out the specified answer. |
| `CredentialCache.CredentialCache.Invalidate` | gateway/src/credential-cache.ts:73-80 | Starts a generation with no entry and no read in flight. |
| `CredentialWatcher.OneBodyAtATime` | gateway/src/credential-watcher.ts:223-234 | At most one poll body runs at any time, exactly while `polling` is set, whether or not the watcher is stopped on the way. |
| `CredentialWatcher.NoLostWakeup` | gateway/src/credential-watcher.ts:205-286 | Before `stop`, every poll request is followed by a body or recorded for the end of the running one; every scheduled check also may wait for its timer. |
| `CredentialWatcher.WakeupArrives` | gateway/src/credential-watcher.ts:205-286 | Before `stop`, once the running body has ended, the timer has fired and the body running then has ended too, every earlier poll request and scheduled check has had a body after it, and every forced one a forced body. |
| `CredentialWatcher.BodiesAreRequested` | gateway/src/credential-watcher.ts:205-286 | No body starts by itself: each answers a call of `pollOnce` made since the body before it started. |
| `CredentialWatcher.StopStartsNothing` | gateway/src/credential-watcher.ts:114-130 | After `stop` no body starts, neither from the timer nor at the end of the running one, until there is a new call. |
| `CredentialWatcher.NoLostForce` | gateway/src/credential-watcher.ts:205-286 | Before `stop`, every forced request is followed by a body started with force set, or its force is recorded together with what will start that body. |
| `CredentialWatcher.RecordedForceIsUsed` | gateway/src/credential-watcher.ts:215-220 | The end of a body, or the timer of an idle watcher, starts the forced body that was recorded. |
| `CredentialWatcher.ForceReportsEverything` | gateway/src/credential-watcher.ts:258-276 | A forced body that reads every service reports each service that has credentials. |
| `CredentialWatcher.OutageSpendsForce` | gateway/src/credential-watcher.ts:239-285 | A forced body that meets an outage or throws reports nothing, and a force is left if and only if another one was recorded while it ran. |
| `CredentialWatcher.ForceNeedsRequest` | gateway/src/credential-watcher.ts:205-233 | Where no force is left, none comes back without a new forced request. |
| `CredentialWatcher.SpentForceStaysSpent` | gateway/src/credential-watcher.ts:205-285 | After a forced body met an outage or threw with no other force recorded, no later body is forced without a new forced request. |
| `CredentialWatcher.ForcedCheckIsSpent` | gateway/src/credential-watcher.ts:208-285 | The shortest such run: a forced check whose poll meets an outage leaves the watcher as new. |
| `CredentialWatcher.EventsAreFaithful` | gateway/src/credential-watcher.ts:246-276 | A consumer that applies only each event's changed services always holds the last snapshot in which every service was reachable. |
| `CredentialWatcher.UnforcedEventIsDifference` | gateway/src/credential-watcher.ts:258-270 | An unforced poll reports exactly the services whose reading differs from the last complete one. |
| `CredentialWatcher.EventIsExact` | gateway/src/credential-watcher.ts:258-276 | A complete poll, forced or not, reports exactly the services whose reading differs from the last complete one and, if forced, those with credentials; with none of either the callback is not called. |
| `CredentialWatcher.OutageChangesNothing` | gateway/src/credential-watcher.ts:235-245 | A poll that meets an outage or throws reports nothing and leaves the record alone. |
| `CredentialWatcher.RunKeeps` | gateway/src/credential-watcher.ts:205-286 | The invariant behind these: a pending poll means a running body, a pending force means an armed timer or a pending poll, and every owed poll, check and force is recorded. |
| `CredentialWatcher.CredentialWatcher.constructor` | gateway/src/credential-watcher.ts:53-55 | A new watcher has seen nothing and polls nothing. |
| `CredentialWatcher.CredentialWatcher.ScheduleCheck` | gateway/src/credential-watcher.ts:208-221 | Arms the timer and records the force. |
| `CredentialWatcher.CredentialWatcher.OnDebounceTimer` | gateway/src/credential-watcher.ts:215-220 | Takes the recorded force and polls with it. |
| `CredentialWatcher.CredentialWatcher.StartPoll` | gateway/src/credential-watcher.ts:223-233 | Starts a body, or records the request when one is running. |
| `CredentialWatcher.CredentialWatcher.OnPollBodyEnds` | gateway/src/credential-watcher.ts:235-286 | The rest of the body: compares, reports, and starts the recorded poll. |
| `CredentialWatcher.CredentialWatcher.CompareAndRecord` | gateway/src/credential-watcher.ts:258-270 | The comparison loop yields the specified changed services and the specified record. |
| `CredentialWatcher.CredentialWatcher.StopWatching` | gateway/src/credential-watcher.ts:114-130 | Disarms the timer and drops the pending poll. |
| `PlatformIdentity.IdsMatchCredentials` | gateway/src/platform-identity.ts:239-293 | Without external applies, whatever the environment says, every override was returned by a validate call made with the credentials the identity is bound to, and unbound there is none; without environment ids all ids in force are then empty. |
| `PlatformIdentity.OverridesAreAccountedFor` | gateway/src/platform-identity.ts:84-108 | In every run each override was returned by a validate call made with the bound credentials, or applied from outside since ids were last dropped. |
| `PlatformIdentity.AppliedIdsAreAdopted` | gateway/src/platform-identity.ts:250-256 | Ids applied from outside are bound to whatever credentials are read next, without any validate call. |
| `PlatformIdentity.NewCredentialsDropOldOwner` | gateway/src/platform-identity.ts:257-263 | Reading credentials other than the bound ones always drops all ids and the binding. |
| `PlatformIdentityHistory.OverrideIsLastGiven` | gateway/src/platform-identity.ts:92-108 | After any run an id is overridden if and only if a validate call returned it or an apply gave it and ids were not dropped since; it is the last one so given. |
| `PlatformIdentityHistory.InForceIsLastGiven` | gateway/src/platform-identity.ts:64-82 | The id in force is that one, trimmed, and the one of the environment, trimmed, if none was given since ids were last dropped. |
| `PlatformIdentityHistory.ReturnedIdsComeIntoForce` | gateway/src/platform-identity.ts:271-278 | When a running validate call ends with some id, every field it returned is in force, trimmed, every other field is as it was, and the ids are bound to the credentials of the call. |
| `PlatformIdentityHistory.BindingIsLastBound` | gateway/src/platform-identity.ts:250-278 | The ids are bound to credentials if and only if a validate call under them returned an id, or complete unbound ids met them, and nothing since bound the ids anew or dropped them. |
| `PlatformIdentityHistory.CallHasCredentials` | gateway/src/platform-identity.ts:242-271 | A running validate call is for the credentials its body read, and began when it read them. |
| `PlatformIdentityHistory.ValidateIsCalled` | gateway/src/platform-identity.ts:250-271 | A body that has read its credentials calls validate if and only if the ids in force are incomplete or bound to other credentials, and the last validate call did not fail with these credentials within the cooldown; otherwise it ends. |
| `PlatformIdentityHistory.EndedBodyMakesWay` | gateway/src/platform-identity.ts:239-293 | However a body ends, its promise is given up and the next ensure starts another body. |
| `PlatformIdentityHistory.EnsureRuns` | gateway/src/platform-identity.ts:239-241 | After any run an ensure starts a body if and only if none runs. |
| `PlatformIdentityHistory.UnreachableIsLastRead` | gateway/src/platform-identity.ts:243-248 | The store is reported out of reach if and only if it was at the last reading of credentials, and some were missing then. |
| `PlatformIdentity.FingerprintIsInjective` | gateway/src/platform-identity.ts:88-90 | The fingerprint tells credentials apart as long as base URLs contain no NUL. |
| `PlatformIdentity.FailuresCoolDown` | gateway/src/platform-identity.ts:264-275 | Two consecutive validate calls with the same credentials, the first failed, are at least the cooldown apart. |
| `PlatformIdentity.OtherCredentialsSkipCooldown` | gateway/src/platform-identity.ts:264-271 | Credentials other than those of the last attempt may be tried at once. |
| `PlatformIdentity.RetriesCoolDown` | gateway/src/platform-identity.ts:264-275 | After a failed validate call, another one with the same credentials starts inside the cooldown only if other credentials were tried in between. |
| `PlatformIdentity.CooldownIsForgotten` | gateway/src/platform-identity.ts:228-275 | Such a run: refused credentials are validated again at once after others were refused. |
| `PlatformIdentity.RunKeepsFlight` | gateway/src/platform-identity.ts:239-293 | In every run the bodies started and not finished are at most one, and there is one exactly while `ensureInFlight` is set. |
| `PlatformIdentity.OneBodyAtATime` | gateway/src/platform-identity.ts:239-293 | The number of running ensure bodies is one while the promise is shared and zero otherwise. |
| `PlatformIdentity.OneValidateAtATime` | gateway/src/platform-identity.ts:239-293 | Each validate call starts after the one before it ended, because only one body runs. |
| `PlatformIdentity.StepKeepsPairing` | gateway/src/platform-identity.ts:239-293 | Every step but an external apply keeps the pairing of ids and credentials, running validate calls included, as long as one body runs at a time. |
| `PlatformIdentity.PlatformIdentity.constructor` | gateway/src/platform-identity.ts:45-53 | Nothing is bound, running or cooling at first. |
| `PlatformIdentity.PlatformIdentity.EnsureIds` | gateway/src/platform-identity.ts:239-241 | Starts a body only if no promise is shared. |
| `PlatformIdentity.PlatformIdentity.FinishBody` | gateway/src/platform-identity.ts:288-290 | The `finally` ends the body and gives up the shared promise. |
| `PlatformIdentity.PlatformIdentity.IsBound` | gateway/src/platform-identity.ts:67-86 | Assistant and user id, from override or environment, are both there. |
| `PlatformIdentity.PlatformIdentity.OnCredentialsRead` | gateway/src/platform-identity.ts:242-272 | The body from the credentials to its validate call or its end, branch by branch. |
| `PlatformIdentity.PlatformIdentity.OnReadFails` | gateway/src/platform-identity.ts:239-291 | A rejected read ends the body and changes nothing else. |
| `PlatformIdentity.PlatformIdentity.OnValidateEnds` | gateway/src/platform-identity.ts:272-291 | The body after the validate call: cooldown on failure; on success the ids are applied and bound, as `ReturnedIdsComeIntoForce` says. |
| `PlatformIdentity.PlatformIdentity.ApplyPlatformIdentityIds` | gateway/src/platform-identity.ts:98-108 | Only ids that are there replace the current ones. |
| `FallbackCounts.KeyIsInjective` | gateway/src/auth-fallback-count-tracker.ts:16-19 | Equal keys mean equal triples if guards and failure kinds have no space; paths may have some. |
| `FallbackCounts.KeysAgree` | gateway/src/auth-fallback-count-tracker.ts:95-96 | Two triples share a key if and only if their space-separated words, one after the other, are the same. |
| `FallbackCounts.KeysMixUp` | gateway/src/auth-fallback-count-tracker.ts:16-19 | Two different triples share a key if and only if these words agree and the spaces are spread differently over guard, path and failure kind. |
| `FallbackCounts.SpacesMixKeysUp` | gateway/src/auth-fallback-count-tracker.ts:95-100 | With a space in a guard two triples share a key. |
| `FallbackCounts.AddConserves` | gateway/src/auth-fallback-count-tracker.ts:89-112 | Adding a count raises its key's total by it or drops it at the cap, touches no other key, and keeps the table well-formed. |
| `FallbackCounts.MergeConserves` | gateway/src/auth-fallback-count-tracker.ts:67-75 | Merging a batch back adds exactly its counts, less what the cap drops. |
| `FallbackCounts.DrainTakesAll` | gateway/src/auth-fallback-count-tracker.ts:50-65 | A drained batch holds under every key exactly what was tracked. |
| `FallbackCounts.StepBalances` | gateway/src/auth-fallback-reporter.ts:87-126 | Every step of tracker and reporter keeps the balance of every key. |
| `FallbackCounts.CountsAreConserved` | gateway/src/auth-fallback-reporter.ts:83-126 | Over any interleaving of increments and overlapping, failing flushes: increments = acknowledged + on their way + tracked + dropped at the cap, per key. |
| `FallbackCounts.StatusFollowsPosts` | gateway/src/auth-fallback-reporter.ts:104-126 | A batch is acknowledged or merged back exactly as its POST first ended, and on its way until then. |
| `FallbackCounts.CountsFollowPosts` | gateway/src/auth-fallback-reporter.ts:83-126 | The ledger from the operations alone: increments = counts in batches whose POST succeeded + in batches whose POST has not ended + tracked + dropped at the cap, per key. |
| `FallbackCounts.NothingDroppedBelowCap` | gateway/src/auth-fallback-count-tracker.ts:101-110 | While the table stays below its cap nothing is dropped. |
| `FallbackCounts.WindowsAreContiguous` | gateway/src/auth-fallback-count-tracker.ts:50-65 | The windows of the batches follow one another without gap or overlap; an empty drain moves nothing. |
| `FallbackCounts.FlightIsDrain` | gateway/src/auth-fallback-count-tracker.ts:50-65 | Every batch is what one flush drained: everything tracked then, for the window up to the time of that flush. |
| `FallbackCounts.FlushSendsAll` | gateway/src/auth-fallback-reporter.ts:87-89 | After a flush nothing is tracked; with anything tracked it sends one more batch and begins the next window, and otherwise does nothing. |
| `FallbackCounts.CountEntry.constructor` | gateway/src/auth-fallback-count-tracker.ts:111 | A new entry object says the count it was made from. |
| `FallbackCounts.AuthFallbackCountTracker.constructor` | gateway/src/auth-fallback-count-tracker.ts:41-43 | A new tracker is empty. |
| `FallbackCounts.AuthFallbackCountTracker.IncrementCount` | gateway/src/auth-fallback-count-tracker.ts:46-48 | Adds one to the key's entry, in place. |
| `FallbackCounts.AuthFallbackCountTracker.AddCount` | gateway/src/auth-fallback-count-tracker.ts:89-112 | Updates the entry in place, adds a new one, or drops the count at the cap, as specified. |
| `FallbackCounts.AuthFallbackCountTracker.Drain` | gateway/src/auth-fallback-count-tracker.ts:55-65 | The batch holds the tracked entries in order with their counts, and the tracker keeps none of those objects. |
| `FallbackCounts.AuthFallbackCountTracker.MergeBatch` | gateway/src/auth-fallback-count-tracker.ts:71-75 | Folding the batch's objects back in is the specified merge of their counts and changes none of them. |
| `FallbackCounts.AuthFallbackReporter.constructor` | gateway/src/auth-fallback-reporter.ts:57-63 | A new reporter has no batch on its way. |
| `FallbackCounts.AuthFallbackReporter.OnFallback` | gateway/src/auth-fallback-count-tracker.ts:46-48 | An increment while batches are on their way touches no drained batch. |
| `FallbackCounts.AuthFallbackReporter.StartPost` | gateway/src/auth-fallback-reporter.ts:87-102 | The flush up to its POST: an empty drain posts nothing, a batch keeps the counts it was posted with. |
| `FallbackCounts.AuthFallbackReporter.OnPostEnds` | gateway/src/auth-fallback-reporter.ts:104-126 | An accepted batch is done; a failed one is merged back with the counts it had when drained. |
| `CesRpcServer.LinesAppend` | credential-executor/src/server.ts:212-220 | The lines of a longer text are the lines of its beginning and those of the residue with the rest. |
| `CesRpcServer.FeedTwice` | credential-executor/src/server.ts:161-166 | Two chunks one after the other leave the server in the state of one longer chunk. |
| `CesRpcServer.ChunkingIsIrrelevant` | credential-executor/src/server.ts:161-220 | However the stream is cut into chunks, the server ends in the state of one chunk holding all of it. |
| `CesRpcServer.RunIsFaithful` | credential-executor/src/server.ts:94-391 | After any run, with handlers settling in any order, calls, session, answers, lost requests and buffer are those the received text calls for. |
| `CesRpcServer.HandlersFollowTheText` | credential-executor/src/server.ts:212-354 | The handlers started are those of the valid requests after the handshake, in order; the buffer is what follows the last newline. |
| `CesRpcServer.NoHandlerBeforeHandshake` | credential-executor/src/server.ts:302-311 | No handler starts before an accepted handshake. |
| `CesRpcServer.OneHandshake` | credential-executor/src/server.ts:243-300 | At most one handshake is ever accepted. |
| `CesRpcServer.SessionIsFixed` | credential-executor/src/server.ts:282-284 | The session id, once set, never changes. |
| `CesRpcServer.AnswersWithoutLost` | credential-executor/src/server.ts:259-385 | In every run, what was answered and what waits is what is due without those requests; nothing is ever answered twice. |
| `CesRpcServer.AnswersAreExact` | credential-executor/src/server.ts:302-385 | On an open connection, what was answered and what waits for its handler is together exactly what is due (one answer with its id and method for each request after the handshake and each envelope before it, none for a response) if and only if no request after the handshake names a method that plain objects inherit and the schema table does not have itself. |
| `CesRpcServer.AllSettledAllAnswered` | credential-executor/src/server.ts:347-353 | When every handler has settled, exactly what is due has been answered, if and only if there was no such request. |
| `CesRpcServer.BreakingLineIsIgnored` | credential-executor/src/server.ts:319-335 | On an open session such a request changes nothing, though an answer is due. |
| `CesRpcServer.InheritedMethodIsLost` | credential-executor/src/server.ts:319-335 | A run that shows it: a request for `toString` after the handshake starts no handler and gets no answer. |
| `CesRpcServer.SettlingAnswersOwnRequest` | credential-executor/src/server.ts:347-385 | A handler that settles is answered once, with its own request's id and method and its own result. |
| `CesRpcAnswers.OutputIsWritten` | credential-executor/src/server.ts:161-391 | While the connection is open the server writes exactly these messages in this order: for each chunk what its lines call for at once (an acknowledgement, accepted exactly for the first handshake with the right version; HANDSHAKE_REQUIRED, METHOD_NOT_FOUND or INVALID_REQUEST read off registry and schemas), and for each call that settles its result. |
| `CesRpcAnswers.WritesWhatIsCalledFor` | credential-executor/src/server.ts:161-391 | However the text came in chunks, the messages written are together those that the lines of the whole text call for and the results of the settled calls. |
| `CesRpcAnswers.SuccessIsAResult` | credential-executor/src/server.ts:347-368 | A successful reply is always what a handler returned for a waiting request of that id and method. |
| `CesRpcAnswers.PendingWaits` | credential-executor/src/server.ts:346-354 | The calls that have not settled are those that the text started and no settlement has ended. |
| `CesRpcServer.SilentAfterClose` | credential-executor/src/server.ts:387-391 | Nothing is written after the connection is closed. |
| `CesRpcServer.CesRpcServer.constructor` | credential-executor/src/server.ts:116-142 | A new server has no session and an empty buffer. |
| `CesRpcServer.CesRpcServer.OnData` | credential-executor/src/server.ts:161-166 | A chunk is ignored when closed, else buffered and processed. |
| `CesRpcServer.CesRpcServer.ProcessBuffer` | credential-executor/src/server.ts:212-220 | The loop over the buffer handles exactly its lines and leaves what follows the last newline. |
| `CesRpcServer.CesRpcServer.ProcessLine` | credential-executor/src/server.ts:222-300 | Dispatches a line, handshakes included, as specified. |
| `CesRpcServer.CesRpcServer.ProcessEnvelope` | credential-executor/src/server.ts:302-348 | Answers an error, starts the handler, or is left by an exception in the schema lookup, branch by branch; which error is fixed by `CesRpcAnswers.OutputIsWritten`. |
| `CesRpcServer.CesRpcServer.OnHandlerSettled` | credential-executor/src/server.ts:347-353 | Answers a settled handler. |
| `CesRpcServer.CesRpcServer.SendMessage` | credential-executor/src/server.ts:387-391 | Writes unless closed. |
| `CesRpcServer.CesRpcServer.CloseConnection` | credential-executor/src/server.ts:197-206 | Closes once. |
| `RunPools.RunKeeps` | assistant/scripts/test.ts:288-308 | The invariant over every interleaving: indices claimed once, results only for settled calls, no runner idle while items are left. |
| `RunPools.EachIndexOnce` | assistant/scripts/test.ts:295-303 | The worker is called with 0, 1, 2, ... in this order, each once, and no two runners wait for the same item. |
| `RunPools.KeepsWorkersBusy` | assistant/scripts/test.ts:304-306 | Never more than `concurrency` calls wait; until one fails, exactly that many or all that remain; the pool resolves with the last one. |
| `RunPools.StepDecreases` | assistant/scripts/test.ts:295-303 | Every call that comes back leaves exactly one fewer to come. |
| `RunPools.PoolTerminates` | assistant/scripts/test.ts:288-308 | In every run the calls that came back and those that remain add up to the number of items. |
| `RunPools.ResultsAreAnswers` | assistant/scripts/test.ts:301 | Every result is the answer of the call for its own item. |
| `RunPools.AnswersAreRecorded` | assistant/scripts/test.ts:301 | An answer stays in its place for good. |
| `RunPools.AnsweredOnce` | assistant/scripts/test.ts:295-303 | No item is answered twice. |
| `RunPools.ResolvedIsComplete` | assistant/scripts/test.ts:304-307 | A resolved pool called the worker for every item and holds every answer, if and only if the concurrency is at least one or there are no items. |
| `RunPools.ResultsAreTheMap` | assistant/scripts/test.ts:288-308 | With a concurrency of at least one, a resolved pool holds `worker(items[i])` at every i, whatever the order of the answers. |
| `RunPools.RunPool.constructor` | assistant/scripts/test.ts:293-306 | All runners are created in one go, each up to its first wait. |
| `RunPools.RunPool.TakeNext` | assistant/scripts/test.ts:296-301 | A runner claims the next index or ends. |
| `RunPools.RunPool.OnSettled` | assistant/scripts/test.ts:301-306 | Stores the answer in the array and claims again; a failure ends the runner. |
| `Text.SplitAppend` | credential-executor/src/server.ts:212-220 | Cutting a longer text continues the last piece of a shorter one. |
| `Text.SplitBetween` | gateway/src/auth-fallback-count-tracker.ts:95 | A text around a separator has the pieces of both sides. |
| `Text.SplitJoin` | assistant/scripts/test.ts:359-482 | Joining pieces without separators and cutting again gives the pieces. |
| `Text.JoinSplit` | assistant/scripts/test.ts:398-399 | Cutting and joining again gives the text. |
| `Decimals.PrintValue` | assistant/scripts/test.ts:439-479 | A printed number has the value it was printed from. |
| `Decimals.ParseIntPrint` | assistant/scripts/test.ts:371-472 | Reading a printed whole number with `parseInt` gives it back. |
| `Lcov.ReadLine` | assistant/scripts/test.ts:359-417 | One line updates the record of the current file and the pairing position as specified. |
| `Lcov.ReadLineCount` | assistant/scripts/test.ts:370-377 | A line count is added to the line's sum. |
| `Lcov.ReadHitCount` | assistant/scripts/test.ts:386-396 | A function count is added under the function at the same position, or under its name. |
| `Lcov.ReadBranchCount` | assistant/scripts/test.ts:398-416 | The "-" and number branches of a branch count, as specified. |
| `Lcov.ReadReport` | assistant/scripts/test.ts:355-418 | The loop over a report builds the records of its events. |
| `Lcov.PrintHits` | assistant/scripts/test.ts:432-446 | The loop over the function counts, with its totals. |
| `Lcov.PrintBranches` | assistant/scripts/test.ts:447-467 | The loop over the branches, with its totals. |
| `Lcov.PrintLineCounts` | assistant/scripts/test.ts:468-479 | The loop over the lines, with its totals. |
| `Lcov.PrintRecordLines` | assistant/scripts/test.ts:426-480 | The printed record of a file. |
| `Lcov.MergeLcov` | assistant/scripts/test.ts:319-484 | The whole merge, from the texts of the shards to the text of the report, or nothing without any report. |
| `LcovSums.BuildSums` | assistant/scripts/test.ts:369-416 | Under every key the record holds the sum of what was read, is listed exactly if it was counted, and is numeric exactly if a number was read. |
| `LcovSums.BuildTidy` | assistant/scripts/test.ts:360-416 | Every file, function and key is listed once. |
| `LcovSums.SumPermutes` | assistant/scripts/test.ts:347-349 | A sum over shards does not depend on their order. |
| `LcovSums.MergeIsSum` | assistant/scripts/test.ts:319-484 | A file has exactly one record if some shard mentions it; in it every counted key is listed once with the sum over all shards, each read by itself; a branch is "-" exactly if every shard says "-". |
| `LcovSums.MergeIsSymmetric` | assistant/scripts/test.ts:347-419 | Permuting the shards changes no count, no listed file, no listed key and no "-". |
| `LcovFormat.LineCountRead` | assistant/scripts/test.ts:369-377 | A DA line of any tool is read as its line and its count, whatever fields follow. |
| `LcovFormat.FunctionCountRead` | assistant/scripts/test.ts:385-396 | An FNDA line counts for the function at its position in the file's part of the report, and without one for its own name. |
| `LcovFormat.BranchCountRead` | assistant/scripts/test.ts:397-417 | A BRDA line is read as its line, block and branch and what was taken, a "-" being no number, whatever fields follow. |
| `LcovFormat.FileRead` | assistant/scripts/test.ts:360-368 | An SF line begins a part of its own; before the first one nothing is read. |
| `LcovFormat.OtherLineIgnored` | assistant/scripts/test.ts:360-417 | A line with none of the five labels says nothing. |
| `LcovFormat.NumberRead` | assistant/scripts/test.ts:371-387 | A number is its digits after white space and a sign, whatever follows; without digits it is zero. |
| `LcovReading.CountsRead` | assistant/scripts/test.ts:369-472 | Printed counts of any kind are read back as the same counts, function counts under the function at their position. |
| `LcovReading.RecordRead` | assistant/scripts/test.ts:359-480 | A printed record is read as what it was printed from, whatever was read before it. |
| `LcovReading.ReportRead` | assistant/scripts/test.ts:359-482 | A printed report is read as its records. |
| `LcovProper.MergedGood` | assistant/scripts/test.ts:359-417 | Every key a merge records can be printed and read back: no line ends, no commas in line keys, three parts in branch keys. |
| `LcovProper.MergedRead` | assistant/scripts/test.ts:359-482 | A merged report is read as the records it was printed from. |
| `LcovRemerge.RecordRebuilt` | assistant/scripts/test.ts:360-416 | A record read back from its print is the record, up to the keys of its function counts. |
| `LcovRemerge.Remerged` | assistant/scripts/test.ts:319-484 | Merging a merged report gives its records, up to the keys of their function counts. |
| `LcovFixedPoint.HitPartReread` | assistant/scripts/test.ts:385-446 | The function lines come back unchanged exactly if the record is stable; otherwise they never grow. |
| `LcovFixedPoint.RemergeIsFixed` | assistant/scripts/test.ts:319-484 | Merging a merged report reproduces it, character by character, if and only if in every record the function counts are read back under different keys with the names they had. |
| `LcovByLines.BuildLists` | assistant/scripts/test.ts:378-396 | A record lists its functions, and its counted functions, in order of first appearance over all shards. |
| `LcovByLines.RemergeIsFixedByLines` | assistant/scripts/test.ts:319-484 | The same condition read off the shards: for every file, the functions of its FN lines and those its FNDA lines are paired with, each in order of first appearance, pair up one to one with equal names. |
| `LcovByLines.RemergeCanChange` | assistant/scripts/test.ts:386-440 | A shard whose count comes before its function: merging the merged report changes it. |
| `LcovFixedPoint.InStepAligns` | assistant/scripts/test.ts:356-390 | If in every part of every shard the i-th count follows the i-th function and their numbers match, every merged record has a count for each function, in the same order. |
| `LcovFixedPoint.RemergeOfReportsInStep` | assistant/scripts/test.ts:319-484 | Under that condition re-merging is a fixed point. |
| `LcovFixedPoint.PrintedCountsAreSums` | assistant/scripts/test.ts:425-482 | A reader of the merged report finds, for every line and branch (and function, for such shards), the sum of what the shards say, and a "-" exactly where all say "-". |
| `LcovTotals.TotalsMatchLines` | assistant/scripts/test.ts:428-480 | The printed lines of any record, told apart by how they begin: the first names the file and the last ends the record; one FNF and one LF line say how many FNDA and DA lines there are, one FNH and one LH line on how many of these the printed number is positive; and there is one BRF and one such BRH line exactly if there is a BRDA line. |
| `LcovTotals.ReportHasTotals` | assistant/scripts/test.ts:425-482 | The text of a merged report, cut at its line ends, is such records, one for each file. |
| `LcovTotals.FunctionsListed` | assistant/scripts/test.ts:429-431 | The FN lines of a record are the functions of its file in their order. |
| `LcovTotals.MergesWhatThereIs` | assistant/scripts/test.ts:349-423 | There is a merged report if and only if some shard left one. |
| `UnifiedDiffs.ParseUnifiedDiff` | scripts/check-generic-examples.ts:149-195 | The loop over the lines, with its maps and counters, computes the specified parse. |
| `UnifiedDiffs.HeaderParses` | scripts/check-generic-examples.ts:167-171 | From a printed hunk header the number of the first new line is read, with or without counts. |
| `UnifiedDiffHeaders.HeaderIsRead` | scripts/check-generic-examples.ts:167-169 | A line of two ranges, each a number and perhaps a comma and a count, between the marks, with anything after them, is read as its new number. |
| `UnifiedDiffHeaders.HeaderOrNothing` | scripts/check-generic-examples.ts:167-171 | A line that begins like a hunk header sets the line number if and only if it has that form; otherwise it changes nothing. |
| `UnifiedDiffs.PatchedIsPlaced` | scripts/check-generic-examples.ts:149-195 | After applying the hunks their new sides stand where the headers say. |
| `UnifiedDiffs.LineParsed` | scripts/check-generic-examples.ts:174-192 | Each line of a hunk leaves the line before the next position noted, and an added one is reported with its number and predecessor. |
| `UnifiedDiffs.HunksParsed` | scripts/check-generic-examples.ts:167-192 | Over all hunks of a file without an added line after an unmarked blank one, the parser reports exactly the added lines. |
| `UnifiedDiffs.HunksCounted` | scripts/check-generic-examples.ts:167-192 | Over any hunks the parser numbers the added lines by counting the lines that begin with a plus sign or a space. |
| `UnifiedDiffs.CountedAtIsAdded` | scripts/check-generic-examples.ts:167-192 | These numbers are those of the patched file if and only if in no hunk an added line comes after an unmarked blank one. |
| `UnifiedDiffReports.FileParsed` | scripts/check-generic-examples.ts:158-193 | Over one printed file the parser finds its added lines under the name in its header and the numbers it counts, or nothing without a name. |
| `UnifiedDiffReports.FilesParsed` | scripts/check-generic-examples.ts:149-195 | Over a whole diff without masked lines the parser finds file after file. |
| `UnifiedDiffReports.AddedBound` | scripts/check-generic-examples.ts:174-185 | Never more lines are reported than begin with one plus sign. |
| `UnifiedDiffReports.ParseIsFaithful` | scripts/check-generic-examples.ts:149-195 | The parse of a printed diff is the added lines, each with number and text in the patched file and the line before it if shown, if and only if no added line begins with "++", every file that gains a line is named by its header, and in no hunk an added line comes after a blank line printed without its space. |
| `UnifiedDiffReports.MaskedLineIsLost` | scripts/check-generic-examples.ts:158-174 | In any file, an added line that begins with "++" breaks the report. |
| `UnifiedDiffReports.TabbedHeaderMisnames` | scripts/check-generic-examples.ts:158-165 | A header that ends in a tab, as for a path with a blank, has its added lines reported under a name with that tab. |
| `UnifiedDiffReports.LateLineIsMisnumbered` | scripts/check-generic-examples.ts:186-192 | An added line after a blank line printed as an empty one breaks the report. |
| `UnifiedDiffReports.NamedByHeader` | scripts/check-generic-examples.ts:160-161 | A header names a file exactly if it is `b/` and the name, without line terminators. |
| `UnifiedDiffReports.ReportedLines` | scripts/check-generic-examples.ts:123-129 | The reported lines are the added texts in order, with rising numbers, and stand under these numbers in the patched file. |
| `UnifiedDiffReports.MarkersAreSeen` | scripts/check-generic-examples.ts:285-291 | With a line of context before each change, a line is suppressed exactly if it carries the same-line marker or the line above it in the patched file carries the next-line marker. |

## Left out

- The clock: `Date.now()` is read once per call and given to it; two reads within one call never differ. Lemmas that need a clock that does not run backwards say so.
- Numbers: JavaScript numbers are unbounded integers here. NaN, fractions, and counts or line numbers beyond 2^53 are not modelled.
- Logging, warn-once flags, error message texts and response timestamps.
- Timers, sockets, files, environment variables and HTTP: their events are the inputs of the steps. The retry loop at the start of the credential watcher and the list of configured services are not part of this model.
- JSON parsing in the RPC server: `decode` is an arbitrary function, and so is each schema in `schemas`; `handlers` and `schemas` have the own entries of the two tables, and `inherited` the property names that every plain object inherits. A schema of the table that itself throws is not modelled. Characters reach the model already decoded, so a UTF-8 sequence cut by a chunk is not modelled.
- Handlers that throw before their first await are handlers that settle at once. The handshake callback and the invalidation listeners are not called in the model.
- A credential read that rejects during a poll ends the body like an outage does. A consumer callback that throws is not modelled.
- Reading the two platform credentials, with their fallbacks to environment and vault, is one input of the identity's step.
- `Array.prototype.sort` in the log throttle is a stable insertion sort; only its being a permutation in time order matters.
- CredentialWatcher.EventsAreFaithful: every poll is taken to read the same services, as the fixed list of specifications makes it do; equality is up to the serialiser, and exact when that is injective.
- DedupRotation.ResetsFollowTokens: the hash is any function on tokens; that SHA-256 does not collide on them is not proved.
- Lcov.MergeLcov: the records are values in a map, found again by the name of the current file, where the source holds a reference to the mutable record. Listing the shard directories and writing the file are left out; a shard without a report is `None`.
- UnifiedDiffReports.ParseIsFaithful: diffs are printed from ordered hunks with any text before the file header that does not begin with a plus sign, a blank or an at sign; combined diffs and colours are not modelled, no two headers name the same file, and a hunk after one with an unmarked blank line does not touch it.
- FallbackCounts.AuthFallbackReporter.StartPost: `stop` is a last flush and `start` only a timer; both are flush steps of the runs.
- RunPools.RunPool.constructor: the concurrency is a whole number. After a failed call the other runners go on, as in the source; that the pool's promise has been rejected is the flag `failed`.
- Skipping files by pattern, the regular expressions of the scan, and commit-message parsing in the example checker.
- `snapshot` and `reset` of the count tracker and the size getters, which only tests use.
