# A verified model of the framework's stateful core

This project models, in Dafny, the parts of the framework whose correctness rests on state, interleaving or
machine arithmetic, and proves what they promise for every input, every run and every interleaving:

* **the in-memory cache** (`cache/`). `EvictionHistory` says what LRU, LFU and FIFO mean in terms of the history of
  handler calls alone. `LfuOrder`, `LfuHandlers` and `EvictionHandlers` hold the linked structures and prove that they
  select exactly that key. `MemoryCaches` is the cache as an object on top of those handlers. `CacheRuns` and
  `CacheGuarantees` are the same cache cut into the steps its goroutines really take: readers run off the lock and
  between any two writes of a mutator; `CacheReads` says what a Get among them must answer. `SingleFlight` is the
  `GetOrLoad` protocol.
* **the lock lease** (`lock/`): `LockOptions`, and in `Lease` the watchdog, any number of `Release` calls and the backend.
* **the JavaScript runtime** (`js/`): `JsRuntime`, cancellation racing the end of a run.
* **schedule triggers** (`cron/`): `Trigger`, phase arithmetic, saturation, and the counting loop.
* **derived consumer groups** (`approval/`): `DerivedGroups`, claims and releases in any order, plus the code that takes them.
* **HTTP retries** (`httpx/`): `Retry`, the wrapping shift and the attempt loop.
* **codecs**: `RedisKeys` (glob escaping, key building and stripping) and `AesCbc` (PKCS#7 inside the CBC envelope).
* **the start-up retention check** (`config/`): `Retention`.

`Options` and `Arithmetic` hold what several modules share.

Protocols are state machines: a `State`, an `Action` for each atomic step, `Enabled`, `Apply`, and `Exec` over a legal
sequence of actions. Each has an invariant `Inv`, a lemma that every step keeps it, and theorems over every legal run.
Objects that the code updates in place are classes with the same fields; a ghost `history` (or `state`) ties them to
the specification. Clocks, random draws, transport outcomes, the cron library, the block cipher, Base64 and float
rounding are parameters.

Where the code and its comments disagree, the model follows the code:

* the LFU tie-break is the oldest *last touch*, not the oldest insertion (`cache/eviction.go:332`); `insertOrder` and
  `keyToBucket` are written and never read;
* `Set` can find no victim with a proper policy, which a comment says should not happen (`cache/memory.go:190`): when
  the victim is the empty-string key, and only then;
* the watchdog's "a full TTL without a refresh" need not mean that the lease has expired server-side
  (`lock/lease.go:74`): `Lease.TtlLossIsExpiryIff` says when it does;
* a key that is stored and unexpired all the time can still be missed by a `Get` (`cache/memory.go:151`):
  `CacheReads.LiveKeyIsFound` gives the condition under which it is not;
* a zero anchor makes every interval fire relative to the query, so windows do not add up (`cron/trigger.go:266`), and
  a gap beyond a `Duration` loses the phase (`cron/trigger.go:274`);
* `@every` expressions are cron triggers (`cron/trigger.go:43`) and fire relative to the query as well, so they have no
  set of fires to count; `Trigger.RelativeClosedForm` gives their count;
* on a closed cache every `Get` misses, so `GetOrLoad` runs its loader even for a stored live key
  (`cache/memory.go:147`), and then fails with `ErrCacheClosed`;
* the backoff shift can wrap to a small positive number (`httpx/retry.go:117`); `Retry.CeilingIsExactIff` says when;
* the Redis pattern without a filter has no separator, so `Clear`, `Size` and `Keys("")` reach into a namespace whose
  name continues this one (`cache/redis.go:92`);
* `stripPrefix` always strips `":"`, so it inverts `Build` only for that separator (`cache/redis.go:100`);
* `max_retries` equal to the largest int wraps the retention horizon to minus two seconds (`config/event.go:207`).

`dafny verify dfyconfig.toml` checks everything.

## Model

| member | source | states |
|---|---|---|
| `EvictionHistory.CandidateExists` | cache/eviction.go:15-36 | In every history each policy has exactly one right answer, "" standing for "nothing tracked" |
| `EvictionHistory.BeforeIsTotal` | cache/eviction.go:312-343 | On tracked keys each policy's order is total: of two keys exactly one has to leave first, so no tie is left open |
| `EvictionHistory.LfuTieBreakIsLastTouch` | cache/eviction.go:332-339 | A four-call history in which the older insertion is not the one selected, although both keys have the same frequency |
| `LfuOrder.FrontOfLowestIsSelected` | cache/eviction.go:313-343 | The front of the lowest frequency group is the tracked key least by (touches since insertion, time of last touch) |
| `LfuOrder.RankedInsert` | cache/eviction.go:267-289 | Appending a new key to group 1 keeps the groups equal to what the history says |
| `LfuOrder.RankedAccess` | cache/eviction.go:242-265 | Moving a key to the back of the next group keeps every group ordered by last touch |
| `LfuOrder.RankedEvict` | cache/eviction.go:291-311 | Unlinking a key, and its group once empty, keeps the ranking of all others |
| `LfuOrder.RankedIdle` | cache/eviction.go:246-249 | Accessing or evicting an untracked key and inserting a tracked one leave the ranking right unchanged: no access ever inserts |
| `LfuOrder.GroupsAreRanked` | cache/eviction.go:242-447 | After every sequence of OnInsert, OnAccess, OnEvict and Reset the groups are ranked |
| `LfuOrder.GroupsFollowHistory` | cache/eviction.go:242-447 | After every such sequence the front of the lowest group is the LFU selection of that history |
| `LfuHandlers.LfuHandler.constructor` | cache/eviction.go:232-240 | A new handler is consistent and has an empty history |
| `LfuHandlers.LfuHandler.InsertBucketSorted` | cache/eviction.go:419-430 | The bucket list stays strictly increasing and gains exactly the new frequency |
| `LfuHandlers.LfuHandler.AddToFreqBucket` | cache/eviction.go:358-382 | The key goes to the back of its bucket, which is created in place when missing; list and map keep naming the same buckets |
| `LfuHandlers.LfuHandler.RemoveFromFreqBucket` | cache/eviction.go:385-410 | The key leaves its bucket, an emptied bucket leaves list and map together, an unknown key changes nothing |
| `LfuHandlers.LfuHandler.MoveToFreqBucket` | cache/eviction.go:413-416 | Removal and addition compose to one move between groups |
| `LfuHandlers.LfuHandler.RecalculateMinFreq` | cache/eviction.go:433-447 | minFreq is the lowest frequency in use, 0 when none is |
| `LfuHandlers.LowestStays` | cache/eviction.go:261-264 | Skipping the recalculation is right: moving or removing a key above the minimum leaves the minimum in place |
| `LfuHandlers.LfuHandler.OnAccess` | cache/eviction.go:242-265 | All five parts stay consistent with each other and with the history plus this access |
| `LfuHandlers.LfuHandler.OnInsert` | cache/eviction.go:267-289 | The same for an insertion, new or repeated |
| `LfuHandlers.LfuHandler.OnEvict` | cache/eviction.go:291-311 | The same for an eviction, tracked or not |
| `LfuHandlers.LfuHandler.SelectEvictionCandidate` | cache/eviction.go:313-343 | Returns the history definition's LFU candidate, "" iff nothing is tracked (up to the empty-string key) |
| `LfuHandlers.LfuHandler.Reset` | cache/eviction.go:345-355 | From any state back to a consistent empty handler |
| `LfuHandlers.Accessed` | cache/eviction.go:251-259 | An access to a tracked key finds it in the bucket of its frequency, and groups and key maps agree again afterwards |
| `LfuHandlers.Inserted` | cache/eviction.go:276-288 | The same for a new key; every frequency in use is at least 1, which makes minFreq = 1 right |
| `LfuHandlers.Evicted` | cache/eviction.go:295-305 | The same for an eviction |
| `EvictionHandlers.LruHandler.OnAccess` | cache/eviction.go:77-92 | The list stays in order of last use and lists exactly the tracked keys; an untracked key is not inserted |
| `EvictionHandlers.LruHandler.OnInsert` | cache/eviction.go:94-105 | The same for an insertion; a repeated one counts as a use |
| `EvictionHandlers.LruHandler.OnEvict` | cache/eviction.go:107-115 | The same for an eviction |
| `EvictionHandlers.LruHandler.SelectEvictionCandidate` | cache/eviction.go:117-132 | Returns the least recently used tracked key by the history definition |
| `EvictionHandlers.LruHandler.Reset` | cache/eviction.go:134-140 | Back to a consistent empty handler |
| `EvictionHandlers.UsedFirst` | cache/eviction.go:89-91 | Moving an element to the front restores the order of last use and loses no key |
| `EvictionHandlers.FifoHandler.OnAccess` | cache/eviction.go:156-158 | An access changes nothing in the order of insertion |
| `EvictionHandlers.FifoHandler.OnInsert` | cache/eviction.go:160-169 | The list stays in order of insertion; a repeated insertion does not move the key |
| `EvictionHandlers.FifoHandler.OnEvict` | cache/eviction.go:171-179 | The same for an eviction |
| `EvictionHandlers.FifoHandler.SelectEvictionCandidate` | cache/eviction.go:181-196 | Returns the key inserted first among the tracked ones |
| `EvictionHandlers.FifoHandler.Reset` | cache/eviction.go:198-204 | Back to a consistent empty handler |
| `MemoryCaches.NewHandler` | cache/eviction.go:39-52 | The handler is the one of the policy, fresh, consistent and without history |
| `MemoryCaches.Handler.SelectEvictionCandidate` | cache/eviction.go:20-36 | Whatever the handler, the candidate is the one its policy selects in its history; NoOp never has one |
| `MemoryCaches.MemoryCache.constructor` | cache/memory.go:60-98 | An unlimited cache never evicts, a bounded one falls back to LRU; the cache starts empty and consistent |
| `MemoryCaches.MemoryCache.MakeRoom` | cache/memory.go:185-201 | The eviction loop terminates and evicts exactly one key, the policy's selection, or none and fails when that selection is "" |
| `MemoryCaches.MemoryCache.SetLocked` | cache/memory.go:181-227 | The whole new map and handler history: store, and one eviction iff a new key meets a full cache; on failure nothing changes |
| `MemoryCaches.MemoryCache.Put` | cache/memory.go:216-225 | Map, counter and handler change together; an update counts as an access, a new key as an insertion |
| `MemoryCaches.MemoryCache.Set` | cache/memory.go:172-228 | As SetLocked, with an entry that expires after the given or default TTL or never, ErrCacheClosed on a closed cache and ErrMemoryLimitExceeded iff the victim is "" |
| `MemoryCaches.Lifetime` | cache/memory.go:203-214 | A stored value is found up to and including now + TTL and not after, by the given TTL or else the default one, and for ever without either; an expiry that falls on instant 0 is taken for none |
| `MemoryCaches.MemoryCache.RemoveExpiredEntry` | cache/memory.go:123-143 | Deletes the key iff it still maps to the very entry observed; map, handler and counter move together |
| `MemoryCaches.MemoryCache.Get` | cache/memory.go:146-164 | A live entry's value and one recorded access, or a miss; an expired entry is removed |
| `MemoryCaches.MemoryCache.Contains` | cache/memory.go:231-242 | True iff a live entry is stored; removes an expired one and never counts as an access |
| `MemoryCaches.MemoryCache.Delete` | cache/memory.go:245-261 | Removes the key from map, handler and counter together; a missing key changes nothing |
| `MemoryCaches.MemoryCache.Clear` | cache/memory.go:264-279 | Map, handler and counter are empty together |
| `MemoryCaches.MemoryCache.ScanExpired` | cache/memory.go:400-406 | The snapshot holds a pair iff the scan came across its key at a time when its entry had expired; each entry is probed at its own time |
| `MemoryCaches.MemoryCache.RemoveStale` | cache/memory.go:408-410 | Exactly the pairs still in place go, all others stay as they were |
| `MemoryCaches.MemoryCache.CleanupExpired` | cache/memory.go:385-411 | Exactly the entries that had expired when the scan probed them go, all others stay as they were |
| `CacheRuns.StepKeepsInv` | cache/memory.go:104-279 | Every atomic step of every reader and mutator keeps the invariant that says how far map, handler and counter are apart at that point |
| `CacheRuns.OffLockStepKeepsInv` | cache/memory.go:104-164 | A reader's load, probe or touch keeps it at any point inside a mutator, because OnAccess never inserts |
| `CacheRuns.EvictKeepsInv` | cache/memory.go:196-199 | The victim selected under interleaved touches is still stored when it is deleted |
| `CacheRuns.StoreKeepsInv` | cache/memory.go:211-216 | A store keeps every reader's observation the latest one of the time it was made |
| `CacheGuarantees.ReachableInv` | cache/memory.go:104-279 | The invariant holds after every interleaving from an empty cache |
| `CacheGuarantees.ConsistentWhenFree` | cache/memory.go:104-279 | Whenever the mutex is free the tracked keys are the stored keys, size is their number, and it is at most maxSize |
| `CacheGuarantees.GetIsFresh` | cache/memory.go:146-164 | In every interleaving a Get that hits answers with the latest store of that key at its load, never one older than the last store before the call and never one already expired at the call |
| `CacheReads.LiveKeyIsFound` | cache/memory.go:146-164 | A Get called on an open cache must find its key: if the key is stored in every state from the call on, under entries unexpired at the end of the run, the Get never misses, hits after three steps of its own, and answers with an entry the key had since the call |
| `CacheReads.MissHasACause` | cache/memory.go:146-164 | In every run a Get that misses took a step at which the cache was closed (its call), the key was not stored (its load), or the entry it had loaded had expired (its probe) |
| `CacheReads.LiveKeyCanBeMissed` | cache/memory.go:151-158 | A concrete run in which the key is stored and unexpired in every state and is missed all the same: the loaded entry is replaced, then expires before the probe |
| `CacheReads.ClosedGetMisses` | cache/memory.go:147-149 | Every Get called after Close misses, whatever happens next |
| `CacheReads.ReadersEnd` | cache/memory.go:104-164 | Every Get ends: each own step brings it closer, no other step sets it back, and it can always take one (a stale reader once the mutex is free) |
| `CacheReads.ReadIsRemembered` | cache/memory.go:160-161 | The touch of a Get is in the handler's history in every continuation; under LRU the key is then not selected while some tracked key has not been used since |
| `CacheReads.SetIsRemembered` | cache/memory.go:218-225 | A finished Set, of a new or a stored key, counts as a use and a touch of its key that happened since it took the lock |
| `CacheGuarantees.AbsentUntilSet` | cache/memory.go:146-164 | From any state with the key not stored and not being stored, every run without a Set of it leaves it out, and no reader called meanwhile finds it |
| `CacheGuarantees.RemovalTakesEffect` | cache/memory.go:245-279 | A Delete of the key or a Clear is in effect from its first step under the mutex, whatever else runs, until a Set of the key |
| `CacheGuarantees.GetAfterRemovalMisses` | cache/memory.go:245-279 | A Get called after a Delete of its key or a Clear has acted never answers with a value before the key is Set again |
| `CacheGuarantees.MapChangesOneKeyOrAll` | cache/memory.go:123-279 | Each atomic step changes the map by one store, one removal or a clear, which is what the GetOrLoad protocol is built on |
| `CacheGuarantees.StaleRemovalSparesNewEntries` | cache/memory.go:114-143 | A removal by a reader or the sweep deletes the expired entry observed if it is still in place, and nothing else; so nothing once the key was stored again |
| `CacheGuarantees.SetOutcome` | cache/memory.go:172-228 | What a finished Set did, whatever readers did meanwhile: one victim, selected by the policy at the selection step, iff a new key met a full cache; failure iff the victim is "", and then no change |
| `CacheGuarantees.SetSucceedsWithoutEmptyKey` | cache/memory.go:189-193 | Set never fails in any interleaving while the empty-string key is not stored |
| `CacheGuarantees.EmptyKeyBlocksTheCache` | cache/memory.go:189-193 | A concrete run under every policy: a cache of size one that holds "" refuses Set("a") |
| `CacheGuarantees.HolderIsNeverStuck` | cache/memory.go:186-200 | The holder of the mutex can always take its next step |
| `CacheGuarantees.HolderMakesProgress` | cache/memory.go:186-200 | Each own step brings the holder closer to releasing the mutex, and no step of another goroutine sets it back |
| `CacheGuarantees.MutexIsReleased` | cache/memory.go:185-227 | The eviction loop terminates in every interleaving: at most ten own steps free the mutex |
| `SingleFlight.StepKeepsInv` | cache/singleflight_mixin.go:38-85 | Every step of every caller and of other cache users, Close included, keeps flights, log, looks, leaders, waiters and answers consistent; a look is an open check, a load, a later expiry probe and a guarded removal |
| `SingleFlight.MissHasReason` | cache/singleflight_mixin.go:57-60 | When the second look misses, it found the cache closed, or the last store of the key it could see had been dropped before its load, or the entry it loaded had expired when it probed |
| `SingleFlight.FirstMissIsJustified` | cache/singleflight_mixin.go:50-53 | A first look that missed found the cache closed, or the last store visible to it had been dropped or had itself expired |
| `SingleFlight.OneLoaderPerKey` | cache/singleflight_mixin.go:56-74 | In every run at most one caller is inside the flight of a key |
| `SingleFlight.NoRedundantLoad` | cache/singleflight_mixin.go:50-74 | Of two loader stores of a key, the first was visible to the second caller's second look, and the last store visible to that look, by a loader or a Set, had been deleted, cleared or evicted before it or had itself expired at it; how long the loader took does not matter |
| `SingleFlight.NoRedundantLoader` | cache/singleflight_mixin.go:57-64 | The same for every loader that is still running, unless its look found the cache closed |
| `SingleFlight.ClosedCacheKeepsNothing` | cache/memory.go:173-175 | After a look that found the cache closed no store is possible: the caller ends with ErrCacheClosed and the cache unchanged |
| `SingleFlight.ClosedCacheLoadsALiveKey` | cache/memory.go:147-149 | A concrete run: on a closed cache the loader runs although the entry is stored and never expires |
| `SingleFlight.WaitersShareTheAnswer` | cache/singleflight_mixin.go:56-84 | A waiter is never orphaned and gets exactly what the leader of its own key returned |
| `SingleFlight.AnswersAreGenuine` | cache/singleflight_mixin.go:50-84 | Every value handed to a caller was stored under that caller's key; a value whose store failed is never handed out |
| `SingleFlight.CachedAnswersAreCurrent` | cache/singleflight_mixin.go:50-60 | A value that no loader of the flight returned is the last one stored under the key when a look loaded it, unexpired when that look probed it |
| `SingleFlight.LoadedValueIsReturned` | cache/singleflight_mixin.go:63-84 | If the loader of a flight returned v, Close never came and its Set was not refused, every caller answered by that flight has v, and v is stored under the key |
| `SingleFlight.ErrorsHaveCauses` | cache/singleflight_mixin.go:63-79 | A loader error, a store error and a closed error each imply that the loader of the caller's flight failed, that its Set was refused, or that the cache was closed |
| `SingleFlight.RecordsAreActions` | cache/singleflight_mixin.go:56-74 | What the state records of loaders, refused Sets and Close is exactly what happened in the run |
| `SingleFlight.StoresAsAsked` | cache/singleflight_mixin.go:68-71 | A store puts the value with the expiry asked for under its key alone, a loader's store what the loader returned; a removal takes its key away and a clear all |
| `SingleFlight.StaleEntryIsRemoved` | cache/memory.go:104-143 | A look that found an expired entry removes that very entry and no newer one |
| `SingleFlight.CallsEnd` | cache/singleflight_mixin.go:38-85 | Each step of a caller brings it closer to its answer and no step of another sets it back |
| `SingleFlight.NoCallerIsStuck` | cache/singleflight_mixin.go:56-74 | A caller without an answer can take a step or waits for a leader that has none yet |
| `LockOptions.ResolveAcquireConfig` | lock/options.go:70-98 | The last option of each kind wins, non-positive durations fall back, refused iff auto-renew meets a TTL below the minimum |
| `Lease.StepKeepsInv` | lock/lease.go:50-130 | Every step of watchdog, Release, Refresh and backend keeps the stop and done channels consistent with the log |
| `Lease.DoneMeansLost` | lock/lease.go:66-130 | done closes at most once, and only after evidence met while stop was still open: the backend denied the token for a reason other than our release, or a full TTL passed since every refresh the watchdog saw succeed |
| `Lease.TtlLossIsExpiryIff` | lock/lease.go:71-76 | A loss declared for want of refreshes is an expiry in the backend iff every extension the watchdog did not see (a Refresh by the holder, or a renewal whose reply was lost) is at least a TTL old |
| `Lease.DoneCanCloseOnAHeldLease` | lock/lease.go:58-60 | A concrete run: three failed ticks and one Refresh by the holder close done while the lease is held and unexpired |
| `Lease.LossIsDetected` | lock/lease.go:93-127 | With timely ticks an unreleased lease is declared lost before last success + TTL + 2 * (TTL / 3) |
| `Lease.LossFollowsTheLastRenewal` | lock/lease.go:93-127 | By the actions of the run: if the backend renews nothing from some point on and no Release comes, done closes before that point + TTL + 2 * (TTL / 3) |
| `Lease.DenialIsDefinitive` | lock/lease.go:114-117 | In every timely run, once the backend denies the token to the refresh of a tick and no Release comes, no later refresh is sent and done closes before the clock passes that tick + TTL / 3 |
| `Lease.RefreshesAreRegular` | lock/lease.go:94-105 | In every timely run the n-th refresh is sent exactly n * (TTL / 3) after the start |
| `Lease.StoppedWatchdogExits` | lock/lease.go:101-104 | After Release the watchdog can always take a step, and each one but a tick brings it closer to its exit |
| `Lease.ReleaseIsFinal` | lock/lease.go:50-56 | A Release that has reached the backend ends the token's ownership for good |
| `Lease.HealthyLeaseNeverExpires` | lock/lease.go:93-127 | For every accepted TTL, timely ticks and successful refreshes keep the lease held and unexpired in every run |
| `JsRuntime.StepKeepsInv` | js/runtime.go:139-178 | Every step of the run, the context and the callback keeps the interrupt bookkeeping consistent |
| `JsRuntime.IdleRuntimeIsClean` | js/runtime.go:158-167 | Whenever run has returned, the interrupt flag is clear, no callback is pending or in flight and no context is published |
| `JsRuntime.InterruptsStayInTheirRun` | js/runtime.go:151-175 | A script is interrupted only by its own context, which has ended; the run then reports that context's error |
| `JsRuntime.ReportsAreOwn` | js/runtime.go:139-178 | No caller ever sees a raw interrupt error or another run's context error |
| `JsRuntime.ReportsFitTheOutcome` | js/runtime.go:139-178 | Every run that is over has a report: its value if exec finished, the script's error if it failed, the panic if it panicked, its context's error if it was interrupted or never begun, and the latter two only if that context had ended |
| `JsRuntime.OutcomesAreActions` | js/runtime.go:177 | The outcome on record for a run is the one its exec ended with |
| `JsRuntime.CancellationIsDelivered` | js/runtime.go:151-156 | While the run of a cancelled context executes, its callback can fire, can land, or has interrupted the VM |
| `JsRuntime.LandingInterrupts` | js/runtime.go:151-156 | A callback that fires can land, and landing interrupts the VM for its run |
| `JsRuntime.DrainingEnds` | js/runtime.go:159-163 | The wait for an interrupt in flight always ends |
| `Trigger.ValidIffCompiles` | cron/trigger.go:118-251 | Validate accepts exactly the specs that compile, but for an empty cron expression and a one-shot at the zero time |
| `Trigger.ValidateNamesTheFault` | cron/trigger.go:118-160 | By the fields of the spec: which specs Validate accepts, and that each error names a fault the spec has |
| `Trigger.CompileKeepsTheSpec` | cron/trigger.go:215-251 | By the fields of the spec: which specs compile, and that the compiled trigger has the kind, the values and the fires of the spec |
| `Trigger.NextOfSpecIsItsNextFire` | cron/trigger.go:166-173 | By the fields of the spec: Next is its least fire after the query, none for a spec that does not run, exactly unless the gap saturates out of phase or a cron fire at the zero time is hidden |
| `Trigger.RateFitsDuration` | cron/trigger.go:234-264 | For every compiled interval the nanosecond rate fits an int64, and the delay added is positive and at most a period |
| `Trigger.IntervalNextIsLeast` | cron/trigger.go:263-277 | An anchored interval's next is the least anchor + k * every (k >= 0) after the query iff the subtraction keeps the phase, and otherwise it is no fire at all |
| `Trigger.NextIsLeastFire` | cron/trigger.go:253-289 | For every kind, next is the least fire strictly after the query iff the phase is kept and no fire at the zero time is hidden from an earlier query; with no fire left it says so. Cron expressions are those with a set of fires |
| `Trigger.SaturationLosesThePhase` | cron/trigger.go:274-277 | A concrete interval and query whose answer is not anchor + k * every for any k |
| `Trigger.DelayStaysWithinPeriod` | cron/trigger.go:274-277 | At or past the anchor the answer is in (after, after + every] even when the subtraction saturates |
| `Trigger.Occurrences` | cron/trigger.go:178-202 | By the fields of the spec: min(limit, number of instants in (from, to] that are anchor + k * every, the one-shot instant, or fires of the expression), min(limit, (to - from) / every) with the zero anchor, and 0 for an empty window or limit or a spec that does not run |
| `Trigger.WalkCountsFires` | cron/trigger.go:191-199 | The loop counts the fires of the window up to the limit, whatever the trigger kind |
| `Trigger.AnchoredIsFaithful` | cron/trigger.go:253-289 | One-shot triggers always qualify, cron expressions with a set of fires on windows from the zero time on, anchored intervals while the window ends within a Duration of the anchor |
| `Trigger.FiresSplit` | cron/trigger.go:175-177 | Fires in adjacent windows add up |
| `Trigger.OccurrencesSplit` | cron/trigger.go:178-202 | Counts over adjacent windows add up iff the total is within the limit, or one window is empty, or the limit is 0 |
| `Trigger.WalkClosedForm` | cron/trigger.go:178-202 | For anchored intervals and windows ending within a Duration of the anchor the loop's count is the closed form, up to the limit |
| `Trigger.FiresClosedForm` | cron/trigger.go:263-277 | For every anchor and window, the instants anchor + k * every in (from, to] number exactly the closed form |
| `Trigger.ZeroAnchorClosedForm` | cron/trigger.go:266-268 | With a zero anchor the count is min(limit, (to - from) / every), whatever the phase |
| `Trigger.ZeroAnchorDoesNotSplit` | cron/trigger.go:266-268 | Two adjacent windows without a fire whose union has one |
| `Trigger.RelativeIsLeastOnlyForOneUnit` | cron/trigger.go:42-46 | An `@every` expression, whose next is a delay after the rounded query, has no set of fires unless the delay is one rounding unit, and then it has |
| `Trigger.RelativeClosedForm` | cron/trigger.go:178-202 | For such an expression the count is min(limit, (to - from) / delay) with from rounded down, whatever the anchor |
| `DerivedGroups.StepKeepsInv` | approval/subscribe.go:167-233 | Every step of every subscribe, failure and teardown keeps the claims exact |
| `DerivedGroups.ClaimsAreExact` | approval/subscribe.go:315-338 | In every interleaving the claimed names are exactly the groups of derived subscriptions not yet torn down, each held by one |
| `DerivedGroups.ClaimSurvivesOthers` | approval/subscribe.go:220-233 | From every reachable state, a live claim survives every continuation made of other subscriptions' steps, repeated unsubscribes of an earlier holder of the name included, and stays the only one on its name |
| `DerivedGroups.ReleasedAtMostOnce` | approval/subscribe.go:224-233 | In every run each subscription gives its name back at most once, over failure and teardown together |
| `DerivedGroups.RepeatedUnsubscribeIsInvisible` | approval/subscribe.go:220-233 | Once unsubscribed, all further unsubscribes can be left out of any continuation: it stays legal and ends in the same state |
| `DerivedGroups.FollowSteps` | approval/subscribe.go:157-218 | A subscribe call's steps are a legal run of the protocol that leaves a claim iff it succeeds with a derived name |
| `DerivedGroups.Registry.ClaimDerivedGroup` | approval/subscribe.go:320-331 | Succeeds iff the name was free; the name is claimed afterwards and no other name changes |
| `DerivedGroups.Registry.ReleaseDerivedGroup` | approval/subscribe.go:333-338 | Frees exactly that name |
| `DerivedGroups.Registry.SubscribeInstance` | approval/subscribe.go:157-218 | Every outcome: anonymous handler, conflict, bus error and success, each with the exact claims and subscriptions it leaves |
| `DerivedGroups.Registry.BindCommand` | approval/command_bridge.go:61-125 | The same around a nested subscribe: the name is claimed once, given back iff the bus refuses, and no other subscription changes |
| `DerivedGroups.Registry.Abandon` | approval/command_bridge.go:111-117 | A refused binding gives its own claim back |
| `DerivedGroups.Registry.TearDown` | approval/subscribe.go:224-233 | The first call detaches and frees the name, every later call changes nothing, no other subscription is touched |
| `Retry.CeilingIsExactIff` | httpx/retry.go:117-135 | The ceiling computed with the wrapping shift is min(initial * 2^(retry-1), max) iff an overflowing shift does not land strictly between 0 and the cap |
| `Retry.CeilingIsExact` | httpx/retry.go:117-135 | It is exact for every retry whenever InitialBackoff * MaxBackoff is at most 2^63 |
| `Retry.CeilingCanWrap` | httpx/retry.go:117-135 | A concrete configuration beyond that bound whose ceiling wraps to half the cap |
| `Retry.WithDefaults` | httpx/retry.go:72-86 | Each positive field is kept and each other one becomes its default, so the result is always usable and a usable configuration is unchanged |
| `Retry.BackoffDelay` | httpx/retry.go:117-135 | The delay is between 0 and MaxBackoff whatever Retry-After said |
| `Retry.JitterStaysBelowCeiling` | httpx/retry.go:117-135 | Without a hint the delay is below the intended exponential ceiling |
| `Retry.JitterIsFull` | httpx/retry.go:117-135 | Without a hint every delay below the ceiling can be drawn, and no other |
| `Retry.HintIsHonoured` | httpx/retry.go:139-154 | A Retry-After of n seconds, or a date, makes the pause exactly that long, up to MaxBackoff |
| `Retry.DefaultPolicy` | httpx/retry.go:89-112 | The default policy retries exactly the transient outcomes of methods that are safe to repeat |
| `Retry.Send` | httpx/request.go:646-694 | Between 1 and MaxAttempts attempts; by default, for a method that is safe to repeat, another one after 429, 502, 503, 504 or a transport error that is not final, and after nothing else, or as RetryIf says; the last outcome is returned; each pause is the backoff of its attempt and all together at most attempts * MaxBackoff; exactly one attempt with no policy, a streamed body or an unsafe method by default |
| `Retry.TotalWaitIsBounded` | httpx/request.go:646-694 | Pauses within the cap add up to at most the cap per attempt |
| `RedisKeys.EscapedPrefixMatches` | cache/redis.go:18-26 | For all strings p and k the escaped p followed by `*` glob-matches k iff p is a prefix of k |
| `RedisKeys.EscapeAppends` | cache/redis.go:18-26 | Escaping works character by character and puts a backslash before exactly the five metacharacters |
| `RedisKeys.StripInvertsBuildIff` | cache/redis.go:99-108 | stripPrefix undoes Build for a user key iff the separator is ":" |
| `RedisKeys.BuildIsInjective` | cache/key_builder.go:43-54 | Different user keys get different stored keys |
| `RedisKeys.BuildAppends` | cache/key_builder.go:43-54 | Building part by part adds each part after a separator, behind the prefix if there is one |
| `RedisKeys.PatternMatchesUserPrefix` | cache/redis.go:91-97 | The pattern of a filter matches the stored form of a user key iff the filter is a prefix of the user key |
| `RedisKeys.Keys` | cache/redis.go:252-278 | The loop returns the stripped matching keys of the scan, in scan order |
| `RedisKeys.KeysAreTheUserKeys` | cache/redis.go:252-278 | When the store holds this builder's keys, Keys(filter) is exactly the user keys that start with the filter |
| `RedisKeys.NamespacesOverlapIff` | cache/redis.go:91-97 | The pattern without a filter reaches into another namespace iff its base prefix and the head (prefix and separator, whatever it is) of the other's keys continue one another |
| `AesCbc.Pkcs7Padding` | cryptox/aes_cipher.go:226-238 | The array filled in place is the padding of the data |
| `AesCbc.Pkcs7Unpadding` | cryptox/aes_cipher.go:240-258 | The loop accepts iff all padding bytes agree, with each error case |
| `AesCbc.PaddingIsPadded` | cryptox/aes_cipher.go:226-238 | The padding is block-aligned, extends the data by 1 to blockSize bytes, and each added byte is their number |
| `AesCbc.RoundTrip` | cryptox/aes_cipher.go:226-258 | For every data and block size 1..255, unpadding inverts padding |
| `AesCbc.RoundTripIff` | cryptox/aes_cipher.go:226-258 | Unpadding inverts padding for all data iff the block size is at most 255 |
| `AesCbc.AcceptedIffPadding` | cryptox/aes_cipher.go:240-258 | A block-aligned input is accepted iff it is the padding of a plaintext, which is unique and is returned |
| `AesCbc.UnpaddingIffPadded` | cryptox/aes_cipher.go:240-258 | A block-aligned input unpads to data iff it is data with its padding, by the definition of padding itself |
| `AesCbc.EncryptCBC` | cryptox/aes_cipher.go:101-119 | The text is the encoding of the IV followed by the encryption, under that IV, of the plaintext with its padding |
| `AesCbc.DecryptCBC` | cryptox/aes_cipher.go:121-172 | Success with data iff the text decodes to a 16-byte IV and whole blocks that decrypt under it to data with its padding; otherwise the error of the step that failed |
| `AesCbc.OpenInvertsSeal` | cryptox/aes_cipher.go:101-172 | Decryption gives back every plaintext under every IV |
| `AesCbc.OpensIffSealed` | cryptox/aes_cipher.go:121-172 | Bytes are accepted iff they are the envelope of some plaintext and IV, and both are determined by the bytes |
| `Retention.RetrySumClosedForm` | config/event.go:207-213 | 2^1 + ... + 2^n = 2^(n+1) - 2 |
| `Retention.HorizonIsExactOrSaturated` | config/event.go:224-236 | The horizon is the exact sum up to 32 retries and saturated beyond, where the sum exceeds every Duration; it never wraps |
| `Retention.AcceptsIffRetentionOutlastsRetries` | config/event.go:202-222 | With inbox and outbox on, Validate accepts iff the retention strictly exceeds the retry sum, for every count but the largest int |
| `Retention.AcceptsByConfiguredValues` | config/event.go:202-222 | The same by the configured values, with seven days and ten retries for values that are not positive; without inbox or outbox everything is accepted |
| `Retention.LargestRetryCountEscapes` | config/event.go:202-222 | At the largest int every retention is accepted although none is long enough |

## Left out

- Pointers inside the eviction handlers: a bucket is named by its frequency and a list element by its key, so a list with its element map is a sequence with the set of its keys.
- The handlers' own read-write locks: each handler call is one step; `SelectEvictionCandidate` and `OnAccess` exclude each other there.
- LfuHandlers.LfuHandler.OnInsert: frequencies and the insertion counter are unbounded, not int64.
- MemoryCaches.MemoryCache.Set: the expiry instant is unbounded, not int64 nanoseconds.
- MemoryCaches.MemoryCache.CleanupExpired: nothing else runs during the sweep; the concurrent sweep is covered by the readers of CacheRuns.
- CacheRuns.StepKeepsInv: clearing the concurrent map is one step, and the handler of an unlimited cache is shown as if it kept a history. Mutators may take the lock on a closed cache, as one that checked the flag earlier does.
- `Keys`, `ForEach` and `Size` of the memory cache, and the ticker goroutine that `Close` stops: reads of one map or counter.
- SingleFlight.NoRedundantLoad: a Set is one step on the map, after the removals that make room for it (`CacheGuarantees.MapChangesOneKeyOrAll`), and nothing is said of the eviction order; panics and `Goexit` inside a flight, the nil loader and the type-assertion error are not modelled.
- Freshness after `Invalidate` of a load already in flight: not promised by the code.
- The lock's acquire loop, fencing tokens and backends: the backend is a token-guarded owner and an expiry instant.
- Lease.LossIsDetected: the watchdog is taken to start at the acquisition instant and to handle ticks in time; real scheduling delays add to the bound.
- goja itself, library loading, the call stack limit and interrupts raised by host code: outside the interrupt lifecycle modelled here.
- Trigger.NextIsLeastFire: the cron-expression library is any function that yields the least of its own set of fires, or for `@every` a delay after the query (`Trigger.RelativeClosedForm`); monotonic clock readings and the range of `time.Time` are not modelled.
- How a derived group name is computed, instance filters and concurrency options: string plumbing and pure filters.
- Retry.Send: building a request, reading the body and parsing dates in `Retry-After` are outcomes here; the sleep itself is a yes/no on the context.
- Redis I/O, cursors, duplicate scan results and TTLs; bracket expressions of globs are an arbitrary reading, since escaped patterns have none.
- AES-GCM, key setup, `DecryptWithFixedIV`, the block cipher and Base64: the last two appear by their round trips only.
- Retention.HorizonIsExactOrSaturated: float64 rounding is any monotone function exact up to 2^53, and the threshold MaxInt64 / 1e9 is taken as that real number.
- The approval engine, the durable cron store, the event bus and outbox, the data source registry, CRUD, HTTP API and dependency injection: interfaces or plumbing.
