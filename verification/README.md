# Growlio verification model

Growlio is an asset-management backend with a browser client. Its delicate parts are small stateful
mechanisms and a few exact calculations; this project states what each of them promises and proves it
over every run, every interleaving or every input.

How it is organised, one module per mechanism:

- **Cache and what is built on it.** `CacheStores` is the in-memory store: one ordered dictionary that
  is both the TTL map and the LRU queue. `CacheRuns` follows whole runs of it and says exactly why a
  live key may be missing. `LeaseLock` is the lease lock and the bounded wait built on the store, and
  `Generation` the rotating token that keeps old recommendations from reappearing.
- **Once-only plans.** `DurableState` is the expiring row table, `AutoPlans` the claim, build and
  release protocol of overlapping instances together with the restart loop around it.
- **Broker calls.** `BrokerRequests` covers retries, `Paging` continuation keys, `OverseasMerge` the
  three-exchange balance, `OverseasMarker` the cached "no overseas holdings" marker.
- **State machines.** `CircuitBreakers`, `ChallengeWrap` (monthly wrap-up) and `RefreshQueue` (the
  browser client's session refresh).
- **Rate limiter and calculations.** `RateLimiters`, `Streaks`, `GroupValidation`, `FxPlans`, `Shrinkage`
  and `CovarianceShrinkage`.

How it is written. An object whose methods update its fields is a class; its methods are proved against
a function on values, and what the source promises is then proved about runs of that function. Concurrent
code is a machine whose events are single steps, down to single store operations; an event that cannot
happen changes nothing, so a theorem about all event sequences is a theorem about all interleavings. The
operations of the in-memory store never hand over to another caller, so some of these interleavings need a
store whose operations suspend, as those of a remote one do; where that matters both are stated. Clock
readings are arguments. Random identifiers (`uuid4`) are fresh numbers. Servers, fetches and builds are
arbitrary outcomes. Amounts are real numbers and rounding is an explicit bound.

Where the code does not do what its comments promise, the code is modelled, an input that shows the
failure is given, and the condition under which the promise holds is proved:

- A cancelled half-open call of the circuit breaker never gives its slot back (cancellation is not an
  `Exception`): `CancelledProbeWedges`. No other cancellation does harm: `CannotWedge`. By itself an idle
  breaker then recovers if and only if it is not in that state (`RecoversUnlessWedged`); one used through
  calls alone refuses every call for ever (`WedgedForEver`), one that other callers record outcomes on
  directly is freed by the next record (`WedgedUntilRecorded`, `RecordUnwedges`).
- An AUTO attempt that stalls for more than a day between computing its key and claiming can commit a
  second plan for the same day: `StalledAttemptCommitsTwice`. A day is exactly the stall that is tolerated,
  whatever the builds do: `OnePlanIffStallWithinDay`.
- The unfilled-quantity search strips continuation keys, so a server that tells a key from its stripped
  form can be read past an order: `StrippedKeyLosesOrder`. What the search answers for every server is
  `EveryServer`, which servers lose an order `OrderLostIff`; for servers that ignore such white space
  `ZeroMeansAbsent` is exact.
- The shrunk covariance has no numbers at all once some asset never moves: `NumbersUnlessStill`. With all
  variances at or above the floor of 1e-18 it is always a covariance (`ShrunkStaysCovariance`); below it
  need not be: `AlmostStillBreaksResult`.

What would go wrong on a store whose operations suspend, and does not on the one in use:

- A generation call that falls back to its own candidate could hand out results computed before an
  invalidation that had already finished: `FallbackCanServeStale`. A call is safe if and only if its last
  read finds a generation, or nothing older is stored or loaded under its candidate
  (`ReturnedAfterInvalidation`); with the store in use its last read always finds one:
  `UnbrokenReadIsFresh`.
- A lease holder could delete its successor's lock when its lease runs out between its re-read and its
  delete: `LateDeleteBreaksExclusion`. The first such delete in a run is always a late one
  (`FirstTakenLockIsTakenLate`), later ones need not be (`PromptDeleteAfterLateOne`), and exclusion would
  hold in all runs if and only if every caller is out before its lease is over
  (`ExclusiveIffOutBeforeExpiry`); with the store in use it holds however long callers stay:
  `UnbrokenIsExclusive`.

`dafny verify dfyconfig.toml` checks the whole project.

## Model

| member | source | states |
|---|---|---|
| CacheStores.CacheStore.constructor | backend/app/core/cache_store.py:46-49 | A new store is empty with a zero eviction counter |
| CacheStores.CacheStore.Get | backend/app/core/cache_store.py:54-68 | A hit returns the value and makes the key most recent; an expired entry is removed and missed; nothing else moves |
| CacheStores.CacheStore.Set | backend/app/core/cache_store.py:70-81 | Succeeds exactly without nx or when nothing is readable under the key; then the key is written as the most recent one and the size bound is restored |
| CacheStores.CacheStore.EvictOverCapacity | backend/app/core/cache_store.py:83-90 | Removes all expired entries first, then the least recent live ones one by one down to the cap, counting each |
| CacheStores.CacheStore.RemoveExpired | backend/app/core/cache_store.py:85-86 | Deleting the collected expired keys leaves exactly the unexpired entries in their order |
| CacheStores.CacheStore.SweepExpired | backend/app/core/cache_store.py:138-147 | Removes exactly the entries whose expiry has come, in unchanged order, and reports how many |
| CacheStores.CacheStore.Delete | backend/app/core/cache_store.py:119-122 | Removes exactly the given keys, missing ones included |
| CacheStores.CacheStore.MGet | backend/app/core/cache_store.py:108-117 | Each answer is what the store shows for that key, without touching recency |
| CacheStores.CacheStore.Scan | backend/app/core/cache_store.py:127-136 | Returns exactly the keys that match and are readable |
| CacheStores.CacheStore.ScanUnlink | backend/app/utils/cache_invalidation.py:44-59 | Without a pause between scan and unlink: afterwards no matching key is readable and every other key reads as before |
| CacheStores.CacheStore.TakeLruEvictions | backend/app/core/cache_store.py:92-95 | Hands out the count since the last call and restarts it |
| CacheStores.CacheStore.Aclose | backend/app/core/cache_store.py:149-151 | Empties the store |
| CacheStores.RemovingExpiredKeys | backend/app/core/cache_store.py:144-146 | Removing collected expired keys one by one equals filtering out the expired entries |
| CacheStores.RefusedIff | backend/app/core/cache_store.py:70-81 | For every store a set takes effect if and only if it has no nx or nothing is readable under its key |
| CacheStores.SweepLeaves | backend/app/core/cache_store.py:138-147 | A sweep takes out exactly the entries whose time is over, so no reader of any key can tell, then or later |
| CacheRuns.Refines | backend/app/core/cache_store.py:54-90 | Over any run the store is a TTL map with losses, where a set without nx always counts and one with nx exactly when nothing is readable: bounded size, no wrong value, nothing past its lifetime, and a live key is lost only after at least cap distinct other keys were set or hit since its own last use |
| CacheRuns.LruExact | backend/app/core/cache_store.py:54-90 | Without deletions and lifetimes the LRU criterion is exact: a written key is present if and only if fewer than cap distinct other keys were used since |
| CacheRuns.SetSurvivesItsOwnEviction | backend/app/core/cache_store.py:70-90 | A just-written key with a positive lifetime survives its own eviction pass, and no other key changes its value |
| CacheRuns.EvictsLiveOnlyUnderPressure | backend/app/core/cache_store.py:83-90 | While the counter stands still no live key is lost; when it moves, exactly cap live entries remain and it counts the live losses |
| CacheRuns.Accounted | backend/app/core/cache_store.py:54-90 | Invariant of every run: a stored entry is the last effective write, and everything behind it was used since |
| CacheRuns.SteadyOrder | backend/app/core/cache_store.py:54-81 | In steady runs the dictionary order is exactly the order of last use |
| CacheRuns.ScanThenUnlink | backend/app/utils/cache_invalidation.py:53-59 | With anything going on between scan and unlink, exactly the matching keys readable at the scan are gone and every other key reads as it would have |
| Generation.StartedAfterInvalidation | backend/app/utils/cache_keys.py:487-504 | In any interleaving with any losses, a call that starts after an invalidation finished only reads results computed from settings read after it |
| Generation.ReturnedAfterInvalidation | backend/app/utils/cache_keys.py:487-504 | A call already under way when an invalidation finished reads, in all continuations, only results from settings read after it, if and only if its last read finds a generation or its own candidate has nothing older stored or loaded under it |
| Generation.TakeFreshIff | backend/app/utils/cache_keys.py:503-504 | The same equivalence for every state the invariant allows and every earlier moment no later than the last rotation |
| Generation.UnbrokenReadIsFresh | backend/app/utils/cache_keys.py:503-504 | When the key cannot be lost between the offer and the final read, as with this store, nobody falls back and every readable result is at least as new as the last invalidation finished before the generation was obtained |
| Generation.FallbackCanServeStale | backend/app/utils/cache_keys.py:503-504 | On a store whose operations suspend there would be a gap: a run in which the fallback candidate serves an old result |
| Generation.ReadIsFresh | backend/app/utils/cache_keys.py:487-504 | Whatever is stored under a generation in hand was computed from settings read after that generation became visible |
| Generation.RunKeepsInv | backend/app/utils/cache_invalidation.py:92-112 | The token invariant holds in every run: candidates are private until offered, visible generations are never older than the last rotation |
| Generation.UndisturbedInvalidation | backend/app/utils/cache_invalidation.py:92-112 | An undisturbed invalidation removes every result of the generation it found, keeps all others and installs an unused generation |
| Generation.SharedUntilRotated | backend/app/utils/cache_keys.py:496-504 | Until a rotation or loss every caller gets the same generation, so results are shared |
| Generation.ResultChanges | backend/app/utils/cache_invalidation.py:92-112 | A stored result comes only from the call that loaded it under its generation, and goes only when it is lost or with an invalidation that had read that generation |
| Generation.CurrentChanges | backend/app/utils/cache_keys.py:496-504 | The current generation is exactly the candidate offered while there was none, the new one of a finished invalidation, nothing after a loss, and otherwise what it was |
| LeaseLock.TryLock | backend/app/utils/inproc_lock.py:34-35 | On the cache store: succeeds exactly when nobody's lock is readable, and is then readable for exactly the lease |
| LeaseLock.ReadsOwn | backend/app/utils/inproc_lock.py:41-42 | The re-read tells whether the own token is stored, and no reader can notice it |
| LeaseLock.Release | backend/app/utils/inproc_lock.py:43-43 | The delete removes the lock key for good and no other, whatever happened since the re-read |
| LeaseLock.Unlock | backend/app/utils/inproc_lock.py:39-44 | Re-read and delete without a pause: only the own lock goes; any other lock reads as before |
| LeaseLock.LostOnlyUnderPressure | backend/app/core/cache_store.py:83-90 | In any run of store calls a running, undeleted lock is missing only after at least as many other keys as the store holds were used since its own last use |
| LeaseLock.AtMostOneHolder | backend/app/utils/inproc_lock.py:34-46 | Over every interleaving without evictions in which no delete takes away a running lock of somebody else, at most one caller holds a running lease, overruns or not, and the stored lock is its own |
| LeaseLock.ExclusiveIffOutBeforeExpiry | backend/app/utils/inproc_lock.py:34-46 | Without evictions there is never more than one running holder if and only if every caller is out before its lease is over; then at most one caller is inside at all |
| LeaseLock.UnbrokenIsExclusive | backend/app/utils/inproc_lock.py:41-43 | When nothing comes between re-read and delete, as with this store, at most one caller holds a running lease in every run without evictions, however long holders overrun |
| LeaseLock.FirstTakenLockIsTakenLate | backend/app/utils/inproc_lock.py:41-43 | Without evictions, the first delete that takes away somebody else's running lock comes from a caller whose lease ran out after its re-read |
| LeaseLock.LeavingIsOwnerChecked | backend/app/utils/inproc_lock.py:39-43 | An overrun holder leaves without touching the lock; it goes on to delete only if the stored running lock is its own |
| LeaseLock.HandsOver | backend/app/utils/inproc_lock.py:34-46 | In undisturbed runs a holder in time hands the lock over at once; one that has lost it is out after the re-read and the present lock stays |
| LeaseLock.LeaseChanges | backend/app/utils/inproc_lock.py:34-46 | The stored lock goes only by the delete of a caller that re-read it or by an eviction, and comes only by an acquisition that finds none running |
| LeaseLock.DeletesOnlyItsOwn | backend/app/utils/inproc_lock.py:41-43 | In a run without evictions and without late deletes by anybody, whoever is about to delete deletes its own lock |
| LeaseLock.LateDeleteBreaksExclusion | backend/app/utils/inproc_lock.py:41-43 | On a store whose operations suspend, for every lease length, a run in which nobody is inside longer than the lease and a late delete lets a second caller in |
| LeaseLock.PromptDeleteAfterLateOne | backend/app/utils/inproc_lock.py:41-43 | On such a store, after a late delete, a run in which a caller with a running lease takes away a third caller's lock |
| LeaseLock.FreeLockIsTaken | backend/app/utils/inproc_lock.py:34-35 | After any run a caller outside gets in if and only if no running lease is stored, and at the latest one lease length from then if nobody else comes first |
| LeaseLock.SingleFlight | backend/app/utils/inproc_lock.py:69-83 | A waiter fetches on its own only after seeing the lock free with nothing cached, or after the full number of polls; otherwise it returns the cached value |
| DurableState.DurableTable.Get | backend/app/utils/durable_state.py:22-32 | Returns the unexpired value; the row it may delete is one no reader could see |
| DurableState.DurableTable.Set | backend/app/utils/durable_state.py:35-45 | The key reads the new value until its expiry and every other key is untouched, at all times |
| DurableState.DurableTable.Claim | backend/app/utils/durable_state.py:48-71 | Succeeds exactly when nobody sees a value, then holds the key for exactly the lifetime; a refusal changes nothing |
| DurableState.DurableTable.Delete | backend/app/utils/durable_state.py:74-77 | The key is gone at all times, others are untouched |
| DurableState.DurableTable.PurgeExpired | backend/app/utils/durable_state.py:80-88 | Removes exactly the expired rows, counts them, and no reader can tell |
| AutoPlans.AtMostOnePlan | backend/app/jobs/rebalancing_auto_execution.py:161-234 | Over any overlap of instances, ticks, gate blocks, crashes, failed builds and builds of any length, at most one plan is committed per alert and claim day, if attempts claim within a day of computing their key |
| AutoPlans.OnePlanIffStallWithinDay | backend/app/jobs/rebalancing_auto_execution.py:161-234 | All runs in which attempts stall at most d seconds before claiming commit at most one plan per key if and only if d is at most a day |
| AutoPlans.ReleasesOnlyItsOwn | backend/app/jobs/rebalancing_auto_execution.py:210-224 | At a release the row, if still there, is the releaser's own claim, nobody else works on that key, and it has no plan, however long the build took |
| AutoPlans.BuildsAlone | backend/app/jobs/rebalancing_auto_execution.py:199-209 | Two instances never build for the same alert and day at once, however long they take |
| AutoPlans.ClaimClosesTheDay | backend/app/jobs/rebalancing_auto_execution.py:161-163 | While a day's claim exists no once-a-day alert is evaluated again that day |
| AutoPlans.EvaluationUsesUpTheDay | backend/app/jobs/rebalancing_auto_execution.py:190-226 | After any run, a once-a-day evaluation that ends by a gate or a final block closes the day; after every other failed or blocked build the same day's next attempt gets to build |
| AutoPlans.EarlyEndLeavesTheDayOpen | backend/app/jobs/rebalancing_auto_execution.py:150-197 | After any prompt run a skipped evaluation, and a gate block of an alert with a set time, leave no row and touch nobody, and the same day's next attempt gets to build if the key is free |
| AutoPlans.KeyChanges | backend/app/jobs/rebalancing_auto_execution.py:190-226 | A key becomes taken by a claim or a once-a-day gate block alone and free before its time by a release alone; a plan comes only from a committed build |
| AutoPlans.PurgeGoesUnnoticed | backend/app/utils/durable_state.py:80-88 | A purge leaves exactly the rows that have not run out, and no run that follows can be told from the one without it |
| AutoPlans.StalledAttemptCommitsTwice | backend/app/jobs/rebalancing_auto_execution.py:161-202 | A concrete run with a stall of one second over a day that commits a second plan |
| AutoPlans.RunAutoExecution | backend/app/jobs/rebalancing_auto_execution.py:93-113 | For any failures and any reload order the loop ends, attempts no alert twice and none that was not loaded, and attempts every alert that stays active |
| BrokerRequests.BrokerRequest | backend/app/providers/http_client.py:152-206 | The attempt loop does what the exchange function says: number of sends and verdict for any server |
| BrokerRequests.KisRequest | backend/app/kis/client.py:81-107 | The outer loop repeats the exchange once, from where the server's replies continue, for a transient code only |
| BrokerRequests.ExchangeShape | backend/app/providers/http_client.py:154-206 | Every send but the last got a retried reply, and the last reply either ends the call or used up the attempts |
| BrokerRequests.NeverResent | backend/app/providers/http_client.py:173-204 | With error retries off, all sends but the last were rate-limit rejections, so nothing possibly accepted is sent again; doubtful replies are reported as such |
| BrokerRequests.ResentIff | backend/app/providers/http_client.py:154-206 | With attempts left another send follows exactly a rate-limit rejection or, with error retries on, a 5xx or a lost reply |
| BrokerRequests.LastReplyDecides | backend/app/providers/http_client.py:154-206 | Every way a call can end is told, in both directions, by the class of its last reply and the retry switch |
| BrokerRequests.RidesOutRateLimits | backend/app/providers/http_client.py:173-182 | Up to retries - 1 rate-limit rejections are ridden out and the next reply decides |
| BrokerRequests.RidesOutErrors | backend/app/providers/http_client.py:183-204 | With error retries on, up to retries - 1 passing errors of any mixture are ridden out and the next reply decides |
| BrokerRequests.SafeIffErrorsNotRetried | backend/app/providers/http_client.py:183-204 | No server can cause a resend of a possibly accepted request if and only if error retries are off or there is one attempt |
| BrokerRequests.KisSafeIffSwitchesOff | backend/app/kis/client.py:81-107 | The same for the KIS client: both switches must be off, exactly |
| BrokerRequests.KisSendsBounded | backend/app/kis/client.py:81-107 | Total sends stay within the bound (twice it with transient retries), and delivery is reported if and only if the last reply accepted |
| BrokerRequests.KisRepeatsIff | backend/app/kis/client.py:81-107 | The call is repeated, with all its attempts, if and only if transient retries are on and the last reply was the logical error 1; the last reply of all decides |
| Paging.FetchBalancePages | backend/app/kis/balance.py:45-71 | The KIS page loop is link following from the empty key, within 20 requests: one per returned page, and none after the page or request an error names |
| Paging.FetchListPages | backend/app/kiwoom/balance.py:52-82 | The Kiwoom loop returns the first reply and the rows of all pages exactly when link following succeeds |
| Paging.AllOrNothing | backend/app/kis/balance.py:45-71 | Paging returns exactly the full page list if and only if it ends within the limit and every link carries a key; otherwise it raises |
| Paging.ChainUnique | backend/app/kis/balance.py:45-71 | A server has at most one full page list |
| Paging.NoKeyTwice | backend/app/kis/balance.py:64-66 | A list that ends never links back to its first key |
| Paging.RepeatedKeyMeansEndless | backend/app/kis/balance.py:64-66 | The repeated-key guard fires only on lists that would never have ended |
| Paging.FailsIff | backend/app/kis/balance.py:45-71 | Each error comes out if and only if the followed pages lead to it: a failed request, a missing next key, a key that names its own page, or the end of the budget |
| Paging.UnfilledQuantity | backend/app/kis/order.py:272-302 | The paged search over stripped keys, at most 5 pages; an answer comes from pages read to the end of the list without a row of that number up to leading zeros, or from the first row that has it |
| Paging.SameNumberIff | backend/app/kis/order.py:270-292 | Stripped numbers are equal if and only if the numbers differ by leading zeros alone |
| Paging.WithoutZerosMeans | backend/app/kis/order.py:270-292 | What is stripped is zeros, and no zero is left in front |
| Paging.StripMeans | backend/app/kis/order.py:297-298 | What is stripped from a key is white space on both sides, and none is left on either |
| Paging.AnswerMeans | backend/app/kis/order.py:272-302 | For any server an answer is explained by the pages the search visited: the first listed remaining quantity, or 0 because the last page visited ends the list |
| Paging.ZeroMeansAbsent | backend/app/kis/order.py:272-302 | For servers that ignore white space around keys, the answer is q if and only if the order is listed within the limit with q remaining where it is listed first, or q is 0 and the full list ends within the limit without it; never both |
| Paging.AnswersIff | backend/app/kis/order.py:272-302 | The search answers if and only if the order is listed or the list ends, within the limit and behind non-blank keys; 0 without a listing means exactly the second |
| Paging.SearchFailsIff | backend/app/kis/order.py:272-302 | The search gives up with each error if and only if the pages followed lead to it and the order was on none of them |
| Paging.AbsentFromFullList | backend/app/kis/order.py:294-302 | An order on no page of the full list is answered with 0 if and only if the list fits the limit with keyed links, and not at all otherwise |
| Paging.SearchSeesStripped | backend/app/kis/order.py:296-300 | Any server is searched exactly as if its keys were stripped |
| Paging.EveryServer | backend/app/kis/order.py:272-302 | For every server without exception the answer is exactly what is true of the list behind stripped keys |
| Paging.OrderLostIff | backend/app/kis/order.py:294-302 | An order on a server's own list is answered as absent if and only if the list behind stripped keys ends without it, and only a server that tells some key from its stripped form can do that |
| Paging.StrippedKeyLosesOrder | backend/app/kis/order.py:296-300 | A concrete server that tells a key from its stripped form: the order is on its list and the search answers 0 |
| Paging.LookupMeans | backend/app/kis/order.py:291-293 | On one page the first row with that number (leading zeros aside) decides, and none means absent |
| OverseasMerge.GetOverseasBalance | backend/app/kis/balance.py:197-267 | The exchange loop yields the merged outcome: token expiry at once, any failure spoils the result, otherwise positions, total and deposit |
| OverseasMerge.MergeRows | backend/app/kis/balance.py:229-249 | One exchange's rows are added by first-seen ticker, sold-out rows skipped |
| OverseasMerge.EveryHoldingOnce | backend/app/kis/balance.py:203-249 | Whether or not NASDAQ repeats the others, every holding appears exactly once under the exchange that lists it, and nothing else |
| OverseasMerge.TotalIsWorth | backend/app/kis/balance.py:263-267 | The total is the sum over the account's distinct tickers |
| OverseasMerge.AllOrNothing | backend/app/kis/balance.py:220-261 | A balance comes out if and only if all three exchanges were read |
| OverseasMerge.DepositMeans | backend/app/kis/balance.py:251-256 | The deposit is unknown if and only if no exchange reported it, and a reported non-zero amount is never hidden by a zero |
| OverseasMarker.MarkerCache.FetchCached | backend/app/providers/_overseas_cache.py:36-75 | The broker is called exactly when no no-holdings marker is live, and result and marker follow from the outcome |
| OverseasMarker.StoredOrigin | backend/app/providers/_overseas_cache.py:50-58 | A stored marker was written by a successful fetch, for what that fetch found, and not touched since |
| OverseasMarker.NotCalledIff | backend/app/providers/_overseas_cache.py:36-59 | Over any run a sync does without the broker if and only if an earlier call less than 15 minutes ago found no positions and no positive deposit and its marker was not lost |
| OverseasMarker.CoveredDeposit | backend/app/providers/_overseas_cache.py:37-41 | Such a sync reports a deposit of 0 if that call was told one, and an unknown deposit if it was told none |
| OverseasMarker.DefiniteDepositMeans | backend/app/providers/_overseas_cache.py:36-59 | Over any run a definite foreign deposit was reported by this sync's fetch, or is 0 on the strength of a live marker from an earlier fetch that found no positions and a known non-positive deposit |
| OverseasMarker.UnknownStaysUnknown | backend/app/providers/base.py:161-167 | A failed or field-less fetch leaves the deposit unknown, also in syncs answered from the marker a field-less one leaves; a failed fetch leaves the marker as it was; holdings are unknown exactly after a failed fetch |
| OverseasMarker.BalanceAddsUp | backend/app/providers/base.py:151-173 | Every balance of every run adds up: total = cash in both currencies + invested + profit, and profit = domestic profit + that of the positions just fetched; without a successful fetch the overseas part counts for nothing |
| CircuitBreakers.CircuitBreaker.constructor | backend/app/utils/circuit_breaker.py:36-48 | A new breaker is closed with no failures and a free slot |
| CircuitBreakers.CircuitBreaker.Observe | backend/app/utils/circuit_breaker.py:50-56 | Reading the state moves an open breaker to half open exactly once its timeout is over |
| CircuitBreakers.CircuitBreaker.IsAvailable | backend/app/utils/circuit_breaker.py:58-64 | Available unless open with the timeout still running |
| CircuitBreakers.CircuitBreaker.RecordSuccess | backend/app/utils/circuit_breaker.py:66-71 | Closes with a clean count and a free slot |
| CircuitBreakers.CircuitBreaker.RecordFailure | backend/app/utils/circuit_breaker.py:73-79 | Counts, and opens from half open or at the limit, restarting the timer even if it was open already |
| CircuitBreakers.CircuitBreaker.BeginCall | backend/app/utils/circuit_breaker.py:95-104 | Admits when closed, or half open with the slot free, which it then takes |
| CircuitBreakers.CircuitBreaker.EndCall | backend/app/utils/circuit_breaker.py:105-117 | Success, failure and bypass outcomes leave the breaker as their records say |
| CircuitBreakers.ClosedIffFewFailures | backend/app/utils/circuit_breaker.py:50-117 | Over every interleaving of calls, cancellations and directly recorded outcomes: closed if and only if fewer than fail_max failures stand, and a half-open episode admits at most one call more than its bypass outcomes |
| CircuitBreakers.ClosedIffFewFailuresSince | backend/app/utils/circuit_breaker.py:50-117 | Told by events alone: closed if and only if fewer than fail_max failures were recorded since the last success |
| CircuitBreakers.ProbesBounded | backend/app/utils/circuit_breaker.py:100-117 | Told by events alone: a half-open episode lets in at most one call more than the bypass outcomes in it |
| CircuitBreakers.NoCallBeforeTimeout | backend/app/utils/circuit_breaker.py:95-99 | Once open, no call starts before the reset timeout is over, unless a success is recorded, by a call already under way or directly |
| CircuitBreakers.FailureRestartsTimer | backend/app/utils/circuit_breaker.py:73-78 | After any run, every failure that leaves the breaker open, from whatever state, shuts it for a full timeout from then: no call starts sooner without a success, and the next one starts as soon as it is over |
| CircuitBreakers.CannotWedge | backend/app/utils/circuit_breaker.py:100-117 | Unless the call that holds the slot is cancelled, and whatever else is, a taken slot has its claimant in flight, and an idle breaker always recovers after the timeout |
| CircuitBreakers.RecoversUnlessWedged | backend/app/utils/circuit_breaker.py:100-117 | After any run an idle breaker recovers by itself if and only if it is not half open with the slot taken |
| CircuitBreakers.WedgedUntilRecorded | backend/app/utils/circuit_breaker.py:66-78 | A wedged idle breaker stays so in a step if and only if the step is no directly recorded outcome |
| CircuitBreakers.WedgedForEver | backend/app/utils/circuit_breaker.py:100-104 | Used through calls alone, a wedged breaker refuses every later call in every run |
| CircuitBreakers.RecordUnwedges | backend/app/services/market_data/price_service.py:260-301 | A caller that asks and records directly finds a wedged breaker available, and its success frees the slot at once, its failure after exactly the timeout |
| CircuitBreakers.CancelledProbeWedges | backend/app/utils/circuit_breaker.py:105-117 | A concrete run, for every configuration, that wedges by cancelling the half-open call |
| ChallengeWrap.ChallengeRecord.WrapOne | backend/app/jobs/challenge_monthly_wrap.py:108-166 | One execution changes status, dedup row and notices in place as the wrap-up function says |
| ChallengeWrap.LeftAloneIff | backend/app/jobs/challenge_monthly_wrap.py:108-166 | An execution leaves a challenge as it was if and only if it is not selected, rolled back, recorded for the month, not yet started, or has nothing to complete and could not send |
| ChallengeWrap.WrapUser | backend/app/jobs/challenge_monthly_wrap.py:66-105 | Each of a user's challenges ends as if it had been alone, whatever others raise |
| ChallengeWrap.AtMostOneNoticePerMonth | backend/app/jobs/challenge_monthly_wrap.py:108-160 | Over any serial runs, sends and exceptions, at most one wrap-up is recorded per result month |
| ChallengeWrap.CompletionIsFinal | backend/app/jobs/challenge_monthly_wrap.py:114-115 | A completion is never undone or moved and recorded notices are never taken back |
| ChallengeWrap.EarlierCompletionsStayClosed | backend/app/jobs/challenge_monthly_wrap.py:71-86 | A challenge completed in an earlier month is left completely alone |
| ChallengeWrap.CompletedIffReached | backend/app/jobs/challenge_monthly_wrap.py:108-166 | Over any runs an active challenge ends up completed if and only if some execution got past the month's row and the start and found the goal reached, and it was completed by the first such execution, sent or not |
| ChallengeWrap.OwedUntilDelivered | backend/app/jobs/challenge_monthly_wrap.py:68-86 | An owed completion notice is recorded, once, if and only if a later run of the month gets it out |
| ChallengeWrap.MonthlyReport | backend/app/jobs/challenge_monthly_wrap.py:108-160 | Over all executions of a month, a savings challenge with its report due gets exactly one notice and a dedup row if and only if an execution that does not raise is sent; the notice announces completion if and only if the goal was reached by then |
| ChallengeWrap.ThresholdMonth | backend/app/jobs/challenge_monthly_wrap.py:127-160 | The first execution of the month that does not raise settles a threshold challenge: below it the month is closed by a row without a notice, above it and sent the completion is recorded once |
| ChallengeWrap.FailedNoticeIsRetried | backend/app/jobs/challenge_monthly_wrap.py:137-166 | A completion whose notice fails stays in place and leaves the notice owed to the rest of the month |
| RefreshQueue.ApiClient.constructor | frontend/src/api/client.ts:14-19 | The client starts with an empty queue, no refresh and no token |
| RefreshQueue.ApiClient.ProcessQueue | frontend/src/api/client.ts:45-48 | Every waiting request is resolved with the token, or rejected without one, and the queue is empty |
| RefreshQueue.ApiClient.HandleResponse | frontend/src/api/client.ts:72-91 | A response settles the request by whether it succeeded, queues it behind the running refresh, or starts the refresh |
| RefreshQueue.ApiClient.AfterRefresh | frontend/src/api/client.ts:93-120 | The end of the refresh drains the queue, clears the flag and resends or fails the driving request |
| RefreshQueue.ApiClient.ResumeQueued | frontend/src/api/client.ts:80-88 | A released request is marked as retried before it is sent again |
| RefreshQueue.RunKeepsInv | frontend/src/api/client.ts:72-121 | Flags, queue and the history of each request agree in every interleaving |
| RefreshQueue.OneRefreshTwoSends | frontend/src/api/client.ts:72-121 | At most one refresh is in flight, requests wait only while one is, and no request is sent more than twice |
| RefreshQueue.SettledExactlyOnce | frontend/src/api/client.ts:45-48 | Every request is queued at most once and released exactly once |
| RefreshQueue.RefreshSettlesQueue | frontend/src/api/client.ts:93-109 | When the refresh ends nobody waits: all go on with the new token, or all fail |
| RefreshQueue.AnsweredIff | frontend/src/api/client.ts:70-121 | After any run the caller has its response, or its error, if and only if some event was its answer: a reply other than a 401 still worth a refresh, or the end of a refresh without a session |
| RefreshQueue.PhaseChanges | frontend/src/api/client.ts:72-121 | What one event does to a request, exhaustively: who waits, who drives the refresh, who is sent again with which token, who is answered |
| RefreshQueue.NeverRefreshesAgain | frontend/src/api/client.ts:77-88 | In every continuation a retried request and an auth request are never sent again, never wait and never start a refresh |
| RateLimiters.AsyncRateLimiter.constructor | backend/app/providers/http_client.py:58-60 | The interval is the inverse of the rate and the first grant is free |
| RateLimiters.AsyncRateLimiter.Acquire | backend/app/providers/http_client.py:69-76 | The grant is never earlier than allowed, the sleep is exactly what is missing, and the next grant is an interval away |
| RateLimiters.RunKeepsInv | backend/app/providers/http_client.py:69-76 | Spacing, the pending wake-up and the order of callers agree in every trace, cancellations included |
| RateLimiters.GrantsAreSpaced | backend/app/providers/http_client.py:69-76 | In every trace two grants k places apart are at least k intervals apart |
| RateLimiters.WindowBound | backend/app/providers/http_client.py:69-76 | Any closed window of length T holds at most floor(T * rate) + 1 grants |
| RateLimiters.FirstComeFirstServed | backend/app/providers/http_client.py:63-71 | Callers are granted in the order they called, each at most once |
| RateLimiters.NobodyForgotten | backend/app/providers/http_client.py:69-76 | After any trace everybody who called is served or still waiting, except exactly those cancelled while they waited |
| RateLimiters.LockedSection | backend/app/providers/http_client.py:71-76 | One pass through the lock serves the head of the line, and needs no sleep if and only if the interval has passed |
| Streaks.KeyRoundTrip | backend/app/utils/kst.py:36-38 | Reading back a formatted month key gives the month |
| Streaks.IndexRoundTrip | backend/app/services/challenge_service.py:50-52 | Formatting a parsed month key gives the key |
| Streaks.TextOrderIsCalendarOrder | backend/app/services/challenge_service.py:55-63 | Comparing month keys as text is comparing the months |
| Streaks.AddMonths | backend/app/services/challenge_service.py:50-52 | Moves a key by any number of months, across years, and fails exactly outside the years 1000 to 9999 |
| Streaks.AddThenSubtract | backend/app/services/challenge_service.py:50-52 | Adding and then subtracting the same number of months is the identity |
| Streaks.IterMonths | backend/app/services/challenge_service.py:55-64 | The walk by text comparison ends and yields every month of the range once, in order; it fails only when it must step past December 9999 |
| Streaks.NextMonthAppends | backend/app/services/challenge_service.py:55-64 | Next month's walk is this month's and one key more |
| Streaks.ComputeStreaks | backend/app/services/challenge_service.py:96-126 | The current streak is the run ending this month, or last month if this one is unmet; the longest is the maximum over all windows of met months |
| Streaks.CurrentStreak | backend/app/services/challenge_service.py:109-116 | The backward walk finds the run that still counts, skipping only an unmet current month |
| Streaks.LongestStreak | backend/app/services/challenge_service.py:118-126 | The forward pass finds a window of met months that no window beats |
| Streaks.CurrentWithinLongest | backend/app/services/challenge_service.py:96-126 | Current streak <= longest streak <= number of months |
| Streaks.RaisingNetsNeverHurts | backend/app/services/challenge_service.py:96-126 | Raising any months' net deposits lowers neither streak |
| Streaks.NewMonth | backend/app/services/challenge_service.py:109-116 | When a month turns, a met month carries the streak over, an unmet one drops it to zero, and the longest stays |
| Streaks.BuildMonths | backend/app/services/challenge_service.py:129-138 | One row per month of the walk: its net deposits, met exactly if they are positive, and the target reached exactly if they are at least it, or the month met where no target is set |
| Streaks.TargetRunWithinStreak | backend/app/services/challenge_service.py:129-138 | A run of months that reach a target is never longer than the longest streak |
| GroupValidation.ValidatePortfolioWeights | backend/app/schemas/_validators.py:50-63 | Weight rules come first and leave the items alone; on acceptance the items are the normalised ones |
| GroupValidation.ValidateWeights | backend/app/schemas/_validators.py:52-61 | Accepts exactly non-empty lists with weights in 0 to 100, named tickers and a total within 0.01 of 100; each reason in the order of the checks |
| GroupValidation.ValidateGroupMembers | backend/app/schemas/_validators.py:66-103 | The in-place pass gives the group verdict and leaves a normalised prefix and an untouched rest |
| GroupValidation.ValidateItem | backend/app/schemas/_validators.py:79-103 | One item: verdict, keys owned and groups known afterwards, and in-place normalisation unless refused earlier |
| GroupValidation.AcceptedIff | backend/app/schemas/_validators.py:66-103 | Accepted if and only if no item has a group, or no two groups share a key, every alternate is domestic without leverage, and no security is named twice: by a primary, an alternate other than its primary, or as a member other than both |
| GroupValidation.RejectedIff | backend/app/schemas/_validators.py:79-103 | A rejection gives exactly the first fault of the first item that has one |
| GroupValidation.KeysMean | backend/app/schemas/_validators.py:80-98 | How often a normalised item stands for a security, read off the item as given: its primary once, another alternate once, every other member as often as listed |
| GroupValidation.NormalKeepsTheRest | backend/app/schemas/_validators.py:92-95 | Normalising drops an alternate exactly if it is the primary, keeps the order of the members left and touches nothing else |
| GroupValidation.NormalisedStaysAccepted | backend/app/schemas/_validators.py:92-95 | Validating the normalised result again accepts it and changes nothing |
| GroupValidation.HoldingsCountedOnce | backend/app/schemas/_validators.py:67-71 | For any holdings the items of an accepted grouped portfolio add up to the value of the holdings the items as given name, each counted once |
| GroupValidation.ItemsAddUp | backend/app/schemas/_validators.py:67-71 | Item sums equal the sum over all keys whenever the keys are distinct |
| GroupValidation.SharedSecurityCountsTwice | backend/app/schemas/_validators.py:67-71 | Two items sharing a security count its holding twice, which is why the rule is there |
| FxPlans.ComputeFxPlan | backend/app/services/fx_plan_service.py:115-136 | The plan has one tranche now and one per distinct target, each with its dollars rounded half to even and its cost estimated at its own rate |
| FxPlans.SplitBelow | backend/app/services/fx_plan_service.py:127-131 | The multiplier loop groups equal parts by target |
| FxPlans.TwoTargets | backend/app/services/fx_plan_service.py:124-131 | Two targets on the same ten merge into one slot with both parts |
| FxPlans.GroupConserves | backend/app/services/fx_plan_service.py:127-131 | However many targets coincide, grouping loses no dollars and keeps one slot per target |
| FxPlans.TargetIsHighest | backend/app/services/fx_plan_service.py:126-130 | A target is the highest multiple of ten strictly below the live rate and not above the live rate less the volatility share |
| FxPlans.DollarsAddUp | backend/app/services/fx_plan_service.py:122-136 | Before rounding the tranches are positive and sum to the need; rounding moves each by at most half a cent |
| FxPlans.WhatIsBought | backend/app/services/fx_plan_service.py:77-136 | Within rounding, half of the need is bought now below the 33rd percentile, a fifth above the 67th, 34 percent in between, the rest in equal parts at the targets, each tranche costing its dollars at its own rate; nothing without a need |
| FxPlans.RoundingDrift | backend/app/services/fx_plan_service.py:133-136 | The rounded plan misses the need by at most a cent and a half |
| FxPlans.TargetsFall | backend/app/services/fx_plan_service.py:124-136 | Targets fall strictly, are multiples of ten and lie below the live rate |
| FxPlans.CheaperBuysMore | backend/app/services/fx_plan_service.py:77-136 | Of two plans for the same need, the one made while the rate stands lower in its year buys at least as many dollars at once, also after rounding |
| Shrinkage.MeanKeptDispersionScaled | backend/app/services/estimation.py:105-116 | Shrinking keeps the mean and scales the dispersion by (1 - s) squared |
| Shrinkage.BetweenAndInOrder | backend/app/services/estimation.py:105-116 | Each value stays between its raw value and the mean, order is kept, and strictly so exactly while s < 1 |
| Shrinkage.ShareExtremes | backend/app/services/estimation.py:105-115 | s is 0 exactly for few or equal values, 1 exactly when the assumed noise covers the dispersion, and in between the noise is that share of the dispersion |
| Shrinkage.ShrinkIsPull | backend/app/services/estimation.py:105-116 | In every branch the result is one pull of all values towards the mean by the same share in [0, 1] |
| Shrinkage.BlendKeepsVariances | backend/app/services/estimation.py:82-87 | The blended covariance keeps every variance and keeps symmetry |
| Shrinkage.BlendStaysBetween | backend/app/services/estimation.py:80-87 | Each covariance moves by exactly the share, cut to 0 and 1, of its distance to the target's value |
| Shrinkage.MeanCorrelationInRange | backend/app/services/estimation.py:50-54 | The mean correlation of any covariance lies between -1/(n - 1) and 1 |
| Shrinkage.TargetPositive | backend/app/services/estimation.py:82-85 | With a correlation in that range no weighting gets a negative variance from the target |
| Shrinkage.BlendStaysPositive | backend/app/services/estimation.py:80-87 | With no variance below the floor, every share and the mean correlation of any covariance of the same assets: the blend is a covariance, no weighting of the assets gets a negative variance |
| Shrinkage.BlendPositiveIff | backend/app/services/estimation.py:80-87 | For any deviations and correlation, all shares give a covariance if and only if the target is one |
| CovarianceShrinkage.RhoHat | backend/app/services/estimation.py:67-77 | The loop over pairs computes the running value, infinities and not-a-numbers included |
| CovarianceShrinkage.CentredMeans | backend/app/services/estimation.py:46-47 | Centred returns average zero and keep every difference between two days |
| CovarianceShrinkage.NumbersUnlessStill | backend/app/services/estimation.py:42-87 | The early returns aside, the result has no numbers if and only if some asset never moves: the ratio of deviations is infinite or undefined and the factor beside it is zero |
| CovarianceShrinkage.ShareLosesLeast | backend/app/services/estimation.py:56-87 | Past the early returns the result is the blend with that share which has the least estimated loss of all shares from 0 to 1 |
| CovarianceShrinkage.RawIsCovariance | backend/app/services/estimation.py:46-48 | The sample second moments of any returns are a covariance |
| CovarianceShrinkage.ShrunkStaysCovariance | backend/app/services/estimation.py:42-87 | For all returns a result with numbers keeps every variance and symmetry, and with no variance below the floor it is again a covariance |
| CovarianceShrinkage.AlmostStillBreaksResult | backend/app/services/estimation.py:42-87 | Below the floor that fails: four days of returns of three assets, one of which hardly moves, for which the code computes numbers that are no covariance |

## Left out

- Clock: each store, table and breaker operation reads one clock value; the source may read its clock several times within one operation. Times are whole ticks except in the rate limiter.
- Cache store interface: metrics, `__len__`, `__bool__`, and `setex`/`unlink`, which only call `set` and `delete`; the `fnmatch` pattern is an arbitrary predicate on keys.
- Interleaved protocols: `Generation` and the interleaving part of `LeaseLock` run on values with explicit key-loss events, not on a `CacheStore` object; only the lock's own steps are also proved on the object.
- Recommendation keys: the six result keys and their stale copies are a kind number; JSON encoding is not modelled.
- LeaseLock.ExclusiveIffOutBeforeExpiry: excludes evictions, which `LostOnlyUnderPressure` bounds on the store itself; the two are not run together in one machine.
- AutoPlans.AtMostOnePlan: does not cover attempts that stall for more than a day between computing their key and claiming, because it is false of them (see `OnePlanIffStallWithinDay`).
- Plan building: `build_pending_plan_for_alert` is an arbitrary outcome that commits one plan, returns a block, or raises without committing; schedule checks, market hours and the in-process job lock only skip attempts.
- Durable rows in `AutoPlans` are its own map with the claim's atomic step, not an instance of `DurableTable`.
- Circuit breaker: the lock around the probe slot is never awaited while held, so the start of a call is one step.
- CircuitBreakers.NoCallBeforeTimeout: does not cover a success recorded while the breaker is open, by a call already under way or directly, because that closes the breaker at once. Records made from worker threads are single steps too.
- Challenges: progress, e-mail and push outcomes are inputs; user edits and re-activation between executions are not modelled, nor is the time-zone calendar (month starts are a parameter, at most 31 days apart).
- Broker calls: HTTP transport, headers, TLS, waits between retries and response bodies beyond their class are left out.
- Paging.FetchListPages: the rows loop is proved for servers with the single Kiwoom key, which is what the source sends.
- Text: stripping and blank checks know ASCII white space only.
- Overseas positions: conversion of single positions and the broker field names are left out; figures are sums over abstract positions.
- Browser client: waiting for the initial token, toasts and the session-expired event.
- Rate limiter: lazy creation of the lock; floating-point rounding of the clock.
- Streaks.AddMonths: years 1 to 999, which the calendar library accepts, are refused, because `strftime` formats them differently between platforms.
- Streaks.KeyRoundTrip: covers the four-digit years 1000 to 9999 only, for the same reason.
- Streaks: the database query for net deposits, the progress percentage and the return-based goals.
- Portfolio groups are values inside an array that is updated in place; two items sharing one group object is not captured. Error texts and the amount validators are left out.
- FxPlans.ComputeFxPlan: labels and the yearly rate statistics (logarithms, square roots) are left out; rounding is that of exact decimals, not of binary floating point.
- Shrinkage.BlendStaysPositive: does not cover variances below the floor of 1e-18, because it is false of them (see `AlmostStillBreaksResult`).
- CovarianceShrinkage.ShrunkStaysCovariance: real numbers stand for finite floating-point ones, and square roots are any function that is right at the variances used; overflow and rounding are left out.
- Shrinkage.TargetPositive: needs every variance at or above the floor, because below it the deviations no longer square to the variances.
