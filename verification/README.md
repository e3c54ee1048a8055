# Verification of the key gateway

A Dafny model of the parts of the gateway that decide who may call upstream, with which key, and what happens to the
key afterwards. `dafny verify dfyconfig.toml` checks it.

Time is an explicit argument: each operation takes the clock readings the program takes itself. Tokens, scores and
instants are reals. The database is a table with unique keys changed by atomic steps, Redis a store of hashes and sorted
sets changed by scripts and transactions. Objects that the program updates in place are classes whose methods are proved
against functions of the old state; what the program promises is proved about those functions, mostly over whole histories.

| File | What it models |
|---|---|
| `RateLimit.dfy`, `RedisRateLimit.dfy` | the token bucket in memory and in Redis (script, WATCH fallback, key expiry) |
| `Concurrency.dfy`, `RedisConcurrency.dfy` | concurrency leases in memory and in Redis, the latter as a small-step system of workers |
| `Governance.dfy` | the client gate around a request |
| `Idempotency.dfy`, `IdempotencySafety.dfy` | the idempotency protocol, alone and under arbitrary interleaving |
| `FailureMemory.dfy`, `Choice.dfy`, `Scheduling.dfy`, `Exploration.dfy` | the decayed failure memory, the weighted and round-robin choice, `select`, and exploration over many calls of it |
| `Keys.dfy`, `KeyLifecycle.dfy` | the key row, and what sessions with stale copies make of concurrent writes to it |
| `Failover.dfy`, `Forwarder.dfy` | what the pool loop and the pinned loop of `forward` promise, and the loops themselves |
| `Calendar.dfy`, `CreditRefresh.dfy` | the Gregorian calendar, the next probe time, and one round of the refresh queue |
| `KeyImport.dfy` | the bulk import of keys |

## Where the program does not do what one might expect

Each of these is proved with a concrete input, with the exact condition beside it, or as part of a contract.

- A completed, unexpired idempotency record can be deleted and its request executed again, by a worker that decided to take
  it over while it was still in progress. That is possible exactly when records go stale before they expire
  (`CompletedCanBeExecutedAgain`), and never happens to a record completed within min(max(ttl, 1), stale_after) seconds
  (`CompletedInTimeIsDurable`).
- A disabled key can still be picked by a database session that loaded it before, because sessions keep their copies
  across commits (`OldCopyCanBePicked`, `DisabledIsPickedOnlyFromOldCopy`, `NeverPickedIfNotLoaded`).
- The pinned loop goes on with a key that the credit probe of its own previous turn has disabled, because it looks at the key
  only once (`DisabledKeyIsUsedAgain`, `PinnedTurnOnDisabledKey`).
- Redis stamps that arrive late let a bucket admit more than its window bound, exactly when the stamps rise more than they
  span, a rise of more than a minute counting as a minute (`LateStampOveradmits`, `WindowBoundIffRiseWithinSpan`).
- Readings of the failure count show across a recorded failure, because a failure adds one without decaying first
  (`ReadingBeforeFailureShows`).
- If the limiter raises, the client's lease is not given back (`Admit`, `EnforceClientGovernance`). The limiter in memory
  raises nothing, so this happens in Redis mode, where the lease holds its slot until its TTL is over and no longer
  (`LostLeaseLastsItsTtl`).
- `api_key_id` of a response is the key turned to last, which need not be the key that gave the response: a key that was
  rate-limited or busy afterwards takes its place (`ReportedKeyIsProducer`, `ReportedKeyCanDiffer`).
- A probe result applied to a key that was meanwhile made terminal by hand but left active clears its next refresh without
  deactivating it (`AppliedIsQueued`).
- With tiers that go down, more credits can mean an earlier probe (`TiersMustGoUp`).

## Model

| member | source | states |
|---|---|---|
| `RateLimit.TokenBucketRateLimiter.Peek` | app/core/rate_limit.py:24-43 | `peek` answers what `allow` would answer at that instant and writes nothing |
| `RateLimit.TokenBucketRateLimiter.Allow` | app/core/rate_limit.py:45-69 | the new bucket table and the answer are exactly one step of the specified bucket; a denied call still stores the refill |
| `RateLimit.StepSpends` | app/core/rate_limit.py:45-69 | every admitted call is paid for by a whole token on hand, and the tokens stay within 0 and the rate |
| `RateLimit.AdmittedFrom` | app/core/rate_limit.py:45-69 | from inside a window, admissions are bounded by the tokens on hand plus what flows in until its end |
| `RateLimit.WindowBound` | app/core/rate_limit.py:45-69 | for every history with fixed rates and a nondecreasing clock, each window [s, t] admits at most R + R*(t-s)/60 calls of a key |
| `RateLimit.BurstIsTheRate` | app/core/rate_limit.py:45-69 | of any number of calls at one instant on a key not seen before exactly the rate is admitted |
| `RateLimit.EmptyBucketRefills` | app/core/rate_limit.py:45-69 | an empty bucket admits a call exactly from 60/R seconds on |
| `RateLimit.IdleCallsLeaveNoTrace` | app/core/rate_limit.py:24-69 | removing any set of peeks and denied calls from a history changes none of the remaining answers |
| `RateLimit.RetryAfterIsLeast` | app/core/rate_limit.py:38-43 | the returned wait is at least 1 and is the least whole number of seconds after which a call succeeds, for peek and for allow |
| `RedisRateLimit.RedisTokenBucketRateLimiter.Allow` | app/core/rate_limit.py:72-103 | the script changes only its own key, to the specified hash, and answers from the hash it found |
| `RedisRateLimit.RedisTokenBucketRateLimiter.AllowFallback` | app/core/rate_limit.py:150-186 | the WATCH loop takes effect atomically at its first undisturbed attempt; it gives up (503) exactly when all five attempts are disturbed, and then writes nothing |
| `RedisRateLimit.IdleBucketIsFull` | app/core/rate_limit.py:101 | a bucket idle for 60 seconds is full whatever the rate, so after the 120 second expiry a missing key means the same even to a call that took up to 60 seconds to arrive |
| `RedisRateLimit.ExpiryIsUnobservable` | app/core/rate_limit.py:72-103 | expiry being timed by the server and calls arriving up to 60 seconds after their stamps, a server that drops idle keys gives the same verdicts and waits as one that never does, in any order of stamps and even if the rate changes between calls |
| `RedisRateLimit.AgreesWithMemory` | app/core/rate_limit.py:45-103 | over the reals the Redis bucket answers every call sequence exactly as the in-memory one |
| `RedisRateLimit.AdmittedByRise` | app/core/rate_limit.py:72-103 | with stamps in any arrival order, admissions are at most R plus the inflow over the total rise of the stamps, each step counted up to 60 seconds |
| `RedisRateLimit.OrderedRise` | app/core/rate_limit.py:72-103 | ordered stamps rise at most by the length of the window, which gives the in-memory bound |
| `RedisRateLimit.DrainAll` | app/core/rate_limit.py:72-103 | at one token a millisecond, callers that drain the bucket at every stamp are admitted exactly for the tokens on hand plus the rise |
| `RedisRateLimit.WindowBoundIffRiseWithinSpan` | app/core/rate_limit.py:72-103 | for any stamps in arrival order: every bucket, every rate and every number of calls at each stamp keep the window bound if and only if the stamps rise no more than they span |
| `RedisRateLimit.LateStampOveradmits` | app/core/rate_limit.py:72-103 | a concrete sequence with a late stamp admits more than the window bound |
| `Concurrency.Lease.Release` | app/core/concurrency.py:24-33 | the first release gives back exactly one slot; every further release changes nothing |
| `Concurrency.ConcurrencyManager.TryAcquire` | app/core/concurrency.py:47-59 | refused exactly when the outstanding leases of the key fill a positive maximum; a non-positive maximum is never counted |
| `Concurrency.ConcurrencyManager.Forget` | app/core/concurrency.py:61-66 | the count goes down by exactly one, so the clamp at zero is never reached |
| `Concurrency.ConcurrencyManager.Current` | app/core/concurrency.py:68-71 | the number returned is the number of outstanding counted leases of the key |
| `Concurrency.HeldAfterRelease` | app/core/concurrency.py:24-33 | releasing a ticket takes one off its own key's outstanding count and none off any other |
| `Concurrency.BalancedStep` | app/core/concurrency.py:47-66 | each acquire and release keeps every count equal to its outstanding leases |
| `Concurrency.BalancedRun` | app/core/concurrency.py:24-71 | so does every history |
| `Concurrency.CountIsOutstanding` | app/core/concurrency.py:24-71 | over every history with changing maxima and repeated releases the count is the number of leases not yet released, and an acquire is refused exactly when that number fills its maximum |
| `RedisConcurrency.RedisConcurrencyManager.TryAcquire` | app/core/concurrency.py:74-88 | the script path: purge, count, add, with the exact resulting set and expiry |
| `RedisConcurrency.RedisConcurrencyManager.Attempt` | app/core/concurrency.py:183-197 | one attempt fails exactly when it finds room but the key has moved since WATCH, by another client or by its own purge; otherwise it has the outcome of the script |
| `RedisConcurrency.RedisConcurrencyManager.AcquireFallback` | app/core/concurrency.py:170-204 | exactly the conflicting attempts are repeated; the first that does not conflict has the outcome of the script run atomically; five conflicts add nothing |
| `RedisConcurrency.RedisConcurrencyManager.Release` | app/core/concurrency.py:145-154 | afterwards exactly the other tokens are members, with their scores |
| `RedisConcurrency.RedisConcurrencyManager.Current` | app/core/concurrency.py:156-168 | purges and counts the unexpired tokens |
| `RedisConcurrency.RefusalMeansFull` | app/core/concurrency.py:74-88 | granted exactly when fewer than the maximum are unexpired at the caller's stamp; these and, after a grant, the caller's own token until stamp + ttl are then the members |
| `RedisConcurrency.StepKeepsInv` | app/core/concurrency.py:116-204 | every atomic step of every worker keeps the lease invariant |
| `RedisConcurrency.RunKeepsInv` | app/core/concurrency.py:116-204 | the lease invariant holds in every reachable state |
| `RedisConcurrency.LiveLeasesBounded` | app/core/concurrency.py:74-95 | in every run of competing workers, on the script or the fallback path, live leases never exceed the maximum |
| `RedisConcurrency.ReleaseIsLocal` | app/core/concurrency.py:145-154 | in every run a release removes its own token and no other and leaves every other live lease in place; after the token has been purged it changes nothing |
| `RedisConcurrency.ReleaseMakesRoom` | app/core/concurrency.py:74-154 | in every run, when the maximum is filled at a caller's stamp and a holder among the unexpired releases, an acquire with that stamp, refused before, is granted |
| `RedisConcurrency.MembersAfter` | app/core/concurrency.py:74-168 | member by member, what a purge, a release and an acquire leave in the set |
| `RedisConcurrency.VersionMovesOnWrite` | app/core/concurrency.py:183-197 | WATCH sees a command exactly when it removes or adds a member, and only an added member moves the expiry of the key |
| `RedisConcurrency.ExpiryIsLeast` | app/core/concurrency.py:86 | the whole-key expiry is the least number of whole seconds, at least one, that covers the ttl |
| `RedisConcurrency.LostLeaseLastsItsTtl` | app/api/deps.py:105-130 | a lease that is never given back is live, and its token in the set, exactly until its TTL is over; the next purge then takes it away |
| `RedisConcurrency.ExpireDropsNoLiveLease` | app/core/concurrency.py:86 | the whole-key EXPIRE can fire only when no lease is live |
| `Governance.CheckQuota` | app/api/deps.py:140-185 | the verdict of the daily quota and the usage and reset day it leaves, failed commits included; a request is served only below the quota, counting the usage of the current day alone |
| `Governance.Check` | app/api/deps.py:126-185 | the rate limit, then the quota, with the new state of both |
| `Governance.Admit` | app/api/deps.py:105-185 | each outcome, and exactly when it is given, from the settings, the leases held, the verdict of the limiter, the usage and the database; an admitted request holds exactly one lease, every refusal has given it back, and an exception of the limiter (in Redis mode) leaks exactly that one |
| `Governance.Serve` | app/api/deps.py:187-190 | whatever other requests acquire and release during the yield, the finally block takes away exactly the request's own lease |
| `Governance.EnforceClientGovernance` | app/api/deps.py:105-190 | the same outcomes (a request is served exactly when a slot is free, the limiter allows it and the quota has room and can be booked), the usage booked, and from first line to finally block the leases as other requests have made them, except when the limiter raises (in Redis mode, until the TTL of the lease) |
| `Idempotency.StoredResponseRoundTrips` | app/core/idempotency.py:33-60 | a response is stored exactly when its body fits, and is then read back with the same status, headers and body |
| `Idempotency.IdempotencyStore.StartOrReplay` | app/core/idempotency.py:76-203 | for one undisturbed caller, in terms of the record alone: a conflict exactly for another hash under an unexpired record, "in progress" exactly up to min(max(ttl/12, 30), 120) seconds of age, the stored response exactly when it can be read back, execution exactly without a record, after expiry or past that age; what the new record holds; and what becomes of other records |
| `Idempotency.IdempotencyStore.Complete` | app/core/idempotency.py:206-234 | the record with that id, whatever its key, holds the response if that fits; no other record changes |
| `Idempotency.CompletedIsReplayed` | app/core/idempotency.py:130-234 | from then to its expiry it answers the same request with that response and any other with a conflict |
| `IdempotencySafety.StepKeepsInv` | app/core/idempotency.py:63-234 | every interleaved database step keeps the protocol invariant |
| `IdempotencySafety.RunKeepsInv` | app/core/idempotency.py:63-234 | the protocol invariant holds in every reachable state |
| `IdempotencySafety.SecondExecutionComesLate` | app/core/idempotency.py:100-197 | in every run the second insert for one (client, key) comes more than min(max(ttl, 1), stale_after) seconds after the first holder read its clock |
| `IdempotencySafety.OneExecutionInWindow` | app/core/idempotency.py:100-197 | while a holder's window is open, any other worker still executing for its key holds an earlier grant whose window has passed |
| `IdempotencySafety.IdDeterminesPair` | app/core/idempotency.py:217 | in every run a record's id determines its key, so the lookup by id finds the record of the holder's own request |
| `IdempotencySafety.DisplacedCompleteIsHarmless` | app/core/idempotency.py:206-234 | in every run, once a holder's key has been granted again its late completion changes no record, whatever has become of the later grant |
| `IdempotencySafety.CompletedNeverChanges` | app/core/idempotency.py:206-234 | no step rewrites a completed record |
| `IdempotencySafety.ReplayIsFaithful` | app/core/idempotency.py:163-167 | a same-hash start that reads an unexpired completed record gets exactly what that record's own holder passed to `complete` |
| `IdempotencySafety.EveryReplayWasGiven` | app/core/idempotency.py:47-60 | every replay ever answered was handed in by the holder of the same key and request |
| `IdempotencySafety.DecisionsAreGrounded` | app/core/idempotency.py:130-197 | in every run a worker that was refused, has replayed or is about to delete a row has read one that says so: another hash, or its own in progress up to the grace time, or completed, or expired, or past the grace time |
| `IdempotencySafety.CompletedLostIffDoomed` | app/core/idempotency.py:130-190 | an unexpired completed record disappears in a step if and only if the step is the delete of a worker that had chosen that row earlier |
| `IdempotencySafety.StaysUndoomed` | app/core/idempotency.py:130-190 | no new deleter can appear for an unexpired completed record |
| `IdempotencySafety.CompletedIsDurable` | app/core/idempotency.py:130-234 | completed with no deleter under way, a record stays unchanged until it expires |
| `IdempotencySafety.CompletedInTimeIsUndoomed` | app/core/idempotency.py:169-190 | no worker is about to delete a record whose holder's window is still open |
| `IdempotencySafety.CompletedInTimeIsDurable` | app/core/idempotency.py:169-234 | completed within min(max(ttl, 1), stale_after) seconds of its holder's clock reading, a record stays unchanged until it expires |
| `IdempotencySafety.CompletedAnswersUntilExpiry` | app/core/idempotency.py:63-234 | in every run a request completed in time answers every start that reads its record before it expires: the same request with its response, any other with a conflict |
| `IdempotencySafety.CompletedCanBeDoomed` | app/core/idempotency.py:169-190 | a completed, unexpired record that is about to be deleted is reachable if and only if the configuration lets records go stale before they expire |
| `IdempotencySafety.DeleterExecutes` | app/core/idempotency.py:175-190 | such a worker, left alone, goes on to execute the request again |
| `IdempotencySafety.CompletedCanBeExecutedAgain` | app/core/idempotency.py:100-190 | a run in which a request is granted again and executes before the completed record of its first execution has expired exists if and only if the configuration lets records go stale before they expire |
| `FailureMemory.ReadingIsInvisible` | app/core/key_pool.py:238-258 | one reading changes no later reading of any key, even when it crosses the cutoff and removes the entry |
| `FailureMemory.ReadingsAreInvisible` | app/core/key_pool.py:238-258 | nor do any number of readings between two recorded failures |
| `FailureMemory.StoredCountBounded` | app/core/key_pool.py:210-258 | over every history the stored count is between 0 and the failures since the last success |
| `FailureMemory.FailureCountsOne` | app/core/key_pool.py:210-258 | a recorded failure is read at once as one more than was stored, later as its share by half-life, or nothing below 0.05; a success is read as zero; other keys read as before |
| `FailureMemory.BurstCountsInFull` | app/core/key_pool.py:215-258 | k failures in quick succession are read as k more |
| `FailureMemory.FailuresLowerTheScore` | app/core/key_pool.py:168-175 | the score factor is 1 without failures and falls strictly with each, to 1/(1 + fails*unit) |
| `FailureMemory.CountAndWeightBounded` | app/core/key_pool.py:168-175 | k failures since the last success: the count read is in [0, k] and the score factor in [1/(1 + k*unit), 1] |
| `FailureMemory.ReadingBeforeFailureShows` | app/core/key_pool.py:232-236 | across a recorded failure a reading is harmless if and only if no time has passed since the entry was written |
| `Choice.PickWeighted` | app/core/key_pool.py:461-467 | a draw in (0, total] selects the candidate whose interval contains it; any other draw the first |
| `Choice.DrawsArePartitioned` | app/core/key_pool.py:455-467 | the intervals are disjoint, cover exactly (0, total], and each is as long as the score |
| `Choice.Exploit` | app/core/key_pool.py:447-467 | the chosen key scores at least near_ratio times the best, and is the owner of the draw among the near-best |
| `Choice.NearBestNonEmpty` | app/core/key_pool.py:317-318 | the near set holds the best candidate |
| `Choice.NearBestMeaning` | app/core/key_pool.py:449-451 | it holds exactly the candidates that score at least near_ratio times every candidate, each as often as it occurs, best first |
| `Choice.EachNearBestIsChosen` | app/core/key_pool.py:447-467 | each of them with a positive score is chosen by the random numbers of an interval as long as its share in the sum of their scores |
| `Choice.ByScoreIsSorted` | app/core/key_pool.py:449 | the list the choice is made from is sorted by (-score, id) |
| `Choice.ByScorePermutes` | app/core/key_pool.py:449 | and is a permutation of the candidates |
| `Choice.ExploreIsFair` | app/core/key_pool.py:439-446 | from any cursor, any m explore picks among m candidates visit each position exactly once |
| `Exploration.ExploredWalksRound` | app/core/key_pool.py:439-446 | over any sequence of calls, exploit choices and other providers' choices in between, a provider's explore choices walk round its candidate keys in id order from its cursor, though their scores move |
| `Exploration.ExploreIsFairAcrossCalls` | app/core/key_pool.py:439-446 | so while the provider keeps the same m candidate keys, m explore choices visit every key exactly once |
| `Exploration.CandidatesInIdOrder` | app/core/key_pool.py:442 | the candidates of the scan are in id order already |
| `Exploration.SelectAll` | app/core/key_pool.py:282-475 | any sequence of `select` calls on one pool, whatever other sessions do to the table in between, makes choices that follow the cursors in this way and returns the committed ones in order |
| `Scheduling.ScoreOrder` | app/core/key_pool.py:122-175 | more credits, a fresher snapshot and fewer failures never lower the score, and each raises it strictly; a key with credits scores above zero |
| `Scheduling.ScoreFormula` | app/core/key_pool.py:122-175 | the score in numbers, with unknown credits, a missing snapshot, small half-lives and switched-off penalties; none exactly for a key known to be used up |
| `Scheduling.ScoreNonNegative` | app/core/key_pool.py:122-175 | no score is negative |
| `Scheduling.CounterMeaning` | app/core/key_pool.py:335-396 | each counter is positive exactly when some key of the provider fails at that test |
| `Scheduling.CountersPartition` | app/core/key_pool.py:335-399 | the five counters and the candidates account for every key of the provider |
| `Scheduling.RetryAfterIsLeastCooldown` | app/core/key_pool.py:363-368 | the retry time is the least remaining time over the cooling keys |
| `Scheduling.CandidatesAreEligible` | app/core/key_pool.py:343-396 | the candidates are exactly the eligible keys, with their scores |
| `Scheduling.TagMeaning` | app/core/key_pool.py:343-385 | the test at which a key fails, from its own columns, the cooldown store and the rate limiter |
| `Scheduling.SettledMeaning` | app/core/key_pool.py:363-372 | a cooldown is cleared exactly for an enabled key of the provider that is not excluded and no longer cooling |
| `Scheduling.LadderIsExact` | app/core/key_pool.py:398-433 | the error raised says exactly which kinds of ineligible keys the provider has |
| `Scheduling.ExploreTakesTheCursor` | app/core/key_pool.py:435-446 | with more than one candidate a roll below epsilon, and no other, takes the candidate under the provider's cursor and moves that one past it |
| `Scheduling.EachNearKeyIsChosen` | app/core/key_pool.py:317-467 | when it does not explore, select chooses each near-best key with a positive score for its share of the random numbers, near_ratio being kept between a half and one |
| `Scheduling.SelectsIffUsable` | app/core/key_pool.py:282-475 | a key is returned if and only if some key is usable by its own columns and the database works, and then a usable one with its score at that moment |
| `Scheduling.KeyPool.FailureCount` | app/core/key_pool.py:238-258 | returns the specified reading and leaves the specified memory |
| `Scheduling.KeyPool.Examine` | app/core/key_pool.py:343-396 | the test at which a key fails, its new row, and its score if it passes |
| `Scheduling.KeyPool.Scan` | app/core/key_pool.py:335-396 | counters, candidates and settled rows of one pass, the clock being read anew for each key scored |
| `Scheduling.KeyPool.Choose` | app/core/key_pool.py:435-467 | explore or exploit, the key under the cursor or the near-best owner of the draw, with only the provider's own cursor moved |
| `Scheduling.KeyPool.Select` | app/core/key_pool.py:282-475 | a key is returned exactly when one is eligible and the database works, and it is the key under the cursor or the near-best owner of the draw; every refusal is characterised by the keys alone; the only rows changed are those whose cooldown is over |
| `KeyLifecycle.ActionsNeverRevive` | app/core/credit_fetcher.py:383-477 | no write of the data plane or the refresh reactivates a key, and each keeps "terminal implies inactive" |
| `KeyLifecycle.ProbeIsStored` | app/core/credit_fetcher.py:263-477 | what a key holds after each kind of probe result, in a refresh round and after a 4xx: credits, plan and time as found, or as they were |
| `KeyLifecycle.WritesShow` | app/core/forwarder.py:1312-1392 | what a success, a cooldown, a failure over the threshold, an invalid key and a failed decryption leave on an enabled key |
| `KeyLifecycle.CommitWritesChangedColumns` | app/db/session.py:69-70 | a commit writes exactly the columns its session has changed, so sessions that change different columns do not undo each other |
| `KeyLifecycle.FlushNeverRevives` | app/db/session.py:69-70 | nor does the commit of a session with stale copies, which writes only the columns it changed |
| `KeyLifecycle.TerminalImpliesInactive` | app/core/forwarder.py:1312-1392 | over every run of interleaved sessions a terminal key is inactive in the table |
| `KeyLifecycle.InactiveForever` | app/core/forwarder.py:1347-1361 | over every such run an inactive key stays inactive |
| `KeyLifecycle.DeactivatesMeaning` | app/core/credit_fetcher.py:383-477 | an enabled key is disabled exactly by an invalid-key answer, a failed decryption, and probes that find either |
| `KeyLifecycle.DisabledIsPickedOnlyFromOldCopy` | app/core/key_pool.py:343-372 | once a key is inactive in the table, a session can pick it later if and only if it held an enabled copy then and has since neither rolled back, nor forgotten the row, nor disabled the key itself |
| `KeyLifecycle.NeverPickedIfNotLoaded` | app/core/key_pool.py:343-372 | a session that has not loaded the row by then never picks the key |
| `KeyLifecycle.OldCopyCanBePicked` | app/db/session.py:69-70 | a run in which that happens |
| `Failover.RetryBudget` | app/core/forwarder.py:211-219 | the client's retries if it has a setting, else the provider's, and one more; one for negative settings |
| `Failover.TurnMeaning` | app/core/forwarder.py:755-843 | when a turn is denied, busy, undecryptable, timed out, failed or answered, from what the limiter, the leases, the key and upstream do |
| `Forwarder.Forwarder.RecordFailure` | app/core/forwarder.py:1363-1400 | the failure window and the rows after a transient failure; the key is set aside when the threshold is met |
| `Failover.FailuresAddUp` | app/core/forwarder.py:1379-1384 | failures within the window of the first add up, one after it starts again |
| `Failover.ThresholdSetsAside` | app/core/forwarder.py:1363-1400 | the last of n failures within the window sets an enabled key aside exactly when n meets the threshold, for the configured time, a second at least |
| `Forwarder.Forwarder.TakeTurn` | app/core/forwarder.py:755-843 | how far a turn gets with a key, what it writes, and that its lease is given back on every path, raising backends and unforeseen exceptions included |
| `Forwarder.Forwarder.Punish` | app/core/forwarder.py:845-893 | an answer that is the key's own fault penalises, probes and then cools, empties or disables exactly that key |
| `Forwarder.Forwarder.Settle` | app/core/forwarder.py:894-975 | a server error counts towards the failure threshold; a success clears the failure memory and charges the estimate |
| `Forwarder.Forwarder.Conclude` | app/core/forwarder.py:845-975 | rows and failure memory after an answer, per outcome, on either path |
| `Failover.RateLimitedKeyRests` | app/core/forwarder.py:84-92 | after a rate-limit answer the key rests for the time asked if positive, else for the configured one, and select passes it over until less than a second is left |
| `Failover.SuccessCosts` | app/core/forwarder.py:905-935 | a success costs its key the estimate as far as its credits go, and no other key anything |
| `Failover.OnlyOwnFaultsCount` | app/core/forwarder.py:845-893 | which answers count as failures of their key, by outcome, status and path; a success clears the count |
| `Forwarder.Forwarder.TurnTo` | app/core/forwarder.py:742-975 | the turn is the one the limiter, the lease count, decryption and upstream make it; it changes only its own key, leaves its mark on it and restores all leases |
| `Failover.TurnsFitTheKeys` | app/core/forwarder.py:716-761 | the keys tried are pairwise distinct, so there are at most as many turns as the provider has keys |
| `Failover.CountersAgree` | app/core/forwarder.py:714-725 | at every loop head selection_tries = retry_count = the number of tried keys, and an answer has been seen exactly when a last error is set |
| `Failover.HeadNext` | app/core/forwarder.py:719-893 | leaving a key behind keeps everything that holds at the loop head |
| `Failover.RefusalFinishes` | app/core/forwarder.py:728-741 | what a refusal of select turns into agrees with the keys tried so far and with the reason select had |
| `Failover.TurnFinishes` | app/core/forwarder.py:787-986 | so does a final answer, a transport error and the answer that spends the budget |
| `Failover.LoopFinishes` | app/core/forwarder.py:963-1004 | after the loop: busy if nothing was ever sent, else the last error; the last raise is never reached |
| `Forwarder.Forwarder.Tally` | app/core/forwarder.py:755-893 | the loop variables after a turn, and when the turn is the last |
| `Forwarder.Forwarder.Iterate` | app/core/forwarder.py:719-986 | one pass keeps the loop-head facts, its turn being the one the world gives to a key that passes select's tests, or ends with an explained result |
| `Failover.FinishedMeaning` | app/core/forwarder.py:714-1004 | read off from the way the loop ends: attempts stay within the budget and selections within twenty an attempt, or fifty; a response is the last one received, a retryable one only when the budget, the cap or the eligible keys are used up; a failed decryption is reported exactly when one was met and select then refuses for certain reasons; every other refusal is the reason select had; the last raise is never reached |
| `Failover.DecryptFailureReported` | app/core/forwarder.py:728-741 | these reasons are: no key, all disabled, none available, none with credits |
| `Failover.ErrorsHaveCauses` | app/core/forwarder.py:787-843 | timeout, unavailable and unhandled are raised exactly when the last turn ended so; every earlier turn was denied, busy, undecryptable or answered with a retryable outcome |
| `Failover.SecondKeyAnswers` | app/core/forwarder.py:719-893 | with one retry allowed and two usable keys, a rate-limit answer of the first is never returned: every call gets the answer of the second |
| `Failover.ReportedKeyIsProducer` | app/core/forwarder.py:742-754 | the key reported with a response is the one that gave it if and only if the last key turned to was answered |
| `Failover.ReportedKeyCanDiffer` | app/core/forwarder.py:742-758 | calls, with a world for each turn, that report key 2 with the response of key 1 |
| `Forwarder.Forwarder.ForwardPool` | app/core/forwarder.py:714-1004 | every turn is on a key that passes select's tests at that moment, no key twice, and is the turn the world gives it; each tried key still carries the mark of its turn, and no other key changes but for an ended cooldown; the loop ends by a refusal of select for its stated reason, at the cap, or with a turn that leads to no other, and returns accordingly (`FinishedMeaning`); no key is revived and all leases are restored |
| `Forwarder.Forwarder.ForwardPinned` | app/core/forwarder.py:444-712 | only the pinned key is ever used or changed; every turn is the one the world gives it; a turn is repeated only after a rate-limit answer with budget left, on the rows that answer has left; the result is that of the last turn; the pool takes over exactly when the key is missing, disabled or of another provider |
| `Failover.PinnedMeaning` | app/core/forwarder.py:444-712 | the result is that of the last turn, error by error; every earlier turn was a rate-limit answer, and one is returned only when the attempts are used up |
| `Failover.PinnedTurnOnDisabledKey` | app/core/forwarder.py:480-611 | a pinned turn is made on a key disabled meanwhile if and only if the credit probe of an earlier turn found the key invalid or undecryptable |
| `Failover.DisabledKeyIsUsedAgain` | app/core/forwarder.py:596-611 | calls, with a world for each turn, in which that happens |
| `Forwarder.Forwarder.Forward` | app/core/forwarder.py:410-1004 | pinned or pool with the results above; with m the client's retries, or the provider's if it has none, a negative m counting as 0, at most m + 1 attempts are made, and an answer that another attempt might better is returned only after m + 1, at the cap, or when select refuses; every exit restores every lease count, exceptions of the limiter, the leases, the lookup, the query and the quota bookkeeping included; the last raise is unreachable |
| `Calendar.OrdinalCounts` | app/core/credit_refresh.py:52 | adding days moves the closed-form day number by exactly that many days |
| `Calendar.OrdinalOrder` | app/core/credit_refresh.py:52 | day numbers order dates as the calendar does |
| `Calendar.ThirtyTwoDaysOn` | app/core/credit_refresh.py:52-53 | 32 days from the first of any month, set back to day 1, is the first of the following month |
| `Calendar.NextMonthIsNear` | app/core/credit_refresh.py:51-53 | it is the next midnight on a first of month strictly after now, at most 31 days away, for every date and time |
| `CreditRefresh.TierByCredits` | app/core/credit_refresh.py:55-68 | the tier in whole credits: below a tenth, three tenths and half of the plan |
| `CreditRefresh.NextRefreshInMinutes` | app/core/credit_refresh.py:45-76 | the interval in minutes: fixed without a plan or smart refresh, else that of the tier in whole credits, from the abundant threshold on no shorter than the floor |
| `CreditRefresh.NextRefreshWhenUsedUp` | app/core/credit_refresh.py:48-53 | a used-up plan is probed at the first midnight of the next month |
| `CreditRefresh.NextRefreshUnknown` | app/core/credit_refresh.py:34-43 | a key without a snapshot is due at once, and exactly the disabled keys never |
| `CreditRefresh.MoreCreditsNeverEarlier` | app/core/credit_refresh.py:38-76 | for a fixed plan and tiers that do not go down, more positive credits never give an earlier probe, abundant floor included |
| `CreditRefresh.TiersMustGoUp` | app/core/credit_refresh.py:61-68 | and only for such tiers, when the abundant threshold is out of reach |
| `CreditRefresh.NextIsLater` | app/core/credit_refresh.py:20-76 | no next probe exactly for disabled keys; otherwise strictly in the future, within 31 days when the credits are used up |
| `CreditRefresh.BatchesCoverDue` | app/core/credit_refresh.py:325-326 | the batch slices are non-empty, no longer than the batch size, and concatenate to the due list |
| `CreditRefresh.DueIsExact` | app/core/credit_refresh.py:247-266 | the due list holds exactly the keys that are active, not terminal and due by now, each once |
| `CreditRefresh.AppliedIsQueued` | app/core/credit_refresh.py:196-225 | applying a result queues the key properly if and only if it is not a terminal row left active by hand, or the probe deactivates it |
| `CreditRefresh.ResultIsStored` | app/core/credit_refresh.py:181-225 | an enabled key holds the credits, plan and time its probe found and the next probe that follows from them; after a failed probe it keeps its credits and backs off; a key out of use has no next probe |
| `CreditRefresh.RoundShowsInSelect` | app/core/credit_refresh.py:236-350 | after a round select does not pick a surviving due key whose probe found nothing left, or found it invalid or undecryptable, and does not pass over one with credits left for want of credits, unless others have written to it since |
| `CreditRefresh.DueKeysEndQueued` | app/core/credit_refresh.py:181-231 | after the results every surviving due key is inactive with no next refresh, or active and due only after the round's clock, whatever other workers did before each of them |
| `CreditRefresh.OtherKeysUntouched` | app/core/credit_refresh.py:181-231 | keys outside the due list end as if the round had not run |
| `CreditRefresh.RoundOutcome` | app/core/credit_refresh.py:236-350 | both, for a whole round |
| `CreditRefresh.RefreshWorker.FindDue` | app/core/credit_refresh.py:247-266 | the due query |
| `CreditRefresh.RefreshWorker.ApplyResultsSerial` | app/core/credit_refresh.py:170-233 | the results of one batch, each applied once to its key if that is still there, with other workers' writes between one commit and the next |
| `CreditRefresh.RefreshWorker.RefreshOnce` | app/core/credit_refresh.py:236-350 | each due key is probed exactly once, in id order and in batches, and the table ends as the result-by-result specification says |
| `KeyImport.ParsingLosesNoLine` | app/core/key_import.py:58-107 | every non-blank, non-comment line becomes an item or a failure |
| `KeyImport.ItemsAreClean` | app/core/key_import.py:87-92 | keys have at least eight characters; no field is empty or has white space around it |
| `KeyImport.SplitJoin` | app/core/key_import.py:46-55 | splitting undoes joining |
| `KeyImport.JoinSplit` | app/core/key_import.py:46-55 | joining undoes splitting |
| `KeyImport.LineParses` | app/core/key_import.py:46-107 | one to four fields joined by a bar, a tab, a comma or a space are read back field by field; more fields, a short key and an unreadable date fail |
| `KeyImport.BlankLines` | app/core/key_import.py:62-65 | passed over are exactly the lines of white space and those whose first other character is a hash |
| `KeyImport.ParseKeysText` | app/core/key_import.py:58-107 | items and failed line numbers in line order |
| `KeyImport.ReportAddsUp` | app/api/control_plane.py:516-638 | created + updated + skipped + failed is the number of content lines |
| `KeyImport.CountsAddUp` | app/api/control_plane.py:527-560 | created is the number of rows the table gains |
| `KeyImport.ReimportChangesNothing` | app/api/control_plane.py:531-624 | importing the same text again changes no row and reports created = updated = 0, even with other settings and nonces |
| `KeyImport.FirstValueWins` | app/api/control_plane.py:600-608 | each account field ends with its first non-empty value |
| `KeyImport.OtherColumnsStay` | app/api/control_plane.py:541-608 | no other column of an existing row changes, and rows of other keys do not change at all |
| `KeyImport.KeyTable.ImportItem` | app/api/control_plane.py:539-620 | the insert, or the fill-in of the row it collides with; created, updated or skipped counts one more as a row is new, changed or left as it was |
| `KeyImport.KeyTable.ImportKeysText` | app/api/control_plane.py:516-638 | rejected without any change when nothing parses and something failed; otherwise the specified table and report |

## Left out

- HTTP transport, connection pool, routing, middleware, migrations, metrics, logging, dashboards, the web interface and runtime settings.
- Encryption, HMAC and SHA-256: decryption succeeds or fails as an input; hashes and ciphertexts are opaque values.
- base64 and JSON: the codec is a parameter that reads back what it wrote; the stored document keeps its fields.
- Attribution of a response by the text of its body (`classify_upstream_outcome`): the outcome is an input of each turn.
- Parsing of reason strings in `is_4xx_score_failure`: the modelled callers pass a status code, which decides alone, or the reasons `timeout` and `http_error`, which never count.
- Float rounding, `log1p` and powers of one half: reals, any strictly increasing function that is 0 at 0, any function that turns sums into products.
- Clock skew between workers, and reuse of a deleted row's id: one monotone clock and new ids are assumed.
- `datetime` overflow in December 9999: years are not bounded.
- Failed commits of marks inside `forward`, which the program logs and swallows; database failures in a refresh round, and in an import other than duplicates.
- Steps of other sessions inside one call of `forward`: the call has the table to itself; `KeyLifecycle` covers sessions that interleave.
- `forward` before its loops (missing master key, unconfigured provider), the counters of its quota bookkeeping (only whether that raises), its switch reasons and scores in the result.
- The debounce of the credit probe after a 4xx: whether a probe was made, and its result, is an input.
- Cleanup of old credit snapshots, the pause between batches, concurrent probes within a batch: each result is what its probe found, and other workers act before it is written.
- A second refresh round at the same time: `DueKeysEndQueued` excludes writes of `next_refresh_at` by another round.
- Status values in other letter case, for which the due query and its second test could differ.
- In the import: `splitlines`, date formats (the date parser is a parameter), texts of error messages, audit records, and the refusals for a missing master key or an unknown provider.
- The Redis server: scripts and EXEC are atomic, EXPIRE fires no earlier than its deadline.
- ExpiryIsUnobservable: assumes that a rate-limit call reaches the server within 60 seconds of its stamp, by the same clock; nothing in the program bounds that delay.
- Leases of `forward` and of the client gate in Redis mode: both are proved with the in-memory manager; the Redis manager is a model of its own, lost leases included.
- Admin edits of keys, key tests, and the aggregation of credits: easy members, or writes that `KeyLifecycle` excludes by name.
