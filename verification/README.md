# Verified models of tokenhub-server

Dafny models of the parts of the server whose correctness is a matter of whole runs: the rate
limiters, the scheduler, the price-tier migrations, three request protocols over Redis and the
supplier clean-up. Each model follows the branches, constants and edge cases of the code it
cites; code that updates state in place is modelled by classes and methods proved equal to a
function of the old state, and the theorems are about that function. Concurrent code is a state
machine: a run is any sequence of atomic steps, a step that is not enabled does nothing, and the
guards of the steps carry the stated assumptions.

Verify the whole project with `dafny verify dfyconfig.toml`.

| files | component |
|---|---|
| SlidingWindow, SlidingWindowTheorems, LimiterKey, FallbackRaces | the sliding-window limiter: Lua script, pipeline fallback, key expiry |
| GlobalQps, GlobalQpsPeak, TokensPerMinute, RateLimitKey | the process-wide counter, the token budget, the bucket keys |
| FreezeLedger, SchedulerLock, MonthlyLoop | freeze release under the distributed lock, the monthly loop |
| PriceTier, LegacyTiers, PriceRows, SellingSync, SellingSyncTheorems | tiers, the old tier format, the selling-tier sync |
| PriceAccuracy, PriceAccuracyTheorems, PriceBootstrap | the price-accuracy step, and the three steps in start-up order |
| Idempotency, KeyLookup, AnomalyGuard | idempotency key, single-flight key lookup, anomaly breaker |
| CataloguePrune, CataloguePruneTheorems | the supplier clean-up |
| Common | options and cardinalities |

## What the models assume

- Redis answers; its commands, and the Lua script, are atomic. Sorted-set members of one key
  differ, and timestamps do not decrease in the order Redis executes the calls: the window bound
  holds exactly under these two, or for limit 1 (`NeverOverfullIff`).
- The clean-up of an expired Redis key, the delivery of a final SET or DEL, the failure of a
  transaction, a crash or a panic are steps or parameters chosen by the environment.
- `pkgredis.Lock` is what `internal/pkg/redis/redis.go` makes it: set-if-absent with a time to
  live, and a delete that checks the owner. A database or Redis command issued with a context
  past its deadline has no effect.
- Prices are real numbers, rounded to six decimals exactly where the code rounds; clocks are
  integers. Timestamps stored with prices are not modelled.

## Where the code falls short of what it is for

Each of these is a failing run or input stated as a lemma, with the exact condition under which
the promise does hold.

- At most maxQPS requests per second is true of `checkGlobalQPS` if and only if checks never
  overlap (`EverySecondWithinLimitIff`): otherwise stores of 0 may come late, and so may adds.
  With k in flight a second admits up to k * maxQPS + min(maxQPS, k - 1) + k - 1, and some does
  (`EverySecondWithinIff`). Over n new seconds the bound is `AdmissionsOverSeconds`, also attained.
- Expiry of an idle limiter key is invisible if and only if its time to live exceeds the window
  by the slack of the clocks (`ExpiryIsInvisibleIff`); the Open API limiter leaves none.
- The fallback announces one request too many, the script exactly what is left
  (`AnnouncementIsExact`).
- Interleaved checks can exceed the limit by k - 1, and a window that later requests have trimmed
  by 2 * (k - 1); both are attained.
- The frozen ledger: no transaction that reduces a frozen amount looks at the record's status
  again, and none touches the units column, from which the next freeze, recharge, deduction or
  adjustment recomputes the credits; a payment's callback saves a row it read without a lock. So
  every run conserves it if and only if the context deadline is within the lock's time to live
  and requests do none of this meanwhile (`AlwaysConservedIff`). A single run does exactly when
  each of its steps is sound (`RunConservesIff`). The code's ten minutes and ten minutes are
  enough for the scheduler's own share (`OrderlyConservedIff`).
- Monthly tasks are repeated, or skipped for a later one, if and only if an invocation follows a
  clock reading that is bad in one of three ways (`EnumeratesIff`); a task that takes no time, a
  pass that begins just before the month and a task that runs into the next 1st bring one about.
- The selling-tier sync is a fixpoint of itself if and only if no tier still depends on a ratio
  that changes (`SyncTwiceIff`); three concrete rows move on the second run.
- Raising a price to the official one can lower it when that has a seventh decimal
  (`RaisingLowersIff`), and miss the floor (`RoundedOfficialMeetsFloorIff`).
- The accuracy step on its own can lower a tier on sale (`AccuracyAloneLowers`, exactly when:
  `AccuracyLowersIff`), and the sync that follows it at start-up puts back the tiers it raised
  (`TierFloorAfterBootstrapIff`, for every row `FinalTiersMeetFloorIff`).
- A handler may start within 24 hours of the success of one that took a shorter time than that,
  but not none, if and only if the final SET of that success was lost (`CanRepeatIff`).
- A block of the anomaly guard always costs the full threshold of failures if and only if
  requests do not overlap, or the threshold is 1 (`BlocksArePaidIff`).
- Two strict subjects share a bucket exactly as `BucketsSharedIff` says; without colons in
  addresses that takes a route that ends in ":user".
- A kept model loses its category unless that belongs to a kept supplier (`CategoriesLiveIff`).

## Model

| member | source | states |
|---|---|---|
| LimiterKey.RedisKey.RunSlidingWindowLua | internal/middleware/rate_limiter.go:47-58 | The script admits exactly when fewer than `limit` entries are younger than 60 s, records only what it admits, and sets the key to expire 61 s later |
| LimiterKey.RedisKey.RunPipeline | internal/middleware/rate_limiter.go:261-278 | The fallback takes the same decision but records every request |
| LimiterKey.RedisKey.SlidingWindowCheck | internal/middleware/rate_limiter.go:250-305 | The whole check: no limit admits without touching the key, a script error falls back; an admitted request is told the limit less the entries younger than 60 s, and less itself when the script ran; a refused one 0 |
| LimiterKey.ServeTrace | internal/middleware/rate_limiter.go:250-328 | Serving any mixed trace through one expiring key gives the decisions the theorems below are about, and the announced quotas |
| LimiterKey.AnnouncementIsExact | internal/middleware/rate_limiter.go:279-328 | Of the requests that follow at once the script admits exactly as many as it announced; the fallback announced one too many, as it leaves the request itself out |
| SlidingWindow.StoreCountsTheRecorded | internal/middleware/rate_limiter.go:47-58 | The pruned sorted set has exactly one entry per recorded request younger than 60 s |
| SlidingWindow.AdmittedIffFewerThanLimitRecorded | internal/middleware/rate_limiter.go:47-58 | A request is admitted exactly when fewer than `limit` recorded requests are less than 60 s old, for any mixture of script and fallback |
| SlidingWindow.WindowHoldsAtMostLimit | internal/middleware/rate_limiter.go:250-305 | Over any mixed run every window (t - 60000, t] holds at most `limit` admitted requests |
| SlidingWindow.EqualMembersBreakTheBound | internal/middleware/rate_limiter.go:308 | For every limit above one: two requests with equal members leave one entry, and limit + 1 are admitted at one time |
| SlidingWindow.LateTimestampBreaksTheBound | internal/middleware/rate_limiter.go:255-257 | For every limit above one: a timestamp one millisecond out of order puts limit + 1 admitted requests into one window |
| SlidingWindow.LimitOneIsNeverOverfull | internal/middleware/rate_limiter.go:47-58 | With limit 1 no window is overfull, whatever the members and the order of the timestamps |
| SlidingWindow.NeverOverfullIff | internal/middleware/rate_limiter.go:250-308 | For every limit, skew and either assumption on members: no trace overfills a window if and only if the limit is 1, or timestamps never fall back and members differ |
| SlidingWindowTheorems.RefusalMeansFullWindow | internal/middleware/rate_limiter.go:47-58 | When the script refuses, the window it looks back on holds exactly `limit` admitted requests |
| SlidingWindowTheorems.ScriptStaysAhead | internal/middleware/rate_limiter.go:47-58 | After every prefix the script has admitted at least as many requests as any policy that respects the limit in every window |
| SlidingWindowTheorems.KthAdmissionIsNoLater | internal/middleware/rate_limiter.go:47-58 | Its k-th admission is never later than any such policy's |
| SlidingWindowTheorems.ScriptRespectsLimit | internal/middleware/rate_limiter.go:47-58 | The script is itself such a policy |
| SlidingWindowTheorems.FallbackAdmitsNoMore | internal/middleware/rate_limiter.go:261-278 | What the pure fallback admits on a trace, the script or any mixture admits too |
| SlidingWindowTheorems.FallbackAdmitsIff | internal/middleware/rate_limiter.go:261-278 | The fallback admits exactly when the request `limit` places earlier, admitted or not, is at least 60 s old |
| SlidingWindowTheorems.FallbackStarvesInsistentClient | internal/middleware/rate_limiter.go:261-278 | A client that keeps sending `limit` requests per window is refused by the fallback for good |
| SlidingWindowTheorems.ScriptNeverStarves | internal/middleware/rate_limiter.go:47-58 | Under the script some request of the last 60 s was always admitted |
| SlidingWindowTheorems.ExpiryKeepsTheStore | internal/middleware/rate_limiter.go:270 | With a time to live above the window by the clocks' slack, dropping the key loses nothing a check would have seen |
| SlidingWindowTheorems.ExpiryChangesNoDecision | internal/middleware/rate_limiter.go:309 | Expiry after 61 s never changes a decision while the clocks drift by at most a second between calls |
| SlidingWindowTheorems.ExpiryIsInvisibleIff | internal/middleware/rate_limiter.go:250-309 | For every limit, time to live and slack: dropping the idle key changes no decision on any trace if and only if the time to live exceeds the window by at least the slack |
| SlidingWindowTheorems.SlackOfTheTwoLimiters | internal/middleware/openapi_auth.go:196-217 | So 61 s allow one second of drift, and the Open API limiter's exact window allows none |
| FallbackRaces.StepKeepsInv | internal/middleware/rate_limiter.go:250-278 | Every command of every pipeline and every script call keeps the invariant behind the two bounds, for each window |
| FallbackRaces.OvershootBound | internal/middleware/rate_limiter.go:250-278 | With at most k checks in flight, pipelines and scripts interleaved at will: the window up to the latest timestamp holds at most limit + k - 1 admitted requests, however long the run and whatever the set held |
| FallbackRaces.WindowOvershootBound | internal/middleware/rate_limiter.go:250-278 | Every window of every such run holds at most limit + 2 * (k - 1) |
| FallbackRaces.OvershootAttained | internal/middleware/rate_limiter.go:261-278 | For every limit and k some interleaving admits exactly limit + k - 1 before anybody later has come |
| FallbackRaces.WindowOvershootAttained | internal/middleware/rate_limiter.go:261-278 | And for every limit and k some interleaving brings a window to limit + 2 * (k - 1), because a later request trims what stragglers of the window would have counted |
| GlobalQps.Globals.CheckGlobalQPS | internal/middleware/rate_limiter.go:227-245 | Without interference one check has the effect of its atomic steps in a row |
| GlobalQps.WholeRun | internal/middleware/rate_limiter.go:227-245 | A new second resets the counter to this one request, otherwise the counter grows by one, and the request passes exactly when the counter is within the limit |
| GlobalQps.StepKeepsInv | internal/middleware/rate_limiter.go:232-244 | Every load, compare-and-swap, store and add keeps the accounting of admissions, resets and seconds |
| GlobalQps.AdmissionsOverSeconds | internal/middleware/rate_limiter.go:227-245 | Over every interleaving: at most maxQPS admissions between resets, resets never outnumber the new seconds, at most maxQPS * (n + 1) admissions over n new seconds |
| GlobalQps.AdmissionsAttained | internal/middleware/rate_limiter.go:227-245 | For every limit and n some run admits exactly maxQPS * (n + 1) over n new seconds |
| GlobalQpsPeak.OneAtATimeKeepsTheLimit | internal/middleware/rate_limiter.go:227-245 | Checks that do not overlap, read from a clock that does not go back, never admit more than maxQPS in any second |
| GlobalQps.SecondOverLimit | internal/middleware/rate_limiter.go:236-243 | For every limit a run with two checks in flight and a single clock reading admits maxQPS + 1 |
| GlobalQpsPeak.StepKeepsPeak | internal/middleware/rate_limiter.go:232-244 | Every load, compare-and-swap, store and add keeps the account of who may still restart the count of a second, and who may still be admitted in it |
| GlobalQpsPeak.NoSecondAbovePeak | internal/middleware/rate_limiter.go:227-245 | With at most k checks in flight no second of any run admits more than Peak |
| GlobalQpsPeak.PeakIs | internal/middleware/rate_limiter.go:227-245 | Peak is k * maxQPS + min(maxQPS, k - 1) + k - 1 |
| GlobalQpsPeak.PeakAttained | internal/middleware/rate_limiter.go:227-245 | For every limit and k some run admits exactly that many in one second |
| GlobalQpsPeak.EverySecondWithinIff | internal/middleware/rate_limiter.go:227-245 | So that is the exact maximum: n bounds every second of every run if and only if it is at least that |
| GlobalQpsPeak.EverySecondWithinLimitIff | internal/middleware/rate_limiter.go:227-245 | With at most k checks in flight every second of every run stays within maxQPS if and only if k <= 1 |
| TokensPerMinute.TPMLimiter.CheckTPM | internal/middleware/rate_limiter.go:482-502 | Passes exactly when there is no estimate, no limit, or the minute's counter plus the estimate is within it |
| TokensPerMinute.TPMLimiter.RecordTPM | internal/middleware/rate_limiter.go:505-515 | Adds what was used to the current minute's counter, kept for 120 s; nothing for nothing used |
| TokensPerMinute.MinuteBound | internal/middleware/rate_limiter.go:482-515 | With at most k requests between check and record, each estimating at most e, no minute of any run records more than TPM + (k - 1) * e |
| TokensPerMinute.OneAtATime | internal/middleware/rate_limiter.go:482-515 | One at a time, never more than TPM |
| TokensPerMinute.ExcessIsReached | internal/middleware/rate_limiter.go:482-515 | For every limit, k and estimate e within the limit some run records exactly TPM + (k - 1) * e in one minute |
| TokensPerMinute.MinutesWithinLimitIff | internal/middleware/rate_limiter.go:482-515 | Every minute of every run stays within TPM if and only if requests are handled one at a time |
| TokensPerMinute.NewMinuteIsFree | internal/middleware/rate_limiter.go:482-502 | Whatever was used before, in a new minute a check passes exactly if its estimate fits into the limit |
| TokensPerMinute.RequestEnds | internal/middleware/rate_limiter.go:505-515 | Recording or giving up makes room for the next request, and nothing used counts nothing |
| RateLimitKey.StrictIpReadsBackIff | internal/middleware/rate_limiter.go:361-372 | A strict-IP key is taken apart as it was built exactly when the address has no colon and the path followed by ":" has no ":user:" |
| RateLimitKey.StrictUserReadsBack | internal/middleware/rate_limiter.go:361-372 | A strict-user key is taken apart as it was built for every path |
| RateLimitKey.KeyReadsBack | internal/middleware/rate_limiter.go:348-374 | Parsing recovers the subject kind, the subject id and the rule of every key |
| RateLimitKey.ForeignKeysAreKept | internal/middleware/rate_limiter.go:348-374 | A key with an unknown prefix, or strict without a colon, is reported whole |
| RateLimitKey.BucketsSharedIff | internal/middleware/rate_limiter.go:188-216 | For all kinds, routes, ids and addresses: two distinct subjects share a bucket if and only if both are strict and their path and id differ only in where a colon is taken to end the path |
| RateLimitKey.WithoutColonsBucketsSharedIff | internal/middleware/strict_login_limit.go:48-64 | Among subjects whose address or id has no colon: if and only if one is an unauthenticated caller of a route ending in ":user" and the other the user with that id of the shorter route |
| RateLimitKey.DistinctSubjectsDistinctBuckets | internal/middleware/rate_limiter.go:348-374 | Distinct subjects whose keys read back never share a bucket |
| RateLimitKey.BucketsCollide | internal/middleware/strict_login_limit.go:48-64 | For every route and id those two subjects do share a bucket |
| RateLimitKey.AddressSlides | internal/middleware/strict_login_limit.go:58-63 | For every route and address with a colon, the caller shares a bucket with one of the route continued by the address's first groups |
| RateLimitKey.SensitiveKeyReadsBackIff | internal/middleware/strict_login_limit.go:27-72 | Exactly which keys built by SensitiveRateLimit are read back as the request they were built for |
| RateLimitKey.WithoutBucketIff | internal/middleware/strict_login_limit.go:27-83 | Which requests pass without a bucket: no limit, or counted by address and from the machine itself or a container network |
| FreezeLedger.ReduceConservesIff | internal/cron/scheduler.go:917-933 | A release, or a settlement (internal/service/balance/balance_service.go:596-650), keeps "frozen amount = sum of FROZEN records" if and only if the record is still FROZEN, is empty, or its owner has nothing frozen |
| FreezeLedger.ReductionNeedsNoClamp | internal/cron/scheduler.go:921 | On a FROZEN record of a conserved ledger GREATEST(..., 0) never cuts anything off |
| FreezeLedger.ToCreditsIsNearest | internal/pkg/credits/convert.go:41-43 | For all units the credits are the nearest number at 10000 units to the credit, ties away from zero, and no other number is |
| FreezeLedger.FreezeConservesIff | internal/service/balance/balance_service.go:518-554 | A freeze keeps the ledger if and only if the credits computed from the grown units come to the old credits plus the record's own |
| FreezeLedger.WholeFreezeAgreesIff | internal/service/balance/balance_service.go:116-150 | For a freeze of whole credits: if and only if the units column was 0 or agreed with the credits column before it |
| FreezeLedger.RewriteConservesIff | internal/service/balance/balance_service.go:220-260 | A recharge, a deduction (lines 281-318) or an adjustment (lines 354-376) keeps the ledger if and only if the units are still to be filled in or round to the credits there are |
| FreezeLedger.RewriteAgreesIffFreezesAgree | internal/service/balance/balance_service.go:116-150 | Which is the condition under which any freeze of whole credits keeps it |
| FreezeLedger.RewriteTwice | internal/service/balance/balance_service.go:116-150 | A second such write changes nothing in the frozen columns |
| FreezeLedger.PutConservesIff | internal/service/payment/payment_service.go:479-509 | Saving a whole balance row keeps the ledger if and only if it has the frozen credits there are |
| FreezeLedger.FreezeRevivesEverything | internal/service/balance/balance_service.go:526-538 | Right after a freeze the frozen credits are the rounded total of everything that user ever froze |
| FreezeLedger.RewriteRevivesEverything | internal/service/balance/balance_service.go:240-253 | So they are right after a recharge, a deduction or an adjustment |
| FreezeLedger.SnapshotReleases | internal/cron/scheduler.go:900-944 | For any set of failing transactions exactly the other expired records become RELEASED, nothing else changes, and the ledger is kept |
| FreezeLedger.FreshFreezeIsSpared | internal/cron/scheduler.go:895-903 | A record frozen now is selected by exactly the runs whose cutoff lies later |
| FreezeLedger.Database.ReleaseOne | internal/cron/scheduler.go:917-933 | Both updates, or neither when the transaction fails |
| FreezeLedger.Database.ReleaseEach | internal/cron/scheduler.go:914-944 | The loop commits each selected record in order and skips the failing ones |
| FreezeLedger.Database.ReleaseFrozenRecords | internal/cron/scheduler.go:894-957 | The task: changes exactly the FROZEN records older than the cutoff whose transaction does not fail, counts them, keeps the ledger |
| FreezeLedger.Database.FreezeBalanceUnits | internal/service/balance/balance_service.go:499-554 | In place: the units grow, the credits are the nearest to them, a FROZEN record of the nearest credits, stamped now, is added; other users and a free request change nothing |
| FreezeLedger.Database.RewriteBalance | internal/service/balance/balance_service.go:240-253 | In place: a recharge, deduction or adjustment fills in the units and sets the frozen credits to the nearest |
| FreezeLedger.Database.Unfreeze | internal/service/balance/balance_service.go:596-650 | In place: the credits are reduced and clamped, the units and the status read before play no part |
| FreezeLedger.NextFreezeRevivesRelease | internal/service/balance/balance_service.go:116-150 | The freeze after a release computes credits that include the released amount again |
| SchedulerLock.AtMostOneLiveRun | internal/cron/scheduler.go:974-990 | Under the invariant at most one run holds the lock with its context open |
| SchedulerLock.FinishFreesTheLock | internal/cron/scheduler.go:974-990 | A live run gives its lock back when it finishes; one whose lock has passed on leaves it alone |
| SchedulerLock.StepIsSpent | internal/cron/scheduler.go:914-990 | Each selected record is attempted once by a run, each settlement and save is made once, and a dead run or one without the lock is over |
| SchedulerLock.StepConservesIff | internal/cron/scheduler.go:894-957 | For every step of every replica, request and callback: it keeps the ledger if and only if it is a write or reduction that the one-step conditions allow |
| SchedulerLock.RunConservesIff | internal/cron/scheduler.go:894-990 | A run, whatever its interleaving, keeps the ledger throughout if and only if each of its steps does |
| SchedulerLock.StepKeepsInv | internal/cron/scheduler.go:894-990 | Every step keeps lock ownership, the pending lists and the ledger, as long as requests are orderly |
| SchedulerLock.SchedulerConservesLedger | internal/cron/scheduler.go:894-990 | Over every run with deadline within lock and orderly requests: the ledger is conserved, the clamp never bites, no record is released twice, at most one run is live |
| SchedulerLock.ClampIsNoted | internal/cron/scheduler.go:919-921 | A clamp is noted exactly when a reduction takes off less than the record has |
| SchedulerLock.OnlyOldRecordsAreReleased | internal/cron/scheduler.go:894-933 | In no run, whatever requests do, has the scheduler released a record less than five minutes old |
| SchedulerLock.CodeConservesOrderlyRuns | internal/cron/scheduler.go:974-981 | The code's ten-minute deadline and lock conserve every orderly run; with them a freeze or a recharge after a release, a settlement of a selected record, and a payment's callback each lose the ledger |
| SchedulerLock.LongerDeadlineLosesLedger | internal/cron/scheduler.go:974-981 | Whenever the deadline is longer, two replicas release one record and lose the ledger |
| SchedulerLock.FreezeAfterReleaseLosesLedger | internal/service/balance/balance_service.go:526-538 | Under every setting the first freeze after a release loses the ledger |
| SchedulerLock.RewriteAfterReleaseLosesLedger | internal/service/balance/balance_service.go:240-253 | Under every setting so does the first recharge, deduction or adjustment |
| SchedulerLock.SaveAfterReleaseLosesLedger | internal/service/payment/payment_service.go:479-509 | Under every setting so does a payment's callback that read the row before the release |
| SchedulerLock.TwoSettlementsLoseLedger | internal/service/balance/balance_service.go:578-650 | Two requests that both read a record as FROZEN reduce its owner's amount twice |
| SchedulerLock.SettledWhileSelectedLosesLedger | internal/cron/scheduler.go:899-933 | A record settled between its selection and its release is taken off twice |
| SchedulerLock.AlwaysConservedIff | internal/cron/scheduler.go:974-990 | Every run conserves every ledger whose columns agree if and only if the deadline is no longer than the lock's time to live and meanwhile requests neither freeze, settle, recharge, deduct nor adjust, and no callback saves |
| SchedulerLock.OrderlyConservedIff | internal/cron/scheduler.go:974-990 | With orderly requests: if and only if the deadline is no longer than the lock's time to live |
| SchedulerLock.EveryWriteRevives | internal/service/balance/balance_service.go:526-538 | After any run without an outdated save, a freeze, recharge, deduction or adjustment leaves its user with the rounded total of everything that user ever froze, released and settled records included |
| MonthlyLoop.TargetSwitchesAtTen | internal/cron/scheduler.go:577-592 | A pass works on the current month until 10:00 on the 1st, on the next month afterwards, for every month of every year |
| MonthlyLoop.StartOfYear | internal/cron/scheduler.go:584-596 | Years have 365 days, and one more if divisible by 4, by 100 only if by 400: January starts after exactly so many days |
| MonthlyLoop.StartIsMidnight | internal/cron/scheduler.go:584-596 | Every month starts at midnight before its 1st by the Gregorian calendar |
| MonthlyLoop.ReadingsAreDates | internal/cron/scheduler.go:579-582 | A date and time of day read off the clock come back as month, day and hour |
| MonthlyLoop.TargetByDate | internal/cron/scheduler.go:577-592 | A pass started on any date works on that month if it is the 1st before 10:00, else on the next |
| MonthlyLoop.DueByDate | internal/cron/scheduler.go:538-596 | The tasks of any year and month are due on the 1st at 00:00, 02:00 and 09:00 |
| MonthlyLoop.EnumeratesIff | internal/cron/scheduler.go:575-615 | For every run: the log lists the tasks due from the start on, each once, in order and without gaps, if and only if no invocation comes after a bad reading: one past a task not done, one not past a task done, or one that starts a pass on a later month than a task not done |
| MonthlyLoop.NothingLeftBehind | internal/cron/scheduler.go:596-612 | Without a bad reading, whenever the loop waits for a task, exactly the tasks due before it are done |
| MonthlyLoop.StepKeepsInv | internal/cron/scheduler.go:575-615 | Every clock reading, wake-up and return keeps the loop between two neighbouring due times |
| MonthlyLoop.EveryTaskOnceInOrder | internal/cron/scheduler.go:575-615 | Calm runs have no bad reading, so every later task is invoked exactly once, in order, never early, and nothing due is left out |
| MonthlyLoop.EverySlotIsReached | internal/cron/scheduler.go:538-573 | The order of invocations enumerates every task of every later month |
| MonthlyLoop.InstantTaskRunsTwice | internal/cron/scheduler.go:579-602 | A 09:00 task that takes no time is invoked twice: a reading not past a task that is done |
| MonthlyLoop.StraddlingReadingsSkipTask | internal/cron/scheduler.go:577-602 | Clock readings on both sides of the month's start skip its first task, and whatever is invoked next breaks the order |
| MonthlyLoop.LongTaskSkipsMonth | internal/cron/scheduler.go:577-592 | A 09:00 task still running at 10:00 on the next 1st skips all of that month |
| PriceTier.Round6IsNearest | internal/database/seed_wangsu.go:449-451 | Rounding gives six decimals, nothing with six decimals is nearer, a tie goes away from zero |
| PriceTier.NormalizedTwice | internal/model/price_tier_helpers.go:87-113 | Normalising is idempotent and leaves no tier without a name |
| PriceTier.AutoNameReads | internal/model/price_tier_helpers.go:96-130 | The automatic name of a tier, with M and k for millions and thousands, read back gives its input range |
| PriceTier.SmallLabels | internal/model/price_tier_helpers.go:117-128 | Numbers below a thousand are written out |
| PriceTier.NormalizedMatchesIff | internal/model/price_tier_helpers.go:86-94 | A normalised tier matches what it did, except that an output range without bounds no longer takes in a request without output |
| PriceTier.SpacesAre | internal/model/price_tier_helpers.go:91 | The characters of which a blank name consists |
| PriceTier.SortedPermutes | internal/model/price_tier_helpers.go:239-246 | Sorting permutes the tiers |
| PriceTier.SortedInOrder | internal/model/price_tier_helpers.go:239-246 | Sorting orders them by input minimum, then output minimum |
| PriceTier.SortedStable | internal/model/price_tier_helpers.go:239-246 | Tiers with equal keys keep their order |
| PriceTier.SortedMap | internal/model/price_tier_helpers.go:239-246 | A change that leaves the keys alone can be made before or after sorting |
| PriceTier.SelectTier | internal/model/price_tier_helpers.go:147-154 | Returns the first matching tier, -1 exactly when none matches |
| PriceTier.SelectionByRanges | internal/model/price_tier_helpers.go:28-85 | Which tier is selected depends on the ranges alone |
| LegacyTiers.LegacySyncTiersToData | internal/database/migrate_price_tier_selling_sync.go:183-229 | The loop with previousMax decodes every list to the specified tiers |
| LegacyTiers.DecodedMatchesIff | internal/database/migrate_price_tier_selling_sync.go:188-214 | A decoded tier matches exactly the inputs above the previous maximum and up to its own, with some output |
| LegacyTiers.CoversEveryCountOnceIff | internal/database/migrate_price_tier_selling_sync.go:183-229 | The decoded ranges cover every token count exactly once if and only if the listed maxima never fall |
| LegacyTiers.SelectsFirstFit | internal/database/migrate_price_tier_selling_sync.go:183-229 | Then each request falls into the first tier whose maximum it does not exceed |
| LegacyTiers.AnyTierMatchesIff | internal/database/migrate_price_tier_selling_sync.go:188-214 | For every list, explicit minimums and bounded last tiers included: what each decoded tier matches |
| LegacyTiers.AnyListCoversOnceIff | internal/database/migrate_price_tier_selling_sync.go:183-229 | For every list: the ranges cover every token count exactly once if and only if they do so at 0 and at each range's start and end |
| LegacyTiers.NoOutputNoTier | internal/database/migrate_price_tier_selling_sync.go:199-205 | A request without output falls into no decoded tier |
| PriceRows.EncodedReadsBack | internal/database/migrate_price_tier_selling_sync.go:124-181 | What a migration wrote is decoded as it was, and never taken for the old format |
| PriceRows.LegacyColumn | internal/database/migrate_price_tier_selling_sync.go:155-181 | A column is in the old format if any tier sets one of its five fields, whatever else is there; currency, unit and source are kept |
| PriceRows.LegacyFieldsAreKept | internal/database/migrate_price_tier_selling_sync.go:183-229 | It decodes to tiers with exactly the four prices each had, and its names, up to their order |
| PriceRows.CurrentFieldsAreKept | internal/database/migrate_price_tier_selling_sync.go:120-140 | Otherwise, and for the accuracy step in any case, the tiers are read as they stand |
| PriceRows.NormalizeTiers | internal/database/migrate_price_tier_selling_sync.go:375-388 | Writing normalises and sorts the slice in place |
| SellingSync.NormalizeAndFillCostTiers | internal/database/migrate_price_tier_selling_sync.go:237-258 | In place: every tier normalised, missing cache prices filled in, then sorted |
| SellingSync.PlatformTierRatios | internal/database/migrate_price_tier_selling_sync.go:260-311 | The three ratios, from the item's own prices, the first tier that has both prices, or 1 |
| SellingSync.AttachSellingOverrides | internal/database/migrate_price_tier_selling_sync.go:313-328 | In place: a priced tier without a positive override gets one |
| SellingSync.BuildPlatformSellingTiers | internal/database/migrate_price_tier_selling_sync.go:330-373 | A fresh, sorted slice of selling tiers; the cost tiers are untouched |
| SellingSync.PriceTables.SyncItem | internal/database/migrate_price_tier_selling_sync.go:36-115 | One item: cost tiers, selling tiers, top-level prices and currency, no other row |
| SellingSync.PriceTables.RunPriceTierSellingSync | internal/database/migrate_price_tier_selling_sync.go:16-122 | Every item once |
| SellingSyncTheorems.SyncTwiceIff | internal/database/migrate_price_tier_selling_sync.go:36-99 | A second run changes nothing, prices, tiers, per-token prices and currency included, if and only if no tier is priced by a ratio under which it comes out differently; both runs' ratios are read off the row |
| SellingSyncTheorems.NextRatiosAre | internal/database/migrate_price_tier_selling_sync.go:86-97 | The second run's ratios: the item's price, or the first tier's selling price when it has none, over its cost; else the first tier ratio; else 1 |
| SellingSyncTheorems.InterruptedSyncIsCompletedIff | internal/database/migrate_price_tier_selling_sync.go:61-112 | Running again after only the cost tiers were written completes the first run under the same condition |
| SellingSyncTheorems.PricedTiersSyncOnce | internal/database/migrate_price_tier_selling_sync.go:36-99 | Both hold when every tier has an input price and no override rounds to zero |
| SellingSyncTheorems.OwnRatiosSyncOnce | internal/database/migrate_price_tier_selling_sync.go:264-268 | A second run changes nothing for an item whose own prices give all three ratios |
| SellingSyncTheorems.ZeroOverrideIsRecomputed | internal/database/migrate_price_tier_selling_sync.go:315-326 | A row whose override rounds to zero and moves on the second run |
| SellingSyncTheorems.FreeInputCacheMoves | internal/database/migrate_price_tier_selling_sync.go:365-373 | A row whose cache price moves on the second run because its tier has free input |
| SellingSyncTheorems.TinyOverrideMoves | internal/database/migrate_price_tier_selling_sync.go:355-373 | A row with positive input prices whose cache price moves on the second run because an override it came with rounds to zero |
| SellingSyncTheorems.StoredForm | internal/database/migrate_price_tier_selling_sync.go:43-75 | What is written is the filled cost tiers changed tier by tier: the later sorts and normalisations change nothing |
| SellingSyncTheorems.SyncedPriceIs | internal/database/migrate_price_tier_selling_sync.go:86-97 | Each of the three top-level prices by itself: one that was not positive becomes the first stored selling tier's of its kind, with its per-token price truncated from it; a positive one stays, with its own |
| SellingSyncTheorems.SyncedCurrencies | internal/database/migrate_price_tier_selling_sync.go:53-99 | A missing currency is filled in from the item or with CREDIT, that of the cost tiers with CNY; unit and source are copied |
| SellingSyncTheorems.FilledCacheProportion | internal/database/migrate_price_tier_selling_sync.go:238-255 | A filled-in cache price is to the tier's input price as the item's cache price is to its cost, up to rounding |
| SellingSyncTheorems.FilledCacheIs | internal/database/migrate_price_tier_selling_sync.go:238-258 | When a cache price is filled in and when not, and with what if there is nothing to scale it by |
| SellingSyncTheorems.TiersSellAtTheMarkup | internal/database/migrate_price_tier_selling_sync.go:313-363 | A tier without overrides sells at the item's own markup kind by kind, one with them at those, up to rounding |
| SellingSyncTheorems.SoldPriceIs | internal/database/migrate_price_tier_selling_sync.go:355-363 | A kind of price is sold at its positive override, else at the ratio, for nothing if it costs nothing |
| SellingSyncTheorems.SellingCacheProportion | internal/database/migrate_price_tier_selling_sync.go:365-373 | Sold cache prices are marked up exactly like the input price, up to rounding |
| SellingSyncTheorems.SoldCacheIs | internal/database/migrate_price_tier_selling_sync.go:365-373 | No cache price sells as none; without an input price it sells at the input ratio |
| SellingSyncTheorems.SoldPricesAreRounded | internal/database/migrate_price_tier_selling_sync.go:330-373 | Every price of a sold tier has six decimals, and its overrides say what it sells at |
| SellingSyncTheorems.SellingSelectsTheCostTier | internal/database/migrate_price_tier_selling_sync.go:330-353 | For any tiers and token counts a request is sold at the tier it is bought at |
| SellingSyncTheorems.LegacySellsAsDecoded | internal/database/migrate_price_tier_selling_sync.go:183-229 | For every list in the old format, explicit minimums and bounded last tiers included, a request is sold at the tier it decodes to |
| SellingSyncTheorems.LegacySellsAtFirstFit | internal/database/migrate_price_tier_selling_sync.go:183-229 | Where the maxima do not fall that is the first tier whose maximum is not exceeded |
| PriceAccuracy.RaiseTierOverrides | internal/database/migrate_model_price_accuracy.go:132-152 | In place: overrides below the floor are raised; tells whether any was |
| PriceAccuracy.BuildOfficialSellingTiers | internal/database/migrate_model_price_accuracy.go:177-198 | A fresh, sorted slice priced at the overrides, cache prices scaled with the input price |
| PriceAccuracy.OfficialSellingTiers | internal/database/migrate_model_price_accuracy.go:125-164 | Tiers are rewritten exactly when some override is raised |
| PriceAccuracy.PricingRow.RaisePrices | internal/database/migrate_model_price_accuracy.go:48-67 | The row's three prices, per-token prices and currency, and exactly when it counts as changed |
| PriceAccuracy.AccuracyMigration.RaiseItem | internal/database/migrate_model_price_accuracy.go:38-92 | One item: skipped without costs, written only when changed, no other row |
| PriceAccuracyTheorems.ShouldRaiseIff | internal/database/migrate_model_price_accuracy.go:100-113 | A price is raised exactly when there is an official price, the price is below it, and less than 15% of the price is left over the discounted official price |
| PriceAccuracyTheorems.RaisingLowersIff | internal/database/migrate_model_price_accuracy.go:100-113 | For all prices: raising lowers one if and only if it lies between the official price and what that rounds down to and misses the floor; by at most half a millionth |
| PriceAccuracyTheorems.DiscountInRange | internal/database/migrate_model_price_accuracy.go:115-123 | The effective discount always lies in (0, 1] |
| PriceAccuracyTheorems.AccuratePriceIs | internal/database/migrate_model_price_accuracy.go:48-63 | Each top-level price by itself, from the item's own fields: raised, with its rounded per-token price, if and only if it is too low at the item's discount if in (0, 1], else the supplier's if that is, else 1; otherwise unchanged |
| PriceAccuracyTheorems.RaisedOverrideIs | internal/database/migrate_model_price_accuracy.go:132-175 | A tier override is raised under the same discount and condition |
| PriceAccuracyTheorems.AccurateCurrencies | internal/database/migrate_model_price_accuracy.go:42-164 | No row, and no rewritten tiers, are left without a currency; unit and source are copied |
| PriceAccuracyTheorems.AccuratePricesMeetFloor | internal/database/migrate_model_price_accuracy.go:49-63 | Afterwards every top-level price is at least the official price or leaves 15% margin over the discounted one |
| PriceAccuracyTheorems.AccurateNeverLowers | internal/database/migrate_model_price_accuracy.go:49-63 | No six-decimal top-level price is lowered |
| PriceAccuracyTheorems.SeventhDecimalIsLowered | internal/database/migrate_model_price_accuracy.go:125-198 | A stored tier with a seventh decimal whose price falls below its override and below the floor |
| PriceAccuracyTheorems.AccurateTwice | internal/database/migrate_model_price_accuracy.go:38-92 | The step is a fixpoint of itself for every row |
| PriceAccuracyTheorems.RewrittenTiersMeetFloor | internal/database/migrate_model_price_accuracy.go:132-163 | Whenever tiers are rewritten, every six-decimal price of every tier meets the floor |
| PriceAccuracyTheorems.RewrittenTiersMeetFloorIff | internal/database/migrate_model_price_accuracy.go:125-198 | For every row and any number of decimals: rewritten tiers meet the floor if and only if each price in its closed form does |
| PriceAccuracyTheorems.OfficialCacheProportion | internal/database/migrate_model_price_accuracy.go:190-194 | Rewritten cache prices are marked up exactly like the input price, up to rounding |
| PriceAccuracyTheorems.RoundedOfficialMeetsFloorIff | internal/database/migrate_model_price_accuracy.go:100-195 | A price below the floor is rewritten to one that meets it unless the official price rounds down to a positive one that leaves too little |
| PriceAccuracyTheorems.RewrittenTiersSelectAlike | internal/database/migrate_model_price_accuracy.go:153-197 | The rewritten tiers select as the cost tiers do, for all token counts |
| PriceAccuracyTheorems.UnpricedTiersAreLeft | internal/database/migrate_model_price_accuracy.go:200-213 | Tiers of the old format decode without prices and are never rewritten |
| PriceBootstrap.RunPriceMigrations | internal/bootstrap/bootstrap.go:177-184 | The three steps in order over all rows |
| PriceBootstrap.AccuracyAfterSyncOnlyRaisesIff | internal/bootstrap/bootstrap.go:177-178 | Directly after a sync the accuracy step lowers a selling tier price if and only if its cost price is negative and has no positive override |
| PriceBootstrap.AccuracyAloneLowers | internal/database/migrate_model_price_accuracy.go:125-164 | A row whose tier on sale the step lowers from 5 to 1 |
| PriceBootstrap.AccuracyLowersIff | internal/database/migrate_model_price_accuracy.go:132-195 | Whatever was on sale, the step lowers a tier exactly when one of its prices was above the official price (override below the floor), the override, or the cost price (no override) |
| PriceBootstrap.LastRatiosAre | internal/bootstrap/bootstrap.go:177-184 | The last sync's ratios in the same closed form, with the price raised to the official one where it missed the floor |
| PriceBootstrap.LastSyncUndoesTheRaiseIff | internal/bootstrap/bootstrap.go:177-184 | The last sync writes the first sync's tiers again if and only if no tier depends on a ratio that changed |
| PriceBootstrap.TierFloorAfterBootstrapIff | internal/bootstrap/bootstrap.go:177-184 | At the end the tiers meet the floor if and only if the accuracy step had nothing to raise |
| PriceBootstrap.FinalTiersMeetFloorIff | internal/bootstrap/bootstrap.go:177-184 | For every row with tiers: the tiers stored at the end meet the floor if and only if the overrides, or the prices at the two syncs' ratios, do |
| PriceBootstrap.TopLevelFloorAfterBootstrap | internal/bootstrap/bootstrap.go:177-184 | The six-decimal top-level prices keep the floor through the last sync, for items with tiers or without |
| PriceBootstrap.BootstrapLosesTheTierFloor | internal/bootstrap/bootstrap.go:177-184 | A row whose raised tier is back below the floor at the end |
| Idempotency.RedisKey.Idempotent | internal/middleware/idempotent.go:43-66 | One request alone takes the steps of a run; it is handled exactly when SETNX succeeds |
| Idempotency.AtMostOneHandler | internal/middleware/idempotent.go:43-66 | In every interleaving at most one handler is in flight, and a request is admitted exactly when the history says the key is free |
| Idempotency.NoRepeatWithinADay | internal/middleware/idempotent.go:60-61 | No handler starts within 24 h after a success whose SET landed |
| Idempotency.StartsAreADayApart | internal/middleware/idempotent.go:43-66 | Even with panics and lost writes, two starts are 24 h apart unless a failure deleted the key in between |
| Idempotency.FailureFreesTheKey | internal/middleware/idempotent.go:62-65 | After a failure whose DEL landed the very next request is handled |
| Idempotency.LostWriteShortensTheDay | internal/middleware/idempotent.go:60-61 | With a lost SET the next handler may start, after a handler of any duration d, d too early |
| Idempotency.CanRepeatIff | internal/middleware/idempotent.go:43-66 | For handlers shorter than a day: a start within 24 h of a success is possible if and only if the SET of that success was lost and its handler took any time |
| Idempotency.NeverTwoAtOnceIff | internal/middleware/idempotent.go:43-66 | No two handlers are ever in flight if and only if none may run as long as the key lives |
| KeyLookup.Lookup.Find | internal/middleware/openapi_auth.go:66-92 | One lookup: reads the database exactly when both looks miss, fills the cache, gives the mutex back on every path |
| KeyLookup.OneReadPerCacheLifetime | internal/middleware/openapi_auth.go:66-92 | Over every run, apart from fruitless reads, database reads exceed the ended cache lifetimes by at most one |
| KeyLookup.NoReadWhileCached | internal/middleware/openapi_auth.go:73-76 | While the entry is cached no request can read the database |
| KeyLookup.NoReadForFiveMinutes | internal/middleware/openapi_auth.go:66-92 | Once an entry is written the database is not read for 300 s in any run without eviction; then the entry is gone |
| KeyLookup.MutexReleasedExactlyOnce | internal/middleware/openapi_auth.go:146-151 | Every request that took the mutex releases it exactly once, and at most one is inside |
| AnomalyGuard.Redis.Guard | internal/middleware/apikey_anomaly.go:120-160 | One request: blocked requests never reach the handler; the new counter and block |
| AnomalyGuard.BlocksNeedErrors | internal/middleware/apikey_anomaly.go:146-160 | In every interleaving a block needs Threshold failures since the counter last vanished, and k blocks at least Threshold - 1 + k failures |
| AnomalyGuard.ConcurrentFailuresAttainBound | internal/middleware/apikey_anomaly.go:146-160 | That bound is reached for every threshold and every k |
| AnomalyGuard.BlocksArePaidIff | internal/middleware/apikey_anomaly.go:120-160 | With at most m requests in flight k blocks always cost k * Threshold failures if and only if m <= 1 or Threshold <= 1 |
| AnomalyGuard.ServeIsARun | internal/middleware/apikey_anomaly.go:120-160 | What one request alone does to counter and block is a run of the interleaved steps |
| AnomalyGuard.SerialBlocksCostThresholdEach | internal/middleware/apikey_anomaly.go:120-160 | One request at a time the counter rests below Threshold and k blocks need at least k * Threshold failures |
| AnomalyGuard.BlockNeedsBurst | internal/middleware/apikey_anomaly.go:146-160 | A block means that Threshold requests have failed less than one window ago |
| AnomalyGuard.WindowFromFirstFailure | internal/middleware/apikey_anomaly.go:146-154 | The first failure opens a window: the counter is there until it ends, and then gone |
| AnomalyGuard.TallyIsExact | internal/middleware/apikey_anomaly.go:120-160 | The tally counts exactly the failures that reached the counter and the blocks that were written |
| CataloguePrune.Database.PruneGroups | internal/database/migrate_prune_suppliers.go:121-147 | The loop over groups, in any order: deletes, rewrites and collects the surviving groups |
| CataloguePrune.Database.PruneRules | internal/database/migrate_prune_suppliers.go:149-175 | The loop over backup rules, in any order |
| CataloguePrune.Database.DeleteSuppliers | internal/database/migrate_prune_suppliers.go:50-99 | The deletions by model, by channel and by supplier, table by table |
| CataloguePrune.Database.RunPruneUnusedSuppliers | internal/database/migrate_prune_suppliers.go:30-109 | The whole migration; skipping the deletions when nothing is stale makes no difference |
| CataloguePruneTheorems.ClosedIff | internal/database/migrate_prune_suppliers.go:40-108 | Afterwards every reference to a supplier, model or channel is to a live row if and only if that was so before |
| CataloguePruneTheorems.SixCodesStay | internal/database/migrate_prune_suppliers.go:17-28 | Exactly the suppliers with one of the six codes stay |
| CataloguePruneTheorems.ExactlyStaleSuppliersGo | internal/database/migrate_prune_suppliers.go:40-99 | For every catalogue, dangling references included: exactly the suppliers without an active code, and their categories, models and channels, go; the rest is unchanged |
| CataloguePruneTheorems.ExactlyStaleModelRowsGo | internal/database/migrate_prune_suppliers.go:63-80 | Likewise exactly the price, label and discount rows of those models |
| CataloguePruneTheorems.ExactlyStaleChannelRowsGo | internal/database/migrate_prune_suppliers.go:82-92 | Likewise exactly the model and tag rows of those channels |
| CataloguePruneTheorems.SuppliersLeft | internal/database/migrate_prune_suppliers.go:17-99 | In a closed catalogue what is left is, unchanged, what belongs to a supplier with an active code |
| CataloguePruneTheorems.RowsLeft | internal/database/migrate_prune_suppliers.go:63-92 | And, for the rows of models and channels, to one of their models or channels |
| CataloguePruneTheorems.CategoriesLiveIff | internal/database/migrate_prune_suppliers.go:94-96 | Every model left has its category if and only if the category of each kept model is live and belongs to a kept supplier |
| CataloguePruneTheorems.CategoriesStillAgree | internal/database/migrate_prune_suppliers.go:94-96 | It does when category and model have the same supplier, and that agreement lasts |
| CataloguePruneTheorems.ForeignCategoryIsLost | internal/database/migrate_prune_suppliers.go:94-96 | A closed catalogue in which a kept model loses its category |
| CataloguePruneTheorems.FilterIsFilter | internal/database/migrate_prune_suppliers.go:128-133 | The filter reads off, in order, exactly the places whose id is kept |
| CataloguePruneTheorems.GroupSurvivesIff | internal/database/migrate_prune_suppliers.go:121-147 | A group survives exactly when it listed a live channel, and then lists the non-empty order-preserving filter of its channels |
| CataloguePruneTheorems.RuleSurvivesIff | internal/database/migrate_prune_suppliers.go:149-175 | A rule survives exactly when its primary group does, with the order-preserving filter of its backups |
| CataloguePruneTheorems.GroupsAndRulesAreClosed | internal/database/migrate_prune_suppliers.go:111-179 | Surviving groups list only live channels, surviving rules only surviving groups, whatever was there before |
| CataloguePruneTheorems.SecondRunChangesNothing | internal/database/migrate_prune_suppliers.go:40-179 | A second run changes nothing |

## Left out

- PriceBootstrap.TierFloorAfterBootstrapIff: for rows whose tiers have input prices and six decimals; the condition for all rows with tiers is `FinalTiersMeetFloorIff`.
- LegacyTiers.SelectsFirstFit: for lists without explicit minimums, whose maxima do not fall and whose last tier has none; what any list covers is `AnyListCoversOnceIff`.
- FallbackRaces.OvershootBound: the key is taken not to expire; expiry is covered for atomic calls by `ExpiryIsInvisibleIff`.
- Withdrawals, commissions, bonuses and expiring quotas, which write other columns of a balance row, and refunds, which save one they have locked: they leave the frozen columns as they are.
- SchedulerLock.SaveAfterReleaseLosesLedger: the callback asks for its row lock by a setting that GORM 2 does not know, so no lock is assumed.
- SchedulerLock.SchedulerConservesLedger: a commit that lands exactly at the deadline counts as not made.
- The balances and quotas that recharges, deductions and adjustments change, the balance check before a freeze or a deduction, the consumption a settlement books, and the Redis lock per user, which only serialises what the transactions serialise anyway.
- Fail-open branches when Redis errors or is absent, and dynamic reloading of limits: they admit by design.
- Response headers other than the remaining quota, audit events, logging, the JSON text of price columns, SQL and GORM behaviour, timestamps of prices.
- The rounding of `decimal(16,4)` price columns by the database, floating-point error of float64 and overflow of int64 conversions: prices are real numbers that keep what the code computes.
- Failed database writes inside the price migrations other than the interruption between the two writes of one item.
- The choice between dimension values, token ranges and the largest tier that follows `SelectTier`.
- Writers of the API-key cache in other processes, and a panic inside the database read of a lookup.
- The TTL command of the anomaly guard is taken to see a block exactly until it expires.
- Member services, discovery, route refresh and all seed data.
