# Verified models of the posting platform's stateful cores

This project models, in Dafny, the parts of the repository whose correctness
depends on order, time and bookkeeping, and proves what they promise.

| area | modules | source |
|---|---|---|
| idempotency slots under concurrency | `Idempotency`, `IdempotencyProtocol` | `apps/api/middleware.py`, `apps/api/tasks.py` |
| analytics sync: cadence, accounting, fairness | `Cadence`, `AccountSync`, `AccountSyncProperties`, `Fairness` | `apps/analytics/tasks.py` |
| daily series from cumulative snapshots | `PostSeries`, `AnalyticsBundle` | `apps/analytics/services.py` |
| the API-key row cache | `KeyCache`, `KeySignals`, `TokenFormat` | `apps/api_keys/services.py`, `apps/api_keys/signals.py` |
| the YouTube comment walk | `CommentWalk` | `providers/youtube.py` |
| LinkedIn escaping and its counter | `Commentary` | `providers/linkedin.py`, `providers/__init__.py` |
| the rolling posting cap and its message | `PostingCap`, `QuotaMessage` | `apps/api/limits.py`, `apps/api/api.py` |
| offset cursors | `OffsetCursor` | `apps/api/pagination.py` |
| rich-text byte offsets | `Utf8`, `Facets` | `providers/bluesky.py` |
| the account walk of Meta | `MetaAccounts` | `providers/meta_accounts.py` |

`Wrappers`, `Decimal`, `Sets`, `Bytes` and `ApiKeys` are shared helpers. `dafny verify dfyconfig.toml`
checks the whole project; the options
`--resource-limit 2000000 --warn-contradictory-assumptions` suit it.

## How things are modelled

* **Code that updates state** is a class or a loop: the tables, the key
  registry, the two providers, the scans. Each method is proved against a
  function or a statement of its whole effect, and the theorems are about those.
* **Concurrency** is a transition system: one step per SQL statement or cache
  call, any number of workers, any interleaving, results about every run.
* **Time** is an integer number of microseconds, the resolution of the
  source's timestamps. `MetaAccounts` measures its monotonic clock in real
  seconds, and metric values are reals.
* **The outside world** (servers, clocks, the order in which answers arrive)
  is an arbitrary function or step argument, restricted only where a theorem
  says so.

Assumptions that are not in the code are named in the theorems: no worker
takes more than 24 hours from claim to finish and no final status is 0
(`IdempotencyProtocol`); threads come newest first (`EarlyExitLosesNothing`);
each admission follows its check at once (`PostingCap`); no request outlasts
its timeout (`KeepsTimeouts`).

## Where the code falls short of its documentation

The model follows the code in each case.

* The receivers promise that an edit shows on the next request
  (`apps/api_keys/signals.py:10-12`). Without Redis the cache is one per worker
  (`config/settings/base.py:151-155`), and a receiver reaches only its own:
  `RemovalLeavesOtherWorkersBehind`, `OtherWorkerAcceptsTheRevokedKey`. The exact
  conditions are `OthersStayCoherentIff` and, for interleaved calls,
  `OldAcceptPossibleIff`. A cache that all workers share is the case of one worker.
* `update_api_key` says the new scope applies on the very next request
  (`apps/api_keys/services.py:237-239`). Its signals fire inside the
  transaction (lines 281-285), so even in the same worker a verification in
  between can cache the old scope again: `UpdateLeavesOldScopeBehind`.
* A client that waits exactly `Retry-After` is refused again unless enough rows
  were within a second of leaving (`apps/api/limits.py:152-154`): seconds are
  truncated and the window includes its edge. One second more suffices when the
  account stands exactly at its limit. Over the limit, where unchecked writes or
  a lowered override can take it, it need not:
  `OverTheLimitRetryAfterFallsShort`; `WaitSufficesIff` is the exact condition.
* `revoke_api_key` promises 30 seconds at worst (`apps/api_keys/services.py:289-294`).
  A fill that stalls across the revocation adds its own delay
  (`RevokedKeyIsAcceptedBeyondTtl`), and only such a fill can break the promise:
  `BeyondTtlIff`.
* The SQL window of the 60-day platform drops posts that the ladder calls due
  up to 90 days (`apps/analytics/tasks.py:127`).
* Two posts of one chunk with the same platform id: only the later one is
  recorded, the other is neither hit nor miss and stays unstamped
  (`apps/analytics/tasks.py:934`): `TwinIsLeftAlone`. So it can be passed over
  for good at the head of the line (`TwinStarves`); such posts and no others
  starve (`NoStarvationIff`).
* `finalize` and `release` address the slot, not the claim. A worker slower
  than the 24-hour sweep finalizes another worker's row
  (`apps/api/middleware.py:206-209`); `TakeoverPossibleIffLate` gives the limit.
* A due post can stop being due without having been fetched, when its age
  passes a rung of the ladder: `RungTakesDuenessAway`, and `StillDueIff` for
  exactly when.
* Bluesky facets of different patterns overlap when their matches do, for
  instance a hashtag inside a link: `HashtagInLinkOverlaps`.

One fact about the parser alone: it takes a value for a number when `isdigit()`
says so (`apps/api/api.py:299`) and raises where `int()` cannot read it, as for a
superscript (`SuperscriptTierRaises`). No caller builds such a tier.

## Model

| member | source | states |
|---|---|---|
| Idempotency.IdempotencyTable.Claim | apps/api/middleware.py:136-188 | A request without a key passes through and touches nothing; on a free slot it stores a pending placeholder with its fingerprint; on a taken slot it changes nothing and answers reused, in flight or replay, exactly by fingerprint and stored status |
| Idempotency.IdempotencyTable.Finalize | apps/api/middleware.py:191-209 | Status and body of the slot's row are replaced; the fingerprint, the row's age and every other row stay; a missing row is not created |
| Idempotency.IdempotencyTable.Release | apps/api/middleware.py:212-230 | Deletes exactly the slot's row, and only while it is pending |
| Idempotency.IdempotencyTable.Sweep | apps/api/tasks.py:33-55 | Keeps exactly the rows at most 24 hours old, whatever their status |
| IdempotencyProtocol.StepKeepsInv | apps/api/middleware.py:136-230 | Every interleaved step (insert, refetch, finalize with or without its acknowledgement, fail, release, crash, sweep, tick) keeps: each worker at work owns its row, no two share a slot, row ids are distinct, the history justifies every event |
| IdempotencyProtocol.RunKeepsInv | apps/api/middleware.py:136-230 | The same over every run that meets the timing and status assumptions |
| IdempotencyProtocol.AtMostOneHolder | apps/api/middleware.py:94-109 | In every such run at most one worker per (key owner, key) is between claim and finish |
| IdempotencyProtocol.AtMostOneFinal | apps/api/middleware.py:191-209 | A row is finalized at most once, and only by the worker whose insert created it |
| IdempotencyProtocol.ReleaseDropsOwnPendingRow | apps/api/middleware.py:212-230 | A release deletes no row but its own worker's, and never a finalized one, even after a finalize whose acknowledgement was lost |
| IdempotencyProtocol.ReplayIsTheFinalResponse | apps/api/middleware.py:183-188 | Every replay returns exactly the status and body of the row's one finalize, to a caller with the fingerprint of the row's one claim |
| IdempotencyProtocol.RefetchAnswersIff | apps/api/middleware.py:181-188 | A refetch replays the stored status and body if and only if the slot is stored with the caller's fingerprint and a status other than pending; otherwise it answers nothing and changes nothing |
| IdempotencyProtocol.FinalAnswersEveryRetry | apps/api/middleware.py:181-188 | After a worker's finalize, through every run and within 24 hours of the claim, each refetch is answered: with that status and body under the claimant's fingerprint, with none under another |
| IdempotencyProtocol.InsertTakesFreeSlots | apps/api/middleware.py:163-180 | A request takes a free slot with a fresh pending row of its own, and changes no row when the slot is taken |
| IdempotencyProtocol.FinalizeStores | apps/api/middleware.py:191-209 | A finalize stores the response in its worker's own row and keeps the rest of it; the worker owes the release exactly when the acknowledgement is lost |
| IdempotencyProtocol.ReleaseReopensSlot | apps/api/middleware.py:212-230 | After a failure the release frees the slot for the next claim if and only if the row is still pending |
| IdempotencyProtocol.StepKeepsFinalRow | apps/api/tasks.py:33-55 | No step changes or removes a finalized row that is within its lifetime |
| IdempotencyProtocol.FinalResponseIsDurable | apps/api/tasks.py:20-26 | A stored response stays, unchanged, through every run until its row is more than 24 hours old |
| IdempotencyProtocol.StoredFingerprintIsTheClaimants | apps/api/middleware.py:191-209 | The stored fingerprint is always the one the row was claimed with |
| IdempotencyProtocol.StepKeepsAbandoned | apps/api/middleware.py:147-151 | No step revives or removes the placeholder of a crashed worker before its lifetime ends |
| IdempotencyProtocol.AbandonedClaimBlocks | apps/api/middleware.py:147-151 | Until then every retry of the crashed request is answered in flight |
| IdempotencyProtocol.SweepReopensAbandonedClaim | apps/api/tasks.py:42-52 | After a sweep the next claim gets the slot if and only if the placeholder is older than 24 hours |
| IdempotencyProtocol.TakeoverPossibleIffLate | apps/api/middleware.py:191-209 | The exact limit of the exclusion: after a sweep another worker can claim the slot a worker is still working on if and only if that worker is past 24 hours |
| IdempotencyProtocol.LateWorkerFinalizesAnothersRow | apps/api/middleware.py:206-209 | Without the timing assumption a run exists in which two workers hold one slot and the late one finalizes the other's row |
| Cadence.LadderMeaning | apps/analytics/tasks.py:44-64 | The interval is undefined exactly from 90 days on, lies between an hour and a week, and never shrinks with age |
| Cadence.LadderByRung | apps/analytics/tasks.py:44-64 | The interval by age: one hour, six hours, a day, a week, none |
| Cadence.ClampNeverShows | apps/analytics/tasks.py:79-114 | Clamping the doublings at 16 never changes the backoff, which is 2^(n-1) hours up to the eighth failure and a week from the ninth |
| Cadence.BackoffGrows | apps/analytics/tasks.py:100-114 | The backoff never shrinks as the streak grows |
| Cadence.DueBounds | apps/analytics/tasks.py:1083-1134 | Inside the horizon: never seen is due, seen within the hour is not, a week ago is; otherwise the ladder alone decides unless a stamped streak stretches it, with the snapshot standing in for a missing stamp |
| Cadence.StreakWaitsExactly | apps/analytics/tasks.py:1111-1122 | A stamped post with a streak is due exactly when both its rung's interval and its backoff, doubling from an hour or a week at most, have passed since the stamp |
| Cadence.NeverDue | apps/analytics/tasks.py:1094-1106 | An unpublished post, and one 90 days old, is never due |
| Cadence.StillDueIff | apps/analytics/tasks.py:1083-1134 | A due post is still due later, unseen meanwhile, if and only if the rung of its new age has an interval and that much time has passed since it was last seen, or it never was |
| Cadence.DueUntilNextRung | apps/analytics/tasks.py:1111-1134 | In particular it stays due until it is seen again or its age passes a rung |
| Cadence.RungTakesDuenessAway | apps/analytics/tasks.py:1111-1122 | Passing a rung can make a due post not due, shown by a concrete post |
| Cadence.PrefilterIsExact | apps/analytics/tasks.py:1155-1180 | A due post passes the SQL filter if and only if it is published, has a platform id and is inside the platform's window; on 90-day platforms the filter drops no due post |
| Cadence.SixtyDayWindowDropsDuePosts | apps/analytics/tasks.py:118-137 | On the 60-day platform the window drops a post the ladder still calls due, shown by a concrete post |
| Cadence.StampsSpreadOut | apps/analytics/tasks.py:1111-1122 | Attempt n+1 of an always-failing post is stamped no sooner after its first than the sum of n backoffs, in every sequence of passes |
| Cadence.ChecksAreWithinTheHorizon | apps/analytics/tasks.py:1111-1122 | Each stamp leaves room for its backoff inside the 90 days if a further attempt follows |
| Cadence.BackoffSumClosedForm | apps/analytics/tasks.py:100-114 | The sum of n backoffs in closed form: doubling to 255 hours, then 168 hours each |
| Cadence.StormBound | apps/analytics/tasks.py:1083-1122 | A post whose every fetch fails is attempted at most 20 times in its life, whatever the passes |
| Cadence.StormBoundIsTight | apps/analytics/tasks.py:1083-1122 | Twenty attempts do happen for some sequence of passes |
| AccountSync.PostTable.RecordSuccess | apps/analytics/tasks.py:396-409 | Stamps the given rows and clears their streaks; the others stay |
| AccountSync.PostTable.RecordFailure | apps/analytics/tasks.py:412-428 | Stamps the given rows and extends their streaks by one; the others stay |
| AccountSync.PostTable.StoreAnswer | apps/analytics/tasks.py:959-980 | After one answered chunk every post asked for is stamped once: a hit has its snapshot and streak zero, a miss a streak longer by one and its old snapshot; the hits are counted |
| AccountSync.PostTable.SyncInBatches | apps/analytics/tasks.py:923-994 | The loop over slices of the list computes the chunk-by-chunk run, through deadline, early stop, broken chunk, refusal and answer |
| AccountSync.PostTable.SyncIndividually | apps/analytics/tasks.py:997-1053 | The per-post loop computes the post-by-post run |
| AccountSync.PostTable.SyncAccountPosts | apps/analytics/tasks.py:885-921 | Unusable posts are dropped first, an empty list costs nothing, and the batch size chooses the loop |
| AccountSync.SurvivorsAreDistinct | apps/analytics/tasks.py:934 | What the dict keyed by platform id keeps of a chunk are posts of that chunk with distinct keys and ids |
| AccountSync.DictKeepsTheLast | apps/analytics/tasks.py:934 | The dict keyed by platform id has each id once, and holds exactly the posts behind which their chunk does not repeat their id |
| AccountSync.RequestListsFirstPlaces | apps/analytics/tasks.py:934-937 | The request lists each id once, where it first stands in the chunk |
| AccountSync.SurvivesIffNotShadowed | apps/analytics/tasks.py:934 | A post is kept if and only if no later post of its chunk has its platform id |
| AccountSync.AllSurviveIffDistinctIds | apps/analytics/tasks.py:934 | The whole chunk is kept if and only if its platform ids are distinct |
| AccountSync.UsableIffListed | apps/analytics/tasks.py:823-836 | The usable posts are exactly the listed ones that are not Meta posts with a UUID for an id |
| AccountSyncProperties.TallyOfARun | apps/analytics/tasks.py:923-994 | However a pass ends: calls are the chunks answered or broken, synced is the number of ids found, synced plus failed the number of posts kept, and a refusal is reported exactly when the next call was refused |
| AccountSyncProperties.ChunkCount | apps/analytics/tasks.py:924 | The number of chunks is the length over the batch size, rounded up |
| AccountSyncProperties.UnhinderedPass | apps/analytics/tasks.py:885-994 | Without deadline, early stop or refusal: calls are the ceiling of length over batch size, and synced plus failed is the number of posts if and only if no chunk repeats a platform id |
| AccountSyncProperties.BatchedPassEnds | apps/analytics/tasks.py:924-944 | Every call of the batched loop was made inside the deadline and answered or broken; the loop ends before its last chunk only at a deadline reached, an endpoint not implemented, or a refusal |
| AccountSyncProperties.PerPostPassEnds | apps/analytics/tasks.py:1014-1027 | The same of the per-post loop |
| AccountSyncProperties.FateOfAPost | apps/analytics/tasks.py:932-983 | However the pass ended, a post is recorded once, by its own chunk's answer and moment, if its chunk was reached and no later post of the chunk has its id; otherwise its row is untouched |
| AccountSyncProperties.RefusalTouchesNoLaterPost | apps/analytics/tasks.py:941-944 | A quota or token error at a chunk reaches the caller and leaves the posts of that chunk and of all later ones as they were |
| AccountSyncProperties.PassStampsAPrefix | apps/analytics/tasks.py:924-983 | A pass stamps a prefix of its list, each post at its chunk's moment, but for posts behind which their chunk repeats their id; those and the rest of the list it leaves alone |
| AccountSyncProperties.TwinIsLeftAlone | apps/analytics/tasks.py:934 | Two posts of one chunk with one platform id, on an answered call: the second is recorded, the first keeps its row, whatever it held, and is counted neither way |
| AccountSyncProperties.SinglesAreChunksOfOne | apps/analytics/tasks.py:997-1053 | The per-post loop is the batch loop with chunks of one post, for every provider behaviour |
| AccountSyncProperties.CoveredPassHitsAll | apps/analytics/tasks.py:945-983 | When every call's answer covers what was asked, each post is a hit with its own metrics, stamped by its own chunk's call, and nothing fails, over any number of chunks |
| AccountSyncProperties.BatchMatchesSingles | apps/analytics/tasks.py:885-1053 | When both endpoints answer truthfully for the ids they are asked, both loops leave the same rows and tallies, apart from the moment stamped, if no chunk repeats an id |
| AccountSyncProperties.BatchTallyMatchesIff | apps/analytics/tasks.py:923-994 | With a truthful batch endpoint nothing fails whatever ids repeat, and everything is counted as synced if and only if no chunk repeats an id |
| AccountSyncProperties.AnsweringOnlyWhatIsAskedSuffices | providers/youtube.py:732-761 | A batch endpoint that returns the ids asked for and no others is one of these |
| AccountSyncProperties.UnusablePostIsLeftAlone | apps/analytics/tasks.py:908-910 | A post with an unusable id costs no request and keeps its row |
| Fairness.PassClearsRivals | apps/analytics/tasks.py:1155-1180 | A pass that does not reach a due post stamps only due posts stamped no later than it, and the posts ahead of it shrink by exactly those |
| Fairness.WaitingUsesUpRivals | apps/analytics/tasks.py:1141-1152 | While a post waits, every stamp made is of another such rival, never the same one twice |
| Fairness.NoStarvation | apps/analytics/tasks.py:1141-1152 | With w bounding its rivals, a due post is reached within w's size / m passes of at least m stamps |
| Fairness.AnySetCanBeOrdered | apps/analytics/tasks.py:1141-1152 | Every set of due posts has an order with the longest-neglected first, whatever ties there are |
| Fairness.WaitIsBoundedByThoseAhead | apps/analytics/tasks.py:1141-1180 | Whatever becomes due meanwhile, the posts stamped no later at the start bound the wait |
| Fairness.WaitIsBoundedByFirstRivals | apps/analytics/tasks.py:1141-1180 | When none of those becomes due meanwhile, the r due ones of the first pass bound it |
| Fairness.PassUpdatesOne | apps/analytics/tasks.py:924-983 | In a sync a listed post is stamped if and only if its chunk is reached and does not repeat its id behind it; otherwise it stays as it was |
| Fairness.SyncWritesStampAndStreak | apps/analytics/tasks.py:396-428 | A sync writes a post's stamp and streak and nothing else of it |
| Fairness.SyncIsAPass | apps/analytics/tasks.py:1253-1254 | The account's sync of its due list, unusable posts dropped, in SQL order, whatever ids repeat and however it ends, is such a pass: it stamps exactly the reached posts whose chunk does not repeat their id behind them, and at least one post for every call |
| Fairness.ReachedAreStampedIff | apps/analytics/tasks.py:924-983 | A sync stamps everything it reached if and only if no reached post has its id repeated behind it in its chunk |
| Fairness.DuePostIsReached | apps/analytics/tasks.py:1141-1180 | In any run of syncs that each get a call through, a post that stays due is reached within one more sync than there were posts stamped no later |
| Fairness.StampedIffNotRepeated | apps/analytics/tasks.py:934 | The sync that reaches a post stamps it if and only if its chunk does not repeat its id behind it |
| Fairness.NoStarvationIff | apps/analytics/tasks.py:1141-1180 | A post that stays due until stamped, and whose chunk always or never repeats its id behind it, is stamped within that many syncs if and only if it never does |
| Fairness.UniqueIdNeverStarves | apps/analytics/tasks.py:1141-1152 | A post with a platform id of its own is stamped within that many syncs, whatever ids the others repeat |
| Fairness.PerPostSyncIsAPass | apps/analytics/tasks.py:1253-1254 | The per-post loop stamps everything it reaches, whatever the platform ids are |
| Fairness.TwinStarves | apps/analytics/tasks.py:934 | A run that shows it: of two posts with one platform id the first is due and first in line at each of twelve weekly passes, every call is answered, and it is never stamped |
| PostSeries.SpreadFirst | apps/analytics/services.py:222-232 | Adds an equal share of the first value to each day from publication to snapshot that lies in the window, and nothing elsewhere |
| PostSeries.CreditFirst | apps/analytics/services.py:211-232 | A post's first row credits its snapshot day, the uniform spread, or, when it was published before the window, nothing at all |
| PostSeries.PostSummedSeries | apps/analytics/services.py:135-244 | The flat scan leaves exactly the credited days with their totals, the measured days, and the newest capture |
| PostSeries.PeakIsMaximum | apps/analytics/services.py:239-243 | The carried previous value is the maximum of the post's values so far |
| PostSeries.LatestCaptureIsMaximum | apps/analytics/services.py:209-210 | The reported capture is the newest among the rows, or none when none has one |
| PostSeries.FlatScanIsSumOverPosts | apps/analytics/services.py:203-243 | Each day's total of the one scan is the sum of the posts' independent series |
| PostSeries.EveryScanIsGrouped | apps/analytics/services.py:182-197 | Every row list is a concatenation of such per-post runs |
| PostSeries.RowBringsItsRise | apps/analytics/services.py:211-243 | A row brings the window its rise over the high-water mark; a first row all of its value, or nothing when the post predates the window |
| PostSeries.FirstRowCredits | apps/analytics/services.py:214-232 | Which days a first row credits, and with how much: none when published before the window, equal shares from publication to snapshot inside it, else the snapshot day alone |
| PostSeries.LaterRowCredits | apps/analytics/services.py:239-243 | A later row credits its own day, with its rise over the highest value before it, exactly when there is one |
| PostSeries.MeasuredIff | apps/analytics/services.py:237 | A day is measured if and only if some row that is not its post's first is on it |
| PostSeries.SpreadSum | apps/analytics/services.py:222-232 | The uniform spread loses nothing |
| PostSeries.PostConservation | apps/analytics/services.py:198-244 | One post's window total is its maximum less the first value if it was published before the window, so exactly its maximum if inside |
| PostSeries.Conservation | apps/analytics/services.py:198-244 | The daily totals of the window add up to that, summed over all posts |
| PostSeries.DipChangesNothing | apps/analytics/services.py:177-180 | Inserting a snapshot at or below the post's high-water mark changes no day's total |
| PostSeries.DipCreditsNothing | apps/analytics/services.py:177-180 | Nor does it change which days have a total |
| PostSeries.DipIsMeasured | apps/analytics/services.py:237 | It only adds its own day to the measured ones |
| AnalyticsBundle.ReadAccountRows | apps/analytics/services.py:272-292 | The account rows' tables hold each metric's stored values and days, and the newest capture per metric and overall |
| AnalyticsBundle.StoredIsTheLast | apps/analytics/services.py:278-292 | A metric's value of a day is its last row's for that day, and missing exactly without one |
| AnalyticsBundle.FoldMetric | apps/analytics/services.py:303-319 | The per-post series is used if and only if it was observed and the account has no rows for the metric or older ones; then its days overlay the account's and the others stay |
| AnalyticsBundle.UsesPostsIff | apps/analytics/services.py:303-314 | Posts stand in for a metric if and only if they may, something was observed, and the account has no row of it or one of their captures is later than all of its rows' |
| AnalyticsBundle.ObservedIff | apps/analytics/services.py:303-306 | Something was observed if and only if a post has a second row or a day of the window is credited |
| AnalyticsBundle.ShownCell | apps/analytics/services.py:316-322 | Each shown day holds the posts' total where they are used and credit it, else the account's last value, else zero; it is marked exactly when one of them, or a measured day of used posts, is there |
| AnalyticsBundle.ShownMetrics | apps/analytics/services.py:315-327 | The bundle names exactly the platform's metrics, and as estimated exactly those whose posts are used |
| AnalyticsBundle.AccountAnalyticsBundle | apps/analytics/services.py:247-328 | Every platform metric, and no other, is shown with a series and a mask of length 2*days holding the merged value and presence of each day; the estimated metrics and the newest capture are exact |
| AnalyticsBundle.AbsentDaysAreZero | apps/analytics/services.py:321-322 | A day not marked present has series value zero |
| AnalyticsBundle.FoldedCaptureCoversPosts | apps/analytics/services.py:311-319 | The posts of an observed fallback metric are never newer than the reported capture, even where account rows are shown |
| AnalyticsBundle.MaxCapturedIsNewest | apps/analytics/services.py:290-319 | The reported capture is the newest over all account rows and over the post rows of every fallback metric with observed days |
| AnalyticsBundle.DipKeepsValue | apps/analytics/services.py:308-322 | Such a snapshot moves no value of the bundle unless it decides whether the posts are used at all; where they are used it marks its own day present |
| KeyCache.StepKeepsInv | apps/api_keys/services.py:331-383 | Every interleaved step keeps each snapshot, in cache or in a reader's hand, a genuine pair of committed row and allowlist, no older than its bound |
| KeyCache.BoundedStaleness | apps/api_keys/services.py:331-403 | Every accepted call, in whichever worker, used a row and an allowlist that were committed; anything that superseded them was committed less than 30 s plus the filling reader's fetch-to-set gap before the call read its cache; when checked the snapshot was unrevoked and unexpired and held the presented hash, and its issuer was a member at the accept |
| KeyCache.UninterruptedCallAcceptedIff | apps/api_keys/services.py:331-383 | A call that nothing interrupts is accepted if and only if what it sees, its worker's entry while younger than 30 seconds or else the database, is unrevoked, unexpired, of the presented hash and issued by a member; and which entry it leaves or drops |
| KeyCache.OnlyActiveRowsAreCached | apps/api_keys/services.py:358-361 | In every reachable state what a worker caches is a committed row that was active when it was put there |
| KeyCache.WritesTakeEffect | apps/api_keys/services.py:303-319 | What the next call sees after a commit, an invalidation or a change of membership, with and without a cached entry |
| KeyCache.BeyondTtlIff | apps/api_keys/services.py:289-294 | The 30-second promise, per worker: some run still accepts an older row in a new call 30 s after a commit if and only if a reader of that worker is between its fetch and its cache write with a row that is still live by then; what is merely cached runs out in time |
| KeyCache.RevokedKeyIsAcceptedBeyondTtl | apps/api_keys/services.py:289-300 | The bound is reached to the microsecond: for every gap a call is accepted that much plus 30 s, less a microsecond, after the revocation was committed and invalidated |
| KeyCache.NoSourceNoOldAccept | apps/api_keys/services.py:303-319 | With no live older row in a worker's cache or on its way there, no later call of that worker is accepted on one, in any continuation |
| KeyCache.OldAcceptPossibleIff | apps/api_keys/services.py:303-319 | After a commit, some later call of a worker can be accepted on an older state if and only if a live older row is in that worker's cache or between its fetch and its cache write, whatever other workers invalidated |
| KeyCache.RevocationIsFinal | apps/api_keys/services.py:289-300 | After a committed revocation a worker accepts no later call, in any run, once its own cache holds no live older row and none of its readers is about to put one there |
| KeyCache.SharedRevocationIsFinal | apps/api_keys/services.py:289-300 | With one cache for all workers, committing and invalidating with no fill in flight is enough for all of them |
| KeyCache.OtherWorkerAcceptsTheRevokedKey | apps/api_keys/services.py:292-294 | With a cache per worker, a revocation committed and invalidated in one leaves another accepting the key |
| KeyCache.ReachableCallsAreNumbered | apps/api_keys/services.py:331-383 | Every reachable state meets the conditions of the results above |
| KeyCache.UpdateLeavesOldScopeBehind | apps/api_keys/services.py:237-239 | The promise of the new scope on the very next request fails: an update that invalidates before it commits can leave the old allowlist cached, and a call after the commit is accepted on it |
| KeySignals.KeyRegistry.Invalidate | apps/api_keys/services.py:303-319 | Deletes exactly the entry of the key's lookup from the cache of the worker it runs in |
| KeySignals.KeyRegistry.InvalidateAll | apps/api_keys/signals.py:60-68 | Deletes exactly the entries of the given keys from the cache of the worker it runs in |
| KeySignals.KeyRegistry.AddAccounts | apps/api_keys/signals.py:53-57 | Forward add: links added, that key's entry dropped; a coherent cache stays coherent |
| KeySignals.KeyRegistry.RemoveAccounts | apps/api_keys/signals.py:53-57 | Forward remove: links removed, that key's entry dropped; a coherent cache stays coherent |
| KeySignals.KeyRegistry.ClearAccounts | apps/api_keys/signals.py:53-57 | Forward clear: all links of the key removed, its entry dropped; a coherent cache stays coherent |
| KeySignals.KeyRegistry.AddKeys | apps/api_keys/signals.py:60-68 | Reverse add: entries of exactly the newly linked keys dropped; a coherent cache stays coherent |
| KeySignals.KeyRegistry.RemoveKeys | apps/api_keys/signals.py:60-68 | Reverse remove: entries of the keys named in the signal dropped; a coherent cache stays coherent |
| KeySignals.KeyRegistry.OnPreClear | apps/api_keys/signals.py:70-76 | Stashes exactly the keys linked before the clear, and disturbs no other account's stash |
| KeySignals.KeyRegistry.OnPostClear | apps/api_keys/signals.py:78-86 | Replays the stash and removes it |
| KeySignals.KeyRegistry.ClearKeys | apps/api_keys/signals.py:70-86 | Reverse clear: links gone, and the entries of all formerly linked keys dropped; a coherent cache stays coherent |
| KeySignals.KeyRegistry.SaveKey | apps/api_keys/signals.py:89-101 | A save drops the key's entry; a coherent cache stays coherent |
| KeySignals.KeyRegistry.Revoke | apps/api_keys/services.py:289-300 | Stamps the revocation once, leaves no entry in the revoking worker's cache in any case, and leaves every other worker's cache as it was |
| KeySignals.KeyRegistry.Verify | apps/api_keys/services.py:331-403 | In a worker with a coherent cache, accepts if and only if the database has a key of that lookup that is not revoked, not expired, has the presented hash and a member for issuer; returns the database's row and allowlist; keeps coherence |
| KeySignals.OpKeepsCoherent | apps/api_keys/signals.py:30-101 | Each operation from either side of the relation keeps every entry of the worker it runs in equal to the database |
| KeySignals.OpWrites | apps/api_keys/signals.py:30-101 | Exactly which pairs of the relation and which rows each operation leaves |
| KeySignals.OpDrops | apps/api_keys/signals.py:53-101 | Exactly which entries each operation drops, in its own worker only: those of the edited keys, and of a reverse add only the newly linked ones |
| KeySignals.OthersStayCoherentIff | apps/api_keys/signals.py:10-12 | Another worker's cache stays coherent if and only if it holds none of the keys the operation really changes |
| KeySignals.EveryRunIsCoherent | apps/api_keys/signals.py:30-101 | So in every sequential run each row a worker has cached agrees with the database on allowlist, permissions, expiry and revocation, unless another worker changed a key it had cached |
| KeySignals.OneCacheIsAlwaysCoherent | apps/api_keys/signals.py:30-101 | With one worker, or one cache for all, this holds without condition |
| KeySignals.RemovalLeavesOtherWorkersBehind | apps/api_keys/signals.py:10-12 | A run that breaks the next-request promise: one worker removes an account and another keeps offering it |
| KeySignals.QueryAfterClearFindsNobody | apps/api_keys/signals.py:45-51 | After a reverse clear the relation names no affected key |
| KeySignals.ClearWithoutStashCoherentIff | apps/api_keys/signals.py:70-86 | Without the pre-clear snapshot a reverse clear would leave its worker coherent if and only if no linked key was cached there |
| CommentWalk.YouTubeProvider.AllCommentReplies | providers/youtube.py:603-620 | Returns all reply pages in order, or stops at the refused request; the tally grows by the requests attempted |
| CommentWalk.YouTubeProvider.ReadThread | providers/youtube.py:518-577 | Emits the thread and its replies by the two separate since tests, completing truncated replies on first imports and deep sweeps only |
| CommentWalk.YouTubeProvider.ReadPage | providers/youtube.py:511-577 | Emits a page's threads in order and reports the oldest, or stops at the refused request |
| CommentWalk.YouTubeProvider.WalkPages | providers/youtube.py:497-599 | Emits exactly the pages up to the stop, hands back a token exactly when the cap stopped it, and spends exactly the requests of those pages |
| CommentWalk.YouTubeProvider.GetMessages | providers/youtube.py:430-601 | The tally grows by exactly the requests attempted on every exit; the call raises exactly when a request it needs is refused, and at that request |
| CommentWalk.YouTubeProvider.DeepSweep | apps/inbox/management/commands/backfill_inbox.py:65-88 | Feeding tokens back into capped deep calls collects exactly the messages of one uncapped walk, or stops at a refused request |
| CommentWalk.WalkGoesForward | providers/youtube.py:579-599 | A call reads at least one page and at most its cap, and its token is the next unread page |
| CommentWalk.WalkStopsWhere | providers/youtube.py:579-599 | The walk stops at the first page that is the server's last, or on a routine poll holds a thread more than two hours older than since, or is the last the cap of 5 or 50 allows; it hands back a token exactly when the cap alone stopped it |
| CommentWalk.CutShortThreadIsCompleted | providers/youtube.py:549-577 | On a first import or a deep sweep a thread that embeds fewer replies than its total emits every reply of every reply page at or after since, and none before it, for exactly one request and one more per further page |
| CommentWalk.OtherThreadsAreTakenAsTheyCome | providers/youtube.py:549-577 | Every other thread emits exactly its embedded replies at or after since, for no request |
| CommentWalk.PagesEmit | providers/youtube.py:511-577 | The walk's messages are exactly those of the pages it read |
| CommentWalk.ThreadsEmit | providers/youtube.py:518-577 | A page emits exactly what its threads do |
| CommentWalk.ResumedSweepIsWhole | providers/youtube.py:458-461 | Resumed deep calls from any page lose and repeat nothing |
| CommentWalk.CallIsBounded | providers/youtube.py:79-92 | A routine poll with a since spends at most six units; a call reads no more pages than its cap |
| CommentWalk.EarlyExitLosesNothing | providers/youtube.py:451-471 | A poll from the first page that hands back no token emits every thread at or after since, and every embedded reply at or after since on threads no older than since minus two hours, if threads come newest first |
| CommentWalk.ReplyBelowLookbackIsMissed | providers/youtube.py:73-79 | The two hours are exact: a fresh reply on a thread below them is missed by the poll and found by the deep sweep |
| Commentary.EscapeCommentary | providers/linkedin.py:76-92 | The sequential replace loop equals the one-pass per-character map, for every text |
| Commentary.OneMorePass | providers/linkedin.py:90-91 | A further replace pass adds one character to the escaped set and leaves earlier escapes alone |
| Commentary.EscapeDistributes | providers/linkedin.py:76-92 | Escaping distributes over concatenation |
| Commentary.EscapedIsSafe | providers/linkedin.py:76-86 | No reserved character remains unescaped, and one-pass unescaping gives the caption back |
| Commentary.EscapeIsInjective | providers/linkedin.py:76-86 | Different captions never publish as the same text |
| Commentary.SafeTextIsAtLeastAsLong | providers/linkedin.py:76-86 | No fully escaped text that reads as a caption is shorter than its escaping |
| Commentary.EscapedLength | providers/__init__.py:57-69 | Each escaped character costs exactly one more |
| Commentary.WireLengthIsPayloadLength | providers/__init__.py:50-69 | The composer's counter is the length of the published text on both LinkedIn platforms |
| Commentary.WireLengthElsewhere | providers/__init__.py:57-69 | On every other platform the counter is the plain length |
| PostingCap.StepKeepsCapped | apps/api/limits.py:99-139 | Checked admissions, unchecked writes, deletes and time keep every 24-hour window within the limit |
| PostingCap.PassesIff | apps/api/limits.py:99-139 | The check passes if and only if fewer than limit posts are in a consuming state and were updated in the last 24 hours, the edge included |
| PostingCap.LimitIs | apps/api/limits.py:36-84 | The limit is the account's override, zero included, or else its platform's figure |
| PostingCap.WindowNeverOverfull | apps/api/limits.py:99-163 | In every run no 24-hour window holds more than limit admitted rows that stayed in consuming states, if each admission follows its check at once and clocks never go back |
| PostingCap.FromAnyUnadmittedStart | apps/api/limits.py:99-163 | The same from any table without earlier admissions |
| PostingCap.WaitSufficesIff | apps/api/limits.py:132-155 | For every refused account that writes nothing more: a wait is long enough if and only if more counted rows leave the window in it than the account is over its limit |
| PostingCap.RetryAfterPlusOneSufficesIff | apps/api/limits.py:152-154 | Waiting Retry-After plus one second passes if and only if the rows gone by then outnumber the excess over the limit; exactly at the limit it always does |
| PostingCap.ExactRetryAfterSufficesIff | apps/api/limits.py:152-154 | Waiting exactly Retry-After passes if and only if the rows within a second of leaving outnumber the excess; at the limit, if and only if the one-second floor rounded it up |
| PostingCap.ExactRetryAfterIsRefused | apps/api/limits.py:152-154 | One hour-old row under a limit of one: after exactly the announced 82800 seconds the check refuses again |
| PostingCap.OverTheLimitRetryAfterFallsShort | apps/api/limits.py:134-154 | Two rows under a limit of one: Retry-After is a second, and after two the check still refuses |
| PostingCap.OverTheLimitIsReachable | apps/api/limits.py:108-115 | Writes that do not pass the check lead to that table |
| PostingCap.ZeroLimitNeverPasses | apps/api/limits.py:69-84 | An override of zero locks the account out, with a 60-second Retry-After on an empty window |
| OffsetCursor.CursorRoundTrip | apps/api/pagination.py:20-44 | A printed cursor reads back as its offset for every offset from zero up, and is refused for every negative one |
| OffsetCursor.StraysAreSkipped | apps/api/pagination.py:35 | Characters outside the alphabets are skipped, wherever they stand |
| OffsetCursor.NoCursorIsTheStart | apps/api/pagination.py:30-31 | No cursor and an empty one both read as the start |
| OffsetCursor.ReadsBackWithSparePadding | apps/api/pagination.py:32-35 | Unpadded Base64 (sections 3.2 and 5 of RFC 4648) with two padding characters appended reads back as the bytes, for every byte string |
| OffsetCursor.UnpaddedReadableIff | apps/api/pagination.py:32-35 | Without the added padding it reads if and only if the length is a multiple of three |
| OffsetCursor.StrippedIsUnpadded | apps/api/pagination.py:20-21 | Stripping removes the padding and nothing else |
| QuotaMessage.ParseQuotaMessage | apps/api/api.py:288-310 | The loop's parts are the fold of the message's words, later words winning; it raises exactly where a digit string is not a decimal number; each header is present exactly when its part is a number |
| QuotaMessage.MessageRoundTrip | apps/api/limits.py:166-172 | For a tier without whitespace the message parses back to all its fields, the tier as text, as a number, or as the error of reading it |
| QuotaMessage.ValueReadsIff | apps/api/api.py:296-299 | A value reads as text exactly when empty or holding a non-digit, as a number exactly when all decimal, and raises exactly otherwise |
| QuotaMessage.TierSurvivesIff | apps/api/api.py:296-299 | The tier comes back as text if and only if it holds no whitespace and is not all digits |
| QuotaMessage.HeadersSurviveIff | apps/api/api.py:296-310 | The parse raises if and only if a word of the tier has a value that is all digits but not decimal; otherwise the three headers carry the printed numbers whatever the tier holds, spaces and equals signs included |
| QuotaMessage.SuperscriptTierRaises | apps/api/api.py:299 | A fact about the parser: a superscript two for a tier would make it raise |
| TokenFormat.ParsesExactlyItsPrints | apps/api_keys/services.py:93-120 | A token is accepted if and only if it is the print of a secret of 32 to 64 characters with its lookup, and then parses to them |
| TokenFormat.PrintParses | apps/api_keys/services.py:197-200 | Every printed token parses back to its secret and lookup, underscores in the secret included |
| TokenFormat.PrintedForm | apps/api_keys/services.py:197-200 | A token is the prefix, the secret and the first eight characters of the secret's digest |
| TokenFormat.PrintIsInjective | apps/api_keys/services.py:197-200 | Two secrets never print the same token |
| TokenFormat.LastUnderscoreIsLast | apps/api_keys/services.py:103-106 | The split is at the last underscore |
| Utf8.DecodesExactlyEncodings | providers/bluesky.py:288-289 | Decoding by section 3 of RFC 3629 accepts exactly the encodings and gives back what was encoded |
| Utf8.SliceIsEncodedSlice | providers/bluesky.py:295-296 | The bytes between two offsets are exactly the encoding of the characters between them |
| Utf8.OffsetsKeepOrder | providers/bluesky.py:295-296 | Byte offsets keep the order of characters, both ways |
| Utf8.OffsetsAreBoundaries | providers/bluesky.py:295-296 | The offsets of characters are exactly the code-point boundaries of the bytes |
| Facets.ParseFacets | providers/bluesky.py:281-333 | Fails if and only if some character is a surrogate; otherwise returns the facets of links, then resolved mentions, then hashtags |
| Facets.EveryFacetReadsAsItsFeature | providers/bluesky.py:292-331 | The bytes of a facet decode to its link, to its tag behind a hash, or to a handle that resolves to its DID |
| Facets.MatchIsShown | providers/bluesky.py:295-296 | The bytes between byteStart and byteEnd decode to the matched characters, and both offsets are code-point boundaries |
| Facets.FacetsAreOrderedAndDisjoint | providers/bluesky.py:292-331 | Successive matches of one pattern give ordered, disjoint facets |
| Facets.OverlapIffMatchesOverlap | providers/bluesky.py:292-331 | Any two returned facets, of whatever patterns, overlap in bytes if and only if the matches they came from overlap in characters |
| Facets.HashtagInLinkOverlaps | providers/bluesky.py:292-331 | In https://a.b/#c the returned link facet and hashtag facet overlap |
| Facets.NoMatchIsLost | providers/bluesky.py:309-313 | Only a mention can be dropped, and only when its handle does not resolve |
| MetaAccounts.Provider.FetchMeAccounts | providers/meta_accounts.py:46-113 | The loop sends the walk's requests and no others, takes its time, and returns its entries and truncation reason, or its error |
| MetaAccounts.NoPageIsFetchedTwice | providers/meta_accounts.py:63-100 | Against any server, cyclic cursors included: one to a hundred requests, no cursor followed twice, every timeout between one and thirty seconds |
| MetaAccounts.TimeoutsAreWhatIsLeft | providers/meta_accounts.py:69-80 | Each request's timeout is what is left of the budget when it is sent, between one and thirty seconds, and only the first is sent when none is left |
| MetaAccounts.EndIsByLastReply | providers/meta_accounts.py:63-113 | A walk ends by its last reply: with its error, untruncated if that leads to no new cursor, and else by the page cap after a hundred requests or by a used-up budget before that |
| MetaAccounts.WalkTakesUnderBudgetPlusOne | providers/meta_accounts.py:69-87 | When no request outlasts its timeout, a positive budget is exceeded by less than a second, and without one there is a single request of at most a second |
| MetaAccounts.WalkIsChain | providers/meta_accounts.py:63-102 | From a server whose pages depend on the cursor alone, the walk returns the pages of the cursor chain it followed, in order |
| MetaAccounts.WholeChainIsTheOnlyOne | providers/meta_accounts.py:96-100 | The whole chain of a server is unique, and every partial walk is a prefix of it |
| MetaAccounts.WalkReturnsTheChain | providers/meta_accounts.py:63-102 | The walk is untruncated if and only if it returned the whole chain, and blames the page cap only when the chain has more than a hundred pages |
| MetaAccounts.FinishedWalkHasEveryPage | providers/meta_accounts.py:55-61 | An untruncated walk without error returns the concatenation of all pages of the chain |

## Left out

- Idempotency.IdempotencyTable.Claim: keys longer than the column and database errors other than the unique constraint are not modelled; the interleaved claim, whose refetch may find the row gone, is in IdempotencyProtocol.
- IdempotencyProtocol.StepKeepsInv: `created_at` is stamped with the insert, and deleting an API key together with its rows is not a step.
- The request fingerprint, SHA-256, HMAC and HKDF: fingerprints and digests are opaque strings, of which only the lookup's length and alphabet are used.
- AccountSync.PostTable.SyncAccountPosts: reconnect flags, logging, the quota breaker and the account-level half of the pass are left out; `apps.common.quota` is not part of this model, and a quota or token error is an abstract refusal. Rolled-back local transactions are not modelled.
- Overflow of the stored failure counter's column.
- AnalyticsBundle.AccountAnalyticsBundle: the catalog's metric list is taken to be free of repetitions, and which metrics posts can stand in for is given.
- Rounding of floating-point values: metric values are reals.
- `follower_growth_metric`, `_latest_post_stats`, `get_post_metrics_batch` and the metric catalogs: only easy members to add.
- KeyCache.BoundedStaleness: one key is modelled at a time; an accept by a call that had already read its snapshot is bounded from that read, not from the accept.
- Deleting keys or social accounts and bulk updates: they fire none of the modelled signals.
- CommentWalk.YouTubeProvider.GetMessages: authentication retries of a request, and a server whose pages change between requests.
- PostingCap.WaitSufficesIff: the three clock reads of one check are one moment.
- OffsetCursor.DecodeCursor: of JSON only the one shape the encoder prints is read, so cursors written by others are refused more often than in the source.
- QuotaMessage.ParseQuotaMessage: which characters are digits is given, as Unicode's table is; the limit of later Python versions on the length of a decimal string is not modelled.
- Facets.ParseFacets: the regular expressions are not modelled; their matches are given, in order and without overlap within a pattern.
- MetaAccounts.WalkTakesUnderBudgetPlusOne: time passes in requests only.
- HTTP, OAuth, uploads, ORM plumbing, views, notifications and audit logging.
- The approval workflow and the publishing engine: `apps/publisher/engine.py` is not part of this model.
