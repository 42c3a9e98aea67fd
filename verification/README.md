# Verified models of the service toolkit

This Dafny project models the parts of the toolkit that are hard to get right
and proves what they promise: the segmentation of player counts (Rust), the
permission resolver, the gRPC health watchers, the Redis locks and leases, the
snowflake generator, the rate limiter, the ETag middleware and the local level
of the snapshot store (Python).

`dafny verify dfyconfig.toml` checks the whole project.

How it is laid out:

- `Segment*.dfy` follow `rust/src/segments.rs`: types and clipping, merging,
  resolving, the four detectors, the joining of all parts, the sweep for the
  average, and `SegmentStats` for the two together. The reference for all of it
  is pointwise: what holds at each single second of the window.
- `PermsProtocol`, `PermsRuns`, `PermsAnswers` and `PermsResolver` model the
  resolver as a state machine with one step between two suspension points. The
  class has the source's dictionaries and refines that machine; the theorems hold
  for every interleaving.
- `HealthProtocol` and `HealthServicer` do the same for the Watch protocol,
  `RedisLocks` and `RedisClient` for locks, leases and the passing of time.
- `Bits` and `Snowflake` have the shifts and masks as arithmetic and the
  generator over an arbitrary clock, given as the sequence of its readings.
- `FixedWindow` is the fixed-window policy of one key. `RateLimit` has the two
  backends, `RateLimitRuns`, `RateLimitWindows`, `RateLimitEvictions`,
  `RateLimitSpans` and `RateLimitSharpness` the theorems about whole runs.
- `ByteStrings`, `ETagMatch` and `ETag` have the middleware, with well-formed
  fields rendered from the grammar of RFC 9110.
- `SnapshotStore` and `SnapshotRuns` have the ordered local store and compare it
  with a history that forgets nothing. `OrderedDicts` is shared by the two
  ordered dictionaries, `Options` by all.

Properties that turn out not to hold of the code have a lemma with the input
that breaks them and one with the exact condition: the state of a range with a
clear in it (`ClearedRangeHidesSuspect`, `RangeResolution`), the sweep over
intervals beyond the window (`IntervalBeyondWindowIsCounted`, `SweepIsExact`),
the held flag after an expiry (`HeldAloneIsNotExclusive`,
`HeldIsOwnershipUntilExpiry`), a key that stays behind its release
(`ReleaseCanLeaveTheKey`, `StrandedExactlyAfterAskingAgain`), the local limiter
over its capacity (`EvictionIsObservable`, `FittingIsFollowing`), malformed
If-None-Match fields (`MalformedFieldMatches`, `MatchesExactly`), and such fields
and no-store on several lines (`SecondLineIsNotRead`, `FirstLineDecides`;
`SecondNoStoreIsTagged`, `NoStoreOfFirstLine`).

The gap between merged intervals holds of every list the module merges. It does
not hold of `merge_intervals` as a function of any list (`MergeMayLeaveOverlaps`,
with the exact condition in `MergeSeparatesExactly`), but the function is private
and all its callers pass intervals the module has built, on which it does
(`MergeSeparates`, `BuiltKeyDecidesTag`).

## Model

| member | source | states |
|---|---|---|
| `SegmentTypes.PushClampedCovers` | rust/src/segments.rs:152-156 | pushing an interval clipped to the window adds exactly the instants of the interval that lie in the window, and nothing when the clipped interval is empty |
| `SegmentTypes.LastAtIsLast` | rust/src/segments.rs:213-240 | the element in force at an instant is the one after which all others are later, and there is none only when all are |
| `SegmentTypes.KindsAreConsistent` | rust/src/segments.rs:662-691 | a kind is left out of the score iff it has a status, has one iff it does not clear, and comes from an override iff its priority is at least 80 |
| `SegmentMerge.SortIntervalsCorrect` | rust/src/segments.rs:163-176 | the sort gives a permutation ordered by priority, source, status, clearing, start and end, as the comparator says |
| `SegmentMerge.LeqIsLexicographic` | rust/src/segments.rs:163-176 | the order is by ascending priority, then alphabetically by source and status, then clearing last, then by start and end |
| `SegmentMerge.SortIntervalsStable` | rust/src/segments.rs:163-176 | intervals that compare equal keep their order |
| `SegmentMerge.MergeIntervals` | rust/src/segments.rs:158-199 | the loop that extends the last output interval computes the merge about which the lemmas below speak |
| `SegmentMerge.MergePreservesCoverage` | rust/src/segments.rs:158-199 | for every input, instant and classification, some merged interval covers the instant iff some input interval does |
| `SegmentMerge.MergeIdempotent` | rust/src/segments.rs:158-199 | merging twice equals merging once, for every input |
| `SegmentMerge.MergeSeparatesExactly` | rust/src/segments.rs:158-199 | for every list of non-empty intervals, outputs of one class are all separated by a real gap iff the sorted list has no two intervals of one class that touch with one of another class between them |
| `SegmentMerge.MergeSeparates` | rust/src/segments.rs:158-199 | hence they are whenever the sort key decides the class |
| `SegmentMerge.BuiltKeyDecidesTag` | rust/src/segments.rs:158-199 | which holds for every list the module itself merges |
| `SegmentMerge.MergeMayLeaveOverlaps` | rust/src/segments.rs:163-187 | as a function of any list, merging can leave two outputs of one class overlapping, because the exclusion flag separates classes and is not part of the sort key; no caller in the module passes such a list |
| `SegmentMerge.MergeKeeps` | rust/src/segments.rs:158-199 | outputs carry only input classes, stay non-empty and stay inside the bounds of the inputs |
| `SegmentResolve.ResolveAtRanked` | rust/src/segments.rs:740-768 | the state at an instant is that of the strongest kind of interval covering it, with a clear outranking all |
| `SegmentResolve.LastMaxIsLast` | rust/src/segments.rs:760-768 | among equal priorities the last interval decides: all behind it are lower |
| `SegmentResolve.ResolveForRangeRanked` | rust/src/segments.rs:770-798 | the state of a range is that of the strongest kind overlapping it |
| `SegmentResolve.MergePreservesResolution` | rust/src/segments.rs:158-199 | merging built intervals changes the resolved state of no instant |
| `SegmentResolve.RangeResolution` | rust/src/segments.rs:770-798 | a non-empty range resolves to the strongest pointwise state found in it iff no clear overlaps it or every instant of it that anything else covers is cleared |
| `SegmentResolve.RangeWithoutClears` | rust/src/segments.rs:770-798 | the half of it for ranges no clear overlaps |
| `SegmentResolve.ClearedRangeIsNormal` | rust/src/segments.rs:770-798 | a range any clear overlaps is normal, which is the strongest pointwise state iff every instant of it that anything else covers is cleared |
| `SegmentResolve.ClearedRangeHidesSuspect` | rust/src/segments.rs:770-798 | one cleared second at the start of any longer range that is suspect throughout makes the whole range resolve as normal, though every later instant of it resolves as suspect |
| `SegmentDetectors.BuildStatefulIntervals` | rust/src/segments.rs:201-257 | for time-ordered samples the output covers an instant of the window iff the last sample at or before it carries the flag |
| `SegmentDetectors.TrackFlag` | rust/src/segments.rs:214-240 | for time-ordered samples the closed intervals together with the open state are the flag of the last sample, at every instant of the window |
| `SegmentDetectors.BuildAutoSuspectIntervals` | rust/src/segments.rs:277-347 | for time-ordered samples the output covers exactly the instants of the swing episodes of the samples |
| `SegmentDetectors.TriggersExactly` | rust/src/segments.rs:259-275 | a step triggers iff it takes at most 30 minutes and the counts differ by 80 or more, or by 40 or more between at most 2 and at least 30 players |
| `SegmentDetectors.ResetTriggers` | rust/src/segments.rs:259-275 | for counts that are not negative a step of 40 or more triggers iff it is of 80 or more or one of its counts is at most 2 |
| `SegmentDetectors.EpisodesAreUnique` | rust/src/segments.rs:277-347 | the samples determine their swing episodes |
| `SegmentDetectors.EpisodesAreWitnessed` | rust/src/segments.rs:259-347 | each episode has two trigger transitions starting within 30 minutes, ends at a sample of at most 5 players or at the window end, and ends before the next one starts |
| `SegmentDetectors.NoPairIsMissed` | rust/src/segments.rs:277-347 | for any two triggers of the window within 30 minutes some episode is open by the second and not over before the first |
| `SegmentDetectors.RunIsFlat` | rust/src/segments.rs:390-467 | the run a steady sample belongs to has equal counts and no gap over 30 minutes, and its first sample does not continue an earlier run |
| `SegmentDetectors.StagnantRunIsMaximal` | rust/src/segments.rs:369-467 | a stagnant run has equal counts at or above the minimum, spans at least 6 hours and cannot be lengthened at either end |
| `SegmentDetectors.StagnantExactly` | rust/src/segments.rs:369-467 | an instant is stagnant iff it lies in a maximal run of one count at or above the minimum, with gaps of at most 30 minutes, that lasts at least 6 hours up to the sample that breaks it, its own last sample before a longer gap, or the window end |
| `SegmentDetectors.BuildStagnantSuspectIntervals` | rust/src/segments.rs:369-467 | the output covers exactly the instants of the steady runs of at least 6 hours |
| `SegmentDetectors.MergeDetected` | rust/src/segments.rs:346 | the merge at the end of a detector changes neither the shape nor the coverage of its intervals |
| `SegmentNearFlat.ExtremesBoundRun` | rust/src/segments.rs:499-512 | the extremes of a run bound every count in it and are taken in it |
| `SegmentNearFlat.MeanAtLeast` | rust/src/segments.rs:514-540 | the mean of a run is at least every lower bound of its counts |
| `SegmentNearFlat.NearFlatRun.constructor` | rust/src/segments.rs:483-497 | a new run holds the folds of its one sample |
| `SegmentNearFlat.NearFlatRun.Push` | rust/src/segments.rs:499-512 | after a push every running field equals the fold recomputed from the list of accepted samples |
| `SegmentNearFlat.NearFlatRun.Qualifies` | rust/src/segments.rs:514-540 | the decision is that of the list-based definition, and the guard on a non-positive mean never fires |
| `SegmentNearFlat.NearFlatExactly` | rust/src/segments.rs:514-540 | a run qualifies iff, in whole numbers, it lasts 12 hours, has two samples, no two of its counts are more than 12% of the mean apart, the mean change is at most 1.5% of it and at least 85% of the steps are of at most 3 players |
| `SegmentNearFlat.SmallDeltasCount` | rust/src/segments.rs:499-512 | the counter of small steps is the number of steps of at most 3 players |
| `SegmentNearFlat.DeltasSpan` | rust/src/segments.rs:499-512 | the total change is at least the difference of any two counts of the run |
| `SegmentNearFlat.RunsAreWellShaped` | rust/src/segments.rs:564-641 | in every scan, of samples in any order, the runs hold only counts at or above the minimum, strictly later samples and no gap over the limit |
| `SegmentNearFlat.RunsAreStretches` | rust/src/segments.rs:564-641 | for time-ordered samples the runs are exactly the maximal stretches of counts at or above the minimum with gaps of at most 30 minutes, each ending at the low sample that breaks it, at its own last sample before a long gap, or at the window end |
| `SegmentNearFlat.ScanMeansStretches` | rust/src/segments.rs:564-641 | so an instant lies in a qualifying run of the scan iff it lies in a qualifying maximal stretch |
| `SegmentNearFlat.PushNearFlatSuspectRun` | rust/src/segments.rs:542-562 | the intervals cover exactly the qualifying runs ended so far |
| `SegmentNearFlat.AcceptSample` | rust/src/segments.rs:600-622 | a sample at or above the minimum starts a run, is passed over when not later, ends the run after a long gap, or joins it, and the kept totals stay those of the accepted samples |
| `SegmentNearFlat.PushNearFlatSuspectRuns` | rust/src/segments.rs:578-638 | the loop and the final push cover exactly the qualifying runs |
| `SegmentNearFlat.BuildNearFlatSuspectIntervals` | rust/src/segments.rs:564-641 | for time-ordered samples the output covers exactly the instants of the qualifying maximal stretches, and for any samples those of the qualifying runs of the scan |
| `SegmentBuild.BuildOverrideIntervals` | rust/src/segments.rs:659-694 | the manual intervals cover an instant with a kind iff an override of that mode does; unknown modes and empty clippings give nothing |
| `SegmentBuild.BuildSegmentIntervals` | rust/src/segments.rs:648-738 | for time-ordered samples, resolving the output at any instant of the window gives the highest ranked of what applies there; the output is merged, in the window and non-empty throughout |
| `SegmentBuild.PartsResolve` | rust/src/segments.rs:700-738 | joining lists that each cover their own kind exactly resolves to the ranking of the kinds that apply |
| `SegmentSweep.BoundariesCorrect` | rust/src/segments.rs:867-892 | the boundaries are ascending, distinct and exactly the window edges, the sample times inside and the interval edges the code keeps |
| `SegmentSweep.SliceIsConstant` | rust/src/segments.rs:901-919 | between adjacent boundaries neither the resolved state nor the last count changes |
| `SegmentSweep.ComputeEffectiveAverageStats` | rust/src/segments.rs:855-933 | for time-ordered samples the average is the exact quotient of the sweep totals, and zero when nothing is trusted; for intervals that reach the window these are the sums over the trusted instants and the coverage is their plain share; zeros for an empty window, and a coverage in [0, 1] always |
| `SegmentSweep.Prepare` | rust/src/segments.rs:865-890 | the count at the start is that of the last sample at or before it, and the samples inside are filed under their times |
| `SegmentSweep.Sweep` | rust/src/segments.rs:897-919 | when the filed samples give the count at every boundary, as they do for time-ordered samples, the walk adds up the slices between all boundaries |
| `SegmentSweep.BoundariesAreWalkable` | rust/src/segments.rs:865-890 | for time-ordered samples they do: the count moves on exactly at the boundaries where a sample was filed |
| `SegmentSweep.AddSlice` | rust/src/segments.rs:904-912 | a slice counts weighted by its length iff it is neither excluded nor unknown |
| `SegmentSweep.ApplySamples` | rust/src/segments.rs:914-918 | of several samples at one boundary the last one counts |
| `SegmentSweep.SweepIsExact` | rust/src/segments.rs:855-933 | the sweep totals equal the sums over every instant of the window iff neither an interval ending before the window is followed by a state that counts, with a count known at its start, nor an interval starts beyond the window after a state there that counts, with a count known at its end |
| `SegmentSweep.ReachingIntervalsAreExact` | rust/src/segments.rs:855-933 | so they do for all intervals that reach the window, in particular those the module builds |
| `SegmentSweep.IntervalBeyondWindowIsCounted` | rust/src/segments.rs:883-890 | an interval beyond the window, after one known count, always makes them differ |
| `SegmentSweep.SecondsAreConserved` | rust/src/segments.rs:901-919 | over the instants of any span, trusted, excluded and unknown seconds add up to its length |
| `SegmentSweep.SweepSecondsAreConserved` | rust/src/segments.rs:901-919 | for intervals that reach the window, the seconds the sweep trusts and the excluded and unknown ones add up to the length of the window |
| `SegmentSweep.SweepBounds` | rust/src/segments.rs:921-932 | the ratio behind the coverage lies in [0, 1] without the clamp, and an average over some trusted time lies between the counts used |
| `SegmentStats.SweepOfBuilt` | rust/src/segments.rs:648-933 | sweeping intervals built for a window sums the counts and seconds of the instants whose highest ranked cause does not exclude them |
| `SegmentStats.CountsExactly` | rust/src/segments.rs:648-933 | an instant counts iff its count is known and a force-normal override covers it or no other override, flag or suspicion does |
| `SegmentStats.EffectiveAverageStats` | rust/src/segments.rs:648-933 | for time-ordered samples, building the intervals and averaging over them gives the exact quotient of the counts over the instants that count, zero when there is none, and their plain share of the window |
| `PermsProtocol.StepInv` | src/service_toolkit/security/platform_perms_resolver.py:133-264 | every step of every reader, fetch, invalidation and clear keeps the invariant behind the results below |
| `PermsProtocol.FetchesAreSerial` | src/service_toolkit/security/platform_perms_resolver.py:203-217 | two running, unfenced fetches for one key are one fetch |
| `PermsProtocol.FinishEpochs` | src/service_toolkit/security/platform_perms_resolver.py:232-237 | dropping a user's epoch with the last running fetch keeps every older fetch fenced |
| `PermsProtocol.StoreBounded` | src/service_toolkit/security/platform_perms_resolver.py:258-264 | a store never makes the cache exceed its size limit |
| `PermsRuns.NoStaleAnswer` | src/service_toolkit/security/platform_perms_resolver.py:133-158 | in every interleaving, a get that begins after an invalidation of its user or a clear is answered, by hit or by joining, only from a fetch for its own key that was started after it |
| `PermsRuns.FencedForGood` | src/service_toolkit/security/platform_perms_resolver.py:182-237 | an unfinished fetch that predates an invalidation never finds its captured epoch current again, so it is never stored |
| `PermsRuns.Bookkeeping` | src/service_toolkit/security/platform_perms_resolver.py:114-121 | in every reachable state the running count of a user is the number of unfinished owners, only running users have epochs, the in-flight map is exactly the running unfenced fetches, and the cache is bounded |
| `PermsRuns.CacheMovesForward` | src/service_toolkit/security/platform_perms_resolver.py:219-237 | in every run a key's cached answer is only ever followed by the same one or by one whose fetch began later, also when the key was evicted or invalidated in between |
| `PermsRuns.OwnerCanResume` | src/service_toolkit/security/platform_perms_resolver.py:226-237 | the cleanup never finds its user missing from the running map |
| `PermsRuns.FloorStays` | src/service_toolkit/security/platform_perms_resolver.py:182-197 | what an invalidation has fenced stays fenced in all later states |
| `PermsAnswers.AnsweredAtOnceExactly` | src/service_toolkit/security/platform_perms_resolver.py:133-158 | a get whose key is cached is answered at once iff the fetch of that answer was done less than the time to live ago, with the permissions that fetch returned |
| `PermsAnswers.AnswerIsYoung` | src/service_toolkit/security/platform_perms_resolver.py:133-158 | so every answer given at once comes from a fetch for its key done less than the time to live ago |
| `PermsAnswers.MissWaits` | src/service_toolkit/security/platform_perms_resolver.py:133-158 | a key that is not cached is not answered at once |
| `PermsAnswers.MissJoinsOrQueues` | src/service_toolkit/security/platform_perms_resolver.py:203-209 | a get that is not answered at once joins the running unfenced fetch of its key, and goes to the lock iff there is none |
| `PermsAnswers.AnswerWasFetched` | src/service_toolkit/security/platform_perms_resolver.py:133-237 | in every run every answer, by hit, by joining or by owning, is what an earlier fetch for exactly that key returned |
| `PermsAnswers.CachedWasFetched` | src/service_toolkit/security/platform_perms_resolver.py:219-237 | so is everything in the cache |
| `PermsAnswers.CacheChangesExactly` | src/service_toolkit/security/platform_perms_resolver.py:182-201 | an invalidation drops exactly the answers of its users, a clear all, and no other step but a store changes the cache |
| `PermsAnswers.UnfencedExactly` | src/service_toolkit/security/platform_perms_resolver.py:190-225 | the captured epoch of a running fetch is current iff no invalidation of its user came since it started |
| `PermsAnswers.JoinsOrStarts` | src/service_toolkit/security/platform_perms_resolver.py:203-217 | under the lock a get joins the running unfenced fetch of its key, and starts one iff there is none |
| `PermsAnswers.JoinerGetsTheFetch` | src/service_toolkit/security/platform_perms_resolver.py:204-217 | a get that joined a fetch is answered with what it returned |
| `PermsAnswers.OwnerStoresExactly` | src/service_toolkit/security/platform_perms_resolver.py:219-264 | an owner whose fetch is done answers with it, and stores it iff its user was not invalidated since the fetch started; one oldest answer goes iff the key is new and the cache full; a cache of no size makes the call raise |
| `PermsAnswers.OwnerRaises` | src/service_toolkit/security/platform_perms_resolver.py:219-237 | an owner that is cancelled or whose fetch failed raises and stores nothing |
| `PermsResolver.PlatformPermsResolver.constructor` | src/service_toolkit/security/platform_perms_resolver.py:95-123 | a new resolver is in the initial state of the protocol |
| `PermsResolver.PlatformPermsResolver.BeginGet` | src/service_toolkit/security/platform_perms_resolver.py:133-151 | get up to its first suspension is the protocol's begin step: an entry younger than the time to live answers, an in-flight fetch is joined, otherwise the reader waits for the lock |
| `PermsResolver.PlatformPermsResolver.EnterLock` | src/service_toolkit/security/platform_perms_resolver.py:209-217 | the critical section joins or starts a fetch as the protocol does |
| `PermsResolver.PlatformPermsResolver.StoreEntry` | src/service_toolkit/security/platform_perms_resolver.py:258-264 | an entry is stored, after dropping an oldest one iff the key is new and the cache is full |
| `PermsResolver.PlatformPermsResolver.StoreUnlessFenced` | src/service_toolkit/security/platform_perms_resolver.py:219-225 | an answer is stored iff its fetch is not fenced |
| `PermsResolver.PlatformPermsResolver.Cleanup` | src/service_toolkit/security/platform_perms_resolver.py:226-237 | the finally block removes only its own in-flight entry and counts the owner down |
| `PermsResolver.PlatformPermsResolver.ResumeOwner` | src/service_toolkit/security/platform_perms_resolver.py:219-237 | storing and cleaning up together are the protocol's owner step, for success, failure and cancellation |
| `PermsResolver.PlatformPermsResolver.BumpEpochs` | src/service_toolkit/security/platform_perms_resolver.py:190-193 | the epochs of exactly the running users among the doomed move on by one |
| `PermsResolver.PlatformPermsResolver.DropCached` | src/service_toolkit/security/platform_perms_resolver.py:194-195 | exactly the cached keys of the doomed users go |
| `PermsResolver.PlatformPermsResolver.DropInflight` | src/service_toolkit/security/platform_perms_resolver.py:196-197 | exactly their in-flight keys go |
| `PermsResolver.PlatformPermsResolver.Invalidate` | src/service_toolkit/security/platform_perms_resolver.py:182-197 | the three loops together are the protocol's invalidation step |
| `PermsResolver.PlatformPermsResolver.ClearAll` | src/service_toolkit/security/platform_perms_resolver.py:199-201 | clear is the protocol's clear step: every cached or running user is invalidated and the cache is empty |
| `HealthProtocol.StepInv` | src/service_toolkit/grpc/health.py:69-116 | every step of the service, of a Watch loop and of shutdown keeps the invariant |
| `HealthProtocol.StatusIsLastReported` | src/service_toolkit/grpc/health.py:97-116 | in every run the status of a service is that of the last set for it before shutdown, NOT_SERVING from shutdown on, SERVING at first for the server as a whole and unknown for any other, and no other event changes it |
| `HealthProtocol.NoLostUpdate` | src/service_toolkit/grpc/health.py:69-116 | in every reachable state a live watcher is registered and holds the status the events give its service, and when idle with its event clear it has written that status last |
| `HealthProtocol.WrittenIsCoalescedHistory` | src/service_toolkit/grpc/health.py:69-91 | what a watcher has written is a subsequence of its history without equal neighbours |
| `HealthProtocol.HistoryIsTheServices` | src/service_toolkit/grpc/health.py:69-116 | that history is what the events report for the service since the watcher registered: the status of every set and NOT_SERVING when shutdown begins |
| `HealthProtocol.ShutdownIsFinal` | src/service_toolkit/grpc/health.py:97-116 | after shutdown all later states know the same services, all NOT_SERVING |
| `HealthProtocol.ShutdownReachesAll` | src/service_toolkit/grpc/health.py:104-110 | shutdown leaves no known service out and adds none |
| `HealthProtocol.CatchesUp` | src/service_toolkit/grpc/health.py:69-91 | from any reachable state at most three protocol steps of its own bring a watcher's client up to date, and then it has nothing left to do |
| `HealthService.HealthServicer.constructor` | src/service_toolkit/grpc/health.py:56-59 | a new servicer is in the initial state |
| `HealthService.HealthServicer.Check` | src/service_toolkit/grpc/health.py:61-67 | the current status of a known service, NOT_FOUND for an unknown one |
| `HealthService.HealthServicer.Watching` | src/service_toolkit/grpc/health.py:93-95 | the number of live watchers of the service |
| `HealthService.HealthServicer.Report` | src/service_toolkit/grpc/health.py:112-116 | a status is recorded and handed to every watcher of the service, whose events are set, and to no other |
| `HealthService.HealthServicer.SetStatus` | src/service_toolkit/grpc/health.py:97-102 | set records the very status given, as the protocol's set step, and nothing once shutting down |
| `HealthService.HealthServicer.EnterGracefulShutdown` | src/service_toolkit/grpc/health.py:104-110 | the loop over the services is the protocol's shutdown step |
| `HealthService.HealthServicer.BeginWatch` | src/service_toolkit/grpc/health.py:72-76 | a call registers a watcher of its own with the current status and its event set |
| `HealthService.HealthServicer.WakeUp` | src/service_toolkit/grpc/health.py:78-82 | waking clears the event and sends the status iff it differs from the last one sent |
| `HealthService.HealthServicer.FinishWrite` | src/service_toolkit/grpc/health.py:82-83 | a finished write goes back to waiting |
| `HealthService.HealthServicer.EndWatch` | src/service_toolkit/grpc/health.py:84-91 | the finally block removes its own registration and no other |
| `RedisLocks.StepInv` | src/service_toolkit/state/redis.py:318-391 | every step of every lock and lease, and the passing of time, keeps the invariant |
| `RedisLocks.MutualExclusion` | src/service_toolkit/state/redis.py:335-391 | in every reachable state at most one lock is inside an unexpired lease |
| `RedisLocks.HeldIsOwnershipUntilExpiry` | src/service_toolkit/state/redis.py:359-391 | a lock that reports held owns the key iff its last lease has not run out |
| `RedisLocks.LeaseLasts` | src/service_toolkit/state/redis.py:359-391 | in every run a lease ends at the time of the lock's last successful acquire or extension plus the larger of one millisecond and the time asked for there |
| `RedisLocks.HeldExactly` | src/service_toolkit/state/redis.py:359-391 | in every run a lock reports held iff it acquired the key and has since seen no release, refused acquire or failed extension of its own |
| `RedisLocks.AnswersAreTrue` | src/service_toolkit/state/redis.py:359-391 | acquire and extend answer true iff the lock is held afterwards, and then it owns the key; release iff the key was its own and is gone |
| `RedisLocks.RenewsExactly` | src/service_toolkit/state/redis.py:456-503 | the renewal task runs iff the lease was acquired and has not been lost since |
| `RedisLocks.LeaseHeldExactly` | src/service_toolkit/state/redis.py:452-503 | a lease reports held iff its lock does and it was not let go or left unrenewed since it was last acquired |
| `RedisLocks.HeldAloneIsNotExclusive` | src/service_toolkit/state/redis.py:452-454 | the flag alone is not exclusive: after an expiry two locks can report held |
| `RedisLocks.OthersAreUndisturbed` | src/service_toolkit/state/redis.py:318-391 | no step of one lock changes another's flags, or the key and expiry while another owns it, or makes another an owner |
| `RedisLocks.NotHeldUntilReacquired` | src/service_toolkit/state/redis.py:491-503 | once an extension has failed, a lease does not report held until a new successful acquire |
| `RedisLocks.OneLeader` | src/service_toolkit/state/redis.py:427-503 | of the leases that report held before their expiry there is at most one |
| `RedisLocks.StrandedStays` | src/service_toolkit/state/redis.py:365-391 | a key that its lock owns without reporting held is changed by no call of any lock: it stays until it expires |
| `RedisLocks.StrandedExactlyAfterAskingAgain` | src/service_toolkit/state/redis.py:359-363 | in every run a lock owns the key without reporting held iff it asked for that very key again while it was its own |
| `RedisLocks.ReleaseCanLeaveTheKey` | src/service_toolkit/state/redis.py:456-480 | a lease acquired again between the two halves of its release leaves the key behind |
| `RedisLocks.StepIsLocal` | src/service_toolkit/state/redis.py:335-391 | a step of a lock in the whole system is the step of its own methods on its own view |
| `RedisClient.RedisKey.SetNxPx` | src/service_toolkit/state/redis.py:359-363 | SET NX PX writes iff no live value is there |
| `RedisClient.RedisKey.CompareAndDelete` | src/service_toolkit/state/redis.py:318-324 | the script deletes iff the live value is the caller's token |
| `RedisClient.RedisKey.CompareAndExpire` | src/service_toolkit/state/redis.py:326-332 | the script moves the expiry iff the live value is the caller's token |
| `RedisClient.RedisLock.constructor` | src/service_toolkit/state/redis.py:338-349 | making a lock is the protocol's create step: nothing held, the key untouched |
| `RedisClient.RedisLock.Acquire` | src/service_toolkit/state/redis.py:359-363 | acquire is the protocol's step, and its answer and the held flag agree |
| `RedisClient.RedisLock.Release` | src/service_toolkit/state/redis.py:365-372 | release is the protocol's step: a no-op when not held, and never held afterwards |
| `RedisClient.RedisLock.Extend` | src/service_toolkit/state/redis.py:374-391 | extend is the protocol's step: false when not held, and held is dropped when Redis says no |
| `RedisClient.LeaderLease.constructor` | src/service_toolkit/state/redis.py:427-446 | making a lease is the protocol's create step: nothing held or lost, no renewal task, the key untouched |
| `RedisClient.LeaderLease.Held` | src/service_toolkit/state/redis.py:452-454 | held iff the lock is held and not lost |
| `RedisClient.LeaderLease.Acquire` | src/service_toolkit/state/redis.py:456-466 | acquire is the protocol's step: with a running renewal it only reports, otherwise it acquires and starts one on success |
| `RedisClient.LeaderLease.RenewOnce` | src/service_toolkit/state/redis.py:491-503 | one round of the renewal loop is the protocol's step: a failed extension marks the lease lost and ends the loop |
| `RedisClient.LeaderLease.LetGo` | src/service_toolkit/state/redis.py:468-478 | release first cancels the renewal |
| `RedisClient.LeaderLease.ReleaseLock` | src/service_toolkit/state/redis.py:480 | and then releases the lock |
| `Bits.OrDisjoint` | src/service_toolkit/ids/snowflake.py:99-104 | or-ing numbers without a common bit adds them |
| `Bits.AndMask` | src/service_toolkit/ids/snowflake.py:91 | masking with n ones is the remainder by 2^n |
| `Snowflake.PackIsNested` | src/service_toolkit/ids/snowflake.py:99-104 | the shifts and ors build the positional number of the fields |
| `Snowflake.UnpackPack` | src/service_toolkit/ids/snowflake.py:99-104 | an id decodes to the fields it was packed from |
| `Snowflake.PackIsMonotone` | src/service_toolkit/ids/snowflake.py:99-104 | ids of one worker are ordered like their (timestamp, sequence) pairs |
| `Snowflake.DefaultIdsFit` | src/service_toolkit/ids/snowflake.py:42-72 | with the default layout an id of the first 2^41 milliseconds after the epoch fits in 63 bits |
| `Snowflake.MakeGenerator` | src/service_toolkit/ids/snowflake.py:52-64 | a generator with the given epoch, numbers and layout is made iff worker and datacenter are in range; otherwise the constructor raises |
| `Snowflake.SnowflakeGenerator.constructor` | src/service_toolkit/ids/snowflake.py:59-72 | the initial state of a generator |
| `Snowflake.SnowflakeGenerator.WaitNextMillis` | src/service_toolkit/ids/snowflake.py:77-81 | if the clock ever passes the last timestamp from here on, the wait ends with its first reading that does |
| `Snowflake.SnowflakeGenerator.Advance` | src/service_toolkit/ids/snowflake.py:86-97 | on every call that returns, the next (timestamp, sequence) pair is after the last, through a clock that stands still or jumps back and sequence wrap-around; its timestamp is the first reading that can be used |
| `Snowflake.SnowflakeGenerator.Emit` | src/service_toolkit/ids/snowflake.py:99-104 | packing a pair after the last one gives an id above all issued before, and the log of ids stays ordered and this generator's own |
| `Snowflake.SnowflakeGenerator.Generate` | src/service_toolkit/ids/snowflake.py:83-104 | on every call that returns, the id exceeds all issued before and decodes to the clock's time since the epoch, the datacenter, the worker and the sequence; the first reading is used iff it is later or the same with room in the sequence |
| `Snowflake.GeneratorsNeverCollide` | src/service_toolkit/ids/snowflake.py:99-104 | two generators of one layout with different (datacenter, worker) never issue the same id |
| `FixedWindow.SpanBound` | src/service_toolkit/web/rate_limit.py:35-91 | under the fixed-window policy any span as long as the window holds at most 2 * limit - 1 admissions |
| `FixedWindow.SpanBoundIsSharp` | src/service_toolkit/web/rate_limit.py:35-91 | for every limit and window some requests reach that bound |
| `RateLimit.RedisFixedWindow.Incr` | src/service_toolkit/web/rate_limit.py:36 | INCR counts a live key up and starts an absent or expired one at 1 without an expiry |
| `RateLimit.RedisFixedWindow.Script` | src/service_toolkit/web/rate_limit.py:35-41 | after the script every key has an expiry, and the counter is the incremented one |
| `RateLimit.RedisFixedWindow.Enforce` | src/service_toolkit/web/rate_limit.py:147-166 | a request is admitted iff the incremented counter is at most the limit, and a fresh counter expires after the window asked for, at least a second |
| `RateLimit.LocalWindowLimiter.constructor` | src/service_toolkit/web/rate_limit.py:51-54 | an empty limiter with room for at least one entry |
| `RateLimit.LocalWindowLimiter.DropStale` | src/service_toolkit/web/rate_limit.py:69-71 | the loop over a snapshot leaves exactly the unexpired entries in order |
| `RateLimit.LocalWindowLimiter.Lookup` | src/service_toolkit/web/rate_limit.py:73-80 | the counter of the key, a fresh one if it has none or it has expired |
| `RateLimit.LocalWindowLimiter.Evict` | src/service_toolkit/web/rate_limit.py:90-91 | only the oldest entries over the capacity go |
| `RateLimit.LocalWindowLimiter.Write` | src/service_toolkit/web/rate_limit.py:88-91 | the counter is written at the end and the capacity restored |
| `RateLimit.LocalWindowLimiter.Enforce` | src/service_toolkit/web/rate_limit.py:56-91 | the method purges, decides, counts and evicts as the step function says, for any limit; an admitted request leaves its counter at the end, and a fresh one expires after the window asked for, at least a second |
| `RateLimitRuns.RedisFollowsPolicy` | src/service_toolkit/web/rate_limit.py:35-41 | in every run, whatever the keys and limits, each decision of the script is the fixed-window policy's decision for that key |
| `RateLimitRuns.LocalFollowsPolicy` | src/service_toolkit/web/rate_limit.py:56-91 | so is each decision of the local limiter under a monotone clock while nothing has been evicted |
| `RateLimitRuns.BackendsAgree` | src/service_toolkit/web/rate_limit.py:35-91 | hence on one timeline both backends admit and reject the same requests |
| `RateLimitWindows.OpenerIsTheLast` | src/service_toolkit/web/rate_limit.py:35-91 | a key's window is opened by its first request and then by each that comes no sooner than the window's seconds after the opener before it |
| `RateLimitWindows.RedisRejectsExactly` | src/service_toolkit/web/rate_limit.py:147-166 | in every run the script rejects a request iff it comes within the window's seconds of its opener and after limit requests of that window |
| `RateLimitWindows.LocalRejectsExactly` | src/service_toolkit/web/rate_limit.py:56-91 | so does the local limiter while nothing is evicted |
| `RateLimitWindows.FullUntilItEnds` | src/service_toolkit/web/rate_limit.py:35-91 | a key whose window has let limit requests through is rejected until the window's seconds are over and admitted again from that instant, by either backend |
| `RateLimitWindows.ServiceDecidesExactly` | src/service_toolkit/web/rate_limit.py:169-189 | every outcome of the service: all are let through without a limit, and otherwise Redis decides when it is up, and the failure mode says bypass, error or local limiter when it is down |
| `RateLimitEvictions.OpenKeepsFitting` | src/service_toolkit/web/rate_limit.py:73-91 | a run that evicts nothing goes on evicting nothing while only keys with an open window are asked for |
| `RateLimitEvictions.ForgottenKeyShows` | src/service_toolkit/web/rate_limit.py:73-91 | a limiter that has lost a key with an open window comes, when that key alone is asked for, to admit a request that the policy rejects |
| `RateLimitEvictions.EvictionIsObservable` | src/service_toolkit/web/rate_limit.py:88-91 | so after the first eviction some continuation that asks only for the dropped key, while its window is open, ends with a request admitted locally and rejected by the policy |
| `RateLimitEvictions.FittingIsFollowing` | src/service_toolkit/web/rate_limit.py:56-91 | a run evicts nothing iff, from every point of it, every continuation that asks only for keys with an open window is decided as the policy says |
| `RateLimitSpans.RedisSpanBound` | src/service_toolkit/web/rate_limit.py:147-166 | in every run Redis admits at most 2 * limit - 1 requests for a key in any span of the window's seconds |
| `RateLimitSpans.LocalSpanBound` | src/service_toolkit/web/rate_limit.py:56-91 | so does the local limiter while nothing is evicted |
| `RateLimitSpans.FallbackBound` | src/service_toolkit/web/rate_limit.py:169-189 | with the local fallback a span lets at most 2 * (2 * limit - 1) requests through, however often Redis comes and goes |
| `RateLimitSharpness.FallbackBoundIsSharp` | src/service_toolkit/web/rate_limit.py:169-189 | for every limit and window some traffic of one key reaches that bound |
| `RateLimitSpans.RaiseBound` | src/service_toolkit/web/rate_limit.py:169-189 | with the raising mode the bound of Redis alone stays |
| `ETagMatch.EtagMatches` | src/service_toolkit/web/etag.py:223-236 | the loop answers whether the field is a star or some comma-separated candidate reduces to the tag |
| `ETagMatch.MatchesList` | src/service_toolkit/web/etag.py:223-236 | for a list that is well-formed by section 13.1.2 of RFC 9110, commas inside tags and empty elements included, the answer is yes iff it holds a tag equal by weak comparison (section 8.8.3.2) |
| `ETagMatch.MatchesStar` | src/service_toolkit/web/etag.py:229-231 | a star in any spaces matches every tag |
| `ETagMatch.MatchesExactly` | src/service_toolkit/web/etag.py:223-236 | any field at all matches iff it is a star or one of its comma-separated parts is the tag behind a run of the characters W and /, with spaces around either |
| `ETagMatch.MalformedFieldMatches` | src/service_toolkit/web/etag.py:232-235 | so the tag behind any non-empty run of W and / other than the weak mark matches, though no well-formed list renders to that field |
| `ETag.Exchange.constructor` | src/service_toolkit/web/etag.py:118-122 | an exchange starts idle with the request's If-None-Match value |
| `ETag.Exchange.SendWrapper` | src/service_toolkit/web/etag.py:124-158 | each message from the application is the state machine's step |
| `ETag.Exchange.FinalizeResponse` | src/service_toolkit/web/etag.py:162-220 | the buffered response is answered as the response function says |
| `ETag.ChunkingDoesNotMatter` | src/service_toolkit/web/etag.py:149-156 | for every chunking, other messages in between included, the answer depends only on the joined bytes |
| `ETag.UntaggedIsUntouched` | src/service_toolkit/web/etag.py:127-145 | a response of another status, already tagged or with no-store on its first Cache-Control line goes through untouched, whatever follows its start |
| `ETag.ConditionalRequest` | src/service_toolkit/web/etag.py:162-220 | for a well-formed list and every chunking of a non-empty body, the answer is a 304 without a body iff the list holds the body's digest, and otherwise the whole body under the application's own status; both carry the tag, a caching policy and the fields a 304 repeats, and only the full answer any other |
| `ETag.FirstLineIsRead` | src/service_toolkit/web/etag.py:82-87 | of a field with several lines only the first is read |
| `ETag.CombinedIsTogether` | src/service_toolkit/web/etag.py:118 | the combined value of several lists (section 5.3 of RFC 9110) is the list of all their tags |
| `ETag.FirstLineDecides` | src/service_toolkit/web/etag.py:82-118 | a request with several If-None-Match lines is answered as their combined list would be iff the first line holds the tag or no line does |
| `ETag.SecondLineIsNotRead` | src/service_toolkit/web/etag.py:82-118 | a body whose tag stands on the second line is sent again |
| `ETag.StarWithholds` | src/service_toolkit/web/etag.py:192-213 | a star withholds every body |
| `ETag.NoFieldWithholdsNothing` | src/service_toolkit/web/etag.py:169-220 | no field withholds none, and an empty body passes as it is |
| `ETag.BodyWithoutStart` | src/service_toolkit/web/etag.py:149-175 | a body without a start is passed on in one piece |
| `ETag.TaggedExactly` | src/service_toolkit/web/etag.py:127-145 | a response is tagged iff it is 2xx, has no tag of its own and its first Cache-Control line does not say no-store, in whatever case |
| `ETag.NoStoreOfFirstLine` | src/service_toolkit/web/etag.py:82-145 | so a response with several such lines is left untagged as the whole field asks iff the first line says no-store or none does |
| `ETag.SecondNoStoreIsTagged` | src/service_toolkit/web/etag.py:82-145 | a response that says no-store on its second line is tagged |
| `ETag.LowerIgnoresCase` | src/service_toolkit/web/etag.py:82-87 | names are compared without regard to the case of letters and to nothing else |
| `ETag.PolicyIsStated` | src/service_toolkit/web/etag.py:187-190 | only a response without a caching policy is given one, private and no-cache, and every other field is left alone |
| `ETag.NotModifiedCarries` | src/service_toolkit/web/etag.py:204-213 | the 304 has, field by field, the cache fields and the one tag that the full answer would have (section 15.4.5 of RFC 9110), and no other field |
| `SnapshotStore.RedisReplicaStore.constructor` | src/service_toolkit/state/snapshot_store.py:45-52 | the lifetime is clipped at zero and a size limit at one |
| `SnapshotStore.RedisReplicaStore.Stop` | src/service_toolkit/state/snapshot_store.py:70-73 | stopping empties the store |
| `SnapshotStore.RedisReplicaStore.GetLocal` | src/service_toolkit/state/snapshot_store.py:155-163 | a read answers an unexpired value and removes an expired one |
| `SnapshotStore.RedisReplicaStore.SetLocalMany` | src/service_toolkit/state/snapshot_store.py:165-175 | a write prunes, writes each value to the end and restores the size limit; without values or lifetime it does nothing |
| `SnapshotStore.RedisReplicaStore.PruneLocal` | src/service_toolkit/state/snapshot_store.py:177-187 | the loop drops from the front while the front has expired |
| `SnapshotStore.RedisReplicaStore.PruneLocalLimit` | src/service_toolkit/state/snapshot_store.py:189-193 | only the oldest entries over the limit go |
| `SnapshotStore.PruneIsExact` | src/service_toolkit/state/snapshot_store.py:177-187 | on entries in order of expiry, stopping early equals the full scan |
| `SnapshotRuns.PruneAlwaysExact` | src/service_toolkit/state/snapshot_store.py:155-193 | in every run under a monotone clock expiry never decreases along the order, so the prune always equals the full scan |
| `SnapshotRuns.StoreIsNewest` | src/service_toolkit/state/snapshot_store.py:165-193 | in every run the live entries are the live ones among the most recently written keys of an unbounded history, in the same order |
| `SnapshotRuns.HistoryIsLastWrites` | src/service_toolkit/state/snapshot_store.py:165-175 | that history holds the last write of each key since the last stop |
| `SnapshotRuns.HistoryIsInOrder` | src/service_toolkit/state/snapshot_store.py:165-175 | and the keys behind a key in it are those written after it |
| `SnapshotRuns.ReadsAnswerLastWrite` | src/service_toolkit/state/snapshot_store.py:155-163 | a read answers the last write of its key iff that has not expired and fewer other keys than the size limit have been written since |

## Left out

- Segment times are whole seconds from zero on: fractional and negative times, NaN and IEEE rounding are not modelled. Averages and coverage are exact rationals.
- Integers are unbounded: the overflow of 64-bit sums is not modelled.
- The source and status strings of an interval are datatypes with one constructor per string the module writes.
- The Python bindings of the Rust module, its bucket maps and its other averages are not modelled.
- `motd.rs`, `text.rs` and `scoring.rs` are not modelled: regular expressions, Unicode tables and logarithms.
- The resolver's metrics, its gRPC stub and the decoding of NATS messages are not modelled; a fetch ends with an answer, a failure or a cancellation of its owner.
- PermsResolver.PlatformPermsResolver.StoreEntry: which of several equally old entries is dropped is left open, because the order of the dictionary is not modelled.
- The health servicer's gRPC transport is not modelled; a write finishes at any later step or the call ends.
- Redis transport errors and replies in flight are not modelled: a script call is one atomic step with an answer. A Redis key is taken to be gone from the instant of its expiry on.
- `acquire_with_wait`, `RedisSettings`, `RedisClient` and `Keyspace` in `state/redis.py` are not modelled; distinct locks have distinct tokens.
- Both rate-limit backends read one clock; key normalisation and the subject's hash are not modelled, and a failed Redis call is taken to have counted nothing.
- The ETag middleware's path exclusions and its check for GET requests are not modelled, and the digest is a parameter that gives hexadecimal text.
- A byte is written as the character with its value; message dictionaries have all their fields.
- The Redis level of the snapshot store and the decoding of its values are not modelled.
- `state/cache.py`, messaging, the other gRPC code, code generation, the linters and the application factory are not modelled.
