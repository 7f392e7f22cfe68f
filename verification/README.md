# Verified model of the gateway's channel state machines

This project models, in Dafny, the small state machines and window algorithms of a Go LLM gateway
that decide which channel serves which model, and proves properties of them that hold over whole
runs. `dafny verify dfyconfig.toml` checks everything; nothing is executed.

| file | component |
|---|---|
| `ModelRemoval.dfy`, `ModelRemovalRuns.dfy` | the row-locked removal and recheck transactions on a channel's model list, and every run of them |
| `RemovalTrigger.dfy` | the consecutive-failure gate and the cooldown in front of the removal task |
| `ModelNames.dfy`, `UpstreamUpdate.dfy` | the ordered model-list algebra, and the detect/apply cycle against an upstream list |
| `CapacityWindow.dfy`, `CapacityStores.dfy` | the bucketed sliding-window request estimate, with pruned in-process buckets and with expiring Redis counters |
| `RateLimit.dfy` | the in-process sliding-window rate limiter and its cleaner |
| `MultiKey.dfy` | in-place compaction of a key list with three index-keyed maps |
| `PricingValues.dfy`, `PricingDifferences.dfy`, `ModelsDevSelection.dfy` | comparing prices across channels, and choosing a price among providers |
| `BodyStorage.dfy` | request bodies in memory or on disk, and the usage counters |
| `Governance.dfy` | degrade buckets and the channel distribution |
| `VerifySchedule.dfy` | automatic disabling and enabling by test scores, with a limit per round |
| `Shutdown.dfy` | the order of graceful shutdown, and retrying until a deadline |
| `Text.dfy`, `Options.dfy`, `Sets.dfy` | trimming, splitting and joining; optional values; a fact about sets |

How the code is represented:

- A row-locked transaction is one atomic step. Clocks, fetched upstream lists, failing writes and
  failing abilities rebuilds are parameters, so that every theorem about runs holds for all of them,
  in any order and from any number of nodes.
- A run is a sequence of events, and `StateAt(..., k)` (or `RowAt`, `RoundAt`) is the state after `k`
  of them. Each state-changing method is tied to the step function by its `ensures`, and the lemmas
  are about the step functions.
- Estimates are scaled by 60 so that the edge weight `(60 - elapsed) / 60` stays an integer; prices
  are reals.
- Regular expressions are an arbitrary predicate on a pattern and a name.

What the proofs found where the code does not do what its comments or the obvious reading promise:

- Detect, apply everything, detect again is *not* always a fixpoint. It is one exactly when no pending
  name contains a comma (such a name can never be stored in the comma-separated column) and the ignore
  entries that the application removes are not needed, which can fail for an upstream model whose name
  looks like a pattern (`DetectApplyReachesFixpoint`, `PatternNameBreaksFixpoint`). After applying a part,
  exactly the rest is pending again under the same kind of condition (`DetectAfterPartialApplication`).
- The rate limiter's cleaner is invisible, and the grants it issues are spaced, exactly when the
  duration is at most one second longer than the expiration (`EvictionInvisibleIff`,
  `GrantsAreSpacedIff`). Every call brings its own limit; a change of it, as when the settings or the
  user's group change, is invisible exactly if the maximum stays or grows without a longer window
  (`LimitChangeIff`). A limit of 0 still grants one request per window.
- A deletion of a failure counter can fail unnoticed; then failures before and after a success count
  together (`FailedDeletionBridgesSuccess`). Without such failures a gated submission follows consecutive
  failures (`SubmissionNeedsConsecutiveFailures`).
- Evicting old cooldown entries is invisible exactly while the cooldown is not raised more than tenfold
  (`CooldownChangeIff`).
- Deleting keys loses blank keys that come to an end of the list, keys with line breaks, and lists that
  happen to read as an array; it is exact in all other cases (`StorableIff`, `BlankLineIsLost`). With a key
  that has a line break, deleting the disabled keys in one pass and one by one can leave different keys
  (`LineBreakKeyComesApart`).
- `delete_disabled_keys` on a channel whose keys are all automatically disabled deletes nothing and
  enables them all: the empty key column is not written, the cleared statuses are
  (`DeleteDisabledRemovesExactlyAutoDisabled`).
- The verify flag is not cleared on every enabling, against the comment at
  `controller/channel_verify_schedule.go:147`: enabling by tag, editing the channel and recovering the
  health of a channel with several keys write the status alone. A verify action then enables channels
  that another party disabled, exactly when that party moved the flagged channel and kept the flag
  (`ForeignRestoreIff`); disabling a flagged channel by hand and then by the health check is another
  way to get there (`ForeignRestoreIsReachable`).
- A flagged channel is not always an automatically disabled one, against the comment at
  `controller/channel_governance.go:158-162`. For a channel that starts unflagged and is never enabled by a
  write of the status alone while it is flagged, it is one exactly if the last move of the channel is not a
  disabling of the whole channel by hand (`FlaggedIsAutoUnlessHandDisabled`). A copied channel can start
  flagged, because copying takes over the flag (`controller/channel.go:1513-1526`).
- The flag is written after the status; an update in between that leaves the channel enabled, and nothing
  else, makes a difference: it leaves an enabled channel flagged (`LateFlagIff`,
  `LateFlagOnEnabledChannel`).
- The disk limit is checked against the declared length, so it holds exactly where bodies longer than
  declared are refused (`LimitHoldsIff`, `LongerThanDeclaredOvershoots`, `Run`); a decompressed body
  keeps the declared length of the compressed one (`middleware/gzip.go`).
- The provider scan need not choose the cheapest price, because a price within the tolerance of the one
  held does not replace it; `SelectsCheapestIff` says exactly when it does, and the price chosen is
  always within the tolerance (`SelectedIsNearlyCheapest`).
- An upstream value that is null, or literally `same`, is never reported on its own
  (`UnrealValuesAreHidden`).
- A removal reason exempt from the cap can push the watch list beyond it (`FullWatchListDecides`), and
  after a failed abilities rebuild the watch list can be non-empty with no removal time set
  (`FailedRebuildForgetsTime`).
- The removal task also notifies when the model was already gone
  (`RunModelMissingRemoval`; `controller/channel_model_missing_removal.go:425-428, 471-475`).
- A capacity read samples the clock twice; it equals the estimate at a second in the minute of the
  first sample (`ReadTime`), so it can increase without new requests, exactly when the minute rolls over
  between the samples of the second of two reads (`ReadTimesGoBackIff`, `ReadsNeverIncreaseIff`).

## Model

| member | source | states |
|---|---|---|
| `ModelRemoval.PruneModelRemovalReasons` | controller/channel_model_missing_removal.go:502-518 | the loop keeps the reasons of exactly the watched models |
| `ModelRemoval.ClassifyWatchedModels` | controller/channel_model_missing_removal.go:553-567 | the loop splits the watch list, in order, by whether the mapped name is listed upstream |
| `ModelRemoval.AddBack` | controller/channel_model_missing_removal.go:622-628 | adding models back merges them into the column, which is rewritten only if it grows |
| `ModelRemoval.ChannelRecord.RemoveModel` | controller/channel_model_missing_removal.go:416-468 | the removal transaction changes the row as the step function says, with all its refusals |
| `ModelRemoval.ChannelRecord.Recheck` | controller/channel_model_missing_removal.go:576-667 | the recheck transaction: unavailable, cleared, expired, deferred, restored, restored with a failed abilities rebuild |
| `ModelRemoval.ChannelRecord.RunModelMissingRemoval` | controller/channel_model_missing_removal.go:364-487 | a model is taken away only on a non-empty upstream list, and for the missing reason only if its target is not in it; exactly when the task notifies (also when the model was already gone), falls back, escalates or does nothing |
| `ModelRemovalRuns.RemovalMovesModel` | controller/channel_model_missing_removal.go:445-460 | a committed removal moves exactly one model from the column to the watch list, with its reason and time |
| `ModelRemovalRuns.ClassificationPartition` | controller/channel_model_missing_removal.go:553-567 | restored and still-missing models partition the watch list, without duplicates |
| `ModelRemovalRuns.RestoredNames` | controller/channel_model_missing_removal.go:622-628 | models added back go to the end of the stored column, the others stay in place |
| `ModelRemovalRuns.StepShowsEffect` | controller/channel_model_missing_removal.go:416-468 | every step has one of six effects on the lists |
| `ModelRemovalRuns.StepKeepsTracked` | controller/channel_model_missing_removal.go:632-659 | every step, failed rebuilds included, keeps the watch list non-empty exactly when a recheck is set, and reasons only for watched models |
| `ModelRemovalRuns.StepKeepsUniverse` | controller/channel_model_missing_removal.go:590-599 | no step changes the served and watched models together, except an expiry, which drops exactly the watch list |
| `ModelRemovalRuns.RecheckKeepsReasons` | controller/channel_model_missing_removal.go:617-656 | a recheck neither loses nor invents the reason of a model that stays watched |
| `ModelRemovalRuns.RemovalNeverPostpones` | controller/channel_model_missing_removal.go:452-459 | a removal never postpones a recheck that is already scheduled in the future |
| `ModelRemovalRuns.RemovalEndsExactly` | controller/channel_model_missing_removal.go:416-444 | exactly when a removal finds the channel out of reach, the model gone, the last model, or the watch list full at the configured number or 5, and when it is committed; nothing else changes the row |
| `ModelRemovalRuns.RemovalSchedulesRecheck` | controller/channel_model_missing_removal.go:452-459 | the recheck comes after the configured interval of the reason, or 600, 180 or 1800 seconds, unless an earlier one is still to come |
| `ModelRemovalRuns.RecheckEndsExactly` | controller/channel_model_missing_removal.go:581-659 | exactly how a recheck ends: a watch list older than 86400 seconds is dropped before the upstream list is looked at |
| `ModelRemovalRuns.RecheckSchedulesNext` | controller/channel_model_missing_removal.go:590-657 | when the next recheck comes after each outcome, and when the removal time is forgotten |
| `ModelRemovalRuns.StepGrowsWatchOnlyBelowCap` | controller/channel_model_missing_removal.go:434-444 | the watch list grows only by a removal, and under the cap only while it is below it |
| `ModelRemovalRuns.FullWatchListDecides` | controller/channel_model_missing_removal.go:126-138 | with a full watch list a removal goes through exactly if its reason is exempt, and then exceeds the cap |
| `ModelRemovalRuns.StepSeparation` | controller/channel_model_missing_removal.go:649-660 | a step keeps served and watched models apart exactly if it is not a failed rebuild; then they share the restored models |
| `ModelRemovalRuns.RunKeepsTracked` | controller/channel_model_missing_removal.go:569-679 | the bookkeeping holds in every reachable state |
| `ModelRemovalRuns.RunConservesModels` | controller/channel_model_missing_removal.go:416-667 | over any interleaving, served plus watched models plus what expiries dropped are the models at the start |
| `ModelRemovalRuns.RunWithoutExpiryLosesNothing` | controller/channel_model_missing_removal.go:416-667 | without an expiry the known models never change |
| `ModelRemovalRuns.RemovedAtIsLastRemoval` | controller/channel_model_missing_removal.go:451 | the stored removal time, while set, is the time of the last committed removal |
| `ModelRemovalRuns.ExpiryOnlyAfterHold` | controller/channel_model_missing_removal.go:590-599 | a watch list is dropped only more than 24 hours after the last removal |
| `ModelRemovalRuns.WatchExpiresIff` | controller/channel_model_missing_removal.go:590-599 | in every run a recheck drops the watch list of an enabled channel if and only if the last removal is more than 86400 seconds ago and no recheck since has found every model back and failed to rebuild the abilities |
| `ModelRemovalRuns.RunNeverEmptiesChannel` | controller/channel_model_missing_removal.go:429-432 | no run takes a serving channel to zero models |
| `ModelRemovalRuns.RunRespectsCap` | controller/channel_model_missing_removal.go:434-444 | if every removal is subject to the cap, the watch list never exceeds it |
| `ModelRemovalRuns.RunKeepsSeparation` | controller/channel_model_missing_removal.go:616-636 | without failed rebuilds, served and watched models stay disjoint and duplicate-free |
| `ModelRemovalRuns.RemoveThenRestore` | controller/channel_model_missing_removal.go:445-460 | removing a model and rechecking with the model back upstream restores the row, with the model at the end |
| `ModelRemovalRuns.FailedRebuildForgetsTime` | controller/channel_model_missing_removal.go:632-659 | after a failed rebuild something is watched; with nothing still missing no removal time is kept, so the list cannot expire |
| `ModelRemovalRuns.RetryHeals` | controller/channel_model_missing_removal.go:649-660 | the round after a failed rebuild leaves what a successful recheck would have left at once |
| `RemovalTrigger.RemovalGate.StreakReached` | controller/channel_model_missing_removal.go:165-179 | counts a failure, opens at the threshold and restarts the count, unless the deletion of the counter fails |
| `RemovalTrigger.RemovalGate.Reset` | service/model_removal_streak.go:37-42 | a success restarts the count of its pair, unless the deletion of the counter fails |
| `RemovalTrigger.RemovalGate.CooldownOk` | controller/channel_model_missing_removal.go:272-289 | evicts stale entries one by one and answers for the pair |
| `RemovalTrigger.RemovalGate.TryHandle` | controller/channel_model_missing_removal.go:296-318 | a recognised failure is submitted exactly if both gates let it through |
| `RemovalTrigger.SubmissionNeedsUnbrokenFailures` | controller/channel_model_missing_removal.go:148-179 | every gated submission follows at least as many failures of the pair as the threshold then in force asks for, with nothing between that deletes the counter, even if counters expire early and options change |
| `RemovalTrigger.SubmissionNeedsConsecutiveFailures` | controller/channel_model_missing_removal.go:148-179 | if no deletion of the pair's counter fails, these failures are consecutive: no success, clearing or earlier opening lies between them |
| `RemovalTrigger.FailedDeletionBridgesSuccess` | service/channel_health.go:112-119 | a run on which a failed deletion lets failures before and after a success submit together |
| `RemovalTrigger.StreakExact` | controller/channel_model_missing_removal.go:165-179 | the gate opens exactly at a failure that completes the threshold then in force, counted from the last deletion or expiry of the counter |
| `RemovalTrigger.EvictionInvisible` | controller/channel_model_missing_removal.go:277-282 | evicting old cooldown entries never changes an answer while no cooldown is more than ten times an earlier one |
| `RemovalTrigger.CooldownChangeIff` | controller/channel_model_missing_removal.go:275-288 | changing the cooldown is invisible to eviction on every run if and only if the new value is at most ten times the old one |
| `RemovalTrigger.SubmissionsAreCooldownApart` | controller/channel_model_missing_removal.go:271-289 | two submissions of one pair are at least the cooldown then in force apart, under the same condition |
| `RemovalTrigger.SubmitsExactly` | controller/channel_model_missing_removal.go:296-318 | a failure submits if and only if it is for a missing model or completes its count, and every earlier submission of the pair is at least the cooldown in force ago |
| `ModelNames.UniqueKeepsOrder` | controller/channel_upstream_update.go:105-110 | de-duplication keeps the elements in the order of their first occurrences |
| `ModelNames.NormalizeFixed` | controller/channel_upstream_update.go:105-110 | normalizing a normal list changes nothing |
| `ModelNames.NormalizeElements` | controller/channel_upstream_update.go:105-110 | a normalized list has exactly what trimming leaves of the entries, blank ones dropped |
| `ModelNames.MergeModelNames` | controller/channel_upstream_update.go:112-126 | the loop with a seen-set is base followed by what is new |
| `ModelNames.MergeIsNormalizedConcat` | controller/channel_upstream_update.go:112-126 | merging is normalizing the concatenation |
| `ModelNames.MergeElements` | controller/channel_upstream_update.go:112-126 | merging is set union |
| `ModelNames.SubtractElements` | controller/channel_upstream_update.go:128-137 | subtracting is set difference |
| `ModelNames.IntersectElements` | controller/channel_upstream_update.go:139-148 | intersecting is set intersection |
| `ModelNames.SubtractIntersectPartition` | controller/channel_upstream_update.go:128-148 | subtraction and intersection partition a list, counts included |
| `ModelNames.ColumnRoundTrip` | model/channel.go:292-297 | a normal list survives the comma-separated column exactly if no name contains a comma |
| `Text.Split` | model/channel.go:292-297 | splitting has no separator in its parts and joins back to the text |
| `Text.FieldsOfJoin` | model/channel.go:292-297 | joining and then trimming separators and splitting gives the parts back |
| `Text.TrimExactly` | model/channel.go:177-199 | trimming takes away a piece at either end, all of it characters of the cut set |
| `UpstreamUpdate.PendingExactly` | controller/channel_upstream_update.go:184-243 | exactly which models detection offers for addition and for removal |
| `UpstreamUpdate.ChannelStore.CheckAndPersist` | controller/channel_upstream_update.go:453-504 | skips within the interval, records failures, and otherwise stores the detected changes; auto-sync adds exactly as many models as were pending |
| `UpstreamUpdate.ChannelStore.ApplyUpdates` | controller/channel_upstream_update.go:887-935 | the manual application changes columns and settings as the step function says |
| `UpstreamUpdate.AutoSyncReachesFixpoint` | controller/channel_upstream_update.go:481-493 | after auto-sync nothing is pending for addition exactly if every name can be stored; then the pending models were appended and removals are unchanged |
| `UpstreamUpdate.DetectApplyReachesFixpoint` | controller/channel_upstream_update.go:184-243 | detect, apply all, detect finds nothing either way, if and only if the names can be stored and the removed ignore entries are not needed |
| `UpstreamUpdate.OrdinaryNamesReachFixpoint` | controller/channel_upstream_update.go:900-922 | for names without comma and without pattern prefix the cycle always reaches its fixpoint |
| `UpstreamUpdate.PatternNameBreaksFixpoint` | controller/channel_upstream_update.go:222-232 | a concrete cycle that does not: an upstream model named like an ignore pattern |
| `UpstreamUpdate.CommaNameStaysPending` | controller/channel_upstream_update.go:481-493 | a pending name with a comma stays pending whatever is stored |
| `UpstreamUpdate.ApplicationSplitsPending` | controller/channel_upstream_update.go:900-922 | a manual application splits the pending additions into disjoint added, ignored and remaining parts; adding wins over ignoring |
| `UpstreamUpdate.ApplicationChangesModels` | controller/channel_upstream_update.go:150-155 | the served models afterwards are those before, minus the removed, plus the added, if and only if no added name has a comma; adding wins over removing |
| `UpstreamUpdate.DetectAfterPartialApplication` | controller/channel_upstream_update.go:184-243 | detecting again after any part was applied: with storable added names exactly the remaining removals are pending, and exactly the remaining additions if and only if the ignore list ignores what it did and what was chosen |
| `UpstreamUpdate.OrdinaryNamesStayPending` | controller/channel_upstream_update.go:900-922 | for names without comma and without pattern prefix exactly what was left is pending again, either way |
| `CapacityWindow.NormalizeWindow` | common/channel_capacity_store.go:37-47 | windows are whole minutes between one minute and one hour, rounded up by less than a minute |
| `CapacityWindow.TtlForWindow` | common/channel_capacity_store.go:49-57 | the time to live covers the window and one more minute |
| `CapacityWindow.BucketCount` | common/channel_capacity_store.go:140-143 | the whole minutes and the edge bucket, at most 61 |
| `CapacityWindow.CapacityWeightedMulti` | common/channel_capacity_store.go:123-138 | the aggregation loop is the sum of the whole buckets and the weighted edge bucket |
| `CapacityWindow.ReadTime` | common/channel_capacity_store.go:75-77 | the second that a read with two clock samples stands for lies in the minute of the first |
| `CapacityWindow.WeightedIsEstimate` | common/channel_capacity_store.go:123-138 | buckets that hold the per-minute counts give the estimate of the complete log; further buckets do not matter |
| `CapacityWindow.EstimateNeverIncreases` | common/channel_capacity_store.go:97-138 | without new requests the estimate never increases, across minute rollovers too |
| `CapacityWindow.ReadTimesGoBackIff` | common/channel_capacity_store.go:128-129 | of two successive reads with two clock samples each, the second stands for an earlier second exactly if only its weight was sampled after the minute rolled over |
| `CapacityWindow.ReadsNeverIncreaseIff` | common/channel_capacity_store.go:123-138 | that, and nothing else, can make a read increase without new requests |
| `CapacityWindow.EstimateReachesZero` | common/channel_capacity_store.go:97-138 | it is zero once one window and one minute have passed |
| `CapacityWindow.EstimateWithinEdgeBucket` | common/channel_capacity_store.go:123-138 | it differs from the true count by at most the edge bucket, with the sharper bounds either way |
| `CapacityWindow.EstimateExactWhenEven` | common/channel_capacity_store.go:123-138 | it is exact when the edge minute's requests are spread evenly |
| `CapacityStores.BumpKeepsFaithful` | common/channel_capacity_store.go:79-95 | pruning is invisible to every read up to the longest window |
| `CapacityStores.MemoryCapacity.Incr` | common/channel_capacity_store.go:79-95 | counts in the minute's bucket and prunes old buckets in a loop |
| `CapacityStores.MemoryCapacity.IncrChannel` | common/channel_capacity_store.go:145-170 | keeps the buckets faithful to the log; ids that are not positive are ignored |
| `CapacityStores.MemoryCapacity.GetN` | common/channel_capacity_store.go:97-110 | the newest buckets are the per-minute counts of the complete log |
| `CapacityStores.MemoryCapacity.GetCount` | common/channel_capacity_store.go:172-201 | a single read equals the estimate of the complete log |
| `CapacityStores.MemoryCapacity.BatchGetCounts` | common/channel_capacity_store.go:203-246 | a batch read gives every channel what its single read gives |
| `CapacityStores.MemoryCapacity.BatchGetCountsPerWindow` | common/channel_capacity_store.go:252-301 | the same with a window per channel |
| `CapacityStores.TtlSufficesIff` | common/channel_capacity_store.go:49-57 | a time to live keeps a bucket readable for a window if and only if it is at least the window and a minute |
| `CapacityStores.IncrementKeepsFaithful` | common/channel_capacity_store.go:159-167 | expiry is invisible for every window that the times to live cover |
| `CapacityStores.LiveIsInMinute` | common/channel_capacity_store.go:182-196 | Redis still has every bucket that a read may ask for |
| `CapacityStores.RedisCapacity.IncrChannel` | common/channel_capacity_store.go:145-168 | increments and refreshes the time to live, with the default for none |
| `CapacityStores.RedisCapacity.GetCount` | common/channel_capacity_store.go:172-198 | a single read equals the estimate of the complete log, or the fail value when Redis fails |
| `CapacityStores.RedisCapacity.BatchGetCounts` | common/channel_capacity_store.go:203-240 | the batch read agrees with the single reads |
| `CapacityStores.RedisCapacity.BatchGetCountsPerWindow` | common/channel_capacity_store.go:252-295 | one pipeline for the widest window serves every channel's own window |
| `CapacityStores.MaxBuckets` | common/channel_capacity_store.go:257-263 | the number of buckets the widest window needs |
| `RateLimit.InMemoryRateLimiter.Request` | common/rate-limit.go:44-70 | appends, shifts or refuses as the step function says |
| `RateLimit.InMemoryRateLimiter.ClearExpiredItems` | common/rate-limit.go:28-42 | one pass deletes exactly the idle keys |
| `RateLimit.DecidesAsUnboundedLog` | common/rate-limit.go:28-70 | the limiter decides as an unbounded log, with the cleaner running at any times and limits that change compatibly |
| `RateLimit.IssuedIsLog` | common/rate-limit.go:28-70 | that log is the log of the grants the limiter itself issues |
| `RateLimit.RefusesExactlyWhenFull` | common/rate-limit.go:44-70 | a request is refused exactly when the limiter has issued the maximum of grants for its key that are younger than the duration |
| `RateLimit.GrantsAreSpacedIff` | common/rate-limit.go:28-70 | any `max + 1` consecutive grants the limiter issues for a key span at least the duration, on every run, if and only if the duration is at most one second longer than the expiration |
| `RateLimit.EarlyClearIsVisible` | common/rate-limit.go:28-42 | with a longer duration there is a run on which the cleaner lets an excess request through |
| `RateLimit.EvictionInvisibleIff` | common/rate-limit.go:28-42 | eviction never changes an answer if and only if the duration is at most one second longer than the expiration |
| `RateLimit.LimitChangeIff` | middleware/model-rate-limit.go:205-246 | a change from one limit to another never changes an answer, on any run, if and only if both windows fit the expiration and the maximum stays the same or grows without a longer window |
| `MultiKey.MultiKeyChannel.Save` | model/channel.go:633-671 | saving keeps the stored column when the new one is empty, recounts the keys, lines or array, and drops statuses beyond them |
| `MultiKey.MultiKeyChannel.DisableKey` | controller/channel.go:1712-1753 | disables one key, or refuses an index out of range |
| `MultiKey.MultiKeyChannel.EnableKey` | controller/channel.go:1755-1795 | forgets status, time and reason of one key |
| `MultiKey.EnableAllForgetsStatuses` | controller/channel.go:1797-1819 | enabling all keys keeps the keys, enables each and forgets times and reasons; disabling all afterwards disables every key |
| `MultiKey.MultiKeyChannel.DisableAllKeys` | controller/channel.go:1821-1866 | the loop disables the enabled keys and reports their number, and fails if there are none |
| `MultiKey.MultiKeyChannel.DeleteKey` | controller/channel.go:1868-1946 | compaction with a running new index for the keys and the three maps; the last key is never deleted |
| `MultiKey.MultiKeyChannel.DeleteDisabledKeys` | controller/channel.go:1948-2015 | compaction without the automatically disabled keys, and their number |
| `MultiKey.CompactionKeepsEntries` | controller/channel.go:1892-1918 | moving keys and statuses together keeps every survivor's effective status |
| `MultiKey.StorableIff` | model/channel.go:177-199 | keys written as lines are read back if and only if neither end is blank, none has a line break and the lines are not an array |
| `MultiKey.DeleteKeyRemovesExactlyOne` | controller/channel.go:1868-1933 | takes out exactly that key and keeps the others in order with their statuses, every map index below the new size, if and only if the others are storable |
| `MultiKey.BlankLineIsLost` | controller/channel.go:1868-1933 | a concrete column with a blank line where deleting one key loses two |
| `MultiKey.DeleteDisabledRemovesExactlyAutoDisabled` | controller/channel.go:1948-2001 | removes exactly the automatically disabled keys if and only if there are none or the others are storable; with no other key all stay and are enabled |
| `MultiKey.DeleteKeyKeepsDetails` | controller/channel.go:1892-1933 | every other key keeps its disabling time and reason, if and only if the others are storable |
| `MultiKey.DeleteDisabledKeepsDetails` | controller/channel.go:1965-2001 | every survivor that is not enabled keeps its disabling time and reason and an enabled one loses stale ones, if and only if the survivors are storable |
| `MultiKey.BulkDeletionIsRepeatedDeletion` | controller/channel.go:1868-2001 | for plain keys, bulk deletion and deleting one by one from the highest index down each leave exactly the survivors under the same condition, and so the same |
| `MultiKey.StorableDeletionsAgree` | controller/channel.go:1868-2001 | for any keys, both leave exactly the survivors if every list of keys on the way is storable |
| `MultiKey.LineBreakKeyComesApart` | controller/channel.go:1868-2001 | a concrete column, an array whose first key has a line break, where they leave different keys |
| `MultiKey.DisableEnableOneKey` | controller/channel.go:1712-1784 | disabling and enabling a key change nothing about any other key, and enabling forgets its time and reason |
| `MultiKey.DisableAllKeepsOtherStatuses` | controller/channel.go:1821-1853 | disabling all changes exactly the enabled keys |
| `PricingValues.NearlyEqualLaws` | controller/ratio_sync.go:48-53 | near equality is reflexive and symmetric, and drifts by less than twice the tolerance in two steps |
| `PricingValues.NearlyEqualIsNotTransitive` | controller/ratio_sync.go:48-53 | near equality is not transitive |
| `PricingValues.ValuesEqualExactly` | controller/ratio_sync.go:46-62 | floats are equal if less than a billionth apart, other values only if they are the same |
| `PricingDifferences.CollectModels` | controller/ratio_sync.go:544-548 | collects the models of all fields of a table |
| `PricingDifferences.CollectAllModels` | controller/ratio_sync.go:542-556 | the models of the local data and of all channels |
| `PricingDifferences.ChannelConfidence` | controller/ratio_sync.go:564-590 | a channel is trusted for a model unless both its ratio tables have the placeholder prices |
| `PricingDifferences.ConfidenceTables` | controller/ratio_sync.go:558-591 | the trust tables by channel name, a later channel overwriting an earlier one of its name |
| `PricingDifferences.CompareField` | controller/ratio_sync.go:595-641 | the scan over the channels fills one cell and decides whether it is included |
| `PricingDifferences.BuildRow` | controller/ratio_sync.go:593-653 | the included cells of one model |
| `PricingDifferences.DifferingChannels` | controller/ratio_sync.go:656-665 | exactly the channels with a real difference somewhere in the table |
| `PricingDifferences.CellExactly` | controller/ratio_sync.go:604-634 | what a cell shows for a channel, told by the two listed values |
| `PricingDifferences.ConfidentExactly` | controller/ratio_sync.go:570-589 | a channel is distrusted for a model exactly if it lists both a model ratio of 37.5 and a completion ratio of 1 |
| `PricingDifferences.PruneOneRow` | controller/ratio_sync.go:668-688 | drops silent channels from every cell, and cells that show nothing |
| `PricingDifferences.Prune` | controller/ratio_sync.go:667-693 | the same for all models, dropping those left without a cell |
| `PricingDifferences.BuildDifferences` | controller/ratio_sync.go:536-696 | the nested-map code computes the pruned table of differences |
| `PricingDifferences.SurvivesExactly` | controller/ratio_sync.go:593-695 | exactly which cells the report keeps, for all values |
| `PricingDifferences.DifferenceSurvives` | controller/ratio_sync.go:593-695 | with distinct names and ordinary values, a cell is reported exactly if some channel's value is missing locally or differs |
| `PricingDifferences.EveryChannelLeftDiffers` | controller/ratio_sync.go:656-693 | every channel left in the report has a real difference in some reported cell |
| `PricingDifferences.ReportIsFaithful` | controller/ratio_sync.go:593-695 | a reported cell shows the local value and, for exactly the channels that differ somewhere, their value and trust |
| `PricingDifferences.UnrealValuesAreHidden` | controller/ratio_sync.go:612-620 | nulls and the agreement literal are never reported on their own |
| `PricingDifferences.DifferenceCanBeHidden` | controller/ratio_sync.go:612-620 | so a differing value can be hidden |
| `ModelsDevSelection.SortedKeys` | controller/ratio_sync.go:915-919 | the keys of a table, each once, in ascending order |
| `ModelsDevSelection.ScanProvider` | controller/ratio_sync.go:922-944 | scanning one provider's models updates the held candidate of each |
| `ModelsDevSelection.SelectCandidates` | controller/ratio_sync.go:906-948 | the scan selects the per-model fold over sorted providers, with its two errors |
| `ModelsDevSelection.SelectedIsOffered` | controller/ratio_sync.go:938-942 | the selected candidate is one that a provider offers |
| `ModelsDevSelection.LaterProviderLosesTies` | controller/ratio_sync.go:891-892 | in sorted order a tie never replaces the held candidate |
| `ModelsDevSelection.CandidateExactly` | controller/ratio_sync.go:845-879 | a candidate is made exactly of a finite non-negative input price with a missing or such an output price and no paid output for a free input, and holds the listed prices |
| `ModelsDevSelection.SelectedIsNearlyCheapest` | controller/ratio_sync.go:881-944 | some candidate is selected if any is valid; a non-zero one if there is any, less than the tolerance above every other, from the first provider asking that price |
| `ModelsDevSelection.OneFirstCheapest` | controller/ratio_sync.go:881-944 | as soon as any provider offers a non-zero price, exactly one is the first to ask the least |
| `ModelsDevSelection.SelectsCheapestIff` | controller/ratio_sync.go:881-944 | the scan selects the least non-zero price if and only if what it holds when it comes to the first provider asking it is nothing, free, or not within the tolerance |
| `ModelsDevSelection.SelectionNeedNotBeCheapest` | controller/ratio_sync.go:888-892 | two providers within the tolerance, the dearer one first and selected |
| `ModelsDevSelection.ConvertSelected` | controller/ratio_sync.go:950-973 | the conversion loop builds the three ratio tables |
| `ModelsDevSelection.RatiosRecoverPrices` | controller/ratio_sync.go:895-973 | the ratios give the prices of the selected candidate back up to the rounding, a free input only a model ratio of zero |
| `ModelsDevSelection.RoundRatioIsNearest` | controller/ratio_sync.go:698-700 | ratios have six decimals, and are the nearest such numbers |
| `ModelsDevSelection.ConvertPriceList` | controller/ratio_sync.go:897-985 | from the list to the ratios: exactly the models with a usable cost are converted, and all ratios of a model give back the prices that one provider lists, the cheapest up to the tolerance |
| `BodyStorage.MemoryStorage.Read` | common/body_storage.go:62-69 | returns the next bytes and advances the cursor by them |
| `BodyStorage.MemoryStorage.Seek` | common/body_storage.go:71-78 | moves the cursor, or leaves it on a negative target |
| `BodyStorage.ReadAndCopy` | common/body_storage.go:89-96 | taking the whole body between reads of any sizes gives the stored body each time and does not disturb the reading |
| `BodyStorage.MemoryStorage.Close` | common/body_storage.go:80-87 | the first close takes the body out of the counters, later ones do nothing |
| `BodyStorage.DiskStorage.Read` | common/body_storage.go:195-202 | the same for a file |
| `BodyStorage.DiskStorage.Seek` | common/body_storage.go:204-211 | the same for a file |
| `BodyStorage.DiskStorage.Bytes` | common/body_storage.go:224-256 | the whole body with the cursor restored; a short file is an error |
| `BodyStorage.DiskStorage.Close` | common/body_storage.go:213-222 | the first close takes exactly this file out of the counters |
| `BodyStorage.BodyCache.DecrementDiskFiles` | common/disk_cache_config.go:114-122 | the disk counters are clamped at zero |
| `BodyStorage.BodyCache.NewMemoryStorage` | common/body_storage.go:52-60 | opens one memory storage holding the data, counters exact |
| `BodyStorage.BodyCache.NewDiskStorage` | common/body_storage.go:126-156 | opens one file holding the data, counters exact, or changes nothing |
| `BodyStorage.BodyCache.CreateBodyStorage` | common/body_storage.go:283-301 | never fails, goes to disk exactly under the stated conditions, and then keeps the limit |
| `BodyStorage.BodyCache.CreateBodyStorageFromReader` | common/body_storage.go:304-345 | exactly which streams succeed or fail and how; a success holds exactly the stream |
| `BodyStorage.Run` | common/body_storage.go:283-345 | over any creations and repeated closes the counters are the number and total size of the open storages, exactly the storages are closed that an operation closes, and with honest lengths the disk usage stays within the limit |
| `BodyStorage.LimitHoldsIff` | common/body_storage.go:304-325 | where bodies of a declared length can be streamed, every body from every state within the limit stays within it if and only if longer bodies are refused |
| `BodyStorage.LongerThanDeclaredOvershoots` | common/body_storage.go:304-325 | otherwise the limit is overshot in a state that is reached |
| `BodyStorage.ChunksAreOneRead` | common/body_storage.go:195-202 | reading in pieces of any sizes is one read of their sum |
| `Governance.BuildDegradeBuckets` | controller/channel_governance.go:59-94 | for every maximum the buckets tile 0..max contiguously, in order, with middle widths that differ by at most one |
| `Governance.ExactlyOneBucket` | controller/channel_governance.go:59-117 | every level from 0 to the maximum falls in exactly one bucket |
| `Governance.AssignDegradeBucket` | controller/channel_governance.go:96-117 | a level is assigned the bucket that holds it, clamped at both ends |
| `Governance.GetDistribution` | controller/channel_governance.go:191-213 | every count of the distribution is the number of rows it describes |
| `Governance.DistributionConserves` | controller/channel_governance.go:191-213 | bucket counts add up to the total, healthy plus degraded is the total, locked channels are among the automatically disabled |
| `Governance.CountsExactly` | controller/channel_governance.go:191-213 | which rows each count counts, missing values and levels beyond the ends included |
| `VerifySchedule.VerifyActsExactly` | controller/channel_verify_schedule.go:148-190 | exactly when a score disables or enables a channel: enabling only with the own flag, nothing with inverted thresholds or with a score between them, and what the row is then |
| `VerifySchedule.RepeatedScoreIsQuiet` | controller/channel_verify_schedule.go:148-190 | a score already acted on changes nothing more |
| `VerifySchedule.KeepsFlagExactly` | model/channel.go:883-961 | another party moves a flagged channel and keeps its flag exactly if it writes the status alone or does not leave the channel enabled |
| `VerifySchedule.ForeignRestoreIff` | controller/channel_verify_schedule.go:177-187 | a verify action enables a channel that another party brought to its status if and only if that party moved the flagged channel and kept the flag |
| `VerifySchedule.VerifyRestoresOnlyItsOwn` | controller/channel_verify_schedule.go:177-187 | on runs in which nobody does that, a verify action enables only what a verify action disabled |
| `VerifySchedule.KeptFlagLeadsToForeignRestore` | model/channel.go:963-979 | after any run in which somebody did, a health disabling and a good score lead to a foreign restore |
| `VerifySchedule.ForeignRestoreIsReachable` | controller/channel_health.go:137-142 | such runs start from ordinary unflagged channels |
| `VerifySchedule.FlaggedIsAutoUnlessHandDisabled` | controller/channel_governance.go:158-162 | without blind enabling a flagged channel is out of service, and automatically disabled if and only if the last move was not a disabling of the whole channel by hand |
| `VerifySchedule.FlaggedByHandIsReachable` | controller/channel_governance.go:158-162 | a flagged channel that is not automatically disabled is reached from every unflagged one with a low score |
| `VerifySchedule.LateFlagIff` | controller/channel_verify_schedule.go:167-168 | acting between the status write and the flag write is the same as acting afterwards if and only if no update among the actions takes effect and leaves the channel enabled |
| `VerifySchedule.LateFlagOnEnabledChannel` | controller/channel_verify_schedule.go:167-168 | so an enabling in between leaves an enabled channel flagged, with a foreign restore to follow |
| `VerifySchedule.ChannelTable.UpdateChannelStatus` | model/channel.go:829-961 | a status change of the whole channel or of one key with the status derived from it, false if it is already there, clearing the flag of a channel left enabled |
| `VerifySchedule.ChannelTable.ApplyVerifyThresholdAction` | controller/channel_verify_schedule.go:148-190 | the action on the freshly read row, with others acting before its status write and before its flag write |
| `VerifySchedule.UndisturbedActionIsStep` | controller/channel_verify_schedule.go:148-190 | with nobody acting in between it is the single step of the theorems about runs |
| `VerifySchedule.DisturbedAction` | controller/channel_verify_schedule.go:148-190 | with others acting in the gaps: the decision is made on the row that was read, the status is changed on the row found then, and the flag is written last |
| `VerifySchedule.StatusUpdateExactly` | model/channel.go:829-961 | when an update of the whole channel or of one key takes effect, and the status and flag it leaves |
| `VerifySchedule.ChannelTable.RunVerifyScheduleOnce` | controller/channel_verify_schedule.go:73-125 | one round over the listed channels with others acting in between |
| `VerifySchedule.VisitActs` | controller/channel_verify_schedule.go:80-120 | an undisturbed visit does to its own channel exactly what a verify action does if the channel is due and scored, and nothing otherwise or to others |
| `VerifySchedule.VisitCounts` | controller/channel_verify_schedule.go:113-119 | the counter grows exactly when the visit takes its channel out of service, which it does only below the limit |
| `VerifySchedule.RoundDisablesAtMost` | controller/channel_verify_schedule.go:74-79 | a round takes at most max(5, n/5) channels out of service, and its counter is exact |
| `Shutdown.FinishPprofShutdown` | graceful_shutdown.go:249-283 | when closing the profiling server counts as an error |
| `Shutdown.DrainHttp` | graceful_shutdown.go:193-247 | the HTTP stage: its calls, when it is incomplete, when it is clean, and its time bound |
| `Shutdown.DrainWork` | graceful_shutdown.go:134-170 | the billing drain and every work step in order; which failures are reported, and the time taken |
| `Shutdown.ReleaseResources` | graceful_shutdown.go:172-190 | closing the resources within their limit, and its two failures |
| `Shutdown.RunGracefulShutdown` | graceful_shutdown.go:119-191 | resources are closed exactly if the work drained, last, after every step once and in order; no work is stopped before HTTP is idle; every step is attempted once the stage is entered; which failures are reported, none exactly if all went well; the sum of the limits bounds the time |
| `Shutdown.RetryUntilContext` | graceful_shutdown.go:88-117 | attempts are an interval apart, all but the last fail, giving up means that no further attempt could start in time |

## Left out

- HTTP handlers, JSON binding, database, Redis and file-system access, notifications and logging: results of such calls are parameters.
- The unlocked auto-sync writer is not interleaved with removals and rechecks: it rewrites the settings column from a snapshot and would break the conservation of models.
- Classification of upstream errors by keywords and status codes, parsing of the model mapping, and the fetching of upstream lists: their results are parameters.
- Regular expressions: an arbitrary predicate on pattern and name.
- Integer overflow: counters and timestamps are unbounded.
- Floating-point rounding: prices are reals, estimates are scaled integers; only the rounding of ratios to six decimals is modelled.
- RemovalTrigger.RemovalGate.StreakReached: the shared Redis counters and the in-process ones of each node used during an outage are one counter that may expire at any time and whose deletions may fail; going back from one to another is not modelled.
- RemovalTrigger.RemovalGate.CooldownOk: the formatted key of channel id and model is a pair.
- UpstreamUpdate.ChannelStore.ApplyUpdates: the write to the database succeeds; a failed write keeps the stored columns.
- RateLimit.InMemoryRateLimiter.Request: negative limits, which the code cannot allocate for.
- MultiKey.StorableIff: the array reader is any function whose elements are not blank and fit within the text with their commas and brackets; parsing itself is left out.
- MultiKey.BulkDeletionIsRepeatedDeletion: for keys with line breaks or opening brackets no exact condition is given, because each single deletion then rewrites the column; StorableDeletionsAgree gives a sufficient one. Disabling times and reasons are not compared there, because bulk deletion drops stale entries of enabled keys that single deletion keeps.
- VerifySchedule.ChannelTable.UpdateChannelStatus: the status cache is a flag that lets the change through or not, and of the per-key statuses only whether any key is enabled afterwards.
- VerifySchedule.ForeignRestoreIff: verify actions are single steps in these runs; what acting in their gaps adds is LateFlagIff. Requests that send the flag itself and the separate IQ enforcement state are left out.
- PricingDifferences.BuildDifferences: values that cannot be compared, such as nested tables, and not-a-number.
- ModelsDevSelection.SortedKeys: names are compared by character, not by byte.
- BodyStorage.BodyCache.CreateBodyStorage: the availability check and the increment are one step, so concurrent requests that both pass the check are not modelled; the external cleanup that resets the counters and the independent replay readers are left out.
- Governance: aggregation of removed models over channels.
- VerifySchedule.ChannelTable.RunVerifyScheduleOnce: notifications about dropped scores and failed tests.
- Shutdown.RetryUntilContext: nil arguments; if the timer and the deadline end together the deadline is taken.
- `common/rpm_realtime.go`: the one-minute instance of the capacity counter.
