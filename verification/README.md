# AAMP: models of the player's state machines and of its DASH arithmetic

AAMP is an adaptive media player. This project models the parts of it whose correctness depends on
whole runs, and proves what they guarantee for every input, every interleaving or every history:

* **The cache of playlists and init fragments** (`CacheStore`, `CacheInsert`, `CacheAliases`, `Cache`).
  Entries and payload buffers live in an explicit store with the two reference counts that
  `std::shared_ptr` keeps. A count is exact because a new entry only points at entries that already exist,
  so the chains of `eUrlCachedDataPtr` cannot be cyclic; from that follows that the byte counter which
  the buffers' deleters update is the sum of the sizes of the distinct reachable buffers.
* **The task scheduler** (`Scheduler`), **the latency monitor's threads** (`LatencyLifecycle`) and **the
  asynchronous event queue** (`EventQueue`), each as an interleaving of its threads with program counters,
  mutexes and condition variables. `Run(INITIAL, steps)` is any interleaving; a theorem about a
  `Reachable` state is a theorem about every one of them.
* **The latency monitor's control logic** (`LatencyControl`): adaptive thresholds and rate hysteresis, over
  every sequence of polls and resets since `Start`.
* **The stream sink manager** (`StreamSinks`), **the listener lists** (`EventListeners`) and **the buffering
  strategies** (`BufferControl`), as objects with an invariant that every operation keeps.
* **DASH**: URL templates (`UrlTemplate`), segment timelines (`Timeline`), the segment index box
  (`SegmentIndex`) and the manifest refresh delay (`ManifestRefresh`).

To verify the whole project, use `dafny verify dfyconfig.toml`.

## Where the code does not do what it says

* **Aliases in the cache.** The header says that a main entry points to its alias and that the pointer's
  use count tells how many URLs redirect there (AampCacheHandler.h:56-62). Line 259 moves the local pointer
  into the map before line 272 copies it, so the *first* entry that redirects to a new alias gets a null
  pointer. Removing that entry then leaves the alias behind (`OrphanedAlias`), and removing the only other
  redirector erases the alias under the first one (`LostAlias`). `RemoveKeepsAliasesIff` and
  `EvictingInsertKeepsAliasesIff` give the exact condition under which the promise is kept. The byte counter,
  the limits and the order of eviction are not affected.
* **Flushing between the two sides of a callback.** `EntryLeftBehindIff` shows exactly when
  `mPendingAsyncEvents` keeps a stale entry, and `FlushLeavesEntry` a run that leaves one.
* **Requesting single-pipeline mode** from a player without a sink while others are registered leaves no
  shared sink; `SetSinglePipelineMode` states that the result is proper if and only if that is not so, and
  `SingleModeWithoutSink` is such a history.
* **Registering a player twice** outside single-pipeline mode creates a second sink that no map leads to, so
  it is never deleted (`RegisteredTwice`); `CreateStreamSink` states that this is the only way it can go wrong.
* **A segment window that moves back** over numbers not listed before: they are not counted
  (`MovingBackIsNotCounted`). `EachSegmentCountedOnceIff` gives the exact condition, and `ShortfallIsMissed` the
  exact amount that is missing.
* **Open-ended timeline runs** (r="-1", section 5.3.9.6 of ISO/IEC 23009-1): the unsigned repeat count plus one
  wraps to zero, so such an S element counts as no segment (`OpenEndedRunIsNotCounted`).
* **The unknown buffer during trickplay.** GetBufferedVideoDurationSec returns -1 for "unknown", but it is stored
  multiplied by 1000 (priv_aamp.cpp:2463 and 2521), so the comparison with -1 at AampMPDDownloader.cpp:1006 does
  not recognise it; converted to unsigned for the comparison with the update period it counts as an ample buffer.
  `NextWaitTime` states the resulting delay; the bounds of 500 and 6000 ms hold all the same.
* **Manifest refresh**: lines 1075-1078 of AampMPDDownloader.cpp are proved to be unreachable.

## Model

| member | source | states |
|---|---|---|
| CacheStore.DropObjCounted | AampCacheHandler.h:63-66 | Releasing one shared pointer, with the cascade through any chain of eUrlCachedDataPtr, leaves every use count equal to the number of pointers that exist, and changes no surviving object. |
| CacheStore.EraseCounted | AampCacheHandler.h:118 | cache.erase keeps all counts and the byte total exact and only loses objects. |
| CacheStore.AliveIsReachable | AampCacheHandler.h:204-304 | With exact counts and targets older than their owners, every living entry is reached from the map by a chain of eUrlCachedDataPtr (no leak through a cycle). |
| CacheStore.TotalIsReachableBytes | AampCacheHandler.h:236-245 | The living entries are exactly the reachable ones, the living buffers exactly those they hold, and totalCachedBytes is the sum of the sizes of those distinct buffers. |
| CacheInsert.StoredCounted | AampCacheHandler.h:234-279 | Storing (new entry, new alias or rewritten alias) keeps all counts exact and adds at most the payload size to the total. |
| CacheInsert.StoredIsFound | AampCacheHandler.h:247-276 | After storing, the URL and the effective URL lead to entries that share one buffer with exactly the payload; the target is set only if the alias existed before. |
| CacheInsert.StoredKeepsOthers | AampCacheHandler.h:249-276 | Every other key, entry and buffer is as before. |
| CacheAliases.UseCountTwo | AampCacheHandler.h:295-301 | use_count() == 2 holds exactly if no other requested entry has the same target. |
| CacheAliases.RemovedCounted | AampCacheHandler.h:287-304 | Remove loses exactly the key and, in the use_count() == 2 case, its effective URL; counts stay exact. |
| CacheAliases.RemoveKeepsAliasesIff | AampCacheHandler.h:287-304 | From a state where an alias is cached exactly while some requested entry redirects to it, Remove keeps that if and only if the removed entry has no alias, or has no target but another redirector exists, or has a target that is shared or is the alias's only redirector. |
| CacheAliases.RemovedTargets | AampCacheHandler.h:287-304 | Remove keeps every target pointer on the alias now cached under the entry's effective URL. |
| CacheAliases.StoredAliases | AampCacheHandler.h:249-273 | Storing a redirect makes its alias right and leaves the rightness of every other alias unchanged. |
| CacheAliases.StoredTargets | AampCacheHandler.h:272-276 | Storing keeps every target pointer current. |
| CacheAliases.EvictingInsertKeepsAliasesIff | AampCacheHandler.h:160-184 | An insert that evicts an entry first keeps all aliases right if and only if that removal does, or the new entry redirects to the same alias. |
| CacheAliases.InsertAliases | AampCacheHandler.h:204-285 | From a state with fine aliases an insert, with or without eviction, keeps targets current, and keeps the aliases right if and only if nothing was evicted, the eviction was safe, or the new entry restores the alias. |
| CacheAliases.TouchedAliases | AampCacheHandler.h:313-321 | A hit leaves the rightness of aliases and the currency of targets as they were. |
| CacheAliases.OrphanedAlias | AampCacheHandler.h:253-272 | For every such state and any fresh URLs: removing the first entry that redirects to a new alias leaves the alias with no redirector. |
| CacheAliases.LostAlias | AampCacheHandler.h:263-272 | For every such state and any fresh URLs: with two redirectors, removing the second erases the alias although the first still redirects to it. |
| Cache.InsertKeepsLimit | AampCacheHandler.h:160-184 | Evicting the least recent entry of a full type and then storing keeps the number of requested entries of every media type within the limit. |
| Cache.NothingLeft | AampCacheHandler.h:306-311 | With an empty map nothing is alive and the total has reached zero by itself. |
| Cache.ReducedIsUnique | AampCacheHandler.h:104-140 | Erasing a set of keys leaves the same entries, buffers and byte total in whatever order they go, so those totals are determined. |
| Cache.AampCache.Find | AampCacheHandler.h:313-321 | A hit returns the payload and the effective URL, becomes the most recent use, and changes nothing about aliases. |
| Cache.AampCache.Remove | AampCacheHandler.h:287-304 | Loses the entry and possibly its alias with all counts exact; aliases that were fine stay so if and only if the removal is safe. |
| Cache.AampCache.Clear | AampCacheHandler.h:306-311 | Empties map, entries and buffers; the total has reached zero by itself; the invariant and fine aliases are kept. |
| Cache.AampCache.ReduceCacheSize | AampCacheHandler.h:104-140 | The non-manifest entries of the type go, and all other non-manifest entries with them exactly if the total left without the former still exceeds the target. |
| Cache.AampCache.MakeRoomForPlaylist | AampCacheHandler.h:142-158 | A manifest clears the cache; otherwise every manifest stays, nothing goes if the payload fits, else exactly what ReduceCacheSize takes for the (possibly wrapped) difference of limit and payload, and success means exactly that the payload then fits. |
| Cache.AampCache.MakeRoomForInitFragment | AampCacheHandler.h:160-184 | Nothing goes unless the type is full; then exactly the least recently inserted-or-found requested entry of that type is removed. |
| Cache.AampCache.Insert | AampCacheHandler.h:204-285 | Known URLs and empty payloads change nothing; init fragments are always stored after evicting at most the least recent entry of a full type, within the limit, and aliases that were fine stay right if and only if the insert is safe; playlists are stored exactly if they fit into the room made as MakeRoomForPlaylist states; with a non-negative limit the playlist total stays within the limit or the size of the last manifest, and within the limit after a non-manifest insert. |
| Scheduler.SuspendedIsQuiet | AampScheduler.cpp:212-217 | In every reachable state between the return of SuspendScheduler and the next call, no task body runs, and no step starts or accepts a task. |
| Scheduler.QueuedTaskIsNoticed | AampScheduler.cpp:95-122 | Whenever a task is queued the worker is not asleep on the condition variable. |
| Scheduler.JoinNeverHangs | AampScheduler.cpp:187-207 | From StopScheduler's join on, whatever the clients do, the worker is not in the condition wait, has an enabled action until it exits, exits within six of its own actions, and then the join returns. |
| Scheduler.NoDeadlock | AampScheduler.cpp:187-227 | A Suspend, Resume or Stop in progress can act, or the worker can. |
| Scheduler.CallsComplete | AampScheduler.cpp:187-227 | Every action of a controller call brings it one closer to its return: Suspend with the lock-out set, Resume with it cleared, Stop with it cleared, the scheduler not running and no worker thread. |
| Scheduler.CallsBegin | AampScheduler.cpp:187-227 | Each call begins as asked for, only its own actions move it, and only Start, Stop and the calls change the running and lock-out flags. |
| Scheduler.WhoCanAct | AampScheduler.cpp:114-254 | In every reachable state: exactly when each kind of step is possible. |
| Scheduler.TasksInOrder | AampScheduler.cpp:76-97 | Bodies start in order of acceptance and before everything still queued; queued, running and started tasks are exactly those with that fate; at most one SetRate is queued. |
| Scheduler.FatesMoveForward | AampScheduler.cpp:136-161 | In every reachable state every step keeps all tasks accounted for; a queued task becomes running only as the oldest one with a live player, skipped only as the oldest one with a player in error or released, superseded only by a later SetRate, removed only by a call that names it; a running one finishes. |
| Scheduler.PickTakesOldest | AampScheduler.cpp:136-152 | With both locks and a non-empty queue the worker takes the oldest queued task: with a live player it starts its body, else it skips it. |
| Scheduler.QueuedTaskStarts | AampScheduler.cpp:114-165 | With the scheduler up, nobody suspending it and a live player, the worker alone enters the oldest queued task within seven actions from every reachable state. |
| Scheduler.FirstTaskWaits | AampScheduler.cpp:65-97 | A run exists in which a client has given its first task to a started scheduler. |
| Scheduler.ScheduleQueuesLast | AampScheduler.cpp:75-103 | While locked out nothing changes; otherwise the task is queued last, everything else stays but a queued SetRate that a new one supersedes, and the worker is not asleep. |
| Scheduler.OnlyCheckedClients | AampScheduler.cpp:65-76 | Tasks are accepted only from clients that found the scheduler running and the player live, and only while not locked out. |
| Scheduler.RemoveTakesFirst | AampScheduler.cpp:232-254 | Takes the first queued task with the id out, unless the id is invalid or that of the current task; otherwise changes nothing. |
| Scheduler.RemoveAllRemovesQueued | AampScheduler.cpp:170-182 | Empties the queue; exactly the queued tasks become removed. |
| Scheduler.QueuedIdsDiffer | AampScheduler.cpp:78-84 | Ids are handed out in turn and around, so queued tasks fewer than all ids apart have different ids. |
| Scheduler.RunKeepsInvariants | AampScheduler.cpp:114-165 | Every interleaving keeps the ownership of both mutexes, the task accounts and the absence of missed wake-ups. |
| Scheduler.AampScheduler.ScheduleTask | AampScheduler.cpp:75-97 | The critical section yields the queue and ids that the accepting step prescribes, and nothing while locked out. |
| Scheduler.AampScheduler.RemoveTask | AampScheduler.cpp:232-254 | Removes the first queued task with the id unless it is the current one, and reports whether it did. |
| LatencyLifecycle.WorkerOnlyOutsideIdle | AampLatencyMonitor.cpp:71-174 | In every interleaving a worker exists only outside kIdle, and kRunning has a worker that has not finished. |
| LatencyLifecycle.WhoCanAct | AampLatencyMonitor.cpp:71-174 | In every reachable state: exactly when a Start or Stop call and the worker can act. |
| LatencyLifecycle.CallsComplete | AampLatencyMonitor.cpp:71-174 | Start on an idle monitor and Stop on any other begin a call, each action brings it one closer to its return, Start with a worker launched, Stop idle and without one; otherwise neither does anything. |
| LatencyLifecycle.NoLostEnable | AampLatencyMonitor.cpp:180-205 | A worker blocked in a wait has no signal set; blocked in the indefinite wait, correction is off or an enabling caller still has its signal to issue. |
| LatencyLifecycle.EnableTakesEffect | AampLatencyMonitor.cpp:180-205 | A call that finds the setting equal is over; any other stores its value and then signals, which leaves no worker blocked. |
| LatencyLifecycle.CorrectionChangesOnlyThere | AampLatencyMonitor.cpp:105-198 | Only Start, which switches it on, and the store of an EnableRateCorrection call change the setting. |
| LatencyLifecycle.CallIsItsOwn | AampLatencyMonitor.cpp:180-205 | No step of another thread moves an EnableRateCorrection call in progress. |
| LatencyLifecycle.WorkerReadsCorrection | AampLatencyMonitor.cpp:252-261 | A worker that finds correction off heads for the indefinite wait; a poll is taken only by one that found it on. |
| LatencyLifecycle.WaitsEndForAReason | AampLatencyMonitor.cpp:380-402 | A wait ends only for a signal, for Stop or, unless it is the indefinite one, for its time being up; it clears the signal. |
| LatencyLifecycle.IndefiniteWaitIsReached | AampLatencyMonitor.cpp:252-261 | A run exists whose worker is blocked in the indefinite wait. |
| LatencyLifecycle.EnabledWorkerPolls | AampLatencyMonitor.cpp:252-264 | From every reachable state blocked there, switching correction on leads to a poll. |
| LatencyLifecycle.StartAndNotifications | AampLatencyMonitor.cpp:108-111 | Start clears a stale signal; a buffer notification signals exactly if it found correction on. |
| LatencyLifecycle.StopNeverHangs | AampLatencyMonitor.cpp:139-159 | From Stop's join on, whatever other callers do, the worker is in neither wait, has an enabled action until it exits, exits within six actions, and then the join returns. |
| LatencyLifecycle.RunKeepsInvariants | AampLatencyMonitor.cpp:219-260 | Every interleaving keeps the agreement of lifecycle state, session and worker, and the wait invariants. |
| LatencyControl.IncrementStaysShared | AampLatencyMonitor.cpp:467-487 | After any history the three thresholds are the configured ones plus one shared increment between zero and a positive cap. |
| LatencyControl.IncrementChangesOnlyThere | AampLatencyMonitor.cpp:503-549 | The increment grows only at a shift, shrinks only at a restoration or reset, always shrinks at a restoration and is zero after a reset. |
| LatencyControl.IncrementMovesBy | AampLatencyMonitor.cpp:467-487 | From zero at Start, the increment grows by one step up to the cap at a shift, shrinks by one step down to zero at a restoration, is zero after a reset, and is otherwise unchanged. |
| LatencyControl.ShiftsAreSeparated | AampLatencyMonitor.cpp:503-519 | Between two upward shifts there is a healthy evaluated poll or a reset. |
| LatencyControl.ShiftsIff | AampLatencyMonitor.cpp:503-519 | The thresholds shift exactly at the first low-buffer evaluated poll of every episode, an episode ending with a healthy evaluated poll or a reset. |
| LatencyControl.RestorationsAreApart | AampLatencyMonitor.cpp:520-547 | Two restorations are at least latencyStableSec apart, and the restoring window is that long, began after the earlier one, and contains no low-buffer poll and no reset. |
| LatencyControl.RestoresIff | AampLatencyMonitor.cpp:520-547 | A restoration step is taken exactly at a healthy evaluated poll that comes latencyStableSec after an earlier one with something to restore, with no low poll, reset or restoration since. |
| LatencyControl.RateIsOneOfThree | AampLatencyMonitor.cpp:334-364 | The applied rate is always the normal, the minimum or the maximum rate. |
| LatencyControl.DecisionSetsRate | AampLatencyMonitor.cpp:334-364 | An accepted decision above the band in force sets the maximum rate, below it the minimum rate, and inside it keeps the rate, or returns to normal once a correction has reached the target. |
| LatencyControl.NormalUnlessDecided | AampLatencyMonitor.cpp:252-312 | A poll with correction off, an ad playing or the buffer below activation returns to the normal rate; skipped polls and resets leave the rate alone. |
| LatencyControl.CorrectionPersistsOnlyWhileNeeded | AampLatencyMonitor.cpp:334-364 | A correction rate in effect was entered by a decision outside the band and since then every measured poll decided strictly on the far side of the target. |
| LatencyControl.BandCausesAtMostOneChange | AampLatencyMonitor.cpp:336-357 | A stretch in which every decision is inside the band, with any undecided polls and resets in between, changes the rate at most once, and only to normal. |
| LatencyControl.AampLatencyMonitor.UpdateDangerBufferState | AampLatencyMonitor.cpp:503-549 | The new fields are those that the history function prescribes for this reading. |
| LatencyControl.AampLatencyMonitor.Iterate | AampLatencyMonitor.cpp:252-364 | One loop iteration keeps the fields equal to what the history of polls and resets prescribes, extended by this poll. |
| LatencyControl.AampLatencyMonitor.ResetLatencyThresholdsLocked | AampLatencyMonitor.cpp:642-650 | The reset keeps the fields equal to what the history prescribes, extended by a reset, and leaves the rate alone. |
| StreamSinks.AampStreamSinkManager.CreateStreamSink | AampStreamSinkManager.cpp:156-192 | A sink is created exactly if there is no shared one to use; the ownership invariant is kept if and only if the player was not registered before or the mode is single. |
| StreamSinks.RegisteredTwice | AampStreamSinkManager.cpp:156-192 | The failing case exists: a player registered twice has two living sinks of which the maps know one. |
| StreamSinks.AampStreamSinkManager.SetSinglePipelineMode | AampStreamSinkManager.cpp:90-137 | Only the caller's sink survives and becomes the shared one, every other is deleted once; the result is a proper shared pipeline if and only if the caller has a sink or nobody is registered; in any mode but undefined nothing changes. |
| StreamSinks.SingleModeWithoutSink | AampStreamSinkManager.cpp:90-137 | The failing case exists: single mode requested by a player without a sink leaves a registered player and no shared sink. |
| StreamSinks.AampStreamSinkManager.DeleteStreamSink | AampStreamSinkManager.cpp:224-307 | The shared sink stays associated with a registered player, and is deleted exactly with the last one; otherwise exactly the player's own sink is deleted. |
| StreamSinks.AampStreamSinkManager.ActivatePlayer | AampStreamSinkManager.cpp:425-525 | In single mode the player becomes the only active one, holding the shared sink, which is then associated with it. |
| StreamSinks.AampStreamSinkManager.DeactivatePlayer | AampStreamSinkManager.cpp:377-423 | In single mode the player is no longer active; the association invariant is kept. |
| StreamSinks.AampStreamSinkManager.UpdateTuningPlayer | AampStreamSinkManager.cpp:680-730 | In single mode with nobody active the shared sink is associated with the registered caller; otherwise nothing changes. |
| StreamSinks.AampStreamSinkManager.Clear | AampStreamSinkManager.cpp:49-88 | Afterwards every pipeline sink ever created has been deleted, exactly once. |
| StreamSinks.AampStreamSinkManager.GetStreamSink | AampStreamSinkManager.cpp:585-617 | Hands out the client's sink if there is one, else a living pipeline sink that works for the caller, else (in single mode only) the caller's inactive sink; nothing exactly for a player nobody knows. |
| StreamSinks.AampStreamSinkManager.GetStoppingStreamSink | AampStreamSinkManager.cpp:619-662 | In single mode with nobody active and no other registered player tuned, the one living sink, or nothing if nobody is registered; in every other case the sink that serves the caller. |
| EventQueue.NoEventStranded | AampEventManager.cpp:83-105 | In every run, flushes included, queued events never outnumber the idle callbacks still to take one plus the senders still to add one. |
| EventQueue.EventsTakenInOrder | AampEventManager.cpp:315-350 | In every run the k-th event to leave the queue is the k-th pushed and the queue is the rest; without a flush everything that left was taken by a callback. |
| EventQueue.RecordsChange | AampEventManager.cpp:315-350 | Only a push outside the released state adds an event; a callback takes one exactly if there is one; a flush drops all. |
| EventQueue.WhoCanAct | AampEventManager.cpp:315-354 | A sender and a callback go through their stages in turn; a flush and a state change are possible at any time. |
| EventQueue.FlushRemovesTheRest | AampEventManager.cpp:83-105 | A flush empties queue and map and leaves exactly the callbacks already entered and those whose senders have not yet noted them. |
| EventQueue.AssertsNeverFire | AampEventManager.cpp:430-465 | In every run, flushes included, neither assert of the pending/dispatched handshake fires. |
| EventQueue.AssertsAreWatched | AampEventManager.cpp:430-465 | The flag that stands for the asserts is raised exactly when one of them would fire. |
| EventQueue.EntryLeftBehindIff | AampEventManager.cpp:430-465 | Once both sides of a callback have run, in either order, its entry is present if and only if a flush came between them and none since. |
| EventQueue.FlushLeavesEntry | AampEventManager.cpp:430-465 | The failing case exists: a run with one flush between the two sides of its one callback ends with the entry still there. |
| EventListeners.FirstIsNewest | AampEventManager.cpp:185-197 | Dropping the first match from the head of a list drops the newest matching registration. |
| EventListeners.AampEventManager.AddEventListener | AampEventManager.cpp:156-174 | A new node goes in front; the linked list stays intact and the reversal of the registrations in force; no node is lost or shared. |
| EventListeners.AampEventManager.RemoveEventListener | AampEventManager.cpp:179-199 | The newest matching registration is dropped; its node is unlinked from the middle or the head and deleted, and every list stays intact. |
| EventListeners.AampEventManager.SendEventSync | AampEventManager.cpp:360-425 | The calls are exactly the all-events registrations and then the type's registrations, each in registration order, as of the snapshot, whatever the handlers register or deregister meanwhile, which takes effect for later events; all copied nodes are deleted; no call in the released state. |
| UrlTemplate.Replace | AampMPDUtils.cpp:314-432 | The nested loops end, return the number of occurrences and yield the rendering of the template with that identifier filled in. |
| UrlTemplate.Substitute | AampMPDUtils.cpp:474-478 | The four successive calls yield the rendering of one simultaneous substitution. |
| UrlTemplate.IdentifiersAsWritten | AampMPDUtils.cpp:475-478 | The four identifiers and the escape are written as the standard has them. |
| UrlTemplate.OrderIsIrrelevant | AampMPDUtils.cpp:475-478 | Any order that names every identifier gives the simultaneous substitution. |
| Timeline.PeriodNewContentMs | AampMPDParseHelper.cpp:1595-1623 | Returns the durations of exactly the segments numbered above the mark, and the highest number listed or the old mark. |
| Timeline.PeriodDurationMs | AampMPDParseHelper.cpp:1049-1070 | Returns the run-length sum of the timeline less the clipped presentation time offset; minus infinity exactly if an offset is clipped with a timescale of zero. |
| Timeline.SumInTicks | AampMPDParseHelper.cpp:1049-1064 | For positive durations the run-length sum is the sum of (repeat + 1) times duration over all S elements, in milliseconds of the timescale. |
| Timeline.UnknownIsTwoSeconds | AampMPDUtils.cpp:201-213 | A missing duration or timescale counts as two seconds per segment. |
| Timeline.OpenEndedRunIsNotCounted | AampMPDParseHelper.cpp:1602 | An S element with r="-1" is counted as no segment at all, in both sums. |
| Timeline.FirstCallIsRunLengthSum | AampMPDParseHelper.cpp:1049-1064 | With the mark below the start number, the new-content duration is the run-length sum of the period's duration. |
| Timeline.ReturnedIsTaken | AampMPDParseHelper.cpp:1595-1623 | Over any refreshes with stable durations the returned durations add up to exactly the numbers that some refresh listed above the mark of that moment, each once. |
| Timeline.ShortfallIsMissed | AampMPDParseHelper.cpp:1595-1623 | For any refreshes, what is returned falls short of all listed numbers above the initial mark by exactly the durations of those never counted. |
| Timeline.EachSegmentCountedOnceIff | AampMPDParseHelper.cpp:1595-1623 | The returned durations add up to every segment number above the initial mark that was ever listed, each once, if and only if no refresh lists a number at or below the mark of that moment that no earlier refresh listed. |
| Timeline.SegmentsArePositive | AampMPDUtils.cpp:201-213 | Every segment of every timeline has a positive duration, as that condition assumes: a zero duration or timescale counts as two seconds. |
| Timeline.EachSegmentCountedOnce | AampMPDParseHelper.cpp:1595-1623 | In particular this holds whenever the start numbers never decrease, whatever the durations. |
| Timeline.MovingBackIsNotCounted | AampMPDParseHelper.cpp:1611-1619 | A concrete failure: a refresh whose start number moves back over a gap lists a segment above the initial mark that is never counted. |
| SegmentIndex.FieldRoundTrip | AampBoxReader.h:76-92 | Printing a number big-endian in n bytes and reading it back returns it. |
| SegmentIndex.BoxTypeIsSidx | AampMPDUtils.cpp:234-248 | The box type compared with is "sidx" in ASCII. |
| SegmentIndex.BoxReader.Read | AampBoxReader.h:76-92 | Advances by n bytes and returns their big-endian value; records whether every read stayed inside. |
| SegmentIndex.ParseSegmentIndexBox | AampMPDUtils.cpp:225-305 | For any input, says exactly when all reads stay inside the data, and then answers from the fields at their positions. |
| SegmentIndex.PrintThenParse | AampMPDUtils.cpp:225-305 | For every well-formed version 0 or 1 box: parsing the printed box returns the i-th referenced size and duration for every valid i, rejects every other i, returns first_offset modulo 2^32, and stays inside the box. |
| BufferControl.SpanIsDurationOfAllButLast | AampBufferControl.h:182-194 | For contiguous fragments the span between the first and the last start is the total duration of all but the last. |
| BufferControl.BufferControlMaster.InjectedSecondsMeaning | AampBufferControl.h:182-194 | For contiguous fragments, injected seconds are the durations of all but the last fragment since the last restart. |
| BufferControl.BufferControlMaster.UpdateInternal | AampBufferControl.cpp:115-213 | Enters and leaves FULL exactly under the stated conditions on stream readiness, waiting and buffered seconds against the target; downloads are enabled exactly while FILLING. |
| BufferControl.BufferControlMaster.Update | AampBufferControl.cpp:406-434 | Outside teardown a time-based strategy, new or not, changes between FILLING and FULL exactly under the stated conditions and downloads are enabled exactly while it fills; a byte-based one changes nothing; FULL is entered only when, for contiguous fragments, the durations of all but the last, less the elapsed time, reach the target; in teardown nothing changes. |
| BufferControl.BufferControlMaster.NotifyFragmentInject | AampBufferControl.cpp:258-295 | For a time-based strategy outside teardown the fragment is recorded, from a new start if it is the first buffer or the count was restarted, and the strategy is updated as in Update; otherwise nothing changes. |
| BufferControl.BufferControlMaster.NeedData | AampBufferControl.cpp:329-367 | Outside teardown a strategy waiting for data (or a new one) goes to FILLING with downloads enabled, and any other is left alone; in teardown downloads are enabled directly. |
| BufferControl.BufferControlMaster.EnoughData | AampBufferControl.cpp:369-404 | Outside teardown the strategy then waits for data with the injected count restarted, and downloads stop if it was filling or full; in teardown downloads are disabled directly. |
| BufferControl.BufferControlMaster.Underflow | AampBufferControl.cpp:244-251 | A time-based strategy goes to FILLING with downloads enabled and its count restarted. |
| BufferControl.BufferControlMaster.TeardownEnd | AampBufferControl.cpp:489-495 | Drops the strategy and disables downloads. |
| BufferControl.BufferControlMaster.CreateOrChangeStrategyIfRequired | AampBufferControl.cpp:307-320 | A time-based strategy is never replaced by a byte-based one; a new strategy waits for data. |
| ManifestRefresh.NextWaitTime | AampMPDDownloader.cpp:975-1112 | For a live manifest outside low latency the delay is in [500, 6000] ms for every stored buffer value and update period, and for a known buffer b at most max(500, 3b/4), with the exact value in each range of b; a value below -1 acts as an ample buffer; in low latency it follows the update period, and only one branch can leave those bounds. |
| ManifestRefresh.BufferDelay | AampMPDDownloader.cpp:1006-1046 | The exact delay for a known buffer in each range, within max(500, 3b/4); -1 gives the default, and any other negative value, converted to unsigned, gives one and a half update periods. |
| ManifestRefresh.RemainingWait | AampMPDDownloader.cpp:517-523 | Time spent plus remaining wait is the larger of the interval and the time spent. |

## Left out

- The asynchronous cache clean-up thread and allocation failures: AampCache is modelled under its access mutex.
- Cache.AampCache.MakeRoomForInitFragment: a limit below 1 with no requested entry of the type, where the code would dereference cache.end().
- Cache.AampCache.Insert: that same case, payload sizes that add up to 2^64 bytes, and wrap-around of the sequence number.
- Hash-map iteration order: loops over the cache and the player maps take the keys in an arbitrary order.
- A scheduler task that never returns, or that itself calls Suspend, Resume or Stop; EnableScheduleTask.
- A poll of the latency monitor is one action with respect to the threshold reset of EnableRateCorrection; floating-point rounding of thresholds and rates.
- LatencyLifecycle.NoLostEnable: OnBufferLevelUpdate callers may signal more often than the code's guards on the buffer level allow, which only adds interleavings.
- Media and encrypted headers, ID3 handlers, flush positions and sink creation failures of the stream sink manager; client sinks installed in single-pipeline mode.
- EventListeners.AampEventManager.SendEventSync: addresses of deleted nodes are never reused in the model's store.
- The choice between synchronous and asynchronous sending, the fake-tune filter and event statistics.
- UrlTemplate.Substitute: values that contain '$', besides the templates that Replace leaves out.
- UrlTemplate.Replace: templates with an unpaired '$' (for which the loop restarts at position 0 without end) or with width formats, and the joining of base URL and media attribute.
- Timeline.PeriodNewContentMs: the branch for periods with an explicit duration, and segment counts beyond the range of int.
- SegmentIndex.PrintThenParse: single-precision rounding of the duration; it is returned as ticks and timescale.
- AampTime's nanosecond rounding in BufferControl, and the per-track download calls made after each event.
- AampConfig, event payload classes, profiling, telemetry, DRM prefetching, CMCD, network persona, curl, libdash, GStreamer and manifest stitching.
