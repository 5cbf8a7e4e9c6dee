# Kiyomi: verified models of its queue, registry and storage algorithms

Kiyomi is a manga server. It pulls chapters through provider plugins, keeps them in a library on disk and
schedules the work on a background queue. This project models the parts of it that carry state from call to
call and proves what they promise, for every input, every interleaving and every reachable state.

* **Job queue.** `Jobs`, `JobTree` and `Retention` hold the rows, the parent links and the retention rule.
  `Scheduler` is the SQLite queue as a state machine: a step is one statement or transaction, or one section
  under the poll lock; handlers run between the poll that claims them and their finalize step, and a panic, a
  failed write, an aborted poll or a failed COMMIT is part of the step. `SchedulerSafety`, `Dispatch` and
  `Lifecycle` prove properties of all its runs, `PollRule` says what a poll does with each row, and `CleanupGap` what may fall between the two halves of a
  cleanup. `SqliteDriver` is the driver as a class whose every method is proved to be one step of that machine.
  `MemoryQueue` is the in-memory queue as a state machine: a step is one section under its lock, workers hold job
  objects that an update or deletion may take out of the store meanwhile, and `MemoryRuns` follows jobs through
  its runs. `InMemoryDriver` is that driver with its worklist loops and recursive delete over the job map, each
  method proved to be a step. `DriversAgree` compares the two drivers.
* **Provider registry.** `RegistrySpec` says from candidates and preferences alone what the routing maps must
  be; `Registry` keeps six maps in step with it; `PluginReload` runs any sequence of operations and the hot
  reload of a plugin. `Versions` is the version comparison.
* **Storage.** `CacheEviction` (TTL and LRU purge), `LibraryMerge` (chapter directories and the merge request),
  `Bindings` (bound providers and the active source).
* **Streams and protocols.** `Fanout` (one `pull_chapter` child per chapter under concurrency, retries and
  failures), `Permits` (the request semaphore whose permits travel with response bodies), `PageStream` (page
  bytes over a chunk stream), `LogCapture` (log lines into a ring buffer), `MangaFox` (printing and reading
  chapter ids).
* `GoStrings`, `Sequences` and `Options` are helpers.

Times are abstract integers. What the code takes from outside is a parameter: the order in which a Go map or a
directory is walked, which database call, rename, deletion or save fails, what a handler or a provider returns,
and `net/url`'s parser.

## What the code does not do

Some properties one would expect are false of the code. Each is refuted by an input or a family of inputs (the
second member named), and the first member gives the exact condition under which it holds.

* Single flight: `Lifecycle.SingleFlightStep`, `Lifecycle.CreateThenEnqueueRunsTwice`. A step keeps one execution
  per id exactly when it does not make the row of a running job pending; a child that is created as pending and
  then enqueued can run twice when a poll falls between the calls.
* Exact counters: `SchedulerSafety.SlotConservation`, `SchedulerSafety.AbortedPollLeaks`. They are exact exactly
  when no poll aborted after a claim. They never undercount, so `SchedulerSafety.LimitsHold` needs no such condition.
* Limits: `SchedulerSafety.StepStaysWithinLimits`, `SchedulerSafety.LimitCanBeUndercut`. A limit is exceeded only
  by setting it below what runs.
* A cleanup deletes no active job: `CleanupGap.GapStep` and `CleanupGap.CleanupGapIsSafe`,
  `CleanupGap.CleanupGapDropsRevivedJob`. The SQLite cleanup selects in one statement and deletes in a later
  transaction; it is safe exactly as long as nothing in between stores an active row in a selected tree, or a row
  that ties active ones to it.
* Sticky cancels and deletions in memory: `MemoryRuns.CancelStaysIff` and `MemoryRuns.DeletedRowRun`,
  `MemoryRuns.CancelLostInWindow`, `MemoryRuns.CancelLostAfterUpdate` and `MemoryRuns.DeletedJobComesBack`. Over
  any run a cancelled or deleted job stays so exactly as long as no client stores or enqueues it again and no
  worker enqueues its retry while the driver is not stopped. For the run that a cancel or deletion meets,
  `MemoryRuns.CancelledRun` and `MemoryRuns.DeletedRun` say when that is: exactly when the object the worker
  settles asks for a retry and the driver is not stopped before. A cancel that comes after an update replaced
  the stored object is therefore lost at any point of the run, else only one after the settling.
* The recursive query ends: `JobTree.QueryEndsIffAcyclic`, `JobTree.SelfParentNeverEnds`. The in-memory walks
  always end.
* Root trees are disjoint: `Retention.RootTreesApart`, `Retention.EmptyIdJoinsRoots`.
* One child per chapter: `Fanout.OneExecutionIsExact`, `Fanout.RepeatedFetchMakesTwoChildren`.
* Every saved chapter gets its child: `Fanout.AtMostOneChild` with `Fanout.OrphansStay`,
  `Fanout.OrphanIsNeverPulled`. A retry takes a chapter that was saved without its child for present.
* No old adapter after a reload: `PluginReload.ReloadLeavesNoOldRoute`,
  `PluginReload.DroppedProviderStaysRouted` and `PluginReload.RenamedPluginKeepsOldRoute`.
* Exact routes: `Registry.Registry.SetUserPreference` and `Registry.Registry.Register`,
  `Registry.PreferenceBreaksRouting` and `Registry.NamespacedIdTakesHandle`. A preference under a namespaced id
  clears routes that should stay; registering under an id with '@' takes over the handles under that id, and just
  those of them whose route it changes are wrong.
* One expiry rule: `CacheEviction.PurgeAndGetPathAgree`, `CacheEviction.ImageWithoutMetadataIsKept` and
  `CacheEviction.UnstampedImageIsServed`.
* A merge loses no chapter: `LibraryMerge.FaultyMergeKeepsIff` and `LibraryMerge.Library.MergeLibraryManga`,
  `LibraryMerge.FailedRenameLosesChapter`. The sources are deleted even if moving their chapters failed; which
  chapters are kept then is read off the library before the merge and the order of its directories.
* The active source is listed: `Bindings.SwitchStaysConsistentIff`, `Bindings.SwitchLosesClashingPair`.
* A content-capable provider is left: `Bindings.RemovalIsGuardedIff`, `Bindings.LastContentProviderCanGo` and
  `Bindings.LastContentProviderCanGoBesideActive`.
* Chapter ids read back: `MangaFox.ChapterRoundTrip`, `MangaFox.DashesCollide`.

Code and documentation disagree in these places; the model follows the code.

* `RemoveProvider` is documented to fail when no content-capable provider would be left
  (internal/library/library.go:1302-1303). The code checks this only when the active source is removed, see `Bindings.RemovalIsGuardedIff`.
* docs/design/background_jobs.md promises crash recovery (line 115) and exponential backoff (lines 150-163). The
  drivers have neither: a row left running stays running, and a retry is pending at once.
* The comment on `recomputeWinner` ranks built-ins above preferences (pkg/provider/registry.go:212-215). The
  code lets a preference for a registered plugin win.
* `compareVersionStrings` is called a SemVer comparison but ignores pre-release suffixes.

## Model

| member | source | states |
|---|---|---|
| `JobTree.ClosedIsTree` | internal/queue/inmemory/driver.go:190-229 | a worklist that has taken in the job and every child of what it took in holds exactly the subtree, cyclic links or not |
| `JobTree.TreeByChildren` | internal/queue/inmemory/driver.go:105-123 | a subtree is its top row and, once that row is gone, the forest of its other children, even on a cycle |
| `JobTree.TreeAfterRemoval` | internal/queue/inmemory/driver.go:105-123 | removing whole subtrees takes from any other subtree just the rows removed |
| `JobTree.RemovalKeepsParentClosed` | internal/queue/inmemory/driver.go:92-123 | a store in which every named parent exists stays so when subtrees are removed |
| `JobTree.QueryEndsIffAcyclic` | internal/queue/sqlite/driver.go:309-330 | the recursive query reaches an empty round if and only if the job is not its own ancestor |
| `JobTree.SelfParentNeverEnds` | internal/queue/sqlite/driver.go:309-330 | a job that names itself as parent is in every round of the query |
| `JobTree.RecursiveQuery` | internal/queue/sqlite/driver.go:500-508 | on a job that is not its own ancestor the query lists exactly the subtree, and nothing for an unknown id |
| `Retention.HavingIsExpired` | internal/queue/sqlite/driver.go:528-548 | the counts and maximum of the HAVING clause say that no row of the tree is active and all are past the cutoff that applies |
| `Retention.RetentionRule` | internal/queue/sqlite/driver.go:528-548 | in the fields of the rows: a root expires if and only if no row of its tree is pending or running and every completion time, or update time where there is none, is within the cutoff, the failed one if any row failed |
| `Retention.BatchRule` | internal/queue/sqlite/driver.go:516-519 | a batch is all expired roots or as many of them as the batch size, 500 if that is not positive |
| `Retention.RootTreesApart` | internal/queue/sqlite/driver.go:528-548 | trees of two stored jobs share no row if and only if neither job is below the other |
| `Retention.NonEmptyIdsKeepRootsApart` | internal/queue/sqlite/driver.go:528-548 | while no job has the empty id, no root is below another and none is on a cycle, so the recursive queries on roots end |
| `Retention.EmptyIdJoinsRoots` | internal/queue/sqlite/driver.go:528-534 | a job stored under the empty id takes in the tree of a root whose parent is "" |
| `Retention.CleanupsAgree` | internal/queue/inmemory/driver.go:232-323 | every cleanup whose batch covers all expired roots leaves just the jobs outside their trees |
| `Retention.DoomedGrows` | internal/queue/sqlite/driver.go:589-602 | deleting one more tree after others, it may have gone with them already, is deleting all of them at once |
| `Retention.CleanupIsWholeTrees` | internal/queue/sqlite/driver.go:516-609 | with any batch size no tree with an active job loses a row, chosen trees go whole and parents stay closed; while no root is below another every other root tree is untouched |
| `MemoryQueue.ObjectsStay` | internal/queue/inmemory/driver.go:409-485 | in every step of any worker or client each worker keeps the job object it looked up, in the store or out of it |
| `MemoryQueue.RunSeesItsOwnObject` | internal/queue/inmemory/driver.go:78-103 | an update, deletion or cleanup leaves the object a worker holds, and how far it has come, as they were |
| `MemoryRuns.FinishedRowStep` | internal/queue/inmemory/driver.go:326-353 | a step leaves a finished row as it is, or deletes it, if and only if it is no create, update or enqueue that changes it and no retry by a worker while the driver runs |
| `MemoryRuns.FinishedRowRun` | internal/queue/inmemory/driver.go:409-485 | over every run of clients and workers that holds throughout if and only if no step is one of those |
| `MemoryRuns.CancelStaysIff` | internal/queue/inmemory/driver.go:190-229 | what a cancel failed stays as the cancel left it throughout a run, or is deleted, under exactly that condition |
| `MemoryRuns.AbsentRowStep` | internal/queue/inmemory/driver.go:92-123 | an id without a row gets one in a step if and only if a client creates or enqueues it or a worker retries it while the driver runs |
| `MemoryRuns.DeletedRowRun` | internal/queue/inmemory/driver.go:92-123 | a deleted job stays away throughout a run if and only if no step is one of those |
| `MemoryRuns.CancelBeforeRetry` | internal/queue/inmemory/driver.go:456-484 | a job cancelled before or after its run is settled ends active if and only if the settled object asks for a retry and the driver is not stopped before it, whether the worker holds the stored object or one an update replaced |
| `MemoryRuns.DeleteBeforeRetry` | internal/queue/inmemory/driver.go:456-484 | a job deleted before or after its run is settled is stored again, as pending, under exactly the same condition |
| `MemoryRuns.CancelledRun` | internal/queue/inmemory/driver.go:456-484 | on the driver itself, with any stop before the retry: the cancelled row ends active if and only if the run asks for a retry and the driver is not stopped, and it asks exactly if the object the worker holds says so and is not the stored one cancelled before the settling |
| `MemoryRuns.DeletedRun` | internal/queue/inmemory/driver.go:456-484 | on the driver itself: the deleted job is stored again if and only if the object the worker holds asks for a retry and the driver is not stopped |
| `MemoryRuns.CancelLostInWindow` | internal/queue/inmemory/driver.go:480-484 | a cancel between settling and retry is lost, and kept if the driver is stopped first |
| `MemoryRuns.UpdateReplaces` | internal/queue/inmemory/driver.go:78-89 | an update during a run leaves the worker with the replaced object |
| `MemoryRuns.CancelLostAfterUpdate` | internal/queue/inmemory/driver.go:78-89 | after such an update a cancel during the run is lost to the retry |
| `MemoryRuns.DeletedJobComesBack` | internal/queue/inmemory/driver.go:92-123 | a job deleted during its run comes back with the retry, and stays away if the driver is stopped first |
| `InMemoryDriver.Driver.CreateJob` | internal/queue/inmemory/driver.go:42-54 | is the create step: a known id is an error and changes nothing; otherwise the store gains the one row |
| `InMemoryDriver.Driver.UpdateJob` | internal/queue/inmemory/driver.go:78-89 | is the update step: an unknown id is an error; otherwise the id gets a new object, and workers keep the replaced one |
| `InMemoryDriver.Driver.DeleteJob` | internal/queue/inmemory/driver.go:92-103 | is the delete step: removes exactly the subtree of a stored job, whose objects live on for the workers that hold them |
| `InMemoryDriver.Driver.DeleteRecursive` | internal/queue/inmemory/driver.go:105-123 | the recursion that shrinks the map it scans ends, removes exactly the subtree and meets no row twice |
| `InMemoryDriver.Driver.CancelJob` | internal/queue/inmemory/driver.go:190-229 | is the cancel step: fails the pending and running rows of the subtree, changes no other row nor any object out of the store, and ends on cyclic links |
| `InMemoryDriver.Driver.CollectTree` | internal/queue/inmemory/driver.go:257-278 | the breadth-first walk of a cleanup collects exactly the subtree |
| `InMemoryDriver.Driver.IsEligible` | internal/queue/inmemory/driver.go:280-312 | the scan with its flags and running maximum decides the retention rule of the SQL query |
| `InMemoryDriver.Driver.PruneIfExpired` | internal/queue/inmemory/driver.go:250-320 | one turn removes exactly the tree a stored root has now, if and only if that tree is expired as it is now |
| `InMemoryDriver.Driver.CleanupJobs` | internal/queue/inmemory/driver.go:232-323 | in whatever order the map yields the roots, whole trees of counted roots go, no more than a batch and no active job; while no root is below another they are a full batch of the expired ones |
| `InMemoryDriver.Driver.Enqueue` | internal/queue/inmemory/driver.go:326-352 | makes one row pending or adds it so, and sends its id; once stopped it changes nothing, while a send that fails leaves the row pending |
| `InMemoryDriver.Driver.Register` | internal/queue/inmemory/driver.go:355-364 | a second handler for a type is a conflict and changes nothing |
| `InMemoryDriver.Driver.Stop` | internal/queue/inmemory/driver.go:391-394 | is the stop step, after which enqueues change nothing |
| `InMemoryDriver.Driver.FetchJob` | internal/queue/inmemory/driver.go:409-415 | takes the oldest id off the channel and holds its stored object, if there is one |
| `InMemoryDriver.Driver.CheckJob` | internal/queue/inmemory/driver.go:416-418 | goes on exactly with an object that is not finished |
| `InMemoryDriver.Driver.LookUpHandler` | internal/queue/inmemory/driver.go:420-422 | the object is run or failed by whether its type has a handler at this point |
| `InMemoryDriver.Driver.FailJob` | internal/queue/inmemory/driver.go:424-434 | an object without a handler fails unless it was finished meanwhile |
| `InMemoryDriver.Driver.ClaimJob` | internal/queue/inmemory/driver.go:436-444 | the handler is called exactly for an object that is still pending, which turns running, in the store if it is the stored one |
| `InMemoryDriver.Driver.SettleJob` | internal/queue/inmemory/driver.go:456-480 | only an object that says running changes, a retry is asked for exactly after a transient error with retries left, and the store follows only if it still holds that object |
| `InMemoryDriver.Driver.ReenqueueJob` | internal/queue/inmemory/driver.go:482-484 | the retry is an enqueue of the object the worker holds, whatever became of the row meanwhile |
| `DriversAgree.SettlingAgrees` | internal/queue/sqlite/driver.go:833-859 | for any claim-time copy and any running row both drivers leave the same row, save the update time, if and only if the run succeeded or the retries agree and so does the verdict on another retry |
| `DriversAgree.ClaimingAgrees` | internal/queue/inmemory/driver.go:424-444 | save the update time both drivers write the same row for a job they claim, and for one without a handler |
| `DriversAgree.RunsAgree` | internal/queue/inmemory/driver.go:458-483 | a job that keeps failing is run as often in memory as the bound on SQLite claims says: max(1, max_retries - retries) times |
| `DriversAgree.CleanUpBoth` | internal/queue/inmemory/driver.go:232-323 | both cleanups run on the same table, each in its own order, leave the same jobs when the batch covers all expired roots |
| `DriversAgree.DeleteInBoth` | internal/queue/sqlite/driver.go:309-330 | both drivers leave the same table when a job off any cycle is deleted: the rows that are not below it |
| `DriversAgree.CancelInBoth` | internal/queue/sqlite/driver.go:488-513 | both leave the same table when such a job is cancelled |
| `SchedulerSafety.ScanIsFaithful` | internal/queue/sqlite/driver.go:728-781 | after a poll's loop the counters have grown by the claims, each claim is the unaltered copy of a distinct pending row with a handler, and only claimed or handler-less rows changed |
| `SchedulerSafety.StepKeepsSlack` | internal/queue/sqlite/driver.go:752-794 | every step moves each counter as it moves the executions, but for the claims an aborted poll does not take back |
| `SchedulerSafety.SlotConservation` | internal/queue/sqlite/driver.go:752-794 | over every run the counters never undercount, and end exact if and only if no poll aborted after a claim |
| `SchedulerSafety.AbortedPollLeaks` | internal/queue/sqlite/driver.go:772-774 | a poll that claims one of two pending jobs and fails at the other leaves a counter one too high |
| `SchedulerSafety.StepStaysWithinLimits` | internal/queue/sqlite/driver.go:156-160 | a step keeps the counters within all limits if and only if it is no limit set below the group's count |
| `SchedulerSafety.LimitCanBeUndercut` | internal/queue/sqlite/driver.go:156-160 | a limit of one set on a group with two executions is exceeded at once |
| `SchedulerSafety.LimitsHold` | internal/queue/sqlite/driver.go:752-794 | whatever interleaves and fails, the executions themselves never exceed a positive limit |
| `Dispatch.ClaimsAreFeasible` | internal/queue/sqlite/driver.go:746-781 | a poll claims ready jobs only, within the global and every group's free slots |
| `Dispatch.DispatchIsOptimal` | internal/queue/sqlite/driver.go:693-802 | no choice of ready jobs that fits the free slots is larger than what a poll claims |
| `Dispatch.EveryGroupGetsItsShare` | internal/queue/sqlite/driver.go:693-802 | each group gets min(ready, free group slots) unless all global slots were given out |
| `Dispatch.DispatchIsFair` | internal/queue/sqlite/driver.go:719-781 | an older ready job is passed over for a newer one only of another group and only if its own group is full |
| `PollRule.ClaimsAreFirstServed` | internal/queue/sqlite/driver.go:728-781 | a set of rows is what a poll claims if and only if each row is in it exactly if its type has a handler and, counting the claimed rows before it, a global slot and one of its group are left |
| `PollRule.PollKeepsRule` | internal/queue/sqlite/driver.go:728-781 | a committed poll starts the claimed rows, fails each row without a handler unless its update fails or an earlier row with a handler found no global slot, and changes no other row |
| `PollRule.UnhandledJobsFail` | internal/queue/sqlite/driver.go:740-750 | a listed job without a handler fails with its error text and completion time, unless its update fails or it comes after the last claim of a poll that gave out every global slot |
| `PollRule.NewExecutions` | internal/queue/sqlite/driver.go:766-781 | the executions a poll adds are field by field copies of their rows, each of another job, and counters grow by just them unless the poll aborts |
| `PollRule.AbortLeaks` | internal/queue/sqlite/driver.go:772-774 | an aborted poll leaves the counters grown by just what its rows up to the error would claim |
| `PollRule.PollPromise` | internal/queue/sqlite/driver.go:693-802 | all of this for every way a poll can end; without a commit no row and no execution changes |
| `Lifecycle.SingleFlightStep` | internal/queue/sqlite/driver.go:464-472 | a step keeps one execution per id if and only if it does not make a running execution's row pending |
| `Lifecycle.CreateThenEnqueueRunsTwice` | internal/queue/pull_handler.go:548-560 | the create-then-enqueue of a child with a poll in between puts it in flight twice |
| `Lifecycle.StepWeighs` | internal/queue/sqlite/driver.go:840-858 | every claim lowers the number of claims a job has left and no step raises it, short of storing or enqueueing the job |
| `Lifecycle.RetriesAreBounded` | internal/queue/sqlite/driver.go:766-780 | over any run a pending job is claimed at most max(1, max_retries - retries) times until it is stored or enqueued anew |
| `Lifecycle.FailingJobUsesItsRetries` | internal/queue/sqlite/driver.go:833-859 | the bound is tight: a job alone in its table that keeps failing is claimed exactly that often |
| `Lifecycle.ClaimsAreBounded` | internal/queue/sqlite/driver.go:840-858 | without new work all later claims together are bounded by the potential of the stored jobs |
| `Lifecycle.CancelFailsTheSubtree` | internal/queue/sqlite/driver.go:488-513 | cancelling fails exactly the pending and running rows of the subtree |
| `Lifecycle.FinishedStaysFinished` | internal/queue/sqlite/driver.go:845-858 | in every continuation a finished row is unchanged or deleted until a caller stores or enqueues it |
| `Lifecycle.CancelIsSticky` | internal/queue/sqlite/driver.go:488-513 | a cancelled row stays as the cancel left it in every such continuation, also when its execution ends later |
| `Lifecycle.SingleFlightRun` | internal/queue/sqlite/driver.go:693-802 | at no point of a run an id is in flight twice if and only if no step of it makes a running execution's row pending |
| `Lifecycle.FreshDriverIsSafe` | internal/queue/sqlite/driver.go:138-147 | from a driver just opened on any table, limits, single flight and covering counters hold over all runs |
| `CleanupGap.DoomedWithRow` | internal/queue/sqlite/driver.go:578-586 | storing a row adds to the rows a cleanup will delete that row and the orphans below it, if it is a chosen root or its parent's tree is doomed, and nothing otherwise |
| `CleanupGap.GapStep` | internal/queue/sqlite/driver.go:551-606 | between select and delete a step keeps the selected trees free of active jobs if and only if it stores no row there that is active or ties active ones to them |
| `CleanupGap.EnqueueRearms` | internal/queue/sqlite/driver.go:464-472 | enqueueing a stored job breaks this if and only if the job is in a selected tree |
| `CleanupGap.CleanupGapIsSafe` | internal/queue/sqlite/driver.go:551-606 | over any steps in the gap the selected trees stay free of active jobs throughout if and only if no step rearms one, and then the deletion loses no active job |
| `CleanupGap.CleanupGapDropsRevivedJob` | internal/queue/sqlite/driver.go:551-606 | with an Enqueue in that gap a pending job is deleted |
| `SqliteDriver.Driver.constructor` | internal/queue/sqlite/driver.go:138-147 | a new driver has no executions and zero counters |
| `SqliteDriver.Driver.SetGroupLimit` | internal/queue/sqlite/driver.go:156-160 | is the limit step |
| `SqliteDriver.Driver.Register` | internal/queue/sqlite/driver.go:612-621 | a second handler for a type is a conflict and changes nothing |
| `SqliteDriver.Driver.CreateJob` | internal/queue/sqlite/driver.go:171-199 | is the create step: the table gains the one row, metadata included; a known id is an error, and a failing transaction changes nothing |
| `SqliteDriver.Driver.UpdateJob` | internal/queue/sqlite/driver.go:264-306 | is the update step, metadata included; an unknown id is an error, and a failing transaction changes nothing |
| `SqliteDriver.Driver.Enqueue` | internal/queue/sqlite/driver.go:427-485 | is the enqueue step: resets a known row to pending whatever its status; a failing transaction changes nothing |
| `SqliteDriver.Driver.DeleteJob` | internal/queue/sqlite/driver.go:309-330 | the recursive delete removes exactly the subtree of a stored job and changes nothing else; no affected row means not found |
| `SqliteDriver.Driver.CancelJob` | internal/queue/sqlite/driver.go:488-513 | the recursive update fails exactly the pending and running rows of the subtree, with error text and times |
| `SqliteDriver.Driver.IsCandidate` | internal/queue/sqlite/driver.go:541-547 | the counts and maximum computed for a root's rows select exactly the expired trees |
| `SqliteDriver.Driver.SelectCandidates` | internal/queue/sqlite/driver.go:528-548 | in whatever order groups come, grouping, HAVING and LIMIT yield distinct roots that are a full batch of expired ones |
| `SqliteDriver.Driver.DeleteTrees` | internal/queue/sqlite/driver.go:568-609 | deleting id by id, some of them perhaps gone already, is the removal of all their trees at once |
| `SqliteDriver.Driver.CleanupJobs` | internal/queue/sqlite/driver.go:516-609 | removes the whole trees of a full batch of expired roots and counts them, but for those gone with another root's tree; a failing transaction changes nothing |
| `SqliteDriver.Driver.ScanPending` | internal/queue/sqlite/driver.go:728-781 | the row loop with its breaks and error returns carries table, counters and claims as the poll step says, which `PollRule` spells out row by row |
| `SqliteDriver.Driver.RollBackCounters` | internal/queue/sqlite/driver.go:785-793 | takes back exactly the increments of the claims |
| `SqliteDriver.Driver.PollAndDispatch` | internal/queue/sqlite/driver.go:693-802 | is the poll step for every way it can end: claimed rows, failed rows, executions and counters follow the first-come-first-served rule, and without a commit no row changes |
| `SqliteDriver.Driver.FinalizeJob` | internal/queue/sqlite/driver.go:833-871 | a stored running row is completed, failed or made pending again by outcome and claim-time counts, with times and error text; no other row changes, and the slots are freed by the claim-time group |
| `Versions.ComparisonIsTotalPreorder` | pkg/provider/registry.go:412-454 | the comparison is antisymmetric and transitive, and 0 only between versions read as the same numbers |
| `Versions.CleanReadsPrinted` | pkg/provider/registry.go:413-431 | a published version is read back number by number, whatever its prefix and pre-release suffix |
| `Versions.ShortVersions` | pkg/provider/registry.go:413-431 | numbers that are left out read as zero |
| `Versions.ComparesAsSemVer` | pkg/provider/registry.go:433-453 | published versions are ordered by major, then minor, then patch |
| `RegistrySpec.NewestIsEarliestMaximum` | pkg/provider/registry.go:253-258 | the version loop picks the earliest candidate no other is newer than |
| `RegistrySpec.WinnerFollowsTheRules` | pkg/provider/registry.go:216-259 | a preference for a registered plugin wins, unless it is named builtin and there is a built-in; else the first built-in, else the earliest newest version |
| `RegistrySpec.OwnsIsBase` | pkg/provider/registry.go:193-209 | the prefix test of clearing finds exactly the handles of its base id |
| `RegistrySpec.NamespacedRoute` | pkg/provider/registry.go:216-277 | a handle base@name leads to a provider if and only if that is the last candidate of this name, where built-ins are named builtin and plugins by their id |
| `RegistrySpec.PrimaryRoute` | pkg/provider/registry.go:216-277 | a plain base id leads to the winner under the preference set for it, and nowhere without candidates |
| `RegistrySpec.TargetIsCandidate` | pkg/provider/registry.go:216-277 | every route leads to a candidate of the handle's base id |
| `Registry.Registry.ClearRouting` | pkg/provider/registry.go:193-209 | all four maps lose exactly the base id's handles |
| `Registry.Registry.IndexProvider` | pkg/provider/registry.go:279-299 | a route is set and the capability maps follow it, also when the new provider has fewer capabilities |
| `Registry.Registry.ChooseWinner` | pkg/provider/registry.go:224-259 | the three searches and the choice between them yield the rule's winner |
| `Registry.Registry.RecomputeWinner` | pkg/provider/registry.go:216-277 | the routes of one base id become what candidates and preference determine, all others stay |
| `Registry.Registry.Register` | pkg/provider/registry.go:55-104 | the candidate, field by field, takes the first place of its plugin id and kind or comes last, its handles are routed anew and no others, and all four maps stay exact if the id has no '@'; if it has one, exactly the handles under it whose route changes are wrong |
| `Registry.Registry.SwapProvider` | pkg/provider/registry.go:107-129 | the first candidate with the old provider serves the new one, with its version if it has one; says whether there was one, and keeps all four maps exact |
| `Registry.Registry.Unregister` | pkg/provider/registry.go:132-168 | removes just the candidates the primary or namespaced id names, keeps the order of the others and all four maps exact, and no handle leads to a provider without a candidate |
| `Registry.Registry.UnregisterPlugin` | pkg/provider/registry.go:171-191 | under every base id exactly the candidates that are not built in and have the plugin's id go, the others keep their order, no handle leads to a provider without a candidate, and all four maps stay exact |
| `Registry.Registry.SetUserPreference` | pkg/provider/registry.go:45-51 | keeps all four maps exact if and only if the id has no '@' or owns no routed handle, whose routes it otherwise clears |
| `Registry.PreferenceBreaksRouting` | pkg/provider/registry.go:45-51 | a preference under the namespaced id of a registered plugin provider takes its route away |
| `Registry.NamespacedIdTakesHandle` | pkg/provider/registry.go:55-104 | a provider whose id is the namespaced handle of another one takes that handle over |
| `PluginReload.Apply` | pkg/provider/registry.go:45-191 | each operation changes candidates and preferences as specified, keeps all four maps exact and no slot doubled |
| `PluginReload.Replay` | pkg/provider/registry.go:45-191 | after any sequence of operations all four routing maps equal those computed from scratch from the resulting candidates and preferences |
| `PluginReload.PluginManager.Reload` | internal/plugin/host/manager.go:290-336 | a failed reload changes nothing; a successful one registers every adapter and records instance and binary |
| `PluginReload.ReloadIsGapFree` | internal/plugin/host/manager.go:305-314 | after each Register call, in any order, every handle routed before is still routed |
| `PluginReload.RegisterEvicts` | pkg/provider/registry.go:82-101 | a new adapter evicts the old one of its base id if and only if it comes under the old plugin id, and disturbs no other base id |
| `PluginReload.ReloadLeavesNoOldRoute` | internal/plugin/host/manager.go:305-314 | no handle leads to an old adapter after a reload if and only if the new instance, whatever plugin id it reports, offers every provider id of an old adapter in the old plugin's slot |
| `PluginReload.DroppedProviderStaysRouted` | internal/plugin/host/manager.go:305-314 | after a reload that offers nothing the old adapter still serves its base id |
| `PluginReload.RenamedPluginKeepsOldRoute` | internal/plugin/host/manager.go:305-314 | after a reload to an instance with another plugin id the old adapter still serves its namespaced handle |
| `CacheEviction.PurgeAndGetPathAgree` | internal/cache/cache.go:85-97 | an image the purge keeps is refused if and only if its metadata is not intact, one it removes is served if and only if its metadata is intact without a creation stamp |
| `CacheEviction.ImageWithoutMetadataIsKept` | internal/cache/cache.go:336-361 | a fresh image without its metadata file is kept but never served |
| `CacheEviction.UnstampedImageIsServed` | internal/cache/cache.go:94-97 | an old image with a zero creation stamp is served although the purge would remove it |
| `CacheEviction.TtlAccounting` | internal/cache/cache.go:348-361 | expired and live bytes make up the bytes of all images found |
| `CacheEviction.TotalByElements` | internal/cache/cache.go:429-433 | the total does not depend on the order workers report in |
| `CacheEviction.EvictCountIsLeast` | internal/cache/cache.go:440-448 | the eviction loop stops as soon as the rest fits and not one item earlier |
| `CacheEviction.EvictionIsLeastRecentlyUsed` | internal/cache/cache.go:435-448 | survivors fit, one eviction fewer would not do, none happens if all fits, no survivor is older than an evicted item |
| `CacheEviction.DiskCache.ScanFiles` | internal/cache/cache.go:334-361 | removes exactly the expired images whose removal works, and reports the entries of the rest and the bytes of all expired ones |
| `CacheEviction.DiskCache.ScanAll` | internal/cache/cache.go:384-426 | however files are split among workers, the merged result is that of one scan |
| `CacheEviction.DiskCache.PurgeExpiredAndLRU` | internal/cache/cache.go:292-474 | in the stamps of the files: exactly the images past the TTL go, and of the others some of which none was used later than one that stays, so that the rest fits and would not with one of them more; removals that fail leave their image but are counted, and the returned bytes and those left to stay make up all bytes |
| `CacheEviction.DiskCache.GetPath` | internal/cache/cache.go:73-110 | a hit needs intact metadata that is not past the TTL, and records the access; nothing else changes |
| `CacheEviction.ReadThenPurge` | internal/cache/cache.go:103-110 | an image read before a purge is evicted only if every other unexpired image is |
| `Fanout.StepKeepsAccounts` | internal/queue/pull_handler.go:200-235 | at every step each chapter has at most one child, and one on disk without a child was given, is orphaned or is pending |
| `Fanout.AtMostOneChild` | internal/queue/pull_handler.go:182-236 | over every interleaving, with distinct fetches, no chapter has two children; while nobody holds the lock, a chapter only the fan-out saved has its child exactly if it is on disk and no execution failed between the two |
| `Fanout.FinishedFetchIsCovered` | internal/queue/pull_handler.go:191-236 | an execution that finishes leaves each fetched chapter that was absent at its listing with exactly one child |
| `Fanout.OrphansStay` | internal/queue/pull_handler.go:195-199 | a chapter saved without its child gets none in any later execution |
| `Fanout.OrphanIsNeverPulled` | internal/queue/pull_handler.go:195-235 | a run in which a child cannot be created and the next execution finishes without making up for it |
| `Fanout.LoopCreates` | internal/queue/pull_handler.go:196-236 | a loop without failures creates one child for every occurrence of a missing chapter |
| `Fanout.OneExecutionIsExact` | internal/queue/pull_handler.go:191-236 | one failure-free execution gives no chapter two children if and only if the missing chapters of its fetch are distinct |
| `Fanout.RepeatedFetchMakesTwoChildren` | internal/queue/pull_handler.go:196-235 | a fetch that lists a new chapter twice makes two children |
| `Fanout.FirstFaultIsFirst` | internal/queue/pull_handler.go:196-236 | the loop ends at the first missing chapter at which something fails, and there only |
| `Fanout.NothingIsSkipped` | internal/queue/pull_handler.go:196-236 | up to that turn every occurrence of a missing chapter was saved and got its child |
| `Fanout.TurnKinds` | internal/queue/pull_handler.go:208-235 | of the ways a turn can end only a clean one goes on, only a failing save saves nothing, and the child exists unless it or the save failed |
| `Fanout.PullHandler.PullOne` | internal/queue/pull_handler.go:197-235 | one turn skips a listed chapter, else saves it and creates its child as far as nothing fails, and frees the lock when it fails |
| `Fanout.PullHandler.HandlePullManga` | internal/queue/pull_handler.go:182-236 | the handler's locked section is a run of the protocol; disk and children end as its turns up to the first fault say, it succeeds exactly if there is none, and the lock is freed on every path |
| `Bindings.KeysNamePairs` | internal/library/library.go:171 | deduplication keys identify pairs when no provider id contains NUL |
| `Bindings.FirstsKeepKeys` | internal/library/library.go:164-179 | deduplication keeps all keys, each once |
| `Bindings.FirstsAreFirst` | internal/library/library.go:164-179 | what it keeps of each key is the first |
| `Bindings.FirstsGrow` | internal/api/library_handler.go:1594-1612 | appending more refs never disturbs those kept before |
| `Bindings.Normalize` | internal/library/library.go:164-179 | the loop with the seen map keeps exactly the first ref of every key, in order |
| `Bindings.AddStaysConsistent` | internal/library/library.go:1279-1300 | adding keeps pairs unique and the active source listed, and lists the pair unless its key is taken by another |
| `Bindings.RemoveStaysConsistent` | internal/library/library.go:1304-1348 | removing keeps both, and an accepted removal leaves no such pair |
| `Bindings.WithoutInOrder` | internal/library/library.go:1315-1324 | what a removal leaves stands in the order it had |
| `Bindings.SwitchStaysConsistentIff` | internal/library/library.go:1352-1398 | switching keeps the active source listed if and only if the pair is bound or its key is free of other pairs |
| `Bindings.SwitchLosesClashingPair` | internal/library/library.go:164-179 | a switch to a pair whose key another pair holds leaves the active source unlisted |
| `Bindings.MergeStaysConsistent` | internal/api/library_handler.go:1473-1511 | an accepted merge keeps both, and the kept manga's providers come first |
| `Bindings.BindingsStayConsistent` | internal/library/library.go:1279-1398 | after any sequence of operations with NUL-free provider ids pairs are unique and the active source is listed |
| `Bindings.ActiveRemovalLeavesContent` | internal/library/library.go:1326-1342 | the active source can be removed if and only if a content-capable provider stays |
| `Bindings.RemovalIsGuardedIff` | internal/library/library.go:1302-1345 | an accepted removal leaves a content-capable provider whatever the capabilities are, if and only if the pair is the active source or not bound at all |
| `Bindings.LastContentProviderCanGo` | internal/library/library.go:1326-1345 | without an active source the one content-capable provider can be removed |
| `Bindings.LastContentProviderCanGoBesideActive` | internal/library/library.go:1326-1345 | it can be removed beside an active source that is not content-capable any more |
| `Bindings.Store.AddProvider` | internal/library/library.go:1279-1300 | gives the first ref of the pair the new title unless that is empty, or appends the ref; the active source stays and a failed save leaves the file |
| `Bindings.Store.RemoveProvider` | internal/library/library.go:1304-1348 | succeeds exactly if the pair is bound and, when active, a content-capable provider stays; then the pair is gone and no longer active, otherwise nothing changes |
| `Bindings.Store.SwitchContentProvider` | internal/library/library.go:1352-1398 | the pair becomes the active source and is appended if it is not bound, with the title taken from the metadata if none is given; reading mode, chapter and sync time of the source stay unless a mode is given, and a failed save leaves the file |
| `LibraryMerge.MergeIsFirstWinsUnion` | internal/library/library.go:1512-1595 | after a list of merges keep has its own chapters and each other visible one from the first source having it, and every other directory is where it was |
| `LibraryMerge.UnionByChapter` | internal/api/library_handler.go:1513-1542 | after merging and deleting, keep has its own chapters and each chapter of a source whose provider directory does not start with a dot, with the content of the first source having it; no source has any, and other mangas are as they were |
| `LibraryMerge.MergedRefs` | internal/api/library_handler.go:1594-1612 | the merged bindings hold a ref under each key of keep and the sources, and none that is not theirs |
| `LibraryMerge.MergedContent` | internal/api/library_handler.go:1478-1499 | the content source is the request's pair or keep's own, with keep's reading mode and nothing else |
| `LibraryMerge.NoKeyIsLost` | internal/api/library_handler.go:1513-1542 | every visible chapter key of keep and sources is in keep before and after the sources are deleted |
| `LibraryMerge.LeftoversCollide` | internal/library/library.go:1582-1586 | a source is left with a visible chapter if and only if keep or an earlier source had it |
| `LibraryMerge.FailedMergeLosesChapters` | internal/api/library_handler.go:1513-1542 | deleting a source loses a visible chapter if and only if its merge did not move everything movable |
| `LibraryMerge.FailedRenameLosesChapter` | internal/api/library_handler.go:1513-1542 | one chapter whose rename failed is deleted with its source |
| `LibraryMerge.ProgressStep` | internal/library/library.go:1512-1561 | through failing merges keep only grows, nothing vanishes that keep does not have, and what keep misses of a source is due to a failing rename of that source |
| `LibraryMerge.OneSourceLossIff` | internal/library/library.go:1512-1561 | with one source keep misses a visible chapter if and only if a rename that the merge needs fails |
| `LibraryMerge.FaultyMergeKeepsIff` | internal/api/library_handler.go:1513-1521 | for any sources and failing renames keep has a chapter in the end if and only if it had it, or a source has it and each chapter that stands before it there with a failing rename was in keep or came from an earlier source |
| `LibraryMerge.FaultyProgress` | internal/api/library_handler.go:1513-1521 | over all sources, failures or not, nothing vanishes that keep does not have, and whatever keep misses of a source is due to a failing rename of that source |
| `LibraryMerge.Library.ListKeys` | internal/library/library.go:1524-1547 | lists exactly the source's visible chapters in the order of the directories |
| `LibraryMerge.Library.MergeSingleChapter` | internal/library/library.go:1567-1595 | a collision is left alone, a failed rename changes nothing, else the one directory moves |
| `LibraryMerge.Library.MergeChapters` | internal/library/library.go:1512-1561 | moves exactly the absent visible chapters before the first of them whose rename fails, in directory order, and succeeds if and only if there is none |
| `LibraryMerge.Library.MergeAllChapters` | internal/api/library_handler.go:1513-1521 | over all sources, failures or not, the library ends as the faulty merge says, keep's chapters and other mangas as they were; without failures it is the first-wins union |
| `LibraryMerge.Library.ResolveMerge` | internal/api/library_handler.go:1414-1511 | the request is accepted exactly if it is well formed, its mangas exist and the wanted content provider is in the merged list |
| `LibraryMerge.Library.MergeLibraryManga` | internal/api/library_handler.go:1380-1557 | a rejected request changes neither chapters nor bindings; an accepted one leaves consistent bindings and, without failures, the union and no source; which chapters keep has in the end is known exactly for any failing renames |
| `LibraryMerge.MergeProviderRefs` | internal/api/library_handler.go:1594-1612 | in whatever order the sources come, the result is the first-seen union with keep's refs |
| `Permits.StepConserves` | plugin-sdk/http/ratelimit.go:27-54 | every step keeps the permits held equal to calls in transport plus open bodies, within the limit |
| `Permits.ReleaseNeverBlocks` | plugin-sdk/http/ratelimit.go:35-50 | a release always finds a permit to receive |
| `Permits.PermitsConserved` | plugin-sdk/http/ratelimit.go:21-56 | over every interleaving that equality holds, and each call's acquisitions and releases balance with what it holds |
| `Permits.ReleasedExactlyOnce` | plugin-sdk/http/ratelimit.go:103-116 | a call acquires at most once and has released exactly as often when it is over, however often its body is closed |
| `Permits.Limiter.Enter` | plugin-sdk/http/ratelimit.go:30-34 | acquires within the limit or gives up with the context, and with both at hand does what the runtime picks |
| `Permits.Limiter.Leave` | plugin-sdk/http/ratelimit.go:36-52 | an error or a missing body releases at once, a body carries the permit away |
| `Permits.Body.Close` | plugin-sdk/http/ratelimit.go:109-116 | only the first Close releases |
| `PageStream.ReadOne` | plugin-sdk/grpc_content.go:131-145 | one read takes just its bytes off the source and ends it when it says so |
| `PageStream.ConcatHead` | plugin-sdk/grpc_content.go:276-294 | receiving a chunk takes exactly its bytes off what is still to come |
| `PageStream.FetchPageStream` | plugin-sdk/grpc_content.go:131-145 | the chunks sent are non-empty and make up the source bytes in order, or a prefix if a send fails; the result says how the source ended |
| `PageStream.Reader.Read` | plugin-sdk/grpc_content.go:276-294 | hands out as much of the leftover, or else of the next chunk, as fits; returned, buffered and outstanding bytes always make up the stream, and the end comes only after all of them |
| `PageStream.ReadWith` | internal/plugin/host/adapter.go:486-504 | for any sequence of buffer sizes the bytes read are a prefix of the stream, all of it at its end, and no read into a non-empty buffer is idle |
| `PageStream.Transfer` | plugin-sdk/grpc_content.go:131-145 | server, stream and reader together deliver the source bytes in order for any source reads and buffer size |
| `PageStream.AdapterStream.constructor` | internal/plugin/host/adapter.go:82-90 | an open stream counts as one active call |
| `PageStream.AdapterStream.Close` | internal/plugin/host/adapter.go:506-516 | closing any number of times takes the call off the count once |
| `LogCapture.RingBuffer.Push` | internal/plugin/host/ring_buffer.go:34-46 | the ring keeps holding the last `capacity` pushed entries |
| `LogCapture.RingBuffer.Entries` | internal/plugin/host/ring_buffer.go:49-59 | returns the last `capacity` pushed entries, oldest first |
| `LogCapture.RingBuffer.Clear` | internal/plugin/host/ring_buffer.go:87-93 | nothing pushed before it is seen again |
| `LogCapture.SpaceByCodePoint` | internal/plugin/host/interceptor.go:74 | the UTF-8 bytes of a character start with white space exactly if its code point is one of those of unicode.IsSpace, and then are it |
| `LogCapture.TrimSpaceIsMaximal` | internal/plugin/host/interceptor.go:74 | trimming removes only white-space characters and leaves none at either end |
| `LogCapture.TrimsToNothing` | internal/plugin/host/interceptor.go:75-77 | exactly the lines of nothing but white space are skipped |
| `LogCapture.LinesAreTheCut` | internal/plugin/host/interceptor.go:48-56 | lines and tail are the one way to cut the bytes at newlines |
| `LogCapture.LogInterceptor.Write` | internal/plugin/host/interceptor.go:44-59 | pending buffer and pushed lines depend on the bytes so far, not on how they were cut into calls |
| `LogCapture.LogInterceptor.Flush` | internal/plugin/host/interceptor.go:62-71 | acts like a newline exactly if a line is pending |
| `LogCapture.LogInterceptor.ProcessLine` | internal/plugin/host/interceptor.go:73-143 | a non-blank line is pushed once, trimmed |
| `LogCapture.Capture` | internal/plugin/host/interceptor.go:44-59 | however the stream is cut, the log is the last `capacity` non-blank complete lines and the rest is the unterminated tail |
| `MangaFox.CleanChapterID` | plugins/mangafox/client.go:242-277 | the string steps and the filter loop compute the specified id |
| `MangaFox.ResolveChapterURL` | plugins/mangafox/client.go:111-145 | the string steps compute the specified URL |
| `MangaFox.LinkStripped` | plugins/mangafox/client.go:242-262 | of a chapter link exactly the components and the page name are left |
| `MangaFox.CleanIDIsJoin` | plugins/mangafox/client.go:264-276 | the id of a chapter link is its components joined by dashes |
| `MangaFox.ReadableReadsBack` | plugins/mangafox/client.go:120-139 | an id without dashes or tildes in its components is read back to the path it came from |
| `MangaFox.PathIsPlain` | plugins/mangafox/client.go:120-139 | reading an id only shortens it and leaves no dash or tilde |
| `MangaFox.ChapterRoundTrip` | plugins/mangafox/content_provider.go:49-65 | a listed chapter is fetched from the link it was listed with if and only if no component has a dash or tilde and the id has no outer white space |
| `MangaFox.IdsAreInjective` | plugins/mangafox/client.go:242-277 | chapters of one manga that read back have different ids |
| `MangaFox.DashesCollide` | plugins/mangafox/client.go:264-276 | folders p/q and p-q get the same id |
| `MangaFox.WantedKeeps` | plugins/mangafox/client.go:264-271 | of a path exactly the non-empty components that do not end in .html are kept, in order |
| `MangaFox.HostDoesNotMatter` | plugins/mangafox/client.go:243-246 | a chapter link with a host that the parser recognises has the id of its path |
| `MangaFox.RejectedHostIsStripped` | plugins/mangafox/client.go:246-251 | scheme and host are cut off as well if the parser rejects the link |
| `MangaFox.SlugOfLink` | plugins/mangafox/client.go:89-106 | a manga's slug is read from its link as from its bare name |
| `MangaFox.TildesReadBack` | plugins/mangafox/client.go:120-139 | an id with tildes between its components leads to their path, unless it starts like the manga's own folder |
| `MangaFox.LinkReadsBack` | plugins/mangafox/client.go:120-139 | the path of a chapter link leads back to the link's components |
| `MangaFox.PageEndingGoes` | plugins/mangafox/client.go:132-136 | of another page's path just the ending .html goes |
| `MangaFox.AbsoluteReferenceStays` | plugins/mangafox/client.go:111-116 | a chapter reference that is a URL is fetched as it is |

## Left out

- The SQL engine and the text form of stored times: a table is a map, a row list ordered by creation time is given, and times are integers. A row iteration error that silently shortens the pending list is not modelled.
- Job listing and filtering, and the poll trigger: they do not influence which jobs run. A job's metadata is a field of its row.
- Queue liveness and crash recovery: the code has no recovery of running rows, and the in-memory worker can block on its own channel.
- InMemoryDriver.Driver.Enqueue: the look at the stop channel and the store section are one step; a stop between them counts as one after it. That the channel's buffer is full, so that a send waits, is not modelled, nor when a stopped worker loop ends.
- InMemoryDriver.Driver.FetchJob: ids whose job is not stored are dropped as in the code; job objects are named by the step that took them out of the store instead of by address.
- InMemoryDriver.Driver.CleanupJobs: the cutoffs are given. If a root is below another one, which takes a job stored under the empty id, the pruned roots depend on the map order; then only that the trees go whole, that no active job goes and the count are stated.
- SqliteDriver.Driver.CleanupJobs: requires roots that are on no cycle, as the query does not end otherwise; no step falls between its two halves, which `CleanupGap` treats. What the prunedCount of a failing transaction is stays open.
- DriversAgree.CleanUpBoth: takes no root to be below another, which holds while no job has the empty id.
- SqliteDriver.Driver.DeleteJob: requires acyclic links, as on a cycle the query does not end; likewise for cancelling.
- SqliteDriver.Driver.PollAndDispatch: handlers are registered before the poll or after it, not during its row loop.
- Registry.Registry.Register: objects that implement no provider interface, which the code ignores, are left out.
- PluginReload.Replay: takes registered and preferred ids without '@', the separator of the handles.
- PluginReload.PluginManager.Reload: draining and killing the old process is left out; a call can start on an old adapter after the drain check. The registry option is taken to be set.
- CacheEviction.DiskCache.GetPath: takes the path that the URL hashes to; a metadata write that fails is taken to leave the file as it was.
- CacheEviction.DiskCache.PurgeExpiredAndLRU: stale .json and .tmp files, images whose size cannot be read and the saturating time subtraction are left out; an image and its metadata go together or not at all.
- Fanout.AtMostOneChild: other mangas sharing a lock stripe, chapter deletion and ids that the library's path cleaning would change are left out; so is a provider directory or chapter file that cannot be read, which the listing silently treats as absent.
- Fanout.PullHandler.HandlePullManga: payload checks, the fetch itself, the cover job and the bindings stamp are left out.
- Pull group limits, page and cover jobs, and the metadata refresh: they would add only easy members.
- LibraryMerge.Library.MergeChapters: a directory that cannot be read, which also ends the merge of its source, is left out.
- LibraryMerge.Library.MergeLibraryManga: metadata, cover replacement and read errors are left out; manga ids are taken to name distinct directories and names to survive path cleaning. A manga exists if it has a bindings entry.
- Permits.Limiter.Enter: a panicking transport, which keeps its permit, is left out, and so are the token bucket, host limit and jitter wrappers.
- PageStream.Source.Read: a reader fills at most the buffer it is given, as io.Reader demands; gRPC itself is a list of chunks and an end.
- LogCapture.LogInterceptor.ProcessLine: JSON fields, levels and times of a log line and the copy to the host's logger are left out, as is a missing ring buffer; a cleared ring's old array contents are not modelled.
- MangaFox.ChapterRoundTrip: the URL parser is a parameter of which only one fact is used, that a text with a single leading slash names no scheme and no host.
- Provider bindings' case-insensitive deduplication of tags and names, the in-memory TTL cache, paginators, scrapers, the web interface, configuration and the remaining drivers are outside the model.
