# Verified model of the edge API

This Dafny project models the parts of the edge API that carry invariants and proves properties of the model: the
in-memory job worker, the repair of custom repositories and the service that guards the same tables, the cached
`update_available` flag of devices with the image sets behind it, the reconciliation of devices with the platform
inventory, the permanent cleanup of devices, images and commits, the aggregation of playbook-dispatcher events, the
memory cache and the package difference.

Check everything with `dafny verify dfyconfig.toml`.

## How the system is modelled

* Concurrency. `JobWorker.dfy` is a step relation: every line of the job worker that touches shared state (channel
  send, receive and hand-over, counter updates, wait group, cancel functions, handler start and end, deferred closure,
  the lock and the once of `Stop`) is a step of its own, and theorems quantify over all interleavings. A queue of size
  zero hands jobs over directly. The goroutines that handle one page of a cleanup interleave in any way: every call to
  storage, every statement and every transaction is a step of its own, with the candidates as they were read at the
  start of the page. What two transactions do that overlap is stated apart (`DeviceCleanup.OverlapLeavesRepo`,
  `ImageCleanup.OverlapLeavesSet`).
* Tables. Code that changes rows step by step is a class with one field per table, or with the tables as one value in
  the cleanups; each method is tied to a function of the old tables, and the lemmas are about these functions. A
  transaction that fails leaves the tables as they were. A soft-deleted row has `live` false (or `deleted` true) and
  stays in its map. Foreign and primary keys are checked where the database checks them.
* Environment. In the repair, the repository service and the cleanups statements and storage calls may fail at any
  point, unless a contract says otherwise (`reliable`); elsewhere they succeed. Feature flags are constants of a run.
  Clock values, validation results, the order of package versions and the inventory's content are parameters. Rows a
  query does not order may come in any order; the page order of the device sync, which has no ORDER BY, is taken to be
  stable while no row changes.
* Integers are unbounded except in the cache, where the stored expiry is a 64-bit sum.

## What the code does not guarantee

These properties are false of the code in general; the named lemmas give the exact condition under which they hold, and
a concrete input for which they fail.

* The URL check of custom repositories confuses URLs made of slashes with a stored empty URL
  (`CustomRepos.UrlTakenMeansEquivalent`, `CustomRepos.BlankUrlConfusesTheCheck`). The routes let neither a blank nor a
  slash through (`pkg/routes/thirdpartyrepo.go:162-176`), so over their requests the check is exact
  (`CustomRepos.UrlTakenExactOverRuns`).
* An update of a custom repository for another organisation than the one in the request context may break uniqueness
  (`CustomRepos.OtherOrgExactly`, `CustomRepos.OtherOrgBreaksUniqueness`); the route of
  `pkg/routes/thirdpartyrepo.go:477` passes the stored organisation.
* A retry takes a SUCCESS image out of that status without updating flags, which can leave a flag wrong
  (`ImagesRuns.DemotionBreaksFlags`, `ImagesRuns.RetryLeavesFlag`) until a build of the set succeeds
  (`ImagesRuns.FlagRightOverRuns`, `ImagesRuns.RetriedSuccessHeals`).
* An inventory event is meant to give a known device without an organisation that of the event
  (`pkg/services/devices.go:726-729`), but the column is tagged as written on creation only (`pkg/models/devices.go:98`),
  so the device keeps none (`ImagesRuns.EventKeepsOrganisations`).
* A build that ends after its image was deleted together with its set brings the image back without the set
  (`ImagesRuns.FinishImageKeepsSetsExactly`, `ImagesRuns.BuildOutlivesSet`).
* The bulk flag update differs from the per-device one for images created at the same time as the last one
  (`ImagesProofs.BulkIsRecomputation`, `ImagesProofs.TieKeepsFlag`).
* A device that lives in another organisation under the same uuid keeps the sync from converging
  (`InventorySync.SyncConverges`, `InventorySync.ForeignStaysMissing`), and repeated rows, which only races can create,
  hide missing hosts from the comparison of counts (`InventorySync.PageOfHosts`, `InventorySync.RepeatHidesMissing`).
  With the delete flag off, devices that are not listed hide missing hosts from the comparison of totals
  (`InventorySync.CreateOnly`, `InventorySync.StaleHidesMissing`).
* An update whose repo is also the repo of a commit cannot be cleaned up when it is the last one
  (`DeviceCleanup.DeleteUpdateFailsExactly`, `DeviceCleanup.CommitRepoStays`), so the cleanup of devices succeeds exactly
  when an update that stays uses each such repo (`DeviceCleaner.Cleaner.CleanupAllDevices`). The same holds for shared
  rows of images (`ImageCleanup.EraseImageFailsExactly`, `ImageCleanup.SharedInstallerStays`) and of commits
  (`ImageCleanup.EraseCommitFailsExactly`, `ImageCleanup.SharedRepoStays`).
* Two overlapping transactions of one page can leave a repo or an image set behind that nothing uses any more
  (`DeviceCleanup.OverlapLeavesRepo`, `DeviceCleanup.RepoLeftBehind`, `ImageCleanup.OverlapLeavesSet`,
  `ImageCleanup.SetLeftBehind`).
* The folder of a repo, and the files of an image, are deleted before anything counts who else has them: an update or an
  image that stays can lose its storage (`DeviceCleanup.StayingUpdateKeepsFolderExactly`,
  `DeviceCleanup.StayingUpdateLosesFolder`, `ImageCleanup.StayingImageKeepsFilesExactly`,
  `ImageCleanup.LiveImageLosesFiles`).
* The stage of the orphan commits forgets tar files in storage (`CommitCleaner.Cleaner.CleanupOrphanCommit`,
  `CommitCleaner.TarLeftBehind`).
* An event for a record whose device has been deleted does not reach its update (`DispatchEvents.MissingDeviceExactly`,
  `DispatchEvents.LostFailure`): a success ends in a nil dereference before anything is saved, and saving the missing
  device after a failure is taken to be refused.
* Events that contradict each other on one record make the order of delivery matter
  (`DispatchEvents.OrderMattersExactly`, `DispatchEvents.ContradictionMatters`).
* Re-delivered success events lose the hash of a device (`DispatchEvents.RedeliveredHash`, `DispatchEvents.HashLost`).

## Model

| member | source | states |
|---|---|---|
| `JobWorkerSafety.StepInv` | pkg/jobs/memory.go:75-277 | every atomic step of callers, workers, stats loop, signal goroutine, Start and Stop keeps the whole invariant: start and stop progress, channels, counters, records and workers fit each other |
| `JobWorkerSafety.RunInv` | pkg/jobs/memory.go:75-277 | the invariant holds after every interleaving of any length |
| `JobWorkerTheorems.JobInOnePlace` | pkg/jobs/memory.go:75-95 | in every reachable state an accepted job is in exactly one place: its queue, one worker, or finished; two workers never hold the same job, and a job not yet accepted is nowhere |
| `JobWorkerTheorems.QueuesAreFifo` | pkg/jobs/memory.go:202-213 | a queue never exceeds its configured size and jobs leave it in the order in which they were sent |
| `JobWorkerTheorems.StartsAtMostOnce` | pkg/jobs/memory.go:222-277 | main and failure handler of a job start at most once under every interleaving |
| `JobWorkerTheorems.FailureHandlerRule` | pkg/jobs/memory.go:236-277 | a finished job with both handlers: the failure handler ran exactly once, right after the deferred check and before the active count dropped, if and only if the main handler panicked or the context was done at the check |
| `JobWorkerTheorems.FailureHandlerExactly` | pkg/jobs/memory.go:240-265 | a finished job of any type in a reachable state: the failure handler ran if and only if it was due, and then as the last thing before the active count dropped |
| `JobWorkerTheorems.JudgedMeansCancelled` | pkg/jobs/memory.go:236-265 | in every reachable state the deferred check of a job saw a done context only if the worker was cancelled or had expired, never because the context was released at the end of the job |
| `JobWorkerTheorems.TraceGrowsOverRun` | pkg/jobs/memory.go:202-277 | over every run the history of a job is only extended |
| `JobWorkerTheorems.CancelledAtStart` | pkg/jobs/memory.go:240-265 | a finished job whose context was done when its main handler started had its failure handler run |
| `JobWorkerTheorems.CancelAllReachesAll` | pkg/jobs/memory.go:177-181 | when the cancel loop of Stop is over, the context of every worker is done |
| `JobWorkerTheorems.StartedWhenCancelled` | pkg/jobs/memory.go:168-265 | any job whose main handler starts after its worker was cancelled has its failure handler run before it is finished, whatever happens in between |
| `JobWorkerTheorems.CountersAreAccurate` | pkg/jobs/memory.go:84-94 | in every reachable state the queues hold the enqueued counter corrected by uncounted sends and receives, the active counter is the number of workers in the active section, and the wait group counts live workers, the stats loop and a worker about to be spawned |
| `JobWorkerTheorems.StatsExactAtQuiescence` | pkg/jobs/memory.go:279-284 | with nobody between a channel operation and its counter update, Stats reports exactly the jobs in the queues and the workers in the active section |
| `JobWorkerCancels.ContextDoneExactly` | pkg/jobs/memory.go:106-181 | in any state a step makes a context done exactly when it cancels the parent or is the step of a cancelAll loop, of Stop or of the signal goroutine, that calls its cancel function; done contexts stay done |
| `JobWorkerCancels.InterruptReaches` | pkg/jobs/memory.go:132-147 | in every reachable state the contexts that the cancelAll of the signal goroutine has passed are done |
| `JobWorkerCancels.InterruptReachesAll` | pkg/jobs/memory.go:132-147 | once that loop is over, the contexts of all workers, of the stats loop and of the signal goroutine itself are done |
| `JobWorkerCancels.InterruptedJobsFail` | pkg/jobs/memory.go:141-265 | after a signal, every job with both handlers whose deferred check comes after the loop has its failure handler run next, whatever happens in between |
| `JobWorkerCancels.DoomedFails` | pkg/jobs/memory.go:240-265 | a job with both handlers whose context is done, whose job context has expired or whose main handler has panicked before the deferred check is never finished without its failure handler |
| `JobWorkerCancels.ExpiryAndPanicDoom` | pkg/jobs/memory.go:236-248 | the expiry of the job context, and a panic of the main handler, do so |
| `JobWorkerEffects.AcceptedAsAsked` | pkg/jobs/memory.go:75-95 | a send adds one job of the type asked for to the end of the queue asked for, or hands it to an idle worker of it, and touches no other job and not the other queue |
| `JobWorkerEffects.EnqueuedAsAsked` | pkg/jobs/memory.go:75-95 | however long Enqueue waits at the channel, the job it sends has the queue and the type it was called with |
| `JobWorkerEffects.CallerWaitsExactly` | pkg/jobs/memory.go:85-92 | Enqueue blocks exactly while its queue is open, full, and has no idle worker to hand the job to |
| `JobWorkerEffects.WorkerRestsExactly` | pkg/jobs/memory.go:202-220 | a worker rests exactly when it is gone, or idle at an empty open queue with a live context |
| `JobWorkerEffects.DoneWorkerMayLeave` | pkg/jobs/memory.go:206-218 | an idle worker whose context is done may leave even while jobs are queued |
| `JobWorkerEffects.StopBeginsExactly` | pkg/jobs/memory.go:152-155 | Stop gets the lock exactly when it was not called before and Start is not under way |
| `JobWorkerEffects.CrashExactly` | pkg/jobs/memory.go:75-277 | the process ends exactly by a send on a closed queue, a panic of a main handler without failure handler, or a panic of a failure handler |
| `JobWorkerEffects.ContextsReleasedOverRuns` | pkg/jobs/memory.go:236-238 | over every run each job context is released before its worker takes the next job |
| `JobWorkerEffects.AnyoneMayEnqueue` | pkg/jobs/memory.go:75-95 | while a queue is open and has room, one more caller can come and enqueue a job of any type, which ends up last in the queue |
| `JobWorkerEffects.StartCompletes` | pkg/jobs/memory.go:97-148 | Start runs by its own steps alone to the end and leaves an idle worker for every place of the fast and the slow pool, the ticking stats loop, the waiting signal goroutine exactly when signals are handled, and no context done |
| `JobWorkerCancels.LateExpiryDecides` | pkg/jobs/memory.go:236-265 | a job whose main handler has returned in time and without panic can still time out before the deferred check, and that decides whether its failure handler runs |
| `JobWorkerCancels.SignalCancelsAll` | pkg/jobs/memory.go:132-147 | while the signal goroutine waits, a signal can come at any moment, and its own steps alone then lead to a state in which every context is done |
| `JobWorkerCancels.EndsForAReason` | pkg/jobs/memory.go:132-221 | in every reachable state a worker has left only because its context is done or its queue is closed and empty, and the stats loop and the signal goroutine only because their own context is done |
| `JobWorkerShutdown.ShutdownStep` | pkg/jobs/memory.go:152-173 | after close every step but a crash lowers one measure over queued jobs, live goroutines and cancels to send |
| `JobWorkerShutdown.ShutdownProgress` | pkg/jobs/memory.go:152-220 | until Stop has returned some goroutine of the worker can take a step, with handlers that return |
| `JobWorkerShutdown.StopReturns` | pkg/jobs/memory.go:152-174 | every run after close has at most Measure + 1 steps, and one that cannot go on has either crashed or seen Stop return |
| `JobWorkerShutdown.StopCanReturn` | pkg/jobs/memory.go:150-174 | while no caller is blocked in Enqueue, Stop can be called whenever it was not called before and Start is not under way, and can be run from there until it returns |
| `JobWorkerShutdown.NothingRunsAfterStop` | pkg/jobs/memory.go:170-173 | when Stop has returned every worker is gone, the active count is zero and no worker step is possible |
| `JobWorkerShutdown.QueuedAtStopNeverStarts` | pkg/jobs/memory.go:150-173 | a job still queued when Stop returns stays queued and unstarted in every later state |
| `Urls.AddSlashCanonical` | pkg/models/thirdpartyrepo.go:75-86 | AddSlashToURL yields canonical URLs, and its fixed points are exactly the canonical ones |
| `Urls.AddSlashIdempotent` | pkg/models/thirdpartyrepo.go:75-86 | cleaning twice is cleaning once |
| `Urls.SlashMakesEquivalent` | pkg/models/thirdpartyrepo.go:75-86 | a URL without outer spaces is equivalent to itself with the slash added |
| `RepoRepair.RepairAll` | cmd/migraterepos/main.go:68-81 | the three phases in their order: whatever fails and wherever, every image uses the same cleaned URLs as before and every link points at an existing repository; when what the first two phases have to clean fits their pages no failure is a constraint violation, and when the merges fit as well a complete run is finished |
| `RepoRepair.PipelineFinished` | cmd/migraterepos/main.go:68-81 | what finished means: no URL without its slash, no image with a URL twice, and of all repositories of an organisation with one URL exactly the one with the largest id is left |
| `RepoRepairMeaning.SurvivorsExactly` | cmd/migraterepos/main.go:68-81 | after a finished repair a row is left, with its clean URL, exactly when no live row of its organisation with a larger id has the same clean URL |
| `RepoRepairMeaning.FinishedMeans` | cmd/migraterepos/main.go:68-81 | row by row: every live URL ends with a slash, no image has a URL through two live repositories, and no organisation has two live repositories with one URL |
| `RepoRepairMeaning.SameMeaningExactly` | cmd/migraterepos/main.go:68-81 | what every phase keeps, link by link: each image is linked to live repositories with the same clean URLs |
| `RepoRepair.MergedLargest` | cmd/migraterepos/repairrepos/repairrepos.go:155-206 | merging every group of an organisation leaves exactly the largest id of each |
| `RepoRepair.Database.RepairUrls` | cmd/migraterepos/repairrepos/repairrepos.go:26-68 | exactly the URLs in `done` are cleaned and nothing else; meaning kept at any failure; all URLs are clean afterwards if and only if they fitted in the pages; the count is the number of distinct URLs |
| `RepoRepair.Database.CleanPage` | cmd/migraterepos/repairrepos/repairrepos.go:43-62 | one page of phase 1: as many URLs cleaned as the page holds, or a failure with the meaning kept |
| `RepoRepairSpec.SlashedMeaning` | cmd/migraterepos/repairrepos/repairrepos.go:26-68 | cleaning any set of URLs keeps the URLs each image uses, and links go on pointing at existing repositories |
| `RepoRepair.Database.RepairImageUrl` | cmd/migraterepos/repairrepos/repairrepos.go:70-103 | only the link to the largest live repository id of an image and URL is kept; nothing changes on failure |
| `RepoRepair.Database.RepairDuplicateImagesReposUrls` | cmd/migraterepos/repairrepos/repairrepos.go:105-153 | the links are those left when every group in `done` keeps its largest id; meaning kept; no image has a URL twice afterwards if and only if the groups fitted in the pages |
| `RepoRepairSpec.DeduplicatedGroup` | cmd/migraterepos/repairrepos/repairrepos.go:70-103 | the links of one group before and after it is handled |
| `RepoRepairSpec.DeduplicatedMeaning` | cmd/migraterepos/repairrepos/repairrepos.go:70-103 | dropping surplus links changes no image's URLs |
| `RepoRepair.Database.RepairOrgUrl` | cmd/migraterepos/repairrepos/repairrepos.go:155-206 | re-points the links of a group to its largest id and deletes the others; a failure leaves the repositories alone, and a uniqueness violation means that some image is linked to two repositories of the group |
| `RepoRepairSpec.ClashIff` | cmd/migraterepos/repairrepos/repairrepos.go:155-206 | re-pointing breaks the primary key exactly when some image is linked to two repositories of the group, hence never after phase 2 |
| `RepoRepairSpec.MergedIds` | cmd/migraterepos/repairrepos/repairrepos.go:155-206 | after merging, each handled group has one live repository: the one with the largest id |
| `RepoRepairSpec.MergedMeaning` | cmd/migraterepos/repairrepos/repairrepos.go:155-206 | merging and re-pointing keep the URLs each image uses, and links go on pointing at existing repositories |
| `RepoRepair.RepointedMeaning` | cmd/migraterepos/repairrepos/repairrepos.go:184-203 | the meaning is already the old one between the two statements of a group |
| `RepoRepairSpec.MergedKeepsImageGroups` | cmd/migraterepos/repairrepos/repairrepos.go:155-206 | phase 3 keeps what phase 2 established |
| `RepoRepairSpec.MergedKeepsSlashes` | cmd/migraterepos/repairrepos/repairrepos.go:155-206 | phase 3 keeps what phase 1 established |
| `RepoRepair.Database.RepairDuplicates` | cmd/migraterepos/repairrepos/repairrepos.go:208-258 | at every point the meaning is kept; how many groups are merged with the page bound, also when groups without an organisation take up places of a page; complete if and only if the groups fitted, when there are none of those |
| `RepoRepair.Database.MergeGroup` | cmd/migraterepos/repairrepos/repairrepos.go:155-206 | one group of phase 3 on top of the groups already merged is merging one group more |
| `RepoRepair.PagesEnd` | cmd/migraterepos/repairrepos/repairrepos.go:105-153 | a page loop that ends at its bound or at an empty page handled everything if and only if it fitted |
| `CustomRepos.UrlTakenExact` | pkg/services/thirdpartyrepo.go:42-68 | the existence query answers true exactly when an equivalent live URL is stored, or when a URL of slashes only meets a stored empty URL |
| `CustomRepos.UrlTakenMeansEquivalent` | pkg/services/thirdpartyrepo.go:42-68 | the query is exact if and only if that confusion cannot happen |
| `CustomRepos.BlankUrlConfusesTheCheck` | pkg/services/thirdpartyrepo.go:169-223 | a blank URL in an update stores the empty URL, after which "/" counts as taken |
| `CustomRepos.UrlTakenExactOverRuns` | pkg/routes/thirdpartyrepo.go:162-176 | over every run of requests that passed the validation of the routes, from an empty table, the existence query is exact |
| `Urls.ValidStaysNonEmpty` | pkg/models/thirdpartyrepo.go:45-66 | cleaning a URL that matches the regular expression never yields the empty one |
| `Urls.BlankAndSlashAreInvalid` | pkg/models/thirdpartyrepo.go:45-66 | neither a blank nor a slash matches it |
| `Urls.ValidMatchesExactly` | pkg/models/thirdpartyrepo.go:46-54 | a URL is valid exactly when it is a scheme, a host, one or more dotted parts and a path, one after the other |
| `CustomRepos.StepKeepsInv` | pkg/services/thirdpartyrepo.go:110-250 | create, update and delete, and whatever images do meanwhile, keep URLs clean and names and URLs unique per organisation |
| `CustomRepos.UniqueOverRuns` | pkg/services/thirdpartyrepo.go:110-250 | the same over every run |
| `CustomRepos.StepKeepsUsed` | pkg/services/thirdpartyrepo.go:169-250 | no request deletes a repository that a live image uses, or changes the URL of one used by a SUCCESS, BUILDING or INTERRUPTED image; nor does a change of an image or a link |
| `CustomRepos.UsedOverRuns` | pkg/services/thirdpartyrepo.go:169-250 | over every run in which images are created, change their status, go, and are linked and unlinked between the requests: a repository that some live image uses throughout is never deleted, and one that some SUCCESS, BUILDING or INTERRUPTED image uses throughout keeps its URL |
| `CustomRepos.ServiceEndsNoUse` | pkg/services/thirdpartyrepo.go:110-250 | over a run of requests alone a use that holds at the start holds throughout |
| `CustomRepos.OtherOrgExactly` | pkg/services/thirdpartyrepo.go:169-223 | an accepted update whose request names another organisation than the context keeps uniqueness exactly when the checks would have passed for the repository's own organisation |
| `CustomRepos.OtherOrgBreaksUniqueness` | pkg/services/thirdpartyrepo.go:169-223 | a concrete update with another organisation that leaves two live repositories with one name |
| `CustomReposEffects.QueriesExactly` | pkg/services/thirdpartyrepo.go:42-86 | the two existence queries: which input they refuse and what they answer about the live rows |
| `CustomReposEffects.CreateAcceptedExactly` | pkg/services/thirdpartyrepo.go:110-149 | a creation is accepted exactly when all is set, the URL is valid and neither name nor URL is held; each refusal exactly when it is the first that applies |
| `CustomReposEffects.CreateEffect` | pkg/services/thirdpartyrepo.go:110-149 | an accepted one adds exactly one live row with the name, the description and an equivalent clean URL, both then taken; a refusal changes nothing |
| `CustomReposEffects.FindExactly` | pkg/services/thirdpartyrepo.go:151-167 | the row is found exactly when it is live in the organisation of the context |
| `CustomReposEffects.NotFoundRefused` | pkg/services/thirdpartyrepo.go:169-250 | an update or a delete of a row that is not found is refused with the same error and changes nothing |
| `CustomReposEffects.UpdateAcceptedExactly` | pkg/services/thirdpartyrepo.go:169-223 | an update is refused exactly when a new name is held, a new URL is held, or a new URL meets a locking image, in this order |
| `CustomReposEffects.UpdateEffect` | pkg/services/thirdpartyrepo.go:169-223 | an accepted one changes exactly the given fields of that row; a refusal changes nothing |
| `CustomReposEffects.DeleteExactly` | pkg/services/thirdpartyrepo.go:226-250 | a delete is accepted exactly when the row is live in the organisation of the context and no live image is linked to it; then exactly that row is deleted |
| `CustomReposEffects.DeletedIsFree` | pkg/services/thirdpartyrepo.go:226-250 | the name of a deleted repository is free again, and so is its URL but for the confusion of slashes with a stored empty one |
| `CustomRepos.ThirdPartyRepoService.ThirdPartyRepoURLExists` | pkg/services/thirdpartyrepo.go:42-68 | the answer is that of the specification or a database error |
| `CustomRepos.ThirdPartyRepoService.ThirdPartyRepoNameExists` | pkg/services/thirdpartyrepo.go:71-86 | the answer is that of the specification or a database error |
| `CustomRepos.ThirdPartyRepoService.ThirdPartyRepoImagesExists` | pkg/services/thirdpartyrepo.go:89-107 | whether a live image of the given statuses uses the repository |
| `CustomRepos.ThirdPartyRepoService.CreateThirdPartyRepo` | pkg/services/thirdpartyrepo.go:110-149 | new tables and answer are those of the specification, or a database error with the tables unchanged |
| `CustomRepos.ThirdPartyRepoService.UpdateThirdPartyRepo` | pkg/services/thirdpartyrepo.go:169-223 | the same for updates, with the refusals in the source's order |
| `CustomRepos.ThirdPartyRepoService.DeleteThirdPartyRepoByID` | pkg/services/thirdpartyrepo.go:226-250 | the same for deletes; an accepted one deletes exactly that row, any other outcome changes nothing |
| `ImagesRuns.FlagRightOverRuns` | pkg/services/images.go:1839-1869 | over every run of creations, new versions, builds, retries, interruptions, finished builds, inventory events, finished updates and deletions from empty tables: a live device on a live SUCCESS image is flagged exactly when a later SUCCESS image exists in the same set, unless an image of that set was taken out of SUCCESS and no build of the set has succeeded since |
| `ImagesRuns.NothingPending` | pkg/services/images.go:1349-1372 | a run that takes no image out of SUCCESS leaves no set pending, so all its flags are right |
| `ImagesRuns.SaveImageKeepsFlags` | pkg/services/images.go:1349-1372 | taking an image out of SUCCESS leaves at most the flags of its own set pending; any other save of an image leaves none |
| `ImagesRuns.SetsWholeOverRuns` | pkg/services/images.go:1958-1993 | over every such run in which no build saves an image after its set was deleted, each live image is in a live set of its organisation and name, the lookup by name finds exactly that set, and deleting the image leaves no live image without its set |
| `ImagesRuns.StepInv` | pkg/services/images.go:296-388 | every operation keeps the rows right and the flags right outside the pending sets, where a demotion makes its set pending and a success settles its set; it keeps the sets whole exactly when it does not save an image whose set has been deleted |
| `ImagesRuns.SucceedInv` | pkg/services/images.go:737-782 | a completed success with its bulk update makes all flags of its own set right, also those that were pending, and leaves the others as they were |
| `ImagesRuns.FinishImageKeepsSetsExactly` | pkg/services/images.go:765-774 | the save at the end of a build brings a deleted image back, so it keeps the sets whole exactly when the set of the image is still there |
| `ImagesRuns.BuildOutlivesSet` | pkg/services/images.go:765-774 | a concrete errored image that is deleted with its set and comes back without it when its build ends |
| `ImagesRuns.CreateImageKeeps` | pkg/services/images.go:260-388 | creating an image keeps the invariant, with a new set or an emptied one of that name |
| `ImagesRuns.UpdateImageKeeps` | pkg/services/images.go:495-640 | a new version keeps the invariant |
| `ImagesRuns.EventUpdateDeviceInv` | pkg/services/devices.go:641-680 | an inventory event is refused exactly when the device, the booted commit or its image is missing; otherwise the device runs a live image of the booted commit with the right flag, no other row changes and the invariant is kept |
| `ImagesRuns.EventKeepsOrganisations` | pkg/services/devices.go:683-743 | whatever organisation an event names, every known device stays in its own |
| `ImagesRuns.FinishUpdateInv` | pkg/services/updates.go:732-786 | a successful update leaves exactly its live devices of its organisation on a live image of its commit with the right flag, and keeps the invariant; it is refused exactly when its row, the commit or the image is missing |
| `ImagesRuns.OwnSetFound` | pkg/services/images.go:1966-1975 | the set found by organisation and name is the image's own set |
| `ImagesRuns.DeleteImageSetGoes` | pkg/services/images.go:1958-1993 | deleting an errored image deletes its own set exactly when it was the last live image of it, and no other set |
| `ImagesRuns.DeleteImageSetKeeps` | pkg/services/imagesets.go:435-468 | deleting an unused set with its images breaks no flag and orphans no image |
| `ImagesRuns.DemotionBreaksFlags` | pkg/services/images.go:1349-1372 | a retry of a SUCCESS image, or any other write that takes it out of that status, breaks some flag exactly when it was the only later success of an image that a live device runs |
| `ImagesRuns.RetryLeavesFlag` | pkg/services/images.go:1578-1610 | a concrete retry that leaves a device flagged for an update that no longer exists |
| `ImagesRuns.RetriedSuccessHeals` | pkg/services/images.go:1349-1372 | a retry that succeeds leaves its set settled, whatever was pending before |
| `ImagesEffects.SetForNewImageExactly` | pkg/services/images.go:260-293 | the set for a new image is the first live one of organisation and name, refused exactly when it holds a live image, or a new one when there is none |
| `ImagesEffects.CreateImageAccepted` | pkg/services/images.go:296-388 | a creation is accepted exactly when organisation and name are set, no live image has the name, and validation and compose succeed; each refusal exactly when it is the first that applies |
| `ImagesEffects.CreateImageEffect` | pkg/services/images.go:296-388 | the new row as asked for in a live set of its name; a set is created exactly when there is none, also when the compose then fails; nothing else changes |
| `ImagesEffects.UpdateImageExactly` | pkg/services/images.go:495-640 | a new version is accepted exactly for the newest live image of its organisation and set, under its own name, while the set is live; the row is the previous one with version, commit and time of the request |
| `ImagesEffects.BuildEffect` | pkg/services/images.go:765-830 | a save of a build writes status and commit of its image and makes it live; an interruption writes the status of a live image only |
| `ImagesEffects.DeleteImageExactly` | pkg/services/images.go:1958-1993 | a deletion that is done takes exactly that image away; each refusal exactly when it applies, and changes nothing |
| `ImagesEffects.DeleteImageSetExactly` | pkg/services/imagesets.go:410-468 | a deletion that is done takes exactly the set and its images away; it is refused exactly while a live device runs an image of the set, or when there is no such live set |
| `ImagesEffects.DeleteDeviceExactly` | pkg/services/devices.go:1079-1129 | deleting a device takes exactly that row away |
| `ImagesEffects.KnownDeviceExactly` | pkg/services/devices.go:641-680 | the first live device of the uuid runs the first live image of its organisation with the booted commit; refused exactly when one of them is missing |
| `ImagesEffects.UnknownDeviceIsAdded` | pkg/services/devices.go:683-743 | an event for an unknown device adds exactly one live row for it, on the booted image if there is one; without organisation it is refused |
| `ImagesEffects.FindUpdateExactly` | pkg/services/updates.go:741-745 | the update is reloaded exactly when it is live in the organisation |
| `ImagesEffects.OnlySavesRevive` | pkg/services/images.go:765-774 | no step makes a deleted image live again but a save of its own build |
| `ImagesEffects.DeletedStaysDeleted` | pkg/services/images.go:1958-1993 | over every run in which its build saves it no more a deleted image stays deleted |
| `ImagesProofs.BulkIsRecomputation` | pkg/services/images.go:1839-1869 | the bulk update equals recomputing the devices on SUCCESS images of the set one by one, in any order, if and only if no flagged one of them is on an image created at the same time as the last one; no other device is touched |
| `ImagesProofs.TieKeepsFlag` | pkg/services/images.go:1839-1869 | a concrete flagged device on an image created together with the last one, whose flag the bulk update leaves and the single computation clears |
| `ImagesProofs.RecomputeAllIsRecomputed` | pkg/services/devices.go:608-638 | recomputing devices one after the other is recomputing each from the original tables |
| `ImagesProofs.LaterThanLast` | pkg/services/images.go:1839-1858 | an image of the set has a later success exactly when it is older than the last one |
| `ImageStore.Store.SetDevicesUpdateAvailabilityFromImageSet` | pkg/services/images.go:1839-1869 | afterwards every device on a SUCCESS image of the set has the right flag and no other row has changed |
| `ImageStore.Store.SetDeviceUpdateAvailability` | pkg/services/devices.go:608-638 | the flag of one device is right afterwards; refusals change nothing |
| `ImageStore.Store.Verdict` | pkg/services/images.go:738-763 | success exactly when every output asked for is built; outputs still building become errors; a nil dereference exactly when an output asked for has no row |
| `ImageStore.Store.SetFinalImageStatus` | pkg/services/images.go:737-782 | status and flags after a build of any image, deleted meanwhile or not: flags stay right outside the pending sets, a success settles its set and a demotion makes it pending; sets stay whole exactly when the set of the image is still there; a missing commit or installer row ends it before anything is saved to the image |
| `ImageStore.Store.GetImageSetForNewImage` | pkg/services/images.go:260-293 | a live set of that organisation and name without live images, or a refusal |
| `ImageStore.Store.CreateImage` | pkg/services/images.go:296-388 | refusals in order, one new row on success, a leftover set when the compose fails; the invariant is kept |
| `ImageStore.Store.CheckIfIsLatestVersion` | pkg/services/images.go:1613-1641 | accepted exactly for the first live image of its organisation and set by descending version, then id |
| `ImageStore.Store.UpdateImage` | pkg/services/images.go:495-640 | refusals in order, one new version in the same set on success, only for the latest version; the invariant is kept |
| `ImageStore.Store.ProcessPlatformInventoryEventUpdateDevice` | pkg/services/devices.go:641-680 | the device runs the first live image of the booted commit, with its flag recomputed |
| `ImageStore.Store.ProcessPlatformInventoryUpdatedEvent` | pkg/services/devices.go:683-743 | the same for an updated event, after creating an unknown device; the organisation that a known device without one is given in memory is not written, so that no device changes its organisation; the invariant is kept |
| `ImageStore.Store.UpdateDevicesFromUpdateTransaction` | pkg/services/updates.go:732-786 | nothing happens for an update that did not succeed; otherwise its row is loaded again by id and organisation, and its live devices of the organisation run the image of its commit with one flag for all; the invariant is kept |
| `ImageStore.Store.DeleteImage` | pkg/services/images.go:1958-1993 | with the invariant, succeeds exactly for live errored images and keeps it; a success takes exactly that image away, any other outcome changes nothing |
| `ImageStore.Store.DeleteImageSet` | pkg/services/imagesets.go:410-468 | refused exactly while a live device runs an image of the set, deleted or not; afterwards neither the set nor its images are live |
| `InventorySync.SyncConverges` | pkg/services/devices.go:1132-1347 | after a sync the organisation has exactly the inventory ids except those only other organisations' devices have, so it converges exactly when there are none; a second sync changes nothing |
| `InventorySync.TotalsCompareSets` | pkg/services/devices.go:1203-1230 | the total comparison that skips phase two is the comparison of the sets when uuids are unique; in general equal totals mean equal sets exactly when no uuid is repeated |
| `InventorySync.PageOfDevices` | pkg/services/devices.go:1165-1190 | the count comparison of phase one finds a stale device exactly when there is one |
| `InventorySync.PageOfHosts` | pkg/services/devices.go:1254-1275 | the count comparison of phase two takes a page as complete exactly when there are at least as many repeated rows as missing hosts; with unique uuids, exactly when no host is missing |
| `InventorySync.RepeatHidesMissing` | pkg/services/devices.go:1254-1275 | a concrete page on which two rows with one uuid hide a missing host |
| `InventorySync.CreateOnly` | pkg/services/devices.go:1203-1318 | with the delete flag off a sync changes no row, and each listed host has a live row afterwards exactly when it had one or the totals differ |
| `InventorySync.StaleHidesMissing` | pkg/services/devices.go:1203-1230 | a concrete device that is not listed and hides a missing host so |
| `InventorySync.ForeignStaysMissing` | pkg/services/devices.go:1132-1347 | a concrete host whose device lives in another organisation and gets none of its own |
| `InventorySync.OthersUntouched` | pkg/services/devices.go:1132-1347 | rows of other organisations never change and new rows belong to the organisation |
| `InventorySync.NewRowIs` | pkg/services/devices.go:1043-1076 | every row phase two adds is live and stands for a listed host that no live row has |
| `InventorySync.NewRowOf` | pkg/services/devices.go:1233-1318 | every listed host that no live row has gets a row |
| `InventorySync.NewRowsDiffer` | pkg/services/devices.go:1233-1318 | no host gets two rows |
| `InventorySync.SyncedUuids` | pkg/services/devices.go:1132-1347 | the ids of the organisation after a sync, which stay unique |
| `InventorySync.DeviceService.StaleDevices` | pkg/services/devices.go:1152-1190 | exactly the devices of the page that the inventory does not list |
| `InventorySync.DeviceService.DeleteStaleDevices` | pkg/services/devices.go:1132-1213 | the offset loop covers every device of the organisation: exactly the unlisted ones are deleted, if the flag is on |
| `InventorySync.DeviceService.CreateFromHost` | pkg/services/devices.go:1043-1064 | a device is created only when no live device of any organisation has the id |
| `InventorySync.DeviceService.AddMissingDevices` | pkg/services/devices.go:1254-1318 | one page of phase two adds exactly its missing hosts |
| `InventorySync.DeviceService.SyncInventoryWithDevices` | pkg/services/devices.go:1233-1347 | the pages cover the whole inventory, also when the last one is full |
| `InventorySync.DeviceService.SyncDevicesWithInventory` | pkg/services/devices.go:1132-1231 | the rows after a sync under every setting of the two flags; with both on it converges, and a repeated sync changes nothing |
| `DeviceCleanup.DeviceDeletableExactly` | cmd/cleanup/cleanupdevices/cleanupdevices.go:173-209 | deleting a device without updates breaks a foreign key exactly while one of its dispatch records belongs to an orphan update |
| `DeviceCleanup.DeviceCandidateDeletable` | cmd/cleanup/cleanupdevices/cleanupdevices.go:173-209 | a device read without updates can be deleted at any later moment of its page, once orphan updates are gone |
| `DeviceCleanup.DeleteUpdateRepos` | cmd/cleanup/cleanupdevices/cleanupdevices.go:147-160 | a repo disappears exactly with the last update that uses it, also when candidates of a page are stale |
| `DeviceCleanup.DeleteUpdateFailsExactly` | cmd/cleanup/cleanupdevices/cleanupdevices.go:108-171 | deleting an update fails exactly when it is the last one of a repo that a commit uses |
| `DeviceCleanup.CommitRepoStays` | cmd/cleanup/cleanupdevices/cleanupdevices.go:147-160 | a concrete condemned update that cannot be deleted because a commit has its repo |
| `DeviceCleanup.OverlapLeavesRepo` | cmd/cleanup/cleanupdevices/cleanupdevices.go:147-160 | two transactions that do not see each other leave a repo behind exactly when they delete its last two updates |
| `DeviceCleanup.RepoLeftBehind` | cmd/cleanup/cleanupdevices/cleanupdevices.go:147-160 | a concrete repo with two updates that is left behind so |
| `DeviceCleanup.DeleteUpdateKeeps` | cmd/cleanup/cleanupdevices/cleanupdevices.go:108-171 | deleting an update keeps foreign keys valid and all links of the other updates |
| `DeviceCleanup.ShrinksKeepsLinks` | cmd/cleanup/cleanupdevices/cleanupdevices.go:108-209 | no deletion ever creates an orphan update |
| `DeviceCleanup.MeasureFalls` | cmd/cleanup/cleanupdevices/cleanupdevices.go:394-444 | updates linked to deleted devices plus deleted devices: never grows, and falls once one candidate is gone |
| `DeviceCleanup.CandidatesExhausted` | cmd/cleanup/cleanupdevices/cleanupdevices.go:358-381 | the candidate query is empty exactly when no deleted device is left |
| `DeviceCleanup.KeptAgain` | cmd/cleanup/cleanupdevices/cleanupdevices.go:383-444 | what one page keeps adds up over pages, including that storage goes before rows, that only condemned updates go, that only their repos lose folder and address, and that groups, dispatch records and old commits go exactly with their device or update |
| `DeviceCleanup.AllGoneMeansSafe` | cmd/cleanup/cleanupdevices/cleanupdevices.go:383-444 | once all condemned updates are gone, each repo that a commit and one of them used is used by an update that stays |
| `DeviceCleanup.StorageAtEnd` | cmd/cleanup/cleanupdevices/cleanupdevices.go:225-252 | once all condemned updates are gone, exactly the folders of their repos have gone from storage, and of the repos that stay exactly theirs have lost the address |
| `DeviceCleanup.StayingUpdateKeepsFolderExactly` | cmd/cleanup/cleanupdevices/cleanupdevices.go:225-252 | an update that stays keeps the folder of its repo exactly when no condemned update has a repo with that address, and the address exactly when no condemned update has that repo |
| `DeviceCleanup.StayingUpdateLosesFolder` | cmd/cleanup/cleanupdevices/cleanupdevices.go:225-252 | a concrete update of a live device whose folder goes with that of a condemned update on the same repo |
| `DeviceCleanup.CondemnedExactly` | cmd/cleanup/cleanupdevices/cleanupdevices.go:303-381 | an update is condemned exactly when it is linked to a deleted device, or to none while one of its dispatch records is that of a deleted device |
| `DeviceCleanup.RowsOfExactly` | cmd/cleanup/cleanupdevices/cleanupdevices.go:303-381 | the candidate query repeats a row for each image of the update's commit and gives one row without any |
| `DeviceCleanup.RestLeft` | cmd/cleanup/cleanupdevices/cleanupdevices.go:108-209 | once nothing is left to do, exactly the live devices with their groups and dispatch records, the updates that are not condemned with their old commits, and the repos those or no updates use are left |
| `DeviceCleanup.UpdateRepoUrlExactly` | cmd/cleanup/cleanupdevices/cleanupdevices.go:211-235 | a repo counts as built for an update exactly when its address has the part /upd/ or /id/ with the decimal id of the repo |
| `DeviceCleaner.StepKeeps` | cmd/cleanup/cleanupdevices/cleanupdevices.go:211-255 | every call to storage, statement or transaction of a goroutine keeps all this and spares every folder but those of condemned updates, whatever the other goroutines have done before |
| `DeviceCleaner.Cleaner.DeleteUpdateTransaction` | cmd/cleanup/cleanupdevices/cleanupdevices.go:108-171 | all of the transaction or nothing; refuses a live device and a candidate without update |
| `DeviceCleaner.Cleaner.DeleteDevice` | cmd/cleanup/cleanupdevices/cleanupdevices.go:173-209 | all of the transaction or nothing; of the group memberships exactly those of the device go; refuses a live device and one with an update |
| `DeviceCleaner.Cleaner.CleanUpUpdateTransaction` | cmd/cleanup/cleanupdevices/cleanupdevices.go:211-255 | one goroutine alone: storage first, then the address, then the rows; a storage failure changes nothing |
| `DeviceCleaner.Cleaner.CleanUpDevice` | cmd/cleanup/cleanupdevices/cleanupdevices.go:257-269 | one goroutine alone: without faults it ends in its transaction, or that would break a foreign key |
| `DeviceCleaner.Cleaner.CleanUpPage` | cmd/cleanup/cleanupdevices/cleanupdevices.go:402-425 | the goroutines of a page in any interleaving of their steps: without errors every candidate is gone; with reliable statements and nothing in the way there are no errors |
| `DeviceCleanup.OrphanPage` | cmd/cleanup/cleanupdevices/cleanupdevices.go:303-355 | an error-free page of the first phase takes away as many rows of its query as it has |
| `DeviceCleanup.DevicePage` | cmd/cleanup/cleanupdevices/cleanupdevices.go:383-444 | an error-free page of the second phase takes away as many rows and devices as it has candidates; one with all candidates leaves no row with an update, and then nothing at all |
| `DeviceCleaner.Cleaner.CleanupOrphanDevicesUpdates` | cmd/cleanup/cleanupdevices/cleanupdevices.go:303-355 | no orphan update is left if its query had at most 300000 rows |
| `DeviceCleaner.Cleaner.CleanupAllDevices` | cmd/cleanup/cleanupdevices/cleanupdevices.go:383-444 | live devices and updates that are not condemned stay, foreign keys stay valid, repos follow their updates, storage goes first, and no folder goes but those of condemned updates; a success leaves no deleted device and no update linked to one if there were at most 299900 rows with an update and deleted devices; within the bounds a success takes exactly the folders of condemned updates and the addresses of their repos, and without faults it succeeds exactly when every repo that a commit and a condemned update use is used by an update that stays |
| `ImageCleanup.EraseImageFailsExactly` | cmd/cleanup/cleanupimages/cleanupimages.go:165-247 | erasing an image fails exactly when its installer, or a commit or repo that would go with it, is shared |
| `ImageCleanup.SharedInstallerStays` | cmd/cleanup/cleanupimages/cleanupimages.go:222-226 | two concrete deleted images with one installer, neither of which can be erased |
| `ImageCleanup.EraseKeepsStuck` | cmd/cleanup/cleanupimages/cleanupimages.go:165-247 | erasing one image never frees another one of what it shares |
| `ImageCleanup.EraseImageExactly` | cmd/cleanup/cleanupimages/cleanupimages.go:165-247 | the commit goes exactly when no update has it, the set exactly with its last image, the installer always, and of the links exactly those of the image and of its commit |
| `ImageCleanup.EraseFollows` | cmd/cleanup/cleanupimages/cleanupimages.go:165-247 | one erasure takes exactly what hangs on the image, and touches no row of another one |
| `ImageCleanup.RestAgain` | cmd/cleanup/cleanupimages/cleanupimages.go:165-247 | over pages as well: packages, repositories, custom packages, commit links, installers, commits, repos and sets go exactly with the images that are erased, and only rows of built artifacts of candidates are marked |
| `ImageCleanup.EraseImageValid` | cmd/cleanup/cleanupimages/cleanupimages.go:165-247 | erasing keeps every foreign key valid |
| `ImageCleanup.CandidatesExactly` | cmd/cleanup/cleanupimages/cleanupimages.go:274-295 | an image with an installer and a commit with a repo is handled exactly when it is deleted, or is in error with a built tar file, repo or iso file |
| `ImageCleanup.OverlapLeavesSet` | cmd/cleanup/cleanupimages/cleanupimages.go:227-237 | two transactions that do not see each other leave an image set behind exactly when they erase its last two images |
| `ImageCleanup.SetLeftBehind` | cmd/cleanup/cleanupimages/cleanupimages.go:227-237 | a concrete set of two deleted images that is left behind so |
| `ImageCleanup.NoNewCandidates` | cmd/cleanup/cleanupimages/cleanupimages.go:274-295 | no cleanup step makes a new candidate |
| `ImageCleanup.HandledLeaves` | cmd/cleanup/cleanupimages/cleanupimages.go:249-295 | a handled candidate is no candidate any more |
| `ImageCleanup.KeptAgain` | cmd/cleanup/cleanupimages/cleanupimages.go:297-350 | what one page keeps adds up over pages, including that storage goes before rows and that shared rows stay |
| `ImageCleanup.StorageAtEnd` | cmd/cleanup/cleanupimages/cleanupimages.go:146-163 | once no candidate is left, exactly the files and folders of the candidates have gone from storage |
| `ImageCleanup.StayingImageKeepsFilesExactly` | cmd/cleanup/cleanupimages/cleanupimages.go:146-163 | an image that stays keeps all its files exactly when no candidate has an artifact with the address of one of them |
| `ImageCleanup.LiveImageLosesFiles` | cmd/cleanup/cleanupimages/cleanupimages.go:146-163 | a concrete live image whose tar file and repo folder go with a deleted image of the same commit, although nothing stands in the way of the deletion |
| `ImageCleaner.PageLeaves` | cmd/cleanup/cleanupimages/cleanupimages.go:297-350 | after an error-free page there are fewer candidates by the size of the page |
| `ImageCleaner.StepKeeps` | cmd/cleanup/cleanupimages/cleanupimages.go:146-272 | every call to storage, statement or transaction of a goroutine keeps all this, spares every file but those of candidates and brings its candidate forward, whatever the other goroutines have done before |
| `ImageCleaner.StepSound` | cmd/cleanup/cleanupimages/cleanupimages.go:146-272 | no step of a goroutine touches a row that does not go with its image or is marked with its candidate |
| `ImageCleaner.AloneKeeps` | cmd/cleanup/cleanupimages/cleanupimages.go:249-272 | so does a goroutine that runs alone, and its candidate is handled in the end |
| `ImageCleaner.Cleaner.CleanUpImageTarFile` | cmd/cleanup/cleanupimages/cleanupimages.go:46-77 | storage first, then the mark: after a success the tar file is out of storage and the row is not SUCCESS, after a failure no row has changed |
| `ImageCleaner.Cleaner.CleanUpImageRepo` | cmd/cleanup/cleanupimages/cleanupimages.go:79-111 | storage first, then the mark: after a success the repo folder is out of storage and the row is not SUCCESS, after a failure no row has changed |
| `ImageCleaner.Cleaner.CleanUpImageISOFile` | cmd/cleanup/cleanupimages/cleanupimages.go:113-144 | storage first, then the mark: after a success the iso file is out of storage and the row is not SUCCESS, after a failure no row has changed |
| `ImageCleaner.Cleaner.CleanUpImageStorage` | cmd/cleanup/cleanupimages/cleanupimages.go:146-163 | a success means that all three artifacts are out of storage and marked; a failure leaves the marks of those before |
| `ImageCleaner.Cleaner.DeleteImage` | cmd/cleanup/cleanupimages/cleanupimages.go:165-247 | all of the transaction or nothing; of the image links exactly those of the image go; refuses an image that is not deleted |
| `ImageCleaner.Cleaner.CleanUpImage` | cmd/cleanup/cleanupimages/cleanupimages.go:249-272 | one goroutine alone: refuses an image that is neither deleted nor errored; without faults it ends in its transaction, or that would break a foreign key |
| `ImageCleaner.Cleaner.CleanUpPage` | cmd/cleanup/cleanupimages/cleanupimages.go:313-337 | the goroutines of a page in any interleaving of their steps: without errors every candidate is handled; with reliable statements and nothing shared there are no errors |
| `ImageCleaner.Cleaner.CleanUpAllImages` | cmd/cleanup/cleanupimages/cleanupimages.go:297-350 | images without installer or repo, live images and updates stay, foreign keys stay valid, storage goes first, and no file goes but those of candidates; with at most 45000 candidates and without faults it succeeds exactly when no deleted image shares a row that would go with it, and then exactly the deleted images with installer and repo are gone and exactly the files of the candidates |
| `ImageCleanup.EraseCommitFailsExactly` | cmd/cleanup/cleanuporphancommits/cleanuporphancommits.go:42-77 | erasing an orphan commit fails exactly when its repo is shared |
| `ImageCleanup.SharedRepoStays` | cmd/cleanup/cleanuporphancommits/cleanuporphancommits.go:42-77 | two concrete orphan commits with one repo, neither of which can be erased |
| `ImageCleanup.EraseCommitKeepsStuck` | cmd/cleanup/cleanuporphancommits/cleanuporphancommits.go:42-77 | erasing one orphan commit never frees another one of the repo it shares |
| `ImageCleanup.OrphansOnlyGo` | cmd/cleanup/cleanuporphancommits/cleanuporphancommits.go:119-145 | orphan commits only ever disappear, and stay orphans until then |
| `ImageCleanup.UsedCommitsStay` | cmd/cleanup/cleanuporphancommits/cleanuporphancommits.go:119-145 | a commit that an image or an update uses is never erased by this stage |
| `ImageCleanup.FoldersAtEnd` | cmd/cleanup/cleanuporphancommits/cleanuporphancommits.go:79-117 | once the orphan commits are gone, exactly the folders of their repos have gone; a tar file that was in storage is out of it exactly when it has the address of such a folder |
| `ImageCleanup.CommitsFollowAgain` | cmd/cleanup/cleanuporphancommits/cleanuporphancommits.go:42-77 | over pages the links of a commit and its repo go exactly with it, and a repo row changes only with the folder of an orphan commit |
| `CommitCleaner.StepKeeps` | cmd/cleanup/cleanuporphancommits/cleanuporphancommits.go:79-117 | every call to storage, statement or transaction of a goroutine keeps foreign keys, used commits and the order of storage and rows, and spares every folder but those of orphan commits |
| `CommitCleaner.StepSound` | cmd/cleanup/cleanuporphancommits/cleanuporphancommits.go:42-117 | no step of a goroutine touches a row that does not go with its commit |
| `CommitCleaner.Cleaner.DeleteCommit` | cmd/cleanup/cleanuporphancommits/cleanuporphancommits.go:42-77 | all of the transaction or nothing; of the commit links exactly those of the commit go |
| `CommitCleaner.Cleaner.CleanupOrphanCommit` | cmd/cleanup/cleanuporphancommits/cleanuporphancommits.go:79-117 | one goroutine alone: repo folder first, then the rows; the tar file of the commit is out of storage afterwards exactly if it was before or is the folder of the repo |
| `CommitCleaner.TarLeftBehind` | cmd/cleanup/cleanuporphancommits/cleanuporphancommits.go:79-117 | a concrete orphan commit whose rows and folder go and whose tar file stays |
| `CommitCleaner.Cleaner.CleanUpPage` | cmd/cleanup/cleanuporphancommits/cleanuporphancommits.go:163-187 | the goroutines of a page in any interleaving of their steps: without errors every commit is gone; with reliable statements and no shared repo there are no errors |
| `CommitCleaner.Cleaner.CleanupAllOrphanCommits` | cmd/cleanup/cleanuporphancommits/cleanuporphancommits.go:147-203 | no folder goes but those of orphan commits; with at most 45000 orphan commits and without faults it succeeds exactly when none of them shares its repo, and then exactly they are gone and exactly their folders, so that a tar file goes only if it is such a folder |
| `InstalledPackages.PackageStore.CleanupOrphanInstalledPackagesPlain` | cmd/cleanup/cleanuporphancommits/cleanuporphancommits.go:223-256 | ends for every batch size; with a positive one exactly the packages some commit has are left, with zero nothing is deleted; the total is the number deleted |
| `InstalledPackages.PackageStore.DeleteBatch` | cmd/cleanup/cleanuporphancommits/cleanuporphancommits.go:232-241 | one batch deletes only orphan packages and deletes none only when there are none |
| `DispatchEvents.AgreesOverRuns` | pkg/services/updates.go:560-658 | over every run of events with ids whose records have their devices, in any order and with any re-delivery, each update is ERROR while one of its records is and SUCCESS when all are complete; other records may have failed to be dispatched, be decided already or have lost their device |
| `DispatchEvents.OrderAndRedeliveryDoNotMatter` | pkg/services/updates.go:560-658 | two runs of the same such events, however ordered and however often delivered, leave the same record and update statuses when no two of them contradict each other on one record |
| `DispatchEvents.OrderMattersExactly` | pkg/services/updates.go:560-658 | order and re-delivery leave every record status the same exactly when no two events contradict each other on one record |
| `DispatchEvents.ContradictionMatters` | pkg/services/updates.go:586-605 | of two contradictory events on a record the one delivered last decides: two runs of the same events that end differently |
| `DispatchEvents.UnreachableDevice` | pkg/services/updates.go:283-325 | a concrete update with one device that could not be reached: the success of the other record leaves the update in error |
| `DispatchEvents.FinalStatus` | pkg/services/updates.go:639-658 | once every record of an update had a terminal event, and none contradict each other, the update is SUCCESS when all were successes and ERROR otherwise |
| `DispatchEvents.UpdatesOfRun` | pkg/services/updates.go:639-658 | the status after any run of such events that do not contradict each other is the decision on the final records, or the status before |
| `DispatchEvents.RecordsOfRun` | pkg/services/updates.go:586-605 | a record ends in the status of its terminal events, if they do not contradict each other, or keeps its own |
| `DispatchEvents.SuccessOverRuns` | pkg/services/updates.go:639-658 | over every run a successful update has only complete records |
| `DispatchEvents.DevicesMoveOnSuccess` | pkg/services/updates.go:732-786 | a device changes its commit only by an event that leaves all records of one of its updates complete, and then to the commit of that update |
| `DispatchEvents.DevicesOfEvent` | pkg/services/updates.go:581-618 | what an event leaves of every device: the hashes change exactly for the device of the record on a success, and a device runs the commit of the record's update exactly when that is a SUCCESS afterwards and has it |
| `DispatchEvents.ReasonOfEvent` | pkg/services/updates.go:586-605 | a failure and a timeout leave their reason in the record, a success leaves the one before; no other record changes |
| `DispatchEvents.RedeliveredHash` | pkg/services/updates.go:588-591 | a success delivered twice keeps the statuses, but the hash of the device survives exactly when none was pending |
| `DispatchEvents.HashLost` | pkg/services/updates.go:588-591 | a concrete device that loses its hash to a re-delivered success |
| `DispatchEvents.LostFailure` | pkg/services/updates.go:581-618 | a concrete failure of a record without device: the record is saved, the update stays in progress |
| `DispatchEvents.MissingDeviceExactly` | pkg/services/updates.go:581-618 | an event for a record whose device has been deleted never reaches the update; the statuses go on agreeing exactly when it is a success, which saves nothing, or when the update is in error already |
| `DispatchEvents.UpdateService.SetUpdateStatus` | pkg/services/updates.go:639-658 | the loop with its early exit decides as specified: an error first, then success of all, otherwise the status stays |
| `DispatchEvents.UpdateService.UpdateDevicesFromUpdateTransaction` | pkg/services/updates.go:732-786 | only a successful update moves its devices |
| `DispatchEvents.UpdateService.SetUpdateStatusBasedOnDispatchRecord` | pkg/services/updates.go:621-636 | the first update of the record is decided and its devices follow |
| `DispatchEvents.UpdateService.ProcessPlaybookDispatcherRunEvent` | pkg/services/updates.go:560-618 | one event on the tables; statuses go on agreeing with the records |
| `TtlCache.CleanupsAreInvisible` | pkg/cache/mem_cache.go:67-97 | under a clock that never goes back, cleanups inserted anywhere change no answer of a run |
| `TtlCache.CleanupVisibleExactly` | pkg/cache/mem_cache.go:67-97 | a cleanup changes a later read exactly when the item had expired for the cleanup but not for the read, so only with a clock that went back |
| `TtlCache.ReadsLastValue` | pkg/cache/mem_cache.go:80-112 | over every run a read answers the value last set, exactly while it has no expiry or that has not passed; the first stop forgets everything |
| `TtlCache.ExpiredMeans` | pkg/cache/mem_cache.go:100-112 | an item counts as expired exactly once its duration has passed, also where the 64-bit expiry wraps around |
| `TtlCache.Cache.Cleanup` | pkg/cache/mem_cache.go:67-77 | every expired item goes and no other: what a read can find stays, and nothing stale is left |
| `TtlCache.Cache.Get` | pkg/cache/mem_cache.go:80-97 | the answer of the specification |
| `TtlCache.Cache.Set` | pkg/cache/mem_cache.go:100-112 | the item with its 64-bit expiry; other keys stay |
| `TtlCache.Cache.Count` | pkg/cache/mem_cache.go:115-120 | the count is that of the items a read can find plus the expired ones, so it is exact exactly when nothing is stale |
| `TtlCache.ReadableOrStale` | pkg/cache/mem_cache.go:80-120 | every item either can be read or has expired |
| `TtlCache.Cache.Stop` | pkg/cache/mem_cache.go:131-136 | the first call empties the cache, later ones do nothing |
| `PackageDiff.DiffReconstructs` | pkg/services/devices.go:365-407 | the new names are the old ones without the removed and with the added; removed, added and upgraded names are apart; going back swaps added and removed element for element |
| `PackageDiff.MissingInOrder` | pkg/services/devices.go:365-377 | the difference has exactly the places of the first list whose name the second one lacks, repeated ones included, in order |
| `PackageDiff.NewerInOrder` | pkg/services/devices.go:379-396 | the same for the newer packages |
| `PackageDiff.UpgradedOneWay` | pkg/services/devices.go:379-396 | with unique names a name is upgraded in both directions exactly when its versions are newer than each other, so never under a strict order |
| `PackageDiff.RepeatedNameGoesBothWays` | pkg/services/devices.go:379-396 | a repeated name that is upgraded in both directions under a strict order |
| `PackageDiff.GetPackageDiff` | pkg/services/devices.go:365-377 | the loop computes the packages whose name the other list lacks, in order |
| `PackageDiff.GetVersionDiff` | pkg/services/devices.go:379-396 | the loop computes the packages newer than the last old one of their name, in order |
| `PackageDiff.GetDiffOnUpdate` | pkg/services/devices.go:399-407 | the three differences, which reconstruct the new names |

## Left out

- JobWorkerTheorems.JobInOnePlace: for runs that call Start at most once and not after Stop; nil jobs, which Enqueue refuses, are not modelled.
- JobWorkerTheorems.FailureHandlerRule: only for types with both handlers; a panic without a failure handler, a panicking failure handler and a send on a closed channel end the process, which the model calls a crash and does not look behind.
- JobWorkerShutdown.StopReturns: assumes that nobody calls Enqueue once the queues are closed and that handlers return; a handler that never returns blocks Stop.
- RepoRepair.RepairAll: repositories whose URL is NULL, which no query selects, and the migration step that follows the repair are not modelled.
- RepoRepair.Database.RepairDuplicates: completeness is an if-and-only-if when no group lacks an organisation; otherwise only the share of every page that such groups leave is guaranteed.
- ImagesRuns.FlagRightOverRuns: assumes that images of one set get different creation times and that only the end of a build makes an image a SUCCESS; every statement succeeds.
- ImagesRuns.SetsWholeOverRuns: every statement succeeds.
- ImageStore.Store.UpdateImage: repository lookup, compose and validation are one parameter each.
- ImageStore.Store.SetFinalImageStatus: images without an image set are not modelled; the rows of commit and installer are parameters and results, not tables.
- InventorySync.SyncConverges: for a fixed inventory that lists distinct non-empty ids of the organisation and for calls that succeed; what the create event does beyond the row (image and flag) is in `ImageStore`.
- InventorySync.DeviceService.CreateFromHost: the image and the flag that the create event sets after the row are in `ImageStore.Store.ProcessPlatformInventoryUpdatedEvent`, not here.
- InventorySync.DeviceService.SyncInventoryWithDevices: one live device per uuid in the organisation, which the create hook of `pkg/models/devices.go:108-123` enforces but for races (`InventorySync.PageOfHosts` says what these do).
- DeviceCleaner.Cleaner.CleanUpPage: a transaction is one step; that repos follow their updates holds while no two transactions overlap (`DeviceCleanup.OverlapLeavesRepo`).
- ImageCleaner.Cleaner.CleanUpPage: a transaction is one step, as above (`ImageCleanup.OverlapLeavesSet`); an address that cannot be parsed is a storage call that fails.
- CommitCleaner.Cleaner.CleanupAllOrphanCommits: the additional condition of the stage environment (`cmd/cleanup/cleanuporphancommits/cleanuporphancommits.go:128-137`) is not modelled.
- DispatchEvents.UpdateService.UpdateDevicesFromUpdateTransaction: the image of the update's commit and the flag of the devices are in `ImageStore.Store.UpdateDevicesFromUpdateTransaction`; here the devices just run the commit.
- DispatchEvents.UpdateService.ProcessPlaybookDispatcherRunEvent: every statement succeeds.
- DispatchEvents.OrderAndRedeliveryDoNotMatter: for events with an id whose record, if there is one, has its device (`DispatchEvents.MissingDeviceExactly` says what happens otherwise), for dispatcher ids that name one record each, and for records that belong to one update; an empty id selects the first record of all, as in the source, and is left to `DispatchEvents.UpdateService.ProcessPlaybookDispatcherRunEvent`.
- TtlCache.CleanupsAreInvisible: for non-negative times that never decrease; the background goroutine, its channels and the mutex are not modelled, each method is one step.
- PackageDiff.UpgradedOneWay: the order of versions is a parameter.
- HTTP routes, JSON, query filters, views, configuration, logging and metrics: no deep invariant.
- Image Builder, Pulp, RBAC, Kafka, S3 and playbook clients: foreign calls, replaced by parameters or by calls that may fail.
- `cmd/cleanup/deleteimages` and the statuses written while polling Image Builder: not steps of the flag invariant.
- `DeleteCommit` of `cmd/cleanup/cleanupdevices/cleanupdevices.go:63-106`: no caller in the cleanup.
- Wall-clock waits, signal delivery, templates and ISO files.
