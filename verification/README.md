# Code indexer and point store: a verification model

The repository keeps a vector collection per GitHub repository up to date and serves it
from two YDB tables. This project models the parts where that can go wrong without any
single function looking wrong, and proves what the parts promise together.

| file | what it models |
|---|---|
| `Paths.dfy` | segment lists, percent-encoding (section 2.1 of RFC 3986), path prefixes and their expansion |
| `PointTables.dfy` | the points table and the path lookup table; every statement is one atomic step, a crash may come between two |
| `ExactDelete.dfy` | when deleting by path is exact, for every reachable state |
| `PointStore.dfy` | the loops that delete by path and clear a collection, as methods over the two tables |
| `JobTable.dfy` | the durable job table under statements of any number of processes |
| `IndexingWorkers.dfy`, `ClaimScan.dfy` | one process of the durable queue: workers, claim lock, repository keys, drain requests; which row a scan claims |
| `DurableQueue.dfy`, `JobOutcomes.dfy`, `StrandedJobs.dfy` | runs of that process: attempts, how jobs end, which jobs are left behind |
| `MemoryQueue.dfy` | the in-memory queue: the object, and the system of callers and jobs around it |
| `EmbeddingBatcher.dfy`, `FullIndexRun.dfy` | the batcher under interleaved `add` calls; the file pool, embedding tasks and `flush` |
| `RepoModel.dfy`, `RepoAgreement.dfy` | a collection and manifest as values; what a sequence of changed files means; when it agrees with a full index |
| `RepoIndexer.dfy`, `PushAnswers.dfy` | full index and incremental push as methods, quota bookkeeping; what they answer, in numbers |
| `PushRuns.dfy` | runs of pushes with crashes and retries |
| `Chunker.dfy`, `Packing.dfy`, `Trimming.dfy` | line windows and bounded pieces; the packing of lines they are; white space |
| `Glob.dfy` | glob patterns compiled to regular expressions |
| `PrefixScan.dfy`, `Decimals.dfy` | manifest listing by key range, collection names, removal of a repository |
| `TreeListing.dfy` | the breadth-first walk over Git trees, and the routes through them |
| `LogFormatter.dfy`, `PathFilter.dfy` | the streaming log formatter; the path filter and its parser |

An event of a state machine is one YDB statement, or the code between two awaits. The
object-shaped code is written as classes whose methods are proved equal to functions on
values; the runs and the properties that span operations are proved about those functions.

Main results, hardest first:

- `IncrementalAgreesIff` says exactly when applying a diff entry by entry ends where a full
  index would: the last entry to delete each path must treat it as a full index does.
  `IncrementalRefinesFull` derives this from conditions on the diff alone. Two concrete
  diffs, a swap of two files and a copy that names its source, are proved to lose a file.
- `RunAgreesIff` carries this through runs of pushes with crashes inside an entry, repeated
  attempts and pushes given up after their last attempt; `RunsConverge` gives agreement when
  a push that was given up is followed by a full index. A push that stops on a quota is
  always given up, and `AfterGivenUpIff` says when its successor still agrees.
- `NoStrandedJob` shows that the durable queue loses no wakeup while no pending row shares
  the key of a running row it does not own; `LastClaimStrandsIff` shows that a failing claim
  of the last worker strands the rest. `NeverTwoJobsOfARepository` bounds the running jobs.
- `LookupStaysComplete`, `SubtreeDeleteIsExact` and `DeleteIsExactIff` show that the lookup
  table always covers the points, and exactly when deleting by path removes a subtree.
- `RunStopsIff` says, in numbers and without the run that stopped, when the chunk quota stops
  a push; `OutcomeIff` ties the status a job ends in to the events of its run.
- `BoundedIsPacking` gives the chunks of a window as its one packing of as many lines as
  fit; `FilesAreRoutes` gives a listing as the routes from the root tree to its blobs.
- `RunKeeps` of the in-memory queue and `FlushedRunIsComplete` of the full index give their
  invariants over every interleaving.

Where code and naming suggest more than the code does, the model follows the code:
`incrementalPush` does not check file sizes, a copied file's `previous_filename` is deleted
like a renamed one's, lookup rows of a point's old path are never removed, a push to a
branch other than the default one is answered with a full index at its own commit, and
`incrementalPush` never compares the commit its manifest is for with the one it starts from.

## Model

| member | source | states |
|---|---|---|
| `RepoAgreement.IncrementalAgreesIff` | src/code-indexer/repoIndexer.ts:496-525 | for every diff that names each difference, starting from agreement with the old tree: collection and manifest agree with a full index of the new tree if and only if, for each path, the last entry deleting it and the last entry naming it index it exactly when a full index would |
| `RepoAgreement.IncrementalRefinesFull` | src/code-indexer/repoIndexer.ts:365-540 | a valid diff between two well-formed trees, in an order where nothing later deletes what was indexed earlier, ends in the chunks and manifest of a full index |
| `RepoAgreement.ValidDiffIsRight` | src/code-indexer/repoIndexer.ts:786-839 | the conditions on the diff (entries sound, differences covered, no path above another, safe order, sizes within the limit) make every last deletion and last mention right |
| `RepoAgreement.PointsAgreeIff` | src/code-indexer/repoIndexer.ts:800-839 | the collection half, from any state: it agrees after the run if and only if every last deletion is right and it agreed before wherever no entry reaches |
| `RepoAgreement.FilesAgreeIff` | src/code-indexer/repoIndexer.ts:496-535 | the manifest half, from any state, with mentions for deletions |
| `RepoAgreement.AgreementDetermines` | src/code-indexer/repoIndexer.ts:252-305 | two states agreeing with one tree have equal manifests and, per path, the same chunks (blob, index, lines, text) in equally many points |
| `RepoAgreement.AgreementCarriesOver` | src/code-indexer/repoIndexer.ts:416-425 | a path no entry reaches is the same file in both trees, so agreement with the old tree is agreement with the new one there |
| `RepoAgreement.SwapLosesAFile` | src/code-indexer/repoIndexer.ts:786-839 | two files exchanged by reported renames: the diff is sound and names each difference, and after its entries one file of the tree has no point in the collection |
| `RepoAgreement.CopyLosesItsSource` | src/code-indexer/githubClient.ts:464-475 | a copied entry that carries its source as previous file name: after it the source, still in the tree, has no point in the collection |
| `RepoModel.LastTouchDecides` | src/code-indexer/repoIndexer.ts:800-839 | after any run of entries the points of a path are those the last entry deleting it left, or the initial ones when none deletes it |
| `RepoModel.LastMentionDecides` | src/code-indexer/repoIndexer.ts:496-525 | the manifest entry of a path is the one the last entry naming it left, or the initial one |
| `RepoModel.StepPoints` | src/code-indexer/repoIndexer.ts:786-839 | one entry replaces the points of the paths at or below its two names and leaves every other path alone |
| `RepoModel.TableDeleteIsDeletePath` | src/code-indexer/indexStore.ts:106-125 | after any run of the two tables in which ids carry their paths, the delete of a path on the tables that hold a collection leaves the tables that hold the collection without the path |
| `RepoModel.RowsAre` | src/code-indexer/indexStore.ts:181-209 | upserting a file's chunks gives exactly one point per chunk index, with that chunk's lines and text |
| `RepoModel.LineWindowsAreWellChunked` | src/code-indexer/chunker.ts:281-292 | the line-window chunker numbers chunks 0..n-1, as the point ids need |
| `RepoIndexer.RepoIndexer.FullIndex` | src/code-indexer/repoIndexer.ts:252-305 | an unreadable configuration, or more indexable files than the file quota, changes nothing; more chunks in all than the chunk quota keeps the manifest; otherwise the result agrees with the tree, under the commit as ref, with its manifest |
| `RepoIndexer.RepoIndexer.IndexCandidates` | src/code-indexer/repoIndexer.ts:586-640 | files taken in any order give the same collection and manifest, and the run ends in the quota error exactly when the sum of all chunks is greater than the quota |
| `RepoIndexer.RepoIndexer.IncrementalPush` | src/code-indexer/repoIndexer.ts:365-540 | each of the four fallbacks is a full index at the pushed commit; otherwise the state is the one the entries make, with the collection's size as result |
| `RepoIndexer.RepoIndexer.ApplyChanges` | src/code-indexer/repoIndexer.ts:463-540 | the loop's final state or the state at the quota error; a quota error keeps the old manifest |
| `RepoIndexer.RepoIndexer.ApplyChangedFile` | src/code-indexer/repoIndexer.ts:786-839 | deletions first, then the file's rows, unless removed, not indexable, missing, empty, or taking the running count above the quota number |
| `RepoIndexer.RepoIndexer.IndexSingleFile` | src/code-indexer/repoIndexer.ts:841-889 | when count and new chunks together are more than the quota, nothing is upserted |
| `RepoIndexer.RepoIndexer.UpsertChunks` | src/code-indexer/indexStore.ts:181-209 | the collection gains the rows of all chunks |
| `RepoIndexer.RepoIndexer.CurrentManifestChunkCount` | src/code-indexer/repoIndexer.ts:978-997 | the sum over the manifest when every entry has a count, the number of points otherwise |
| `RepoIndexer.RepoIndexer.ProjectFiles` | src/code-indexer/repoIndexer.ts:463-480 | the projection used for the file quota |
| `RepoIndexer.RepoIndexer.ProcessPush` | src/code-indexer/repoIndexer.ts:183-208 | created, forced, zero-based or other-branch pushes become full indexes; the rest are incremental |
| `RepoIndexer.QuotaBookkeeping` | src/code-indexer/repoIndexer.ts:491-525 | at every iteration the running count is the sum over the entries so far; with a quota of n that sum is at most n after each indexed file, and stays at most n once it is |
| `PushAnswers.RunStopsIff` | src/code-indexer/repoIndexer.ts:496-525 | with exact counts a chunk quota of n stops the entries if and only if some entry indexes a file whose chunks, added to the sum over the other files as they would stand without any quota, are more than n |
| `PushAnswers.ProjectedDecides` | src/code-indexer/repoIndexer.ts:463-480 | a path counts towards the file quota exactly when the last entry naming it is its own, no removal and indexable, or when none names it and the manifest has it |
| `PushAnswers.FullIndexAnswers` | src/code-indexer/repoIndexer.ts:548-640 | which of the four answers a full index gives, by the numbers: files of indexable path and size within the limit, the sum of their chunks, and the two quotas |
| `PushAnswers.FullIndexWithinQuota` | src/code-indexer/repoIndexer.ts:609-617 | after a ready full index the collection holds as many points as reported, at most the chunk quota, and the manifest at most the file quota |
| `PushAnswers.FallsBackIff` | src/code-indexer/repoIndexer.ts:1188-1199 | a push is answered with a full index exactly when it is created or forced, starts from zeros, is of another branch and no deletion, has no manifest or one of other settings, reaches 300 or the configured number of files, or names the configuration file |
| `PushAnswers.PushAnswers` | src/code-indexer/repoIndexer.ts:365-540 | otherwise the file quota refuses it exactly when the projected count is greater, a refusal keeps the manifest, and a ready push saves its own commit and reports the collection's size |
| `PushAnswers.ChunksQuotaIff` | src/code-indexer/repoIndexer.ts:841-889 | and the chunk quota refuses it exactly when an entry overflows it |
| `PushAnswers.CountsFrom` | src/code-indexer/repoIndexer.ts:978-997 | the count starts from the manifest where every entry has its chunk count, from the number of points where one has none |
| `PushAnswers.EntryIndexes` | src/code-indexer/repoIndexer.ts:800-839 | after an indexing entry the path holds one point per chunk of the file at the commit, named after the commit and the entry's blob, or after the commit where the entry has none; nothing else |
| `PushAnswers.StatusWords` | src/code-indexer/repoIndexer.ts:470-476 | which words of a status mean removal, in any case |
| `RepoIndexer.SubtractIsExact` | src/code-indexer/repoIndexer.ts:999-1010 | with the count equal to the sum, taking an entry out never reaches below zero, so the clamp does nothing |
| `RepoIndexer.ManifestWithinProjection` | src/code-indexer/repoIndexer.ts:463-480 | the paths of the final manifest are among the projected ones |
| `RepoIndexer.FilesQuotaBoundsManifest` | src/code-indexer/repoIndexer.ts:463-486 | with a file quota of n and at most n projected files, the saved manifest has at most n files |
| `RepoIndexer.AgreementCounts` | src/code-indexer/repoIndexer.ts:978-997 | in agreement the number of points equals the sum over the manifest, so both sources of the chunk count say the same |
| `PushRuns.RunAgreesIff` | src/code-indexer/stateStore.ts:1889-1935 | over any run of pushes, each attempted until done or given up after the last attempt allowed: every completed push agrees with its tree if and only if every completing attempt began where collection and manifest agreed outside its diff, or was a full index |
| `PushRuns.RunsConverge` | src/code-indexer/repoIndexer.ts:183-208 | with crashes anywhere, repeated attempts, and every push given up followed by a full index, the state agrees with a full index of the last tree once its push is done |
| `PushRuns.StopRepeats` | src/code-indexer/repoIndexer.ts:841-889 | a push that stops on a quota or its configuration stops alike in every later attempt, whatever the collection, and the manifest stays |
| `PushRuns.StoppedPushIsGivenUp` | src/code-indexer/stateStore.ts:1889-1935 | so in every run such a push ends by being given up, never done |
| `PushRuns.GivenUpAtTheLimit` | src/code-indexer/stateStore.ts:1888-1935 | giving a push up takes exactly the attempts allowed: the failing one is the last of them, and every earlier one was cut short or had attempts left |
| `PushRuns.AfterGivenUpIff` | src/code-indexer/repoIndexer.ts:365-412 | after pushes that were given up, the next push completed without a full index agrees with its tree if and only if that tree and the older one index alike every path its diff does not reach |
| `PushRuns.GivenUpPushIsLost` | src/code-indexer/repoIndexer.ts:496-535 | a file added by a push that the quota stopped is missing after the next push reports ready |
| `PushRuns.CompletedPushAgreesIff` | src/code-indexer/repoIndexer.ts:365-540 | a push reporting success agrees with its tree if and only if it was answered with a full index, or collection and manifest agreed before wherever its entries do not reach |
| `PushRuns.CrashRecovers` | src/code-indexer/repoIndexer.ts:496-525 | a crash anywhere, inside an entry too, leaves a recoverable state |
| `PushRuns.UnfinishedRecovers` | src/code-indexer/stateStore.ts:1853-1938 | so does a push that stopped on a quota, or finished without being acknowledged |
| `PushRuns.NextPushRecovers` | src/code-indexer/repoIndexer.ts:399-461 | agreement with one tree is a recoverable start for the next push, because a changed configuration file forces a full index |
| `PushRuns.ConfigUnchanged` | src/code-indexer/repoIndexer.ts:101-106 | without an entry naming the configuration file both trees are indexed with the same settings |
| `StrandedJobs.NoStrandedJob` | src/code-indexer/stateStore.ts:1815-1851 | from any table in which no pending row has the key of a running one, and over every run of events that keep it so, restarts and other processes included: without live worker and without enqueue in flight no row is pending |
| `StrandedJobs.NoStrandedJobAlone` | src/code-indexer/stateStore.ts:1815-1851 | a process by itself, started without running rows, needs no further condition |
| `StrandedJobs.StepNoLoss` | src/code-indexer/stateStore.ts:2126-2182 | every such event keeps the rows in hand, the claims that can succeed, and someone to look at what is pending |
| `StrandedJobs.ClaimSucceedsUnlessForeign` | src/code-indexer/stateStore.ts:2184-2242 | a worker's claim succeeds if and only if no running row of another owner has its repository's key |
| `StrandedJobs.LastClaimStrandsIff` | src/code-indexer/stateStore.ts:2126-2145 | the last live worker ends after its claim, leaving every pending row pending, if and only if the claim cannot succeed |
| `StrandedJobs.LastClaimFailsIffForeign` | src/code-indexer/stateStore.ts:2184-2242 | with its row still there, that is if and only if a running row of another owner has the key |
| `StrandedJobs.DeleteIsTameIff` | src/code-indexer/stateStore.ts:1677-1697 | deleting a repository's waiting rows meets the condition if and only if none of them is in a worker's hands |
| `StrandedJobs.ClaimElsewhereIsTameIff` | src/code-indexer/stateStore.ts:2184-2242 | a claim by another process meets it if and only if its row is in no worker's hands here and no other row of its repository waits |
| `StrandedJobs.OrphanStrands` | src/code-indexer/stateStore.ts:2334-2356 | a running row left by a crash and not yet stale: the run from the start of the process ends with a job of a free repository pending and nobody to run it |
| `StrandedJobs.DeleteDuringClaimStrands` | src/code-indexer/stateStore.ts:1677-1697 | a concurrent delete of the row being claimed ends the worker and leaves another pending row behind |
| `StrandedJobs.ReachesClaim` | src/code-indexer/stateStore.ts:2126-2182 | a process with one worker reaches its first claim from any table, so both counterexamples start from a reachable state |
| `DurableQueue.AttemptsBounded` | src/code-indexer/stateStore.ts:1853-1938 | with one process at a time, attempts count claims and never exceed the maximum plus the stale resets suffered |
| `DurableQueue.TerminalForever` | src/code-indexer/stateStore.ts:2258-2303 | a row once completed, or once failed, is still there with that status at the end of every run without cleanup |
| `DurableQueue.StepTerminal` | src/code-indexer/stateStore.ts:2334-2402 | no single event moves a finished row, and only the cleanup removes it |
| `JobOutcomes.JobEnds` | src/code-indexer/stateStore.ts:2258-2303 | a success completes the worker's running row; an error makes it pending while its attempts are below the maximum and failed otherwise; the claim is gone, and no other row changes |
| `JobOutcomes.StepOutcome` | src/code-indexer/stateStore.ts:1853-1938 | no other event completes or fails a row |
| `JobOutcomes.OutcomeIff` | src/code-indexer/stateStore.ts:1853-1938 | over every run, restarts included: a row ends completed if and only if it started so or its job succeeded, and failed if and only if it started so or its job failed on the last attempt allowed (the cleanup may then remove it) |
| `JobOutcomes.OneOutcome` | src/code-indexer/stateStore.ts:1853-1938 | no run holds both ends of one job |
| `JobOutcomes.FailedOnlyExhausted` | src/code-indexer/stateStore.ts:1889-1920 | in every run, failed rows have used up their attempts |
| `JobOutcomes.ResetReturnsTheStale` | src/code-indexer/stateStore.ts:2334-2356 | a reset returns exactly the running rows last updated before the cutoff, without their claims; such a row can be claimed at once exactly when no running row of its repository is younger |
| `JobOutcomes.ResetRevokesClaim` | src/code-indexer/stateStore.ts:2334-2356 | a claim still verifies after a reset exactly when its row was not stale |
| `JobOutcomes.CleanupTakesTheFinished` | src/code-indexer/stateStore.ts:2358-2402 | exactly the finished rows older than the cutoff go; what can be claimed stays the same |
| `JobOutcomes.DeletesLeave` | src/code-indexer/stateStore.ts:1677-1697 | deleting waiting jobs leaves the running rows of the repository, removing it leaves none and frees its key |
| `JobOutcomes.EnqueueAdds` | src/code-indexer/stateStore.ts:1957-2007 | a new row waits with no attempt used, claimable exactly when its repository runs nothing; a known id changes nothing |
| `IndexingWorkers.WorkersExclude` | src/code-indexer/stateStore.ts:1837-1851 | whatever other processes and failing statements do, no two workers of a process hold the same repository, at most one is in the claim section, and the worker count is exact |
| `IndexingWorkers.SelectOutcome` | src/code-indexer/stateStore.ts:2164-2182 | a page holds rows as they are stored, pending, and the first page is empty only when nothing is pending |
| `IndexingWorkers.ConsiderOutcome` | src/code-indexer/stateStore.ts:2147-2162 | what a page leads to after its select: a row of it whose repository this process is not running, the next page, or the end, and what is then known |
| `ClaimScan.ScanClaimsFirst` | src/code-indexer/stateStore.ts:2126-2182 | an undisturbed scan, over any number of pages, goes on to claim the first pending row in order of creation whose repository the process does not run; with none it gives the lock back and the worker ends |
| `ClaimScan.PageDecides` | src/code-indexer/stateStore.ts:2147-2162 | one page: its first free row, or the next page when it held fifty rows, or the end |
| `ClaimScan.DrainFills` | src/code-indexer/stateStore.ts:1815-1851 | a drain brings the workers up to the concurrency, in line for the lock in order, and is remembered when there is no room |
| `IndexingWorkers.DrainControl.DrainNow` | src/code-indexer/stateStore.ts:1815-1835 | starts workers up to capacity, or remembers the request |
| `IndexingWorkers.DrainControl.WorkerDone` | src/code-indexer/stateStore.ts:1827-1835 | a finished worker honours a remembered request |
| `JobTable.NeverTwoJobsOfARepository` | src/code-indexer/stateStore.ts:2184-2242 | with running rows keyed by their repository and claims asking with the payload's key, at most one job of each repository runs, over every sequence of statements of any processes |
| `JobTable.ClaimKeepsOneJobIff` | src/code-indexer/stateStore.ts:2184-2242 | a claim that takes its row keeps that if and only if no running row of its repository lacks a key |
| `JobTable.NeverTwoRunning` | src/code-indexer/stateStore.ts:2184-2242 | whatever keys claims ask with, no key is in the key column of two running rows |
| `JobTable.StatementKeepsOneJob` | src/code-indexer/stateStore.ts:1957-1994 | every single statement (enqueue, claim, complete, fail, retry, reset, cleanup, delete) keeps one job per repository |
| `JobTable.KeylessRunningRowIsNotExcluded` | src/code-indexer/stateStore.ts:2184-2242 | with a running row without a key, as left by an older version, the key column stays unique and two jobs of one repository run |
| `JobTable.ClaimSucceedsIff` | src/code-indexer/stateStore.ts:2184-2242 | a claim reports success if and only if its own claim id is on the row |
| `JobTable.ClaimIdempotent` | src/code-indexer/stateStore.ts:2184-2242 | executing a claim again with the same id changes nothing further |
| `MemoryQueue.RunKeeps` | src/code-indexer/queue.ts:104-253 | in every reachable state: active count is the number of running repositories and within concurrency, spare capacity means every queued repository is running, jobs are conserved, each repository starts in push order, waiters are live, removal counts are exact |
| `MemoryQueue.InitialInv` | src/code-indexer/queue.ts:79-102 | a new queue satisfies all of that |
| `MemoryQueue.DeleteReturnsIdle` | src/code-indexer/queue.ts:118-132 | `deleteRepositoryJobs` returns only when the repository has no queued or running job, with the number it removed |
| `MemoryQueue.FinishWakesEveryWaiter` | src/code-indexer/queue.ts:157-169 | finishing a repository's job resumes every caller waiting for it |
| `MemoryQueue.InMemoryIndexingQueue.constructor` | src/code-indexer/queue.ts:92-102 | an empty queue with concurrency at least one, rounded down |
| `MemoryQueue.InMemoryIndexingQueue.FindNext` | src/code-indexer/queue.ts:171-187 | the first queued job whose repository is idle, or -1 when there is none |
| `MemoryQueue.InMemoryIndexingQueue.DrainJobs` | src/code-indexer/queue.ts:171-187 | the started jobs and the new state are those of the drain function on values |
| `MemoryQueue.InMemoryIndexingQueue.Push` | src/code-indexer/queue.ts:104-116 | the job is appended, then the queue drained |
| `MemoryQueue.InMemoryIndexingQueue.Finish` | src/code-indexer/queue.ts:246-253 | the repository is released, its waiters resolved, then the queue drained |
| `MemoryQueue.InMemoryIndexingQueue.DeleteQueuedRepositoryJobs` | src/code-indexer/queue.ts:134-144 | every queued job of the repository goes, others keep their order, and the number is returned |
| `MemoryQueue.InMemoryIndexingQueue.WaitForRepoIdle` | src/code-indexer/queue.ts:146-155 | resolved at once when idle, a registered waiter otherwise |
| `MemoryQueue.InMemoryIndexingQueue.DeleteBegin` | src/code-indexer/queue.ts:118-132 | the turn from the call to its first wait |
| `MemoryQueue.InMemoryIndexingQueue.DeleteResume` | src/code-indexer/queue.ts:118-132 | each later turn, which removes again before it may return |
| `PointTables.LookupStaysComplete` | src/repositories/pointsRepo.storage/Upsert.ts:243-349 | over every run of upsert batches, deletes and clears, with crashes between statements, each stored point has a lookup row for each of its prefixes |
| `PointTables.SubtreeDeleteIsExact` | src/repositories/pointsRepo.storage/Delete.ts:200-232 | after every run in which ids carry fixed paths, deleting by paths removes exactly the points whose segments have a requested list as prefix |
| `PointTables.SearchSelectsIffUnderSome` | src/repositories/pointsRepo.storage/PathSegmentsFilter.ts:12-70 | search by prefix selects exactly the same points |
| `ExactDelete.DeleteIsExactIff` | src/repositories/pointsRepo.storage/Delete.ts:200-232 | after every run, whatever paths ids were stored under: deleting is exact for every list of paths if and only if each lookup row of a stored point is for one of that point's own prefixes |
| `ExactDelete.MoveKeepsExactIff` | src/repositories/pointsRepo.storage/Upsert.ts:117-136 | storing an id again keeps deletes exact if and only if the new path extends the old one |
| `ExactDelete.DeleteByIdIsExact` | src/repositories/pointsRepo.storage/Delete.ts:36-98 | after every run: the listed ids lose point and rows in their collection, every other point and row stays, and deletes by any paths take the others as before |
| `ExactDelete.DeletedStaysDeleted` | src/repositories/pointsRepo.storage/Delete.ts:45-60 | no run brings a deleted id's point or rows back until a batch carries the id again |
| `ExactDelete.BulkStoresTheLast` | src/repositories/pointsRepo.storage/Upsert.ts:307-320 | an upserted id has the path of its last occurrence in the batch, and every other point keeps its own |
| `PointTables.MovedPointIsDeletedByItsOldPath` | src/repositories/pointsRepo.storage/Upsert.ts:117-136 | an id stored again under an unrelated path is still deleted by its old one |
| `PointTables.InterleavingsAgree` | src/repositories/pointsRepo.storage/Delete.ts:381-403 | every interleaving of the batches of all chunks ends in the same tables |
| `PointTables.InterleavingsCountAlike` | src/repositories/pointsRepo.storage/Delete.ts:403-417 | and returns the same total |
| `PointTables.StepKeeps` | src/repositories/collectionsRepo.storage.ts:214-294 | every single statement, also of another collection, keeps completeness and what the running clear relies on |
| `PointStore.DedupePathSegmentsPaths` | src/repositories/pointsRepo.storage/Delete.ts:287-303 | keeps the first path of each encoded prefix, drops the others, and covers the same prefixes |
| `PointStore.DedupeKeepsEveryPath` | src/repositories/pointsRepo.storage/Delete.ts:287-303 | no non-empty path is dropped unless an equal one is kept |
| `PointStore.SliceIntoChunks` | src/repositories/pointsRepo.storage/Delete.ts:358-375 | the slices are non-empty, all but the last full, and together the list |
| `PointStore.ChunksAreDisjoint` | src/repositories/pointsRepo.storage/Delete.ts:358-375 | no prefix is in two chunks |
| `PointStore.Store.DeletePoints` | src/repositories/pointsRepo.storage/Delete.ts:36-98 | afterwards a point or lookup row is stored exactly when it was and is not one of the listed ids in the collection; paths are unchanged, and completeness stays |
| `PointStore.Store.DeletePointsByPathSegmentsChunked` | src/repositories/pointsRepo.storage/Delete.ts:234-280 | terminates with no matching row left, the matching points gone, and the number of rows that matched at the start |
| `PointStore.Store.DeletePointsByPathSegments` | src/repositories/pointsRepo.storage/Delete.ts:349-417 | fails if and only if a kept path is empty; otherwise all matching rows and points are gone and counted once; a failure has deleted some of them and nothing else |
| `PointStore.Store.DeletePointsForCollectionInChunks` | src/repositories/collectionsRepo.storage.ts:25-101 | removes all but what is over the iteration limit, and only from its collection |
| `PointStore.Store.DeleteLookupRowsForCollectionInChunks` | src/repositories/collectionsRepo.storage.ts:103-195 | the same for lookup rows |
| `PointStore.Store.ClearCollectionInChunks` | src/repositories/collectionsRepo.storage.ts:214-294 | up to 10,000 x 10,000 points the clear keeps completeness |
| `PointStore.ClearKeepsCompletenessIff` | src/repositories/collectionsRepo.storage.ts:25-195 | with the lookup rows within the limit, completeness survives a clear if and only if the points were within it too |
| `Paths.ExpandPathPrefixes` | src/utils/prefixExpansion.ts:1-14 | a prefix is listed if and only if the path is equal to it or lies below it |
| `Paths.EncodeInjective` | src/utils/pathPrefix.ts:53-55 | percent-encoding tells different texts apart |
| `Paths.EncodeSlashFree` | src/utils/pathPrefix.ts:53-55 | and never produces a slash |
| `Paths.EncodeIs` | src/utils/pathPrefix.ts:53-55 | letters, digits and nine marks are encoded as themselves, every other character is not |
| `Paths.EuroSign` | src/utils/pathPrefix.ts:53-55 | a character of three UTF-8 bytes is written as three of them in upper-case hexadecimal digits |
| `Paths.AtOrBelowIffListPrefix` | src/repositories/pointsRepo.storage/PathSegmentsFilter.ts:12-42 | comparing encoded prefixes decides "is a list prefix of" for every two segment lists |
| `Paths.LookupMatchIffListPrefix` | src/repositories/pointsRepo.storage/PathSegmentsFilter.ts:44-70 | exact matching on the lookup rows of a path decides the same |
| `Paths.PrefixInjective` | src/utils/pathPrefix.ts:43-55 | equal prefixes mean equal segment lists |
| `Paths.CleanPathSegments` | src/code-indexer/naming.ts:34-36 | a path without empty components is recovered from its segments |
| `EmbeddingBatcher.SectionKeeps` | src/code-indexer/repoIndexer.ts:719-739 | between two awaits of any interleaved `add`: scheduled batches then the current one are the chunks in push order, each batch is non-empty, within the count limit, and within the character limit but for its last chunk |
| `EmbeddingBatcher.SectionsMakeTheCall` | src/code-indexer/repoIndexer.ts:719-739 | the sections of one undisturbed call make up that call |
| `EmbeddingBatcher.SoloStepKeeps` | src/code-indexer/repoIndexer.ts:719-739 | with a single caller each batch is within the character limit or a single chunk |
| `EmbeddingBatcher.SoloBatcher.FlushCurrentBatch` | src/code-indexer/repoIndexer.ts:708-716 | schedules the current batch whole, or does nothing when it is empty |
| `EmbeddingBatcher.SoloBatcher.AddChunk` | src/code-indexer/repoIndexer.ts:719-739 | flushes before, pushes, flushes after |
| `EmbeddingBatcher.SoloBatcher.Add` | src/code-indexer/repoIndexer.ts:719-739 | all chunks in order, every batch within the limits or a single chunk |
| `EmbeddingBatcher.SectionClosesFull` | src/code-indexer/repoIndexer.ts:719-739 | between two awaits of any `add` at most one batch is closed, and it is full, or the chunk to come would overflow it |
| `EmbeddingBatcher.AddOneCloses` | src/code-indexer/repoIndexer.ts:719-739 | with a single caller every scheduled batch is full, or would be overflowed by the first chunk after it |
| `FullIndexRun.FlushedRunIsComplete` | src/code-indexer/repoIndexer.ts:579-640 | when `flush` returns and all tasks fulfil, every chunk of every file is stored exactly once, processed chunks equal the total, and the manifest lists each non-empty file once |
| `FullIndexRun.RunKeeps` | src/code-indexer/repoIndexer.ts:1157-1175 | the invariants of pool, batcher and tasks over every interleaving, on the way to that |
| `FullIndexRun.PoolSize` | src/code-indexer/repoIndexer.ts:1157-1175 | the pool has one worker for each file up to the requested number, and one at least |
| `Chunker.WindowsCover` | src/code-indexer/chunker.ts:322-360 | windows start at the first line, end at the last, and neighbours share exactly the overlap |
| `Chunker.EveryLineInAWindow` | src/code-indexer/chunker.ts:322-360 | every line is in some window |
| `Chunker.WindowContributes` | src/code-indexer/chunker.ts:362-438 | a window's chunks carry its text, white space aside, and come from its lines (which lines go together: `Packing.BoundedIsPacking`) |
| `Chunker.ChunksAreSound` | src/code-indexer/chunker.ts:322-438 | for every text and options, chunks are numbered from 0, have 1 to the maximum characters, and are the trim of exactly their source lines or a trimmed slice of one over-long line |
| `Chunker.ChunksConserveText` | src/code-indexer/chunker.ts:322-360 | without overlap the chunks together are the file, white space aside |
| `Chunker.OptionsUsable` | src/code-indexer/chunker.ts:204-218 | whatever the options, windows move forward and pieces may hold text; usable options are taken as they are, and 80, 10 and 8000 stand for missing ones |
| `Chunker.PushBoundedLineChunks` | src/code-indexer/chunker.ts:362-438 | the loop computes the pieces the lemmas here and in `Packing` are about |
| `Chunker.ChunkFileWithLineWindows` | src/code-indexer/chunker.ts:322-360 | the loop computes the windows and chunks the lemmas are about |
| `Packing.BoundedIsPacking` | src/code-indexer/chunker.ts:398-437 | a window has a packing: pieces end to end that cover its lines, over-long lines apart, each as long as fits; its chunks are the trims of the pieces that are not blank, numbered on, over-long lines cut every maximum characters |
| `Packing.PackingIsUnique` | src/code-indexer/chunker.ts:424-428 | and only one: no other cut of the lines fills its pieces |
| `Packing.FittingWindowIsOneChunk` | src/code-indexer/chunker.ts:398-437 | lines that fit together are one chunk, from the first line to the last |
| `Packing.SmallFileIsOneChunk` | src/code-indexer/chunker.ts:322-360 | and so is a file within one window and one chunk |
| `Packing.LinesAreTheText` | src/code-indexer/chunker.ts:337 | the lines of a file hold no line feed, and joined again they are the file, carriage returns before line feeds aside |
| `Packing.BinaryIff` | src/code-indexer/chunker.ts:229-248 | binary is decided by a NUL, or by how many positions of the first 4096 hold control characters |
| `Packing.TextIsNotBinary` | src/code-indexer/chunker.ts:229-248 | text without control characters is never binary |
| `Trimming.TrimIs` | src/code-indexer/chunker.ts:376-380 | trimming cuts white space off both ends and no more |
| `Trimming.TrimMonotone` | src/code-indexer/chunker.ts:424 | a longer candidate never trims to a shorter text |
| `Trimming.SolidKeepsPrintable` | src/code-indexer/chunker.ts:376-380 | printable text has nothing that "white space aside" could leave out |
| `Chunker.IsProbablyBinaryContent` | src/code-indexer/chunker.ts:229-248 | binary when it holds a NUL or more than a tenth of the sample is control characters |
| `Glob.RegExpDecidesGlob` | src/code-indexer/chunker.ts:144-171 | for every pattern and every path without line terminators the compiled expression accepts the path if and only if the direct matcher does |
| `Glob.CompiledReadsBack` | src/code-indexer/chunker.ts:120-122 | the escaped source reads back as the pattern's own terms |
| `Glob.RegExpDecidesEveryGlobIff` | src/code-indexer/chunker.ts:144-171 | the condition is exact: on a path every compiled expression decides its glob if and only if the path has no line terminator |
| `Glob.PatternToRegExp` | src/code-indexer/chunker.ts:144-171 | the loop writes the source the lemmas are about |
| `PrefixScan.RangeIsPrefixFilterIff` | src/code-indexer/stateStore.ts:690-700 | where there is an upper bound the key range is the prefix filter if and only if the prefix is not empty |
| `PrefixScan.ListingsAgree` | src/code-indexer/stateStore.ts:1525-1558 | for keys within the BMP the stored listing and the in-memory listing are the same sequence |
| `PrefixScan.OrdersAgreeIff` | src/code-indexer/queue.ts:56-67 | the sort order of the in-memory listing and the key order of the table say the same of two texts if and only if these do not first differ in a character beyond U+FFFF against one from U+E000 to U+FFFF |
| `PrefixScan.SanitizeIsClean` | src/code-indexer/naming.ts:5-9 | every sanitized identifier is clean, and sanitizing again changes nothing |
| `PrefixScan.PrefixSelectsRepo` | src/code-indexer/naming.ts:15-28 | a collection name carries the prefix of its own repository and of no other |
| `PrefixScan.KeySelectsRepo` | src/code-indexer/stateStore.ts:679-688 | a manifest key starts with a repository's key prefix if and only if it is of that installation and repository |
| `PrefixScan.NamesAreSpelled` | src/code-indexer/naming.ts:11-28 | the names of a user, its default-branch and pull-request collections and their prefix, spelled out |
| `PrefixScan.RepoScanHasBound` | src/code-indexer/stateStore.ts:690-700 | the scan of a repository's keys always has its upper bound, which ends in a backquote, and selects exactly the keys with the prefix |
| `PrefixScan.RemovesExactlyTheRepo` | src/code-indexer/repoIndexer.ts:957-976 | the manifests removed with a repository are its own, every one and no other |
| `PrefixScan.RepoCollections.ListCollectionsByPrefix` | src/code-indexer/queue.ts:56-67 | the collections of the user with the prefix, each once, sorted |
| `PrefixScan.RepoCollections.DeleteRepoCollections` | src/code-indexer/repoIndexer.ts:957-976 | the final manifests and collections, in terms of the names the removal covers |
| `Decimals.DecimalInjective` | src/code-indexer/naming.ts:19-28 | different ids give different names |
| `TreeListing.ListRepositoryFiles` | src/code-indexer/githubClient.ts:529-589 | the queue walk ends, succeeds if and only if every tree below is served, and then lists an entry if and only if a route leads to it: items from the root tree down to a blob of its sha and size, whose names joined are its path |
| `TreeListing.FilesAreRoutes` | src/code-indexer/githubClient.ts:558-585 | an entry is listed as often as there are such routes |
| `TreeListing.JoinedIsJoin` | src/code-indexer/githubClient.ts:566-568 | the path of a route is its names between slashes (empty names in front, which no Git tree has, leave no slash) |
| `TreeListing.TraversalIsFlatListingIff` | src/code-indexer/githubClient.ts:738-747 | that is the same bag as `treeFiles` of the flattened answer if and only if no file found has an empty sha |
| `TreeListing.VisitItems` | src/code-indexer/githubClient.ts:558-585 | one directory moves its files to the result and its subtrees to the queue, losing nothing |
| `LogFormatter.Pipe` | src/logging/DeployLogFormatter.ts:104-161 | for every sequence of writes the output after flush is the per-line conversion of the text as the stream decodes it, a blank remainder dropped |
| `LogFormatter.LineOutput` | src/logging/DeployLogFormatter.ts:118-160 | a line that parses as a log record comes out converted; one that does not parse, or is no record, unchanged; white space as an empty line, or as nothing at the end of the stream |
| `LogFormatter.LineByLine` | src/logging/DeployLogFormatter.ts:113-137 | and each line by itself, in order |
| `LogFormatter.DecodedAt` | src/logging/DeployLogFormatter.ts:107-111 | the stream replaces exactly the surrogates without a partner and moves nothing |
| `LogFormatter.SplittingMattersIff` | src/logging/DeployLogFormatter.ts:107-111 | it is the conversion of the whole text, for everything lines may be turned into, if and only if no write ends inside a surrogate pair |
| `LogFormatter.DeployLogFormatter.Transform` | src/logging/DeployLogFormatter.ts:108-139 | pushes the conversion of each line the decoded write completes and keeps the remainder |
| `LogFormatter.DeployLogFormatter.Flush` | src/logging/DeployLogFormatter.ts:140-160 | converts a remainder that is not blank, drops one that is |
| `LogFormatter.LinesSplit` | src/logging/DeployLogFormatter.ts:111-117 | the lines of two joined texts are those of the first, then those of its remainder and the second |
| `LogFormatter.LinesRebuild` | src/logging/DeployLogFormatter.ts:114-117 | cutting into lines loses nothing and no line holds a newline |
| `PathFilter.ExtractMust` | src/services/PointsService.ts:62-87 | accepts if and only if all conditions are well-formed and their indexes are a permutation of 0..n-1, and puts each value where its index says |
| `PathFilter.ReadIff` | src/services/PointsService.ts:66-81 | a condition is read if and only if it is an object with key `pathSegments.` and digits, and a match object with a text value |
| `PathFilter.AcceptedKeys` | src/services/PointsService.ts:74-75 | no list with another key is accepted |
| `PathFilter.ParsePathSegmentsFilterToPaths` | src/services/PointsService.ts:59-108 | which filters are recognised, with `must` before `should`, and which paths they give |
| `PathFilter.PermutedFilterMeansItsPath` | src/code-indexer/indexStore.ts:14-27 | any permutation of the conditions built for a path is accepted and can only be read as that path |
| `PathFilter.RoundTrip` | src/code-indexer/indexStore.ts:14-27 | parsing them gives back exactly that path |
| `PathFilter.RoundTripGroups` | src/services/PointsService.ts:94-106 | and so for a `should` list of such groups, in its order |
| `PathFilter.SortedContiguousIff` | src/services/PointsService.ts:82-86 | after the sort the scan for gaps decides "permutation of 0..n-1" |

## Left out

- YDB sessions, drivers, schema checks and query text: a statement is its effect on the tables.
- GitHub HTTP, tarballs, OAuth, encryption and hashing: a point id is the tuple its hash is taken over, and the hash counts as injective.
- Tree-sitter chunks, Markdown and paragraph sections: the indexer is proved for every chunker that numbers its chunks; only the line-window chunker is modelled.
- Directory and extension rules of `shouldIndexFile`, and the path and pattern normalisation around the compiled glob: `indexable` is any predicate on paths.
- PathFilter.KeyIndex: an index is read exactly; indexes beyond the safe integers, which the source rounds, can equal no position of a list.
- RepoAgreement.IncrementalRefinesFull: points keep the `ref` they were written with, so chunks are compared without it.
- RepoIndexer.RepoIndexer.FullIndex: files are taken one at a time; that the pool and the batcher store each chunk once is `FullIndexRun.FlushedRunIsComplete`. The points left by a chunk-quota error are only said to be of indexed files.
- RepoIndexer.RepoIndexer.IncrementalPush: the blob sha of a snapshot file is taken to be the one the tree lists, status and progress writes are not modelled, and text is always stored in the payload.
- FullIndexRun.FlushedRunIsComplete: embedding tasks fulfil; a rejected task may go unseen in the source. No file is rejected by the chunk quota: in the source the other workers of the pool then go on adding and upserting after the attempt has failed.
- PushRuns.RunsConverge: an attempt that fails leaves nothing running, so the late writes just named are not part of it.
- PushRuns.StopRepeats: for manifests without or with all chunk counts; with some missing, the count comes from the collection, which crashes change.
- The number of embedding tasks active at once with several callers: the source bounds it only for one.
- Manifests as lists: the order given by `localeCompare` is not modelled, a manifest is a map.
- MemoryQueue.RunKeeps: progress records and the retries inside a job are part of running it.
- DurableQueue.AttemptsBounded: status and progress writes of a finished job succeed; the source re-queues a completed row when the progress write after it fails.
- JobOutcomes.OutcomeIff: the same holds of how a job ends.
- PushAnswers.ChunksQuotaIff: where chunk counts are missing in the manifest, the running count starts from the number of points (`PushAnswers.CountsFrom`) and need not be a sum over the manifest.
- StrandedJobs.NoStrandedJob: database calls succeed, and other processes add no pending row, since whoever adds one drains itself. A running row left by a crash counts as another owner's until it is reset, so its repository must have no pending row; `OrphanStrands` and `LastClaimStrandsIff` show what happens otherwise.
- The return condition of the durable `deleteRepositoryJobs`: proved for the in-memory queue only.
- Generated job ids and claim ids: parameters, a claim id is new when it is used.
- Retries of a delete batch whose answer was lost: the count would then be of the last attempt.
- PointStore.Store.DeletePointsByPathSegments: runs the chunks of a batch in order; every other order is covered by `PointTables.InterleavingsAgree`.
- Paths.EncodeInjective: texts are sequences of Unicode scalar values; the source throws on a lone surrogate.
- PrefixScan.RangeIsPrefixFilterIff: says nothing where the source has no upper bound to send, after U+10FFFF (it throws) and U+D7FF (a lone surrogate).
- Ids: repository and installation ids are non-negative integers.
- LogFormatter.Pipe: writes are strings, each encoded and decoded as UTF-8 by itself; byte writes are not modelled. JSON parsing and the level mapping are a parameter.
- Object-shaped path segments, vector arithmetic, search ranking, the MCP and admin interfaces, webhooks and routes: they add no harder property.
