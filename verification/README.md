# AIVCS in Dafny

A model of the core logic of AIVCS, the version control system for agent work in this
repository: publishing trees to a forge and fetching them back, the run queue, planning
and scheduling, the relationship graph, release gates, diffing, merging, compaction, the
gateway's approvals, and CI recording. Each part is modelled as the code does it, and the
property its documentation or tests promise is proved for all inputs, all runs or all
reachable states. Where the code does not meet the promise, the exact condition under
which it does is proved, with a concrete input that fails.

`dafny verify dfyconfig.toml` checks the whole project.

## Modules

- `ForgeObjects`, `ForgeProtocol`, `ForgeSafety`, `ForgeLiveness`, `ForgeLostUpdate`: any number of
  publishers against one forge, as a state machine over single requests and replies.
  Requests may be delivered late or again, replies may be lost, publishers may stop at any
  point, other clients write branches as they like, and the store compares and sets at once
  or in two requests. `ForgeFetch` and `ForgeRoundTrip` fetch a published tree into a directory.
- `Wildcard`: the two-row table behind `.aivcsignore`.
- `RunModel`, `RunStores`, `RunRefinement`, `RunLimits`, `RunClaims`: the list-backed and
  the event-sourced run store, their agreement, where it ends, and concurrent claiming.
- `TaskGraph`, `Planner`, `Scheduler`: Kahn's algorithm and the scheduler that relies on it.
- `Reachability`, `Mesh`, `MeshRefs`, `IssueRefs`, `IssueRelations`: the relationship graph.
- `Precedence`, `Semver`, `PublishGate`: version precedence and the publish gate.
- `JsonPointer`, `SpecDiff`: leaf paths as JSON pointers, and the diff built on them.
- `Orchestration`, `MergeKeys`, `MergeSwaps`, `MergeLists`, `ArrivalOrder`: the deterministic
  merge and when it depends on the order its inputs arrive in. `IssueLedger`: the branch ledger.
- `Compaction`, `ContextPacking`: retention and packing of memory.
- `Authority`, `GatewayRuns`: approvals and authority records over whole runs.
- `Recording`, `Ci`: the recorder, the pipeline and the gate that judges its record.
- `Options`, `Text`, `Ordered`, `Sorting`: what the code takes from its standard library.

## Main results

- No update is lost, and what is published is what was asked for, stays and comes back:
  `ForgeSafety.NoLostUpdates`, `ForgeSafety.ContentClosure`, `ForgeSafety.PublishedAsAsked`,
  `ForgeSafety.PublishedIsDurable`, `ForgeLiveness.PublishCanSucceed`, `ForgeFetch.Fetch`,
  `ForgeFetch.FetchedTree`, `ForgeRoundTrip.PublishedTreeComesBack`.
- `Wildcard.WildcardMatch` decides the glob relation.
- The run stores agree, and exactly when they do: `RunRefinement.StoresAgree`,
  `RunLimits.HistoriesAgreeIff`; no run is claimed twice, and when a claimed run was still
  queued: `RunClaims.AtMostOneClaim`, `RunClaims.QueuedWhenClaimedIff`,
  `RunClaims.UninterruptedClaimIsOneStep`.
- Plans are validated exactly and finish but for what is held up: `Planner.Validate`,
  `Scheduler.EmptyBatchIff`, `Scheduler.HeldUpTasksAreLeft`.
- The relationship graph stays sound: `Mesh.WouldCreateCycle`, `Mesh.LinkedRowsAreSound`,
  `IssueRelations.GuardsAgreeIff`.
- Versions are ordered by value and chains increase: `Semver.PrecedenceIsTotalPreorder`,
  `PublishGate.AcceptedChainIncreasesIff`.
- Leaf paths are exactly the JSON pointers to leaves: `SpecDiff.LeafPathsArePointersIff`,
  `SpecDiff.EmptyDiffMeansSameLeaves`.
- Who wins the merge, and exactly when it depends on arrival order: `Orchestration.WinnerStands`,
  `Orchestration.BestRoleCountsIff`, `ArrivalOrder.ArrivalOrderShowsIff`,
  `ArrivalOrder.ConflictOrderShowsIff`; ledgers stay well formed:
  `IssueLedger.IdsStayDistinctIff`, `IssueLedger.MergeLosesNothing`.
- Compaction and packing conserve, and exactly when they keep their limits:
  `Compaction.OrderDoesNotMatter`, `Compaction.AgeLimitThreeWays`,
  `ContextPacking.WithinBudgetIff`.
- Every destructive call is approved, once: `GatewayRuns.DestructiveRecordsAreApproved`,
  `GatewayRuns.AgeAtConsumptionIff`.
- The gate agrees with the pipeline: `Ci.GateAgreesWithPipeline`,
  `Ci.GateOnTruncatedRecordIff`.

The other members of the table are the steps to these, or small facts beside them.

## Where the code and its promises differ

- Creating a repository checks that the default branch is absent and writes it in two
  separate requests (`crates/forge-cas/src/lib.rs:1302`, `:1351-1356`). Two creates can
  both pass the check, and the later one writes the root commit over a published one.
  Publishers lose an update in no other way (`NoLostUpdates`, `OnlyStaleRootsRewind`);
  `StaleRootLosesPublishedCommit` gives the run, and `AcceptedUpdateAppliesAgain` shows that
  an accepted update can take effect again after it.
- A conditional branch update asks that the head be the expected one, not that the new
  commit lie above it (`crates/forge-cas/src/lib.rs:2060-2067`), unconditional ones ask
  nothing (`:2089-2094`, `:1893-1912`), and the data-mesh store checks and writes in two
  requests (`:556-573`). `NoLostUpdates` says exactly which of these writes lose an update;
  see `ConditionDoesNotProtect` and `BothMatchedLosesIff`.
- A publish whose branch update gets no answer fails, and the update may still take effect
  afterwards (`FailedPublishMayLand`).
- A fetch compares contents but never clears an executable bit, and does not set one on a
  file it did not rewrite (`FetchedTree`, `StaleBitSurvives`).
- The two run stores part over runs set back to Queued after a claim, over query limits and
  over names with a slash (`SlashesShareAKey`). `HistoriesAgreeIff` says exactly when.
- A claim re-reads its run and then creates its claim, and a status change reads and then
  appends, with no condition between the two. A status set between the re-read and the claim
  is overwritten and the run is returned all the same (`QueuedWhenClaimedIff`,
  `FailureIsOverwritten`).
- `max_parallel` of zero never finishes anything; the scheduler reports no error.
- The issue graph guards only `blocks`; a cycle of parents passes it (`GuardsAgreeIff`).
- Issue references with a plus sign or leading zeros parse, and print differently
  (`IssueTextRoundTrip`, `PlusAndZeroDoNotReprint`).
- The version rule skips a release without a label, and the next one after it, so with
  that rule alone a label can come back (`AcceptedChainIncreasesIff`).
- An empty spec diff does not mean equal values: empty containers leave no path, and an
  array and an object can have the same paths (`EmptyDiffOfDifferentValues`).
- Role priority decides conflicts only: a write that repeats the standing value is absorbed
  and gains no ownership. So the best-ranked role's value can lose to a third role's
  (`BestRoleCanLose`), or stand under another owner (`BestValueUnderAnotherOwner`).
  `BestRoleOwnsIff` says when a best-ranked role owns the key, `BestRoleCountsIff` when its
  writes count at all.
- The merge is called deterministic (`crates/aivcs-core/src/orchestration.rs:193`). Its
  values and conflicts depend on the order of its inputs exactly when two outputs of one role
  in one step disagree on a key where no earlier value stands that the role cannot override
  (`ArrivalOrderShowsIff`); the order of the conflict list depends on it more often
  (`ConflictOrderShowsIff`, `OnlyTheListShows`).
- The packing total is a machine word; past an overflow the packed segments exceed the
  budget (`WithinBudgetIff`).
- The age limit is cast to a signed word and handed to the date library. Day counts whose
  cutoff is no date stop the process, and the last ones below 2^64 put the cutoff in the
  future, so the limit meant to keep everything drops everything (`AgeLimitThreeWays`).
- A destructive tool is allowed under the risk ceiling "write" and refused under the
  ceiling "destructive" (`EveryTextIsACeiling`).
- An approval's age is taken from a clock read before the lock is held
  (`AgeAtConsumptionIff`).
- The authority record names actor, agent instance, principal, tenant, workspace and
  repository (`crates/aivcs-mcp-gateway/src/main.rs:45-66`, `:1193-1214`). Neither an approval
  nor the digest names any of them (`:1089-1099`): an approval fixes run, task, tool and
  arguments, and serves any caller in any tenant on any repository (`ApprovalFixesTheWorkOnly`,
  `ApprovalServesAnyCaller`, `ApprovalServesAStranger`).
- The gate's comment asks for an event per enabled stage, but the gate sees only the
  events: it passes a record cut off between two stages, and one cut off inside a stage
  whose name has passed before (`GateOnTruncatedRecordIff`).

## Model

| member | source | states |
|---|---|---|
| ForgeObjects.AncestorAntisymmetric | crates/aivcs-cli/src/forge_remote.rs:1041-1060 | Commit ids hash the whole record, parents included, so ancestry has no cycles: two commits that are ancestors of each other are one commit. |
| ForgeObjects.DedupeBlobsByDigest | crates/aivcs-cli/src/forge_remote.rs:1063-1072 | The loop with its seen set computes the first entry of each digest. |
| ForgeObjects.DedupeKeepsFirsts | crates/aivcs-cli/src/forge_remote.rs:1062-1072 | Deduplication keeps every digest, once, and for each the entry no earlier entry shares it with. |
| ForgeObjects.UploadsCoverNewDigests | crates/aivcs-cli/src/forge_remote.rs:1074-1083 | The upload list names exactly the digests the parent lacks, each once. |
| ForgeSafety.StepKeepsInv | crates/aivcs-cli/src/forge_remote.rs:257-416 | Every step of every publisher, of the network and of the forge keeps the protocol invariant: stored content is complete and every request in flight tells the truth. |
| ForgeSafety.ContentClosure | crates/aivcs-cli/src/forge_remote.rs:333-389 | In every reachable state every digest of every stored commit has a stored blob, although publishers upload only what the parent lacks, or the whole tree when its manifest cannot be read. |
| ForgeSafety.PublisherCommitsPassValidation | crates/forge-cas/src/lib.rs:183-209 | The forge never turns a publisher's commit away for a missing blob, in any interleaving. |
| ForgeSafety.RunOnlyAdds | crates/aivcs-cli/src/forge_remote.rs:333-345 | Blobs, commits and answers are never taken back over a run, and an update request never changes. |
| ForgeSafety.UpdateReplacesItsParent | crates/aivcs-cli/src/forge_remote.rs:379-400 | Each update that is compared and set at once installs a commit whose only parent is the head it replaces, or one without parents where the branch was absent. |
| ForgeSafety.StepLosesOnlyByRewind | crates/forge-cas/src/lib.rs:2040-2094 | A step takes the head of a branch out of its history if and only if it rewinds the branch: it writes, with no comparison or with one that asks for no descendant, a commit that is not above the head. |
| ForgeSafety.OnlyStaleRootsRewind | crates/forge-cas/src/lib.rs:1302-1356 | Apart from other clients and a store that reads and then writes, a step rewinds a branch exactly when it is a repository creation writing its root over a default branch that has moved on. |
| ForgeSafety.ConditionDoesNotProtect | crates/forge-cas/src/lib.rs:2060-2067 | A conditional branch update from another client replaces a known head by any stored commit, and rewinds the branch exactly when that commit is not above the head. |
| ForgeSafety.BothMatchedLosesIff | crates/forge-cas/src/lib.rs:556-573 | On the store that reads and then writes, two updates of one head that both pass their check are both accepted, and the second loses the first one's commit exactly when the commits differ. |
| ForgeSafety.NoLostUpdates | crates/aivcs-cli/src/forge_remote.rs:596-604 | Over every run, other clients and both kinds of store included, every head a branch ever had stays an ancestor of every later one, if and only if no step rewinds the branch. |
| ForgeSafety.ExistingRepositoryLosesNothing | crates/aivcs-cli/src/forge_remote.rs:285-331 | In a repository whose default branch exists no update is lost on any branch, unless another client or a store that reads and then writes rewinds it. |
| ForgeSafety.ConsumedHeadNeverMatches | crates/forge-cas/src/lib.rs:274-294 | In a run that does not rewind the branch, once an update conditioned on a head was accepted, no update conditioned on that head matches again. |
| ForgeSafety.PublishedAsAsked | crates/aivcs-cli/src/forge_remote.rs:257-416 | A publish that reports success made, at some step after its start, a commit of exactly the tree, message and author it was started with the head of exactly the branch it was started for, and moved no other branch. |
| ForgeSafety.InstallsWhatWasAsked | crates/aivcs-cli/src/forge_remote.rs:257-416 | In every run, any step that installs an update of a publish moves only the branch the publish was started for, and leaves there what was there or a commit of the tree, message and author it was started with. |
| ForgeSafety.PublishedIsDurable | crates/aivcs-cli/src/forge_remote.rs:257-416 | That commit stays in the history of the branch asked for, unless a step rewinds the branch after its acceptance. |
| ForgeSafety.PublishedContentStays | crates/aivcs-cli/src/forge_remote.rs:257-416 | A commit of the tree, message and author a successful publish was started with, and all digests of that tree, stay stored over every run, whatever happens to the branch. |
| ForgeLiveness.PublishCanSucceed | crates/aivcs-cli/src/forge_remote.rs:257-416 | Every run, whatever it did before, can be continued so that a new publish of any non-empty tree, to any branch, there or not, reports success. |
| ForgeLiveness.FailedPublishMayLand | crates/aivcs-cli/src/forge_remote.rs:605-667 | Every run can also be continued so that the publisher of such a publish stops while its branch update is under way, and the tree then becomes the head of the branch all the same. |
| ForgeSafety.OneWinner | crates/aivcs-cli/src/forge_remote.rs:596-604 | Of the publishers that started from one head of a branch at most one succeeds, as long as nothing rewinds the branch and no update is written after its check went stale. |
| ForgeSafety.UpdateAppliesOnce | crates/aivcs-cli/src/forge_remote.rs:605-667 | An update request that took effect and is delivered again takes effect again exactly when the head is again the one it was conditioned on, and never unless a step in between rewinds the branch. |
| ForgeLostUpdate.StaleRootLosesPublishedCommit | crates/forge-cas/src/lib.rs:1302-1356 | A concrete run in which a commit whose publish succeeded is gone from its branch: two creations pass the absence check. |
| ForgeLostUpdate.AcceptedUpdateAppliesAgain | crates/forge-cas/src/lib.rs:1302-1356 | In that run the accepted update's condition matches again, and delivered again it takes effect again. |
| ForgeFetch.SafeIsNotSuspicious | crates/aivcs-cli/src/forge_remote.rs:955-965 | The path test accepts exactly the paths that are not empty, do not start with a slash, hold no backslash and have no ".." between slashes or ends. |
| ForgeFetch.SafeStaysInside | crates/aivcs-cli/src/forge_remote.rs:822-829 | A path that passes the test is relative, and a walk along it, each ".." one level up, never leaves the directory it starts from, whichever that is. |
| ForgeFetch.GoingUpLeaves | crates/aivcs-cli/src/forge_remote.rs:822-829 | A walk along any path that starts with "../" does leave it. |
| ForgeFetch.GroupByDigest | crates/aivcs-cli/src/forge_remote.rs:797-893 | The first unsafe path is rejected before anything is written; otherwise the groups hold exactly the entries not yet up to date, one download per digest, and the rest is counted. |
| ForgeFetch.WriteGroup | crates/aivcs-cli/src/forge_remote.rs:797-893 | One download leaves every entry of its group in place and no other path changed. |
| ForgeFetch.DownloadAll | crates/aivcs-cli/src/forge_remote.rs:797-893 | The downloads put every group in place, each entry counted once, or stop at a blob that is needed and missing with each file either alone or completely written. |
| ForgeFetch.Fetch | crates/aivcs-cli/src/forge_remote.rs:797-893 | A fetch succeeds exactly when the manifest is non-empty, no path is empty, rooted, holds a backslash or goes up, and every file not up to date has its blob; then every entry is in place, nothing else was touched, and the files downloaded and reused are counted. The first suspicious path makes it fail before anything is written, no path that leads out of the directory is ever touched, and a blob reported missing is one that was needed and is not there. |
| ForgeFetch.FetchedTree | crates/aivcs-cli/src/forge_remote.rs:797-893 | A fetched tree has the published content at every path, and equals it, executable bits included, exactly when no file already there had a stale mode. |
| ForgeFetch.StaleBitSurvives | crates/aivcs-cli/src/forge_remote.rs:797-893 | A file with the published content and a set executable bit keeps the bit through a fetch of an entry without it. |
| ForgeFetch.FetchIntoEmptyDirectory | crates/aivcs-cli/src/forge_remote.rs:797-893 | Into an empty directory a fetch puts exactly the published tree. |
| ForgeRoundTrip.PublishedTreeComesBack | crates/aivcs-cli/src/forge_remote.rs:257-416 | A tree whose publish was started and reported success can be fetched by its commit at any later time of any run, even after its branch was overwritten, and comes back unchanged, from a forge that answers a digest with its bytes. |
| Wildcard.StarRow | crates/aivcs-cli/src/forge_remote.rs:74-78 | A trailing star matches what the pattern before it matches, or one character more. |
| Wildcard.WildcardMatch | crates/aivcs-cli/src/forge_remote.rs:66-88 | The rolling two-row table answers yes exactly when the value can be cut into pieces the pattern's characters cover, for all patterns and values. |
| RunStores.InMemoryRunStore.Enqueue | crates/aivcs-runs/src/lib.rs:115-119 | One step of the list store: a new run is queued at the end of the list. |
| RunStores.InMemoryRunStore.ListByRepo | crates/aivcs-runs/src/lib.rs:121-135 | Exactly the runs of the repository, by falling creation time. |
| RunStores.InMemoryRunStore.ListAll | crates/aivcs-runs/src/lib.rs:136-143 | All runs, by falling creation time. |
| RunStores.InMemoryRunStore.ClaimNextQueued | crates/aivcs-runs/src/lib.rs:150-165 | One step of the list store: exactly when some run is queued, the first of the oldest queued runs is marked running in place and returned. |
| RunStores.InMemoryRunStore.SetStatus | crates/aivcs-runs/src/lib.rs:167-175 | One step of the list store: the first run with the id gets the status; the answer says whether there is one. |
| RunStores.DataMeshRunStore.CreateIdempotent | crates/aivcs-runs/src/lib.rs:312-325 | The first create under a key stores its document, every later one changes nothing and says so. |
| RunStores.DataMeshRunStore.ListByRepo | crates/aivcs-runs/src/lib.rs:239-255 | One step of the event-sourced store: the newest document of each run in the limited query. |
| RunStores.DataMeshRunStore.ClaimNextQueued | crates/aivcs-runs/src/lib.rs:284-330 | One step of the event-sourced store: the first candidate whose newest document is queued and whose claim key is free is claimed by a keyed create; otherwise nothing changes. |
| RunStores.DataMeshRunStore.SetStatus | crates/aivcs-runs/src/lib.rs:332-343 | One step of the event-sourced store: one more document, carrying the new status and the rest of the newest one. |
| RunRefinement.StepAgrees | crates/aivcs-runs/src/lib.rs:113-343 | From related states every operation within the limits, listing a repository only if no other shares its owner/repo text, gives the same answer in both stores and leaves them related. |
| RunRefinement.StoresAgree | crates/aivcs-runs/src/lib.rs:113-343 | Over every history within the query limits in which no claimed run is set back to Queued and no listed repository shares its owner/repo text with another one's runs, the event-sourced store answers get, set and claim as the list store does, and lists the same runs in the same states. |
| RunRefinement.ClaimAgrees | crates/aivcs-runs/src/lib.rs:284-330 | Within the limit the run claimed from the documents is the oldest queued run, if its key is free. |
| RunRefinement.ListedRuns | crates/aivcs-runs/src/lib.rs:239-272 | Folding the newest documents of a query by run id lists each run they mention once, in its current state. |
| RunRefinement.ListAllAgreesIff | crates/aivcs-runs/src/lib.rs:257-272 | Listing everything agrees with the list store exactly when the newest thousand documents mention every run. |
| RunRefinement.ListByRepoAgreesIff | crates/aivcs-runs/src/lib.rs:239-255 | Listing a repository agrees exactly when the newest five hundred documents under its key mention all of its runs and no other repository's. |
| RunLimits.SharedKeyIff | crates/aivcs-runs/src/lib.rs:203-205 | Within its limit, listing a repository agrees exactly when no differently named repository has the same owner/repo text. |
| RunLimits.SlashFreeOwnersAreUnambiguous | crates/aivcs-runs/src/lib.rs:203-205 | Owners without a slash make every repository key unambiguous. |
| RunLimits.SlashesShareAKey | crates/aivcs-runs/src/lib.rs:203-205 | Owner "a/b" with repository "c" and owner "a" with repository "b/c", for any texts: listing the first repository the stores disagree. |
| RunLimits.ClaimAgreesIff | crates/aivcs-runs/src/lib.rs:284-330 | Whatever the limits and the keys taken, the event-sourced store claims the oldest queued run exactly when its key is free and, in the query's window, no run that could be claimed comes before it. |
| RunLimits.RequeuedRunIsClaimedIff | crates/aivcs-runs/src/lib.rs:294-325 | Within the claim limit the oldest queued run is claimed exactly when no earlier claim of it took its key. |
| RunLimits.StepAgreesIff | crates/aivcs-runs/src/lib.rs:113-343 | For each operation the condition under which the two stores give the same answer, exactly; enqueue, get and set always do, and agreeing keeps the stores in step. |
| RunLimits.HistoriesAgreeIff | crates/aivcs-runs/src/lib.rs:113-343 | Over every sequential history, requeued runs, passed limits and shared keys included, the two stores answer everything alike exactly when every operation meets its condition. |
| RunLimits.RunBeyondTheLimitIsNotClaimed | crates/aivcs-runs/src/lib.rs:286-292 | In particular the oldest queued run is not claimed once its queued documents have dropped out of the newest hundred. |
| RunLimits.RequeuedRunTellsTheStoresApart | crates/aivcs-runs/src/lib.rs:150-175 | Enqueue, claim, set back to Queued, claim: the list store hands the run out again, the event-sourced one does not. |
| RunClaims.AtMostOneClaim | crates/aivcs-runs/src/lib.rs:284-330 | With any number of engines interleaving query, re-read and keyed create with enqueues and status changes, no run is returned by two claims, and each returned run is recorded as running. |
| RunClaims.ClaimIsFinal | crates/aivcs-runs/src/lib.rs:294-325 | Once a claim document is stored, even if its reply was lost, no later step returns that run. |
| RunClaims.QueuedWhenClaimedIff | crates/aivcs-runs/src/lib.rs:284-343 | In every interleaving, a run returned by a claim was still queued at its claim exactly when no document of it was appended since the re-read, or the last of those set it back to queued; it is stored as running either way. |
| RunClaims.FailureIsOverwritten | crates/aivcs-runs/src/lib.rs:284-343 | For every queued run an interleaving in which it fails between re-read and claim, is returned, and is running afterwards. |
| RunClaims.UninterruptedClaimIsOneStep | crates/aivcs-runs/src/lib.rs:284-330 | From any state, a claim call that nothing interrupts is the one claim step of the event-sourced store: the same documents and keys, and the same run or none returned. |
| RunClaims.ClaimEnds | crates/aivcs-runs/src/lib.rs:284-330 | From any state a claim call left alone comes to its end. |
| TaskGraph.StuckSetHasCycle | crates/aivcs-core/src/planning_autonomy.rs:120-122 | Tasks that all wait for each other contain a dependency cycle. |
| TaskGraph.OrderedIsAcyclic | crates/aivcs-core/src/planning_autonomy.rs:105-124 | An order that puts every task after its dependencies rules cycles out. |
| Planner.FindMissing | crates/aivcs-core/src/planning_autonomy.rs:80-89 | The first pass succeeds exactly when every dependency names a task, and otherwise names a real missing one. |
| Planner.BuildTables | crates/aivcs-core/src/planning_autonomy.rs:91-99 | In-degrees count dependency entries and edges mirror them, duplicates counted each time. |
| Planner.Relax | crates/aivcs-core/src/planning_autonomy.rs:108-117 | Taking a visited node's edges off never underflows, and queues exactly the tasks that reach zero. |
| Planner.Validate | crates/aivcs-core/src/planning_autonomy.rs:79-125 | Validation succeeds exactly when every dependency names a task and the relation is acyclic, for every task map, self and duplicate dependencies included; the queue loop ends. |
| Ordered.LessIff | crates/aivcs-core/src/planning_autonomy.rs:228-259 | The order of ids and paths: a text comes before its extensions, and otherwise the first differing character decides. |
| Scheduler.ScheduleNextReadyTasks | crates/aivcs-core/src/planning_autonomy.rs:228-259 | A batch comes back exactly for valid plans. It holds pending, unblocked tasks whose dependencies are all done, in id order and no more than allowed; such a task is left out only when the batch is full, and then comes after all its members. |
| Scheduler.EmptyBatchIff | crates/aivcs-core/src/planning_autonomy.rs:228-259 | With room to run, the batch of a valid plan is empty exactly when every pending task is held up by a chain of dependencies that ends in a blocked, failed or running task. |
| Scheduler.HeldUpTasksAreLeft | crates/aivcs-core/src/planning_autonomy.rs:228-259 | On every valid plan with room to run, whatever its statuses and blocked set, after as many rounds as there are free pending tasks the pending tasks left are exactly those held up at the start. |
| Scheduler.SchedulerFinishes | crates/aivcs-core/src/planning_autonomy.rs:228-259 | On a valid plan of pending and done tasks with nothing blocked, scheduling and completing finishes all tasks in at most one round per pending task, if and only if something may run or nothing was pending. |
| Scheduler.DependenciesRanBefore | crates/aivcs-core/src/planning_autonomy.rs:242-251 | Whatever is scheduled in a round had each dependency done at the start or scheduled in an earlier round. |
| Scheduler.ScheduledOnce | crates/aivcs-core/src/planning_autonomy.rs:236-240 | A scheduled task stays done and is never scheduled again. |
| Scheduler.DecomposeGoal | crates/aivcs-core/src/planning_autonomy.rs:198-225 | Decomposition succeeds exactly when the tasks, later ones replacing earlier ones of the same id, form a valid plan. |
| Scheduler.DecomposedGoalFinishes | crates/aivcs-core/src/planning_autonomy.rs:198-259 | Every goal that decomposes finishes, in at most as many rounds as it has tasks. |
| Mesh.InverseFlipsCanonical | crates/aivcs-issuegraph/src/mesh.rs:205-260 | Inverting twice gives the kind back, only the symmetric kind is its own inverse, and of every other pair exactly one is canonical. |
| Mesh.InversesArePairs | crates/aivcs-issuegraph/src/mesh.rs:205-260 | A kind and its inverse are one of eleven pairs, of which the first is stored as it is; only the symmetric kind stands alone. |
| Mesh.OneRowPerRelationship | crates/aivcs-issuegraph/src/mesh.rs:319-353 | Two declarations are stored as one relationship exactly when they say the same thing, word for word or from the other end with the inverse kind. |
| Mesh.WouldCreateCycle | crates/aivcs-issuegraph/src/mesh.rs:378-399 | The worklist guard answers yes exactly when the kind is not symmetric and the candidate's source is reachable from its target over edges of that kind. |
| Mesh.Link | crates/aivcs-issuegraph/src/mesh.rs:319-399 | A link request adds its canonical edge exactly when it is no self-link, not already stored and not refused by the guard. |
| Mesh.LinkedRowsAreSound | crates/aivcs-issuegraph/src/mesh.rs:343-399 | Whatever links are requested, from whichever end, the rows stay canonical, one per relationship, and acyclic in every directed kind. |
| Mesh.EveryLinkIsStored | crates/aivcs-issuegraph/src/mesh.rs:343-399 | Every relationship asked for is stored in the end, unless it links a node to itself or the guard refused it at its turn. |
| Mesh.EveryRowWasAsked | crates/aivcs-issuegraph/src/mesh.rs:343-399 | Every row is the stored form of a relationship asked for. |
| Mesh.RefusedOnlyForCycles | crates/aivcs-issuegraph/src/mesh.rs:374-399 | The guard refuses an edge exactly when adding it would make its kind cyclic. |
| Reachability.LinkClosesCycleIff | crates/aivcs-issuegraph/src/mesh.rs:374-377 | Adding a link to an acyclic relation closes a cycle exactly when its source is reachable from its target. |
| MeshRefs.WrittenAs | crates/aivcs-issuegraph/src/mesh.rs:38-132 | How references of each of the ten kinds are written. |
| MeshRefs.MeshRefRoundTrip | crates/aivcs-issuegraph/src/mesh.rs:128-153 | Parsing undoes printing exactly for references with an identity, and printing undoes parsing for every text that parses. |
| MeshRefs.PrintMeshRefInjective | crates/aivcs-issuegraph/src/mesh.rs:128-132 | Distinct references print differently, colons in identities included. |
| IssueRefs.SlugIsOwnerAndName | crates/aivcs-issuegraph/src/graph.rs:50-57 | The slug test accepts exactly a non-empty owner and a non-empty name around a single slash. |
| IssueRefs.PrintIssueRefInjective | crates/aivcs-issuegraph/src/graph.rs:39-43 | Distinct issue references print differently, whatever the repository text. |
| IssueRefs.IssueRefRoundTrip | crates/aivcs-issuegraph/src/graph.rs:39-70 | A printed reference parses back exactly when its repository is a slug and its number positive, and otherwise not at all. |
| IssueRefs.IssueTextRoundTrip | crates/aivcs-issuegraph/src/graph.rs:49-70 | A text that parses prints back exactly when its number has no plus sign and no leading zero. |
| IssueRefs.PlusAndZeroDoNotReprint | crates/aivcs-issuegraph/src/graph.rs:49-70 | For every slug the numbers "+1" and "01" parse to 1, which prints as "1". |
| IssueRelations.WouldCreateBlocksCycle | crates/aivcs-issuegraph/src/graph.rs:192-212 | The issue guard is exact for the blocks relation and never refuses another kind. |
| IssueRelations.KindsAgree | crates/aivcs-issuegraph/src/graph.rs:87-106 | The kinds of the issue graph have the inverses and the canonical halves of the mesh kinds of the same name, and the same one is symmetric. |
| IssueRelations.CanonicalFormsAgree | crates/aivcs-issuegraph/src/graph.rs:132-168 | Canonical forms and sameness of issue relationships carry over unchanged into the mesh graph. |
| IssueRelations.ReachabilityAgrees | crates/aivcs-issuegraph/src/mesh.rs:6-8 | The issue graph embedded in the mesh graph has the same reachability, kind by kind. |
| IssueRelations.GuardsAgreeIff | crates/aivcs-issuegraph/src/graph.rs:192-212 | The issue guard and the mesh guard agree on a canonical edge exactly when it is not a parent link closing a cycle of parents. |
| IssueRelations.ParentCyclePassesTheIssueGuard | crates/aivcs-issuegraph/src/graph.rs:193-195 | Two issues made parents of each other pass the issue guard, are refused by the mesh guard, and form a cycle. |
| Precedence.CompareKeysIsOrder | crates/aivcs-core/src/publish_gate.rs:47-62 | Precedence is a strict total order on version keys. |
| Precedence.LowerIff | crates/aivcs-core/src/publish_gate.rs:72-89 | One identifier list is lower exactly when it is the beginning of the other or has the lower identifier where they first differ. |
| Semver.WrittenAs | crates/aivcs-core/src/publish_gate.rs:24-45 | How a version is written: three numbers between dots, and a dash before the pre-release if there is one. |
| Semver.VersionRoundTrip | crates/aivcs-core/src/publish_gate.rs:24-45 | A version written out in full reads back, part by part, exactly when its three numbers fit 64 bits and its pre-release is not empty. |
| Semver.NumericComparesByValue | crates/aivcs-core/src/publish_gate.rs:91-110 | Comparing trimmed digit strings by length and then text compares the numbers they denote, at any length. |
| Semver.TiesUpToLeadingZeros | crates/aivcs-core/src/publish_gate.rs:91-110 | Two identifiers tie exactly when they are equal up to the leading zeros of a number. |
| Semver.CmpPrerelease | crates/aivcs-core/src/publish_gate.rs:72-89 | The loop over two iterators computes the order on identifier lists. |
| Semver.CmpVersion | crates/aivcs-core/src/publish_gate.rs:48-61 | Comparing versions computes the precedence of section 11 of Semantic Versioning 2.0.0 on their keys. |
| Semver.BelowIff | crates/aivcs-core/src/publish_gate.rs:48-110 | Below, said of numbers and texts: a lower core, or the same core and a pre-release that is one where the other is none, or whose dotted parts tie with the other's until it ends or has the lower part: numbers by value, a number before a word, words by their first difference. |
| Semver.LongerPreReleaseIsAbove | crates/aivcs-core/src/publish_gate.rs:72-89 | For every core, a pre-release p is below p followed by a dot and anything. |
| Semver.PrecedenceIsTotalPreorder | crates/aivcs-core/src/publish_gate.rs:48-110 | Exactly one of below, tied and above holds, below is transitive, and the ties are the versions with one key. |
| Semver.PreReleaseComesFirst | crates/aivcs-core/src/publish_gate.rs:54-60 | A pre-release is above exactly the releases with a lower core, and below every other, the release it leads to included. |
| PublishGate.CheckRule | crates/aivcs-core/src/publish_gate.rs:248-345 | Each rule reports exactly the candidates that break it. |
| PublishGate.RulesAccept | crates/aivcs-core/src/publish_gate.rs:248-345 | What each rule accepts: a label that parses; a label above the previous one, or either missing or empty; a label not taken, missing or empty; notes, and a digest, with a character that is not white space. |
| PublishGate.EvaluatePublishGate | crates/aivcs-core/src/publish_gate.rs:226-246 | The gate passes exactly when no rule is broken, whether or not it stops early; stopping early reports the first violation only. |
| PublishGate.AcceptedChainIncreasesIff | crates/aivcs-core/src/publish_gate.rs:273-317 | A chain the bump rule accepts is strictly increasing throughout exactly when no release in it lacks a label. |
| PublishGate.StandardChainsIncrease | crates/aivcs-core/src/publish_gate.rs:160-171 | Under the format and bump rules every chain is strictly increasing and no label comes back. |
| PublishGate.UnlabelledReleaseAllowsRevisit | crates/aivcs-core/src/publish_gate.rs:274-281 | With the bump rule alone any label can be published again after a release with no label or an empty one. |
| JsonPointer.EscapeRoundTrip | crates/aivcs-cli/src/main.rs:2005-2010 | Escaping a key is undone by reading the token, and leaves no slash. |
| JsonPointer.UnescapeIsOnlyInverse | crates/aivcs-cli/src/main.rs:2005-2010 | The escaped key is the only token that reads as the key. |
| JsonPointer.UnescapeIsTwoPasses | crates/aivcs-cli/src/main.rs:2005-2010 | On every token the one-pass reading is the two-pass decoding of section 4 of RFC 6901. |
| SpecDiff.PathMap.CollectLeafPaths | crates/aivcs-cli/src/main.rs:2003-2034 | The recursion inserts one value's leaf entries into the map, overwriting only what they share. |
| SpecDiff.LeafPathsArePointersIff | crates/aivcs-cli/src/main.rs:2003-2034 | The flattened map sends exactly the RFC 6901 pointers to leaves to those leaves, if and only if the value is not itself a leaf; a leaf stands under "/", which leads nowhere in it. |
| SpecDiff.OneEntryPerLeaf | crates/aivcs-cli/src/main.rs:2003-2034 | There are as many entries as leaves: leaf paths never collide. |
| SpecDiff.BuildSpecDiff | crates/aivcs-cli/src/main.rs:2036-2065 | The three loops list, in path order, the changed paths and those of one side only. |
| SpecDiff.DiffPartitions | crates/aivcs-cli/src/main.rs:2036-2065 | Every path is in exactly one list or unchanged, and swapping the arguments swaps the one-sided lists only. |
| SpecDiff.EmptyDiffIff | crates/aivcs-cli/src/main.rs:2036-2065 | The diff is empty exactly when the two path maps are equal. |
| SpecDiff.EmptyDiffMeansSameLeaves | crates/aivcs-cli/src/main.rs:2003-2065 | The diff of any two values is empty exactly when the same pointers lead to the same leaves in both, a bare leaf counting as an object that holds it under an empty key. |
| SpecDiff.EmptyDiffOfDifferentValues | crates/aivcs-cli/src/main.rs:2003-2034 | Different values with an empty diff: an empty array and object, an array and an object with key "0", a leaf and an object with an empty key. |
| Orchestration.MergeRoleOutputs | crates/aivcs-core/src/orchestration.rs:194-234 | The sorted nested loops over outputs and keys compute the fold over single writes. |
| Orchestration.MergeOfOutputs | crates/aivcs-core/src/orchestration.rs:194-234 | The merged keys are those any output wrote, each merged value is some output's, and a key is free of conflicts exactly when all outputs that write it agree. |
| Orchestration.OwnersWroteTheirValues | crates/aivcs-core/src/orchestration.rs:204-229 | Each final value was written, by its final owner. |
| Orchestration.ConflictsAreDisagreements | crates/aivcs-core/src/orchestration.rs:212-220 | The recorded conflicts are exactly the writes that disagree with what stands when they arrive, each naming the standing value and its owner and the incoming value and its role. |
| Orchestration.ConflictFreeIffWritesAgree | crates/aivcs-core/src/orchestration.rs:204-229 | No conflict is recorded for a key exactly when all its writes carry one value. |
| Orchestration.OwnerNeverWorsens | crates/aivcs-core/src/orchestration.rs:222-227 | The owner's priority number never increases during the merge. |
| Orchestration.OnlyAbsorbedWritersRankHigher | crates/aivcs-core/src/orchestration.rs:209-227 | The final owner ranks at least as high as every writer whose value was not already standing when it wrote. |
| Orchestration.OwnerWasNotAbsorbed | crates/aivcs-core/src/orchestration.rs:209-227 | The final owner is itself such a writer, so its priority is exactly the best among them. |
| Orchestration.BestRoleOwnsIff | crates/aivcs-core/src/orchestration.rs:204-229 | The final owner has the best priority among all writers of its key exactly when some best-ranked writer was not absorbed. |
| Orchestration.BestRoleCountsIff | crates/aivcs-core/src/orchestration.rs:204-229 | Taking the best-ranked role's writes to a key away changes the merge exactly when some of them was not absorbed; when all were, values, owners and conflicts are those of the other writes. |
| Orchestration.AbsorbedRoleLeavesNoTrace | crates/aivcs-core/src/orchestration.rs:209-211 | Under either strategy, a role whose writes to a key are all absorbed can be taken out without any change. |
| Orchestration.WinnerStands | crates/aivcs-core/src/orchestration.rs:204-229 | Under role priority the final value and owner of a key are those of the earliest best-ranked write among those not absorbed. |
| Orchestration.SomeWriteWins | crates/aivcs-core/src/orchestration.rs:204-229 | Every key that was written has such a write. |
| Orchestration.AbsorbedIff | crates/aivcs-core/src/orchestration.rs:209-211 | A write is absorbed exactly when the write that wins among those before it carries the same value. |
| Orchestration.BestValueStandsIff | crates/aivcs-core/src/orchestration.rs:204-229 | The final value is one a best-ranked role wrote exactly when such a role won, or the winner carries the value of a best-ranked role that was absorbed. |
| Orchestration.FirstBestUnabsorbedStands | crates/aivcs-core/src/orchestration.rs:222-227 | The first best-ranked write that is not absorbed has the last word on the value. |
| Orchestration.BestValueUnderAnotherOwner | crates/aivcs-core/src/orchestration.rs:209-211 | A planner's value repeated by a fixer stands, and the planner keeps it. |
| Orchestration.BestRoleWinsWhenValuesDiffer | crates/aivcs-core/src/orchestration.rs:222-227 | When no two writes to a key agree, the best-ranked writer keeps it. |
| Orchestration.BestRoleCanLose | crates/aivcs-core/src/orchestration.rs:209-211 | When two agree the best-ranked writer can be absorbed and its value lose to a third role's. |
| Orchestration.BestRolesOutputCanLose | crates/aivcs-core/src/orchestration.rs:194-234 | The same for whole outputs: a planner, a fixer that repeats it and a coder merge to the coder's value. |
| Orchestration.PriorityDecides | crates/aivcs-core/src/orchestration.rs:24-34 | Of two disagreeing roles the one further up in fixer, reviewer, tester, coder, planner prevails, whichever wrote first. |
| Orchestration.FirstMergedStands | crates/aivcs-core/src/orchestration.rs:195-196 | Without role priority the value of the earlier step stands, within a step that of the role declared first, and with neither that of the output that arrived first. |
| Orchestration.FirstWriteStands | crates/aivcs-core/src/orchestration.rs:71-78 | Without role priority, or within one role, the first write to a key stands. |
| Orchestration.MergeIgnoresArrivalOrder | crates/aivcs-core/src/orchestration.rs:193-196 | When no two outputs share a step and a role the merge does not depend on the order they arrive in. |
| Orchestration.SameSlotOrderMattersIff | crates/aivcs-core/src/orchestration.rs:195-196 | Two outputs of one role in one step merge the same in either order exactly when they agree on every key they share. |
| MergeKeys.FoldIsKeywise | crates/aivcs-core/src/orchestration.rs:204-229 | What the merge leaves at a key, its conflicts in order included, depends only on the writes to that key. |
| MergeSwaps.SwapShowsIff | crates/aivcs-core/src/orchestration.rs:195-229 | Two neighbouring outputs of one role in one step, among any others, can be exchanged without changing values and counted conflicts exactly when each key they disagree on holds an earlier value their role cannot override. |
| MergeLists.SwapKeepsOutcomeIff | crates/aivcs-core/src/orchestration.rs:195-229 | The same exchange leaves the whole outcome as it is, the conflict list included, exactly when the two record the same list in either order right after the outputs before them. |
| MergeLists.OnlyTheListShows | crates/aivcs-core/src/orchestration.rs:195-220 | Two outputs of one slot that clash with earlier values at different keys show their order in the conflict list, and nowhere else. |
| ArrivalOrder.ArrivalOrderShowsIff | crates/aivcs-core/src/orchestration.rs:193-234 | Any number of outputs merge to the same values and counted conflicts in every arrival order exactly when, wherever two outputs of one role in one step disagree on a key, the outputs of earlier slots leave a value there that this role cannot override. |
| ArrivalOrder.ConflictOrderShowsIff | crates/aivcs-core/src/orchestration.rs:193-234 | They merge to the same outcome, the order of the conflict list included, exactly when any two outputs of one role in one step, put right after the earlier slots, record the same list in either order. |
| ArrivalOrder.AgreeingSlotsIgnoreArrivalOrder | crates/aivcs-core/src/orchestration.rs:193-234 | In particular the values and counted conflicts are the same when the outputs of one role in one step agree on the keys they share. |
| IssueLedger.IssueGraph.constructor | crates/aivcs-issuegraph/src/lib.rs:84-105 | A new issue has one empty branch, main, which is current. |
| IssueLedger.IssueGraph.AddConstraint | crates/aivcs-issuegraph/src/lib.rs:107-110 | A constraint is appended to those that later snapshots carry. |
| IssueLedger.IssueGraph.Checkout | crates/aivcs-issuegraph/src/lib.rs:114-126 | Switches to a branch that exists and logs it, and otherwise fails and changes nothing. |
| IssueLedger.IssueGraph.CreateBranch | crates/aivcs-issuegraph/src/lib.rs:129-153 | Copies the current branch under a new name, and fails on an existing one. |
| IssueLedger.IssueGraph.Commit | crates/aivcs-issuegraph/src/lib.rs:163-203 | Appends a snapshot of the issue to the current branch and nothing else; its parent is the id of the commit right before it, or none on an empty branch. |
| IssueLedger.IssueGraph.CommitDetailed | crates/aivcs-issuegraph/src/lib.rs:206-223 | Appends the caller's commit with its parent replaced by the id of the commit right before it, or none on an empty branch. |
| IssueLedger.IssueGraph.SemanticMerge | crates/aivcs-issuegraph/src/lib.rs:240-270 | Appends the source's commits with new ids to the target; a missing source is reported before a missing target. |
| IssueLedger.MergeKeepsTargetAndAddsSource | crates/aivcs-issuegraph/src/lib.rs:255-261 | The target's commits stay a prefix of the result, whose ids are those of both branches. |
| IssueLedger.MergeAddsNothingIff | crates/aivcs-issuegraph/src/lib.rs:255-261 | A merge adds no commit exactly when the target has every id of the source. |
| IssueLedger.RepeatedMergeAddsNothing | crates/aivcs-issuegraph/src/lib.rs:255-261 | Merging again, or a branch into itself, adds nothing. |
| IssueLedger.MergeLosesNoCommitIff | crates/aivcs-issuegraph/src/lib.rs:255-261 | Every source commit is in the result exactly when those whose id the target has are on the target already. |
| IssueLedger.HistoryIsAChain | crates/aivcs-issuegraph/src/lib.rs:156-223 | In every reachable state, on a branch no merge was made into and that is no copy of such a one, each commit's parent is the commit right before it. |
| IssueLedger.ParentsStayEarlier | crates/aivcs-issuegraph/src/lib.rs:114-270 | In every reachable state, even after merges and whatever ids were supplied, a commit's parent stands earlier on the same branch. |
| IssueLedger.IdsStayDistinctIff | crates/aivcs-issuegraph/src/lib.rs:163-270 | Ids stay distinct on every branch throughout a run exactly when every commit's id was new to the branch it was made on. |
| IssueLedger.FreshIdsNameCommits | crates/aivcs-issuegraph/src/lib.rs:163-270 | When ids are drawn fresh, an id stands for one commit on all branches in every reachable state. |
| IssueLedger.MergeLosesNothing | crates/aivcs-issuegraph/src/lib.rs:240-270 | When ids are drawn fresh, a merge in any reachable state holds exactly the commits of both branches. |
| Sorting.SortIsStable | crates/aivcs-core/src/memory_context.rs:351 | Elements of equal key keep their order. |
| ContextPacking.Assemble | crates/aivcs-core/src/memory_context.rs:349-372 | The loop computes greedy packing with wrapping addition; the segments returned stand in falling priority, come from the input, and with the dropped ones make up its number. |
| ContextPacking.WrappedPackConserves | crates/aivcs-core/src/memory_context.rs:353-364 | Included and dropped segments together are the input, as multisets and in number. |
| ContextPacking.WrappedPackKeepsOrder | crates/aivcs-core/src/memory_context.rs:350-364 | From segments in falling priority what is included stands in falling priority. |
| ContextPacking.PackIsGreedy | crates/aivcs-core/src/memory_context.rs:348-364 | With exact addition the total is the sum of the included costs, it stays within the budget, and no dropped segment would fit in the space finally left. |
| ContextPacking.WithinBudgetIff | crates/aivcs-core/src/memory_context.rs:357-359 | What the code includes stays within the budget, and is the exact greedy packing, if and only if no segment reaches 2^64 together with what was packed before it. |
| ContextPacking.SmallSegmentsNeverOverflow | crates/aivcs-core/src/memory_context.rs:357-359 | A caller whose budget and largest segment together stay below 2^64 never meets that case. |
| ContextPacking.AnyBudgetCanBeOverrun | crates/aivcs-core/src/memory_context.rs:357-359 | Two segments overrun any positive budget, with a reported total of zero. |
| Compaction.GroupByKey | crates/aivcs-core/src/memory_context.rs:446-449 | The map holds, for exactly the keys that occur, their entries in order. |
| Compaction.TakeNewest | crates/aivcs-core/src/memory_context.rs:453-460 | The enumerated loop keeps the first entries up to the limit and counts the rest. |
| Compaction.Compact | crates/aivcs-core/src/memory_context.rs:423-478 | Walking the hash map in an arbitrary order computes the compaction for some order of the keys; there is no result exactly when the age limit stops the process. |
| Compaction.LimitKeepsTheNewest | crates/aivcs-core/src/memory_context.rs:450-461 | As many entries of a key are kept as the limit allows, none is lost, and none dropped is newer than one kept. |
| Compaction.CompactionConserves | crates/aivcs-core/src/memory_context.rs:441-478 | Retained and compacted entries add up to the input for every policy and order, and the creation times of the retained ones never fall. |
| Compaction.RetainedPerKey | crates/aivcs-core/src/memory_context.rs:441-472 | Under a limit what is left of each key is its newest entries, at most the limit. |
| Compaction.OrderDoesNotMatter | crates/aivcs-core/src/memory_context.rs:444-471 | Which entries survive, and how many do not, is independent of the hash map's order. |
| Compaction.DistinctTimesFixTheOrder | crates/aivcs-core/src/memory_context.rs:468-471 | When no two survivors share an instant, not even their order depends on it. |
| Compaction.AgeLimitThreeWays | crates/aivcs-core/src/memory_context.rs:428-439 | The age limit means what it says exactly while the cutoff is a date of the library; it drops everything exactly for the last day counts below 2^64, whose cast puts the cutoff in the future; for every count in between it stops the process. |
| Compaction.HugeLimitsFail | crates/aivcs-core/src/memory_context.rs:433 | At any time from 1970 to 2069, 2^64-1 days drop everything, and a hundred million or 2^63 days stop the process. |
| Authority.EveryTextIsACeiling | crates/aivcs-mcp-gateway/src/main.rs:263-272 | Every ceiling text acts as a ceiling in the order of the risks: "write" allows everything, "read" only reads, any other text, "destructive" included, stops at write. |
| Authority.ApprovalFixesTheWorkOnly | crates/aivcs-mcp-gateway/src/main.rs:1063-1099 | An approval that fits a call fits exactly the calls of the same run, task, tool and argument text, whoever makes them, in whichever tenant, with whichever scopes and on whichever repository. |
| Authority.GatewayState.CreateApproval | crates/aivcs-mcp-gateway/src/main.rs:1389-1410 | A new approval is recorded unused, under the current time. |
| Authority.GatewayState.DecideApproval | crates/aivcs-mcp-gateway/src/main.rs:1081-1130 | Under the lock some fresh matching approval is marked used exactly when there is one; otherwise nothing changes and a true reason is given, never the one the code calls unreachable. |
| Authority.GatewayState.Mint | crates/aivcs-mcp-gateway/src/main.rs:1189-1221 | One record is added, naming the call's actor, agent instance, principal, tenant, workspace, run, task, tool, digest, repository, risk and approval. |
| GatewayRuns.AdmittedIff | crates/aivcs-mcp-gateway/src/main.rs:1024-1060 | A call is admitted exactly when its token has the tool's scope and the tool reads, or writes under a ceiling other than "read", or is a merge or a memory deletion under the ceiling "write". |
| GatewayRuns.StepKeepsInv | crates/aivcs-mcp-gateway/src/main.rs:1081-1221 | Every step of every call in flight keeps the approval invariant. |
| GatewayRuns.DestructiveRecordsAreApproved | crates/aivcs-mcp-gateway/src/main.rs:1081-1221 | Over every run each authority record was minted for an entitled call at the risk of its tool; for a merge or a memory deletion it carries the consumed approval of that very call, for its run, task, action and digest and not expired at the clock the call read; otherwise none; no two share one. |
| GatewayRuns.ConsumedApprovalsAreAccountedFor | crates/aivcs-mcp-gateway/src/main.rs:1099-1221 | The number of consumed approvals is the number of records that carry one plus the calls about to mint. |
| GatewayRuns.ApprovalsOnlyGetUsed | crates/aivcs-mcp-gateway/src/main.rs:1101-1105 | An approval is never altered except to be used up, and stays used. |
| GatewayRuns.AgeAtConsumptionIff | crates/aivcs-mcp-gateway/src/main.rs:1083-1105 | Over all runs, an approval can be consumed at an age exactly when that age is within its lifetime plus its call's wait for the lock. |
| GatewayRuns.ApprovalServesAnyCaller | crates/aivcs-mcp-gateway/src/main.rs:1063-1214 | For every call and every admitted destructive call of the same run, task, tool and arguments, a run in which the first one's approval clears the second and the record names the second's caller and repository. |
| GatewayRuns.ApprovalServesAStranger | crates/aivcs-mcp-gateway/src/main.rs:1089-1099 | Every admitted destructive call has such another one that differs in actor, agent instance, principal, tenant, workspace, scopes and repository. |
| Recording.RunLog.Record | crates/aivcs-core/src/recording.rs:43-68 | The event is stored with its kind's fields merged into the payload, or the request fails with the record as before or complete. |
| Recording.MergeFields | crates/aivcs-core/src/recording.rs:48-58 | The loop inserts every kind field but the tag, overwriting the payload's. |
| Recording.KindFieldsSurvive | crates/aivcs-core/src/recording.rs:46-58 | A kind's fields can be read back whatever the payload held under their names; every other payload field is kept and none is invented. |
| Ci.Run | crates/aivcs-ci/src/pipeline.rs:56-205 | A run that returns a result has recorded every enabled stage, lists one result per stage under its name with what its command ended with, reports success and closes as completed exactly when all passed, with the number of events; a run that fails leaves a prefix of that record. |
| Ci.LogIsNumbered | crates/aivcs-ci/src/pipeline.rs:91-181 | Sequence numbers run from one to the number of events without gaps. |
| Ci.Evaluate | crates/aivcs-ci/src/gate.rs:31-97 | The gate passes exactly when no event is a failure and every tool called has succeeded; it reports one complaint per failure in the order of the events, then one for each tool that was called and neither succeeded nor failed. |
| Ci.EventsTell | crates/aivcs-ci/src/pipeline.rs:100-181 | From the two recorded events of a stage its command, whether it passed, its exit code and its output can be read back, or why it could not be run. |
| Ci.GateAgreesWithPipeline | crates/aivcs-ci/src/gate.rs:31-97 | For every stage list, disabled and repeated stages included, and every outcome, the gate passes the full record exactly when every enabled stage passed. |
| Ci.GateNamesFailedStages | crates/aivcs-ci/src/gate.rs:31-97 | On the full record the gate complains of exactly the stages that did not pass, in their order, each with its exit code or why it could not be run. |
| Ci.SuccessMeans | crates/aivcs-ci/src/pipeline.rs:91-205 | The pipeline succeeds exactly when every enabled stage passed, disabled ones not counting. |
| Ci.GateOnTruncatedRecordIff | crates/aivcs-ci/src/gate.rs:23-30 | On a record cut short the gate passes exactly when every ended stage passed and the stage left pending, if any, has the name of one that passed earlier. |

## Left out

- Transport, TLS, tokens, logging, message texts and the file system: requests are steps that may be delayed, repeated or lost, and a directory is a map from paths to files.
- SHA-256 is an injective term over what it hashes; UUIDs are fresh values; clocks are inputs that do not go back.
- `POST /api/v1/publish` takes effect at once, as in the memory store, and under the id that is the hash of its commit, which the forge does not check (`crates/forge-cas/src/lib.rs:331-404`); other stores' separate writes are separate steps of other clients.
- `AIVCS_PUBLISH_FORCE`, which sends no precondition, is not a step of a publisher; for everybody else such a publish is another client's unconditional write.
- Walking the tree: ignore files, symbolic links and reading files while they change. A publisher starts from a manifest.
- Fetching does not check downloaded bytes against their digest in the code either; the round trip assumes a forge that answers a digest with its bytes. Two paths that name one file are not modelled, nor the fallback reads of a manifest.
- ForgeFetch.Fetch: assumes a manifest without repeated paths, as walking a tree produces it.
- Blob upload retries and existence probes: an upload is done when the blob is stored.
- Queries of the event-sourced run store answer newest first and keyed creates store once, as the code's comments say of the data mesh; documents that do not parse as runs are not modelled.
- RunRefinement.StoresAgree and RunLimits.HistoriesAgreeIff: assume runs are enqueued in the order of their creation times and under fresh ids, because that is how both stores draw them.
- Progress reports and replanning of plans, and all floating-point scores.
- Link requests: no store in this repository calls the graph guards together, so `Mesh.Link` combines canonical form, sameness and guard in the order their comments describe.
- Semver.CmpVersion: follows the code on texts section 11 does not cover, such as a plus sign inside a number or a pre-release; build metadata is not split off.
- PublishGate.CheckRule: reason texts are not modelled.
- Compaction.Compact: the date library's ranges are written out from chrono 0.4; leap seconds are not modelled, and the clock is read once, as in the code.
- ContextPacking.Assemble: wraps at 64 bits as a release build does; a debug build stops instead. Estimating tokens from text is not modelled.
- Commit metadata that only passes through the issue ledger (evidence, agent, repository and CI references, timestamps) is not modelled; nor is the issue's title.
- Handoff validation, role templates and the parallel role check.
- Listing tools, revoking tokens, the memory tools' own work, and the decision log of the gateway; a record is minted before its tool runs and the model ends there.
- Ci.Run: the outcome of each stage is an input; durations, time limits and run metadata are not recorded.
- Login, import, provider routing, release orchestration, the documentation site, backup and restore.
