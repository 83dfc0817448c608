# Verified model of the yurt-app-manager controllers

yurt-app-manager groups the nodes of an edge cluster into node pools and keeps one workload per pool. This project
models its reconcilers and proves what they guarantee, for all inputs, all states and all runs. Every loop, in-place
edit and error path of the modelled functions is written as a method over mutable objects and tied to a specification
function or relation; the guarantees are lemmas about those.

| file | content |
|---|---|
| `NodeAttributes.dfy`, `NodeUndo.dfy` | what joining, following and leaving a pool does to one node; exact undo and history independence |
| `NodePoolController.dfy`, `Cluster.dfy` | the node pool controller and its event handlers, and one reconcile as a function of the store |
| `WakeUp.dfy`, `WorkerRefinement.dfy` | workers, users and restarts interleaved write by write: no lost wake-up |
| `Convergence.dfy`, `Confluence.dfy` | termination once users rest, and exactly when the final store does not depend on the order |
| `WorkerRuns.dfy` | the same two for workers that run at the same time: they come to rest, and where |
| `Revisions.dfy`, `RevisionRuns.dfy` | the revision history: trimming, numbering, rolling back, name probing, and whole runs |
| `SlowStart.dfy` | batches that double until a call fails |
| `AppSet.dfy`, `AppSetRuns.dfy`, `AppSetController.dfy` | the pools of a YurtAppSet: one reconcile as a relation, its theorems, and the controller that implements it |
| `RefManager.dfy`, `RefProtocol.dfy` | claiming objects by owner reference from stale copies |
| `AppDaemon.dfy`, `AppDaemonRuns.dfy`, `AppDaemonController.dfy` | the workloads of a YurtAppDaemon |
| `Affinity.dfy`, `Tolerations.dfy` | the node affinity rewrite and tolerations |
| `Stores.dfy`, `Names.dfy`, `Common.dfy` | the API client with failing calls, sorted name lists, shared datatypes |

`dafny verify dfyconfig.toml` checks the whole project.

## Assumptions

- Node pools: users edit neither the owner label nor the cached attributes, new nodes carry neither, pool specs do not
  use the two reserved label keys. Undo, history independence and confluence also need the pool's keys and taint slots
  to be disjoint from the node's own; where the order of taints matters, that a pool repeats no slot. Confluence
  assumes that owner labels name existing pools (a pool is deleted only when it owns no node,
  `pkg/yurtappmanager/webhook/nodepool/nodepool_validation.go:83-93`) and that users leave the labels and annotations
  that came from the pool as they are; taints may be added, moved and removed. JSON encoding and decoding of the cache
  are inverse, nil and empty maps are one. A node update is accepted only if the node is as it was read.
- Revisions: two revisions are equal if their data is; the name is an unknown function of data and collision count,
  injective in the count; theorems about numbering assume a limit of at least one.
- YurtAppSet and YurtAppDaemon: a reconcile lists the current store and nobody else writes during it; every writing
  call may succeed, err or time out, and a failing one may have had its effect; reads of one object may fail, listings
  succeed. Pool names are unique and not empty
  (`pkg/yurtappmanager/webhook/yurtappset/yurtappset_validation.go:66-77`); patches leave the labels of the controller
  alone.
- Claims: the server accepts an update only for the stored version. `SetControllerReference` replaces a reference to an
  owner of the same kind and name in place and appends otherwise; other clients leave controller references alone.
- A taint is tolerated, a selector term matched and a name list sorted by the rules of the Kubernetes and Go libraries.

## Where the code and its documentation differ

- A vanished object is meant to be ignored when claiming, but the server's error is formatted into a new one before it
  is tested, so the claim fails (`RefManager.ClaimFailsIff`,
  `pkg/yurtappmanager/util/refmanager/ref_manager.go:232-235` against 204).
- `IsExpected` is true when the revision is not the expected one; the model follows the code.
- A patch may set the replica count and then takes precedence
  (`pkg/yurtappmanager/apis/apps/v1alpha1/yurtappset_types.go:139-140`), but workloads are compared with the pool's own
  count, so every reconcile updates such a workload again (`AppSet.AppliedIsCurrentIff`, `AppSetRuns.QuietIffConverged`).
- A patch that does not apply is ignored when a workload is created and is an error when it is updated; such an error
  also keeps other pools from being updated, as no batch follows a failing one. `AppSetRuns.RewrittenExactly` says
  which; `AppSetRuns.AppliablePoolStarves` and `AppSetRuns.StarvesForGood` show one that is never updated.
- The name of an expired revision can be given to new data in the same pass: `RevisionRuns.DataChangesIff` says when,
  `RevisionRuns.FreedNameCanBeReused` shows it.
- Pool taints are unique by key and effect after a join of a node where they were (`NodeUndo.JoinKeepsUniqueIff`), but
  not after every update (`NodeUndo.UpdateKeepsUniqueIff`, `NodeUndo.UpdateCanDuplicateSlot`).
- The update branch skips a node that changes pools and keeps its spec, so the order of its two pools' reconciles can
  show in the order of its taints (`Confluence.OrdersAgreeIff`).
- A pool without match expressions gives a template without required node affinity a selector that matches no node, and
  empty terms, which match nothing, come to life when expressions are added (`Affinity.RewrittenAcceptsIff`).
- A YurtAppDaemon never removes a second workload of a selected pool (`AppDaemonRuns.DuplicatesStay`). Its template must
  not set an affinity without a node part, which the code dereferences
  (`pkg/yurtappmanager/controller/yurtappdaemon/workloadcontroller/deployment_controller.go:88`); the model requires
  this as `Safe`.

## Model

| member | source | states |
|---|---|---|
| `NodePoolController.NodeObject.ConcilateNode` | `pkg/yurtappmanager/controller/nodepool/nodepool_controller.go:250-300` | The edited node is the functional `Concile` of the old one, and the returned flag is true exactly if the node changed |
| `NodePoolController.NodeObject.RemovePoolRelatedAttrs` | `pkg/yurtappmanager/controller/nodepool/nodepool_controller.go:322-358` | The edited node is `Strip` of the old one: cached labels and annotations with unchanged values, one taint per cached taint, the cache and the owner label are gone; without a cache nothing changes |
| `NodePoolController.NodeObject.JoinPoolTaints` | `pkg/yurtappmanager/controller/nodepool/nodepool_controller.go:261-269` | The join branch: in-place removal and appending equals the recursive `JoinTaints` |
| `NodePoolController.NodeObject.RemovePoolTaints` | `pkg/yurtappmanager/controller/nodepool/nodepool_controller.go:347-353` | Index-based removal equals removing the first taint of each slot in turn |
| `NodePoolController.NodeObject.ConciliateTaints` | `pkg/yurtappmanager/controller/nodepool/nodepool_controller.go:390-404` | The update branch removes by slot and appends without looking for clashes |
| `NodePoolController.MergeMap` | `pkg/yurtappmanager/controller/nodepool/nodepool_controller.go:453-461` | Key by key in any order, the result is the right-biased union |
| `NodePoolController.FollowKeys` | `pkg/yurtappmanager/controller/nodepool/nodepool_controller.go:361-387` | Drops exactly the keys that the old spec had and the new one lacks, then merges, whatever the iteration order |
| `NodePoolController.DeleteMatching` | `pkg/yurtappmanager/controller/nodepool/nodepool_controller.go:335-345` | Deletes exactly the keys that still hold the cached value |
| `NodePoolController.ContainTaint` | `pkg/yurtappmanager/controller/nodepool/nodepool_controller.go:434-444` | Finds the first taint with the same key and effect, or 0 and false if there is none |
| `NodeUndo.ExactUndo` | `pkg/yurtappmanager/controller/nodepool/nodepool_controller.go:250-404` | Join, any sequence of specs and pools, then leave: the node has its original labels, annotations and taint sequence again, without owner label and cache |
| `NodeUndo.UndoKeepsOverrides` | `pkg/yurtappmanager/controller/nodepool/nodepool_controller.go:322-358` | If users have meanwhile given some of the pool's labels and annotations other values, or removed some, leaving keeps exactly those values, takes all else of the pool, and restores the rest |
| `NodeUndo.UpdateForgetsOverrides` | `pkg/yurtappmanager/controller/nodepool/nodepool_controller.go:361-387` | A change of the pool's spec, unlike leaving, forgets whatever users did to the old spec's labels and annotations |
| `NodeUndo.JoinIsReplace` | `pkg/yurtappmanager/controller/nodepool/nodepool_controller.go:261-269` | Joining, clashes included: the node's first taint in each slot of the pool goes, the others stay in order, and the pool's taints follow with their values |
| `NodeUndo.HistoryIndependence` | `pkg/yurtappmanager/controller/nodepool/nodepool_controller.go:258-289` | After any sequence of specs the incremental path gives the node that a fresh join with the last spec gives, including taint order, and the node that stripping and joining again gives |
| `NodeUndo.IncrementalEqualsFreshIff` | `pkg/yurtappmanager/controller/nodepool/nodepool_controller.go:258-289` | For any sequence of specs, following them gives the same as a fresh join with the last exactly if the last repeats no taint slot or all are equal |
| `NodeUndo.JoinUndoneIff` | `pkg/yurtappmanager/controller/nodepool/nodepool_controller.go:250-358` | Joining then leaving restores a node exactly if the pool shares no label key, annotation key or taint slot with it |
| `NodeUndo.JoinedTaintsRestoredIff` | `pkg/yurtappmanager/controller/nodepool/nodepool_controller.go:261-353` | Taints are restored exactly if no taint of the node is in a slot of the pool |
| `NodeUndo.UpdateCanDuplicateSlot` | `pkg/yurtappmanager/controller/nodepool/nodepool_controller.go:400-403` | Concrete node and specs, all without a repeated slot, for which the update branch leaves two taints with one key and effect, while a fresh join with the same spec does not |
| `NodeUndo.UpdateKeepsUniqueIff` | `pkg/yurtappmanager/controller/nodepool/nodepool_controller.go:390-404` | The update branch leaves unique slots exactly if what remains without the old pool's taints is unique, the new spec repeats no slot, and the two share none |
| `NodeUndo.JoinKeepsUniqueIff` | `pkg/yurtappmanager/controller/nodepool/nodepool_controller.go:261-269` | The join branch leaves unique slots exactly if the node had unique slots, whatever the pool brings |
| `NodeAttributes.JoinedIsUnique` | `pkg/yurtappmanager/controller/nodepool/nodepool_controller.go:261-269` | Joining an untainted node yields the pool's taint list exactly if the list repeats no slot |
| `NodePoolController.WorkQueue.OnNodeCreate` | `pkg/yurtappmanager/controller/nodepool/nodepool_enqueue_handlers.go:33-47` | Queues the desired pool of a new node if it has the label, and nothing else |
| `NodePoolController.WorkQueue.OnNodeUpdate` | `pkg/yurtappmanager/controller/nodepool/nodepool_enqueue_handlers.go:50-112` | Queues the pools given by comparing the new desired pool with the old owner, then readiness, then attributes |
| `NodePoolController.WorkQueue.OnNodeDelete` | `pkg/yurtappmanager/controller/nodepool/nodepool_enqueue_handlers.go:115-132` | Queues the owner of a deleted node if it has one |
| `Cluster.WokenByUpdateIff` | `pkg/yurtappmanager/controller/nodepool/nodepool_enqueue_handlers.go:50-112` | Which pools an update wakes and which it does not: the new desired pool and the old owner if they differ, otherwise the desired pool exactly if the node changed |
| `NodePoolController.NodePoolReconciler.GetRemovedNodes` | `pkg/yurtappmanager/controller/nodepool/nodepool_controller.go:303-318` | Exactly the current nodes that are not desired, each once |
| `NodePoolController.NodePoolReconciler.ConciliateNodePoolStatus` | `pkg/yurtappmanager/controller/nodepool/nodepool_controller.go:407-432` | The new status holds the counts and the sorted names; the flag is true exactly if it differs from the old status with its names sorted |
| `NodePoolController.NodePoolReconciler.Reconcile` | `pkg/yurtappmanager/controller/nodepool/nodepool_controller.go:175-246` | The whole loop over listed nodes, with the events of its writes, leaves nodes, statuses and queue as the one-step function `Reconciled` says |
| `Cluster.TouchFacts` | `pkg/yurtappmanager/controller/nodepool/nodepool_controller.go:197-238` | A reconcile changes a node exactly if it is wrongly placed with respect to the pool or outdated, puts it right, and touching it again changes nothing |
| `WorkerRefinement.UndisturbedWorkerReconciles` | `pkg/yurtappmanager/controller/nodepool/nodepool_controller.go:175-246` | Taking a pool, reading, and issuing node and status writes one by one in any planned order gives `Reconciled` if nobody interferes |
| `WakeUp.StepKeepsInv` | `pkg/yurtappmanager/controller/nodepool/nodepool_enqueue_handlers.go:33-132` | Every step of users, workers and restarts keeps: each pool is queued, held by a worker with writes left, or up to date |
| `WakeUp.NoLostWakeUp` | `pkg/yurtappmanager/controller/nodepool/nodepool_enqueue_handlers.go:33-132` | In every state of every interleaving, a pool whose reconcile would still change a node or its status is queued or held by a worker with writes left |
| `WakeUp.BusyWorkerRequeues` | `pkg/yurtappmanager/controller/nodepool/nodepool_controller.go:197-245` | The next step of such a worker, successful, rejected or failed, queues the pool, and it can always step |
| `WakeUp.QuietMeansSettled` | `pkg/yurtappmanager/controller/nodepool/nodepool_controller.go:110-123` | With an empty queue and no busy worker, every pool's nodes and status are up to date |
| `Convergence.ReconcileSettles` | `pkg/yurtappmanager/controller/nodepool/nodepool_controller.go:175-246` | After its reconcile a pool has nothing left to do |
| `Convergence.ReconcileKeepsSettled` | `pkg/yurtappmanager/controller/nodepool/nodepool_controller.go:175-246` | A reconcile of one pool leaves no work for another that had none |
| `Convergence.SecondReconcileWritesNothing` | `pkg/yurtappmanager/controller/nodepool/nodepool_controller.go:218-245` | A second reconcile on an unchanged cluster writes no node and no status |
| `Convergence.StatusAddsUp` | `pkg/yurtappmanager/controller/nodepool/nodepool_controller.go:212-242` | Ready is the number of ready nodes that desire the pool; ready plus unready equals the length of the node list, which is duplicate-free and names exactly the desiring nodes |
| `Convergence.ReconcileMakesProgress` | `pkg/yurtappmanager/controller/nodepool/nodepool_controller.go:197-245` | A reconcile that is not a no-op strictly reduces the summed distance of nodes plus the number of stale statuses; none increases it |
| `Convergence.DrainIsFinite` | `pkg/yurtappmanager/controller/nodepool/nodepool_controller.go:175-246` | Once users rest, no sequence of reconciles of queued pools is longer than a bound computed from the start, although reconciles queue pools again; for every well-formed store, also when owner labels name missing pools |
| `Confluence.EveryOrderEndsHome` | `pkg/yurtappmanager/controller/nodepool/nodepool_controller.go:197-245` | Reconciling every pool in any order, with repetitions, ends in the nodes and statuses that `HomeNodes` and `HomePools` name from the start, wherever users put taints of their own; a node that moves between pools with one spec is in line |
| `Confluence.OrdersAgreeIff` | `pkg/yurtappmanager/controller/nodepool/nodepool_controller.go:250-300` | Every two orders end in the same store exactly if each node that moves between two pools with the same spec has their taints at the end of its list already |
| `Confluence.EveryDrainEndsHome` | `pkg/yurtappmanager/controller/nodepool/nodepool_enqueue_handlers.go:50-112` | Any run that empties the queue ends in that same store, whichever pools were picked and however often |
| `Confluence.HomeIsDesired` | `pkg/yurtappmanager/controller/nodepool/nodepool_controller.go:197-238` | In that store a node is owned by its desired pool with that pool's attributes if the pool exists, and bare otherwise; what is its own is unchanged, taint order included |
| `WorkerRuns.StepComesCloser` | `pkg/yurtappmanager/controller/nodepool/nodepool_controller.go:175-246` | Every step of a worker, a start, an accepted, rejected or idle write, reduces lexicographically: steps of workers with outdated reads, work left in the store, workers with a stale write, turns |
| `WorkerRuns.WorkersComeToRest` | `pkg/yurtappmanager/controller/nodepool/nodepool_controller.go:110-123` | No run of the interleaved system consists of worker steps only from some point on, however workers interleave and however often writes are rejected |
| `WorkerRuns.WorkersRestIffQuiet` | `pkg/yurtappmanager/controller/nodepool/nodepool_controller.go:110-123` | No worker can step exactly if the queue is empty and nobody is at work: for every queued pool a plan exists |
| `WorkerRuns.RestIsHome` | `pkg/yurtappmanager/controller/nodepool/nodepool_controller.go:175-246` | Wherever workers with current reads come to rest, the store is the one that undisturbed reconciles end in: every node and status at home |
| `Names.SortIsListing` | `pkg/yurtappmanager/controller/nodepool/nodepool_controller.go:424-425` | Sorting any duplicate-free list of a set of names gives one and the same list |
| `Names.LessIff` | `pkg/yurtappmanager/controller/nodepool/nodepool_controller.go:424-425` | The order used: decided at the first position where two names differ, a proper prefix first |
| `Revisions.HistoryController.ListHistory` | `pkg/yurtappmanager/controller/yurtappset/revision.go:43-90` | The owned revisions, each once, ordered by number |
| `Revisions.HistoryController.CleanExpiredRevision` | `pkg/yurtappmanager/controller/yurtappset/revision.go:153-180` | Deletes exactly the oldest revisions beyond the limit except the recorded current one, which is dropped from the returned list all the same |
| `Revisions.HistoryController.CreateControllerRevision` | `pkg/yurtappmanager/controller/yurtappset/revision.go:183-212` | Ends at the first name that is free or already holds the data; never overwrites a stored revision |
| `Revisions.HistoryController.FindCurrent` | `pkg/yurtappmanager/controller/yurtappset/revision.go:138-148` | The recorded revision if it is in the retained list, otherwise the update revision; what this means for a pass and over runs is `RecordedIsCurrentIff` and `CurrentOverRuns` |
| `Revisions.HistoryController.ConstructRevisions` | `pkg/yurtappmanager/controller/yurtappset/revision.go:80-151` | Store, current and update revision and collision count are those of the specification function `Constructed` for the listed history |
| `Revisions.Probe` | `pkg/yurtappmanager/controller/yurtappset/revision.go:193-211` | The collision count at which probing stops: no clash there, a clash with other data at every earlier one |
| `Revisions.ProbeIsShort` | `pkg/yurtappmanager/controller/yurtappset/revision.go:193-211` | Probing makes at most one try more than there are stored revisions |
| `RevisionRuns.CollisionsCountClashes` | `pkg/yurtappmanager/controller/yurtappset/revision.go:193-211` | The collision count rises by exactly the number of clashing names, all of which are stored with other data |
| `RevisionRuns.CreatedIsNext` | `pkg/yurtappmanager/controller/yurtappset/revision.go:183-212` | A new revision is stored under the name for the returned collision count, all earlier names clashed with other data, and its number is 1 in an empty history and one more than the highest owned number otherwise |
| `RevisionRuns.RecordedIsCurrentIff` | `pkg/yurtappmanager/controller/yurtappset/revision.go:138-148` | A pass returns the recorded revision as the current one if fewer than `limit` owned revisions are newer, and the update revision otherwise |
| `RevisionRuns.TrimKeepsNewestAndLive` | `pkg/yurtappmanager/controller/yurtappset/revision.go:153-180` | What trimming leaves is the newest `limit` owned revisions and the recorded one, at most limit + 1 |
| `RevisionRuns.TrimDeletesOldest` | `pkg/yurtappmanager/controller/yurtappset/revision.go:164-177` | What trimming deletes is owned and not newer than anything retained |
| `RevisionRuns.HistoryIsBounded` | `pkg/yurtappmanager/controller/yurtappset/revision.go:80-151` | At most limit + 2 owned revisions after a whole pass |
| `RevisionRuns.NextIsFresh` | `pkg/yurtappmanager/controller/yurtappset/revision.go:254-263` | With a positive limit, the next number exceeds that of every owned revision, trimmed and unlisted ones included |
| `RevisionRuns.NumbersStayDistinct` | `pkg/yurtappmanager/controller/yurtappset/revision.go:107-136` | Numbers of owned revisions stay pairwise distinct |
| `RevisionRuns.DataChangesIff` | `pkg/yurtappmanager/controller/yurtappset/revision.go:107-136` | Data stored under a name changes exactly if the name is among those trimmed, its data differs, no retained revision holds the template's data, and probing the store without the trimmed names stops at it |
| `RevisionRuns.FreedNameCanBeReused` | `pkg/yurtappmanager/controller/yurtappset/revision.go:173-197` | Concrete history, built with the very hash it is read with, in which that happens: two templates with one hash, the older one trimmed |
| `RevisionRuns.UpdateIsNewestIff` | `pkg/yurtappmanager/controller/yurtappset/revision.go:118-136` | The update revision holds the template's data; it has the strictly highest number exactly if a retained revision held the data or the probed name was free, otherwise it is the recorded or a foreign revision and nothing is written |
| `RevisionRuns.RollBackRenumbersOnly` | `pkg/yurtappmanager/controller/yurtappset/revision.go:121-129` | Returning to a retained template returns the same name, creates nothing, leaves the collision count, and renumbers only that revision and only if it is not newest |
| `RevisionRuns.RepeatIsStable` | `pkg/yurtappmanager/controller/yurtappset/revision.go:107-136` | A second pass with the same template returns the same revision and collision count and at most trims |
| `RevisionRuns.ThirdPassIsSilent` | `pkg/yurtappmanager/controller/yurtappset/revision.go:80-151` | A third pass changes nothing and returns exactly what the second returned |
| `RevisionRuns.RecordedIsNeverLost` | `pkg/yurtappmanager/controller/yurtappset/revision.go:161-167` | Over every run with changing templates, limits, aborted trims and foreign revisions, a recorded current revision is never deleted, its data never changes, and owned numbers stay distinct |
| `RevisionRuns.CurrentOverRuns` | `pkg/yurtappmanager/controller/yurtappset/revision.go:138-148` | The same in every pass of every run; when nothing is recorded yet, the update revision becomes the recorded one |
| `SlowStart.RunBatch` | `pkg/yurtappmanager/util/tools.go:42-56` | One batch calls each of its indices once, in any order, and reports as many errors as calls failed |
| `SlowStart.SlowStartBatch` | `pkg/yurtappmanager/util/tools.go:38-64` | Calls are 0..k-1 once each with k fixed by the inputs; successes are calls minus failures; an error is that of a failed call, and there is none exactly if all calls were made and succeeded; failures are at most successes plus the initial size; all but the last of n rounds together are fewer than `count`, hence n is logarithmic |
| `SlowStart.CallsFacts` | `pkg/yurtappmanager/util/tools.go:41-63` | Either everything is called and succeeds or some call that is made fails: no failure is skipped over |
| `SlowStart.CallsShorten` | `pkg/yurtappmanager/util/tools.go:41-63` | More failures among the calls that are made never lead to more calls |
| `AppSet.AppliedIsCurrentIff` | `pkg/yurtappmanager/controller/yurtappset/adapter/deployment_adapter.go:77-158` | A workload just created or updated from the template needs no further update exactly if the pool's patch applies and leaves the replica count at the pool's value |
| `AppSet.UpToDateIff` | `pkg/yurtappmanager/controller/yurtappset/yurtappset_update.go:54-62` | A workload of a steady pool needs no update exactly if applying the template would leave it as it is |
| `AppSet.RefusedPatchIsSkipped` | `pkg/yurtappmanager/controller/yurtappset/pool_control.go:86-98` | A workload created although its patch does not apply has the kind, pool, revision and replica count of the specification and no patch |
| `AppSet.ApplyIsIdempotent` | `pkg/yurtappmanager/controller/yurtappset/pool_control.go:109-122` | Reapplying the template to its own result changes nothing, so retried updates are harmless |
| `AppSet.ConfigsAgree` | `pkg/yurtappmanager/controller/yurtappset/yurtappset_controller_utils.go:107-120` | With unique pool names the configuration compared with (the last) is the one applied (the first) |
| `AppSetController.PoolReconciler.GetAllPools` | `pkg/yurtappmanager/controller/yurtappset/pool_control.go:45-84` | Lists every workload of the kind once, or fails exactly if one lacks a pool name |
| `AppSetController.PoolReconciler.ClassifyPoolByPoolName` | `pkg/yurtappmanager/controller/yurtappset/yurtappset_controller.go:263-271` | Groups the listed workloads by name in list order |
| `AppSetController.PoolReconciler.DeleteDupPool` | `pkg/yurtappmanager/controller/yurtappset/yurtappset_controller.go:225-246` | Deletes only duplicates, all of them unless a delete errs, and keeps the first of each name |
| `AppSetController.PoolReconciler.GetNameToPool` | `pkg/yurtappmanager/controller/yurtappset/yurtappset_controller.go:206-223` | Listing, classifying and removing duplicates in one contract, with both ways to fail |
| `AppSetController.PoolReconciler.CreatePools` | `pkg/yurtappmanager/controller/yurtappset/yurtappset_update.go:124-154` | The missing pools are tried in order as far as slow start goes with the errors there were; new workloads from the template for tried pools, at most one each, for every missing pool if nothing fails; a timeout counts as success |
| `AppSetController.PoolReconciler.DeletePools` | `pkg/yurtappmanager/controller/yurtappset/yurtappset_update.go:156-172` | Deletes only the listed workloads of surplus pools, all of them if nothing fails |
| `AppSetController.PoolReconciler.CleanOtherKind` | `pkg/yurtappmanager/controller/yurtappset/yurtappset_update.go:174-195` | Deletes only workloads of the other kind, all if nothing fails and all are labelled; an unlabelled one is an error |
| `AppSetController.PoolReconciler.ManagePoolProvision` | `pkg/yurtappmanager/controller/yurtappset/yurtappset_update.go:89-198` | Creates are expected minus existing, deletes existing minus expected, kept is the intersection, in this order of phases; an error is returned exactly if a creation erred, other than by a timeout, a deletion or cleaning erred, or a workload of the other kind is unlabelled, with the errors counted at the API |
| `AppSetController.PoolReconciler.ListOutdated` | `pkg/yurtappmanager/controller/yurtappset/yurtappset_update.go:54-62` | Exactly the kept pools whose revision, replica count or patch differs from what is wanted |
| `AppSetController.PoolReconciler.UpdatePool` | `pkg/yurtappmanager/controller/yurtappset/pool_control.go:102-129` | The workload is unchanged or rewritten from the template; without an error it is rewritten; an error means that the patch does not apply, a get failed, or five updates did |
| `AppSetController.PoolReconciler.UpdatePools` | `pkg/yurtappmanager/controller/yurtappset/yurtappset_update.go:64-79` | The outdated pools are tried in order as far as slow start goes with the errors there were; only tried workloads change, each tried one without an error is rewritten, and without failing calls the errors are exactly the patches that do not apply |
| `AppSetController.PoolReconciler.ManagePools` | `pkg/yurtappmanager/controller/yurtappset/yurtappset_update.go:38-87` | Updates happen only if provisioning reported no error |
| `AppSetController.PoolReconciler.Reconcile` | `pkg/yurtappmanager/controller/yurtappset/yurtappset_controller.go:150-204` | Whatever each API call does, a run over the current store is a `Pass`, the relation that the theorems below are about |
| `AppSetRuns.HeadSurvives` | `pkg/yurtappmanager/controller/yurtappset/yurtappset_update.go:89-197` | With arbitrary failures a reconcile never deletes the listed workload of a topology pool: the same object is there in every intermediate state |
| `AppSetRuns.ListedIff` | `pkg/yurtappmanager/controller/yurtappset/yurtappset_controller_utils.go:41-52` | A reconcile gets past its listing exactly if every workload of the selected kind names a pool |
| `AppSetRuns.CreatesOnlyMissing` | `pkg/yurtappmanager/controller/yurtappset/yurtappset_update.go:104-154` | With arbitrary failures a reconcile creates only workloads of the selected kind for topology pools that had none |
| `AppSetRuns.AtMostOneIsKept` | `pkg/yurtappmanager/controller/yurtappset/yurtappset_update.go:89-197` | At most one workload of either kind per pool is kept, whatever fails |
| `AppSetRuns.UnlabelledBlocks` | `pkg/yurtappmanager/controller/yurtappset/yurtappset_controller_utils.go:41-52` | One workload without a pool name stops the whole reconcile if it is of the selected kind, and all updates if it is of the other |
| `AppSetRuns.ProvisionedIff` | `pkg/yurtappmanager/controller/yurtappset/yurtappset_update.go:43-48` | Updates follow exactly if no creation, deletion or cleaning returned an error and every workload of the other kind was labelled at the start |
| `AppSetRuns.ErrorsBlockUpdates` | `pkg/yurtappmanager/controller/yurtappset/yurtappset_update.go:43-48` | If any of these errs, or the removal of duplicates does, every workload that survives the reconcile is as it was listed |
| `AppSetRuns.SurplusIsGone` | `pkg/yurtappmanager/controller/yurtappset/yurtappset_update.go:156-172` | If no deletion errs, no listed workload of a surplus pool is left, whatever else fails |
| `AppSetRuns.QuietIffConverged` | `pkg/yurtappmanager/controller/yurtappset/yurtappset_update.go:38-198` | A reconcile has nothing to do, and then makes no writing call, exactly if there is one workload of the selected kind per topology pool, each as wanted, and nothing else |
| `AppSetRuns.StuckPool` | `pkg/yurtappmanager/controller/yurtappset/yurtappset_update.go:64-79` | An outdated workload whose patch does not apply stays as it is whatever fails, so such a store does not converge |
| `AppSetRuns.RewrittenExactly` | `pkg/yurtappmanager/controller/yurtappset/yurtappset_update.go:54-79` | Without failing calls, the i-th outdated pool in sorted order is rewritten exactly if its patch applies and i is less than the number of calls that slow start makes when the patches that do not apply are the failures; otherwise it is unchanged |
| `AppSetRuns.OnlyQueuedChange` | `pkg/yurtappmanager/controller/yurtappset/yurtappset_update.go:64-79` | The update phase creates and removes nothing and changes no workload but those of outdated pools, whatever fails |
| `AppSetRuns.StarvedStays` | `pkg/yurtappmanager/controller/yurtappset/yurtappset_update.go:64-79` | An outdated pool that comes after the end of slow start keeps its workload as it is whatever fails: failures only shorten slow start |
| `AppSetRuns.AppliablePoolStarves` | `pkg/yurtappmanager/controller/yurtappset/yurtappset_update.go:64-79` | A concrete specification and store with an outdated pool whose patch applies and a failure-free reconcile that leaves the store as it was: the pool before it has a patch that does not apply |
| `AppSetRuns.StarvesForGood` | `pkg/yurtappmanager/controller/yurtappset/yurtappset_update.go:38-87` | No reconcile of that store, whatever the calls do, changes anything: the pool is never updated |
| `AppSetRuns.CleanPassConvergesIff` | `pkg/yurtappmanager/controller/yurtappset/yurtappset_update.go:38-198` | From any labelled mix of missing, surplus, duplicate, outdated and wrong-kind workloads, one reconcile without API failures converges exactly if every pool's patch applies and leaves the replica count alone or its listed workload is already as wanted |
| `AppSetRuns.NeverTwo` | `pkg/yurtappmanager/controller/yurtappset/yurtappset_update.go:89-197` | Over every run with changing specifications, kinds and failures: never two workloads of a kind for a pool |
| `AppSetRuns.NeverEmptied` | `pkg/yurtappmanager/controller/yurtappset/yurtappset_update.go:89-197` | Over every run, a pool that stays in the topology never loses its last workload of the selected kind |
| `RefManager.Manager.CanAdoptOnce` | `pkg/yurtappmanager/util/refmanager/ref_manager.go:96-102` | The fresh check, that the stored owner has the same UID and is not being deleted, is made at most once and its answer kept |
| `RefManager.Manager.ClaimObject` | `pkg/yurtappmanager/util/refmanager/ref_manager.go:212-265` | Verdict and store are those of the specification function `Claim`, branch by branch |
| `RefManager.Manager.ClaimOwnedObjects` | `pkg/yurtappmanager/util/refmanager/ref_manager.go:70-94` | The loop claims in list order, collects the claimed and counts the errors |
| `RefManager.ClaimOnCurrentCopy` | `pkg/yurtappmanager/util/refmanager/ref_manager.go:212-265` | On a current copy: claimed exactly if already ours and matching or adoptable, failed exactly if adoption is not allowed; after a claim the owner is the one controller; other objects are unchanged |
| `RefManager.ClaimFailsIff` | `pkg/yurtappmanager/util/refmanager/ref_manager.go:188-265` | For any copy, stale or not: a claim fails exactly if it wants to write and may not or the copy is not current, a vanished object included; it writes exactly if it wants to, may, and the copy is current |
| `RefManager.ReleaseFreesIff` | `pkg/yurtappmanager/util/refmanager/ref_manager.go:188-210` | Releasing leaves no controller exactly if the first reference with the owner's UID is the controller one |
| `RefManager.AdoptionWrites` | `pkg/yurtappmanager/util/refmanager/ref_manager.go:164-186` | An accepted adoption writes one reference, in the place of the first one to the owner's kind and name or at the end; every other reference, the labels and the deletion mark stay |
| `RefManager.ClaimedAreControlled` | `pkg/yurtappmanager/util/refmanager/ref_manager.go:70-94` | Over a current listing, an object is claimed exactly if claiming it alone would, and the claimed ones are controlled by the owner at the end of the loop |
| `RefManager.ErrorsCountFailures` | `pkg/yurtappmanager/util/refmanager/ref_manager.go:70-94` | Over a current listing the number of errors is the number of objects whose claim fails |
| `RefProtocol.StepKeepsInv` | `pkg/yurtappmanager/util/refmanager/ref_manager.go:164-265` | Reads, claims from any copy ever read, creations, edits and deletions keep: one controller at most, and a copy with the stored version is the stored object |
| `RefProtocol.SingleController` | `pkg/yurtappmanager/util/refmanager/ref_manager.go:164-265` | In every interleaving of any number of owners no stored object has two controller references |
| `RefProtocol.OthersUntouched` | `pkg/yurtappmanager/util/refmanager/ref_manager.go:164-265` | No claim adds, changes or removes another owner's controller reference |
| `RefProtocol.StrangersUntouched` | `pkg/yurtappmanager/util/refmanager/ref_manager.go:164-265` | No claim adds, changes, reorders or removes any reference of another owner, controller or not, nor the object's labels or deletion mark |
| `RefProtocol.AcceptedAdoptionControls` | `pkg/yurtappmanager/util/refmanager/ref_manager.go:164-186` | An accepted adoption found the stored object without a controller and left the owner as the only one |
| `AppDaemonController.TaintsToTolerations` | `pkg/yurtappmanager/controller/yurtappdaemon/workloadcontroller/util.go:42-53` | One toleration per taint, in order, with operator `Exists`, the taint's key and effect and no value |
| `AppDaemonController.IsTolerationsAllTaints` | `pkg/yurtappmanager/controller/yurtappdaemon/util.go:29-36` | True exactly if every taint is tolerated by some toleration |
| `AppDaemonController.ApplyTemplate` | `pkg/yurtappmanager/controller/yurtappdaemon/workloadcontroller/deployment_controller.go:59-109` | The written workload passes all three checks of the classification for its pool |
| `AppDaemonController.GetNodePoolToWorkload` | `pkg/yurtappmanager/controller/yurtappdaemon/yurtappdaemon_controller.go:438-462` | One workload per named pool that has one; workloads without a pool are left aside |
| `AppDaemonController.ClassifyWorkloads` | `pkg/yurtappmanager/controller/yurtappdaemon/yurtappdaemon_controller.go:353-395` | The three lists are, without repetition, the vanished pools, the selected pools whose workload does not match, and those without a workload |
| `AppDaemonController.ClassifyPartitions` | `pkg/yurtappmanager/controller/yurtappdaemon/yurtappdaemon_controller.go:353-395` | Every pool name is to be deleted, updated, created or left alone, and only one of them |
| `AppDaemonController.DaemonReconciler.CreateWorkloads` | `pkg/yurtappmanager/controller/yurtappdaemon/yurtappdaemon_controller.go:306-331` | The pools without a workload are tried in order as far as slow start goes with the errors there were; new workloads for tried pools, at most one each, for all if nothing fails |
| `AppDaemonController.DaemonReconciler.DeleteWorkloads` | `pkg/yurtappmanager/controller/yurtappdaemon/yurtappdaemon_controller.go:333-348` | Deletes only the listed workloads of vanished pools, all if nothing fails |
| `AppDaemonController.DaemonReconciler.ManageWorkloadsProvision` | `pkg/yurtappmanager/controller/yurtappdaemon/yurtappdaemon_controller.go:300-351` | Creates, then deletes; an error is returned exactly if a creation erred, other than by a timeout, or a deletion did, with the errors counted at the API |
| `AppDaemonController.DaemonReconciler.UpdateWorkload` | `pkg/yurtappmanager/controller/yurtappdaemon/workloadcontroller/deployment_controller.go:118-140` | The workload is unchanged or rewritten from the template, and rewritten if no error is returned; an error means that a get failed or five updates did |
| `AppDaemonController.DaemonReconciler.UpdateWorkloads` | `pkg/yurtappmanager/controller/yurtappdaemon/yurtappdaemon_controller.go:277-289` | The workloads that do not match are tried in order as far as slow start goes with the errors there were; only tried ones change, all of them if there was no error |
| `AppDaemonController.DaemonReconciler.Reconcile` | `pkg/yurtappmanager/controller/yurtappdaemon/yurtappdaemon_controller.go:255-351` | Whatever each API call does, a run is a `Pass`, the relation that the theorems below are about |
| `AppDaemon.AppliedMatchesIff` | `pkg/yurtappmanager/controller/yurtappdaemon/yurtappdaemon_controller.go:357-374` | A written workload needs no update for later taints exactly if the revision stays and each taint is tolerated by the template or is in the slot of an earlier taint of the pool |
| `AppDaemon.MatchingFits` | `pkg/yurtappmanager/controller/yurtappdaemon/yurtappdaemon_controller.go:357-374` | Any workload that passes the three checks accepts every node that the pool takes over and none of another pool, tolerates every taint of the pool and has the expected revision |
| `AppDaemon.AppliedRequiresNothing` | `pkg/yurtappmanager/controller/yurtappdaemon/workloadcontroller/deployment_controller.go:88-90` | The written workload requires no node affinity; preferred terms and a missing affinity are kept |
| `AppDaemon.FitsOwnedNodes` | `pkg/yurtappmanager/controller/yurtappdaemon/workloadcontroller/deployment_controller.go:98-103` | A written workload's selector accepts every node that the pool takes over, and it tolerates every taint that the pool has or brought: the node pool and the daemon controller fit together |
| `AppDaemonRuns.OnlyPickedOfVanishedGoes` | `pkg/yurtappmanager/controller/yurtappdaemon/yurtappdaemon_controller.go:333-384` | With arbitrary failures only the picked workload of a vanished pool is ever deleted |
| `AppDaemonRuns.CreatesOnlyMissing` | `pkg/yurtappmanager/controller/yurtappdaemon/yurtappdaemon_controller.go:306-392` | With arbitrary failures only selected pools without any workload get a new one, written from the template |
| `AppDaemonRuns.AtMostOneIsKept` | `pkg/yurtappmanager/controller/yurtappdaemon/yurtappdaemon_controller.go:255-395` | At most one workload per pool is kept, whatever fails |
| `AppDaemonRuns.ErrorsBlockUpdates` | `pkg/yurtappmanager/controller/yurtappdaemon/yurtappdaemon_controller.go:267-271` | If a creation errs, other than by a timeout, or a deletion, every workload that survives the reconcile is as it was listed |
| `AppDaemonRuns.VanishedIsGone` | `pkg/yurtappmanager/controller/yurtappdaemon/yurtappdaemon_controller.go:333-348` | If no deletion errs, no picked workload of a vanished pool is left, whatever else fails |
| `AppDaemonRuns.SettledIsQuiet` | `pkg/yurtappmanager/controller/yurtappdaemon/yurtappdaemon_controller.go:255-395` | If classification finds nothing, the reconcile makes no writing call and changes nothing |
| `AppDaemonRuns.CleanPassSettlesIff` | `pkg/yurtappmanager/controller/yurtappdaemon/yurtappdaemon_controller.go:255-395` | After a reconcile without failures classification finds nothing, however the workloads are listed, exactly if the workloads that were not picked matched already; with at most one per pool it always finds nothing |
| `AppDaemonRuns.NeverTwo` | `pkg/yurtappmanager/controller/yurtappdaemon/yurtappdaemon_controller.go:255-395` | Over every run with changing templates, pools, taints and failures: never two workloads for a pool |
| `AppDaemonRuns.DuplicatesStay` | `pkg/yurtappmanager/controller/yurtappdaemon/yurtappdaemon_controller.go:449-452` | Over every run, a workload of a pool that stays selected is never removed, so a duplicate is never cleaned up |
| `Affinity.PodSpec.AttachNodeAffinity` | `pkg/yurtappmanager/controller/yurtappset/adapter/adapter_util.go:47-74` | The nested loops extend every term, or one empty term if there are none, by all expressions in order; the rest of the affinity is unchanged |
| `Affinity.AttachedTerms` | `pkg/yurtappmanager/controller/yurtappset/adapter/adapter_util.go:47-74` | For every template affinity: each of its terms keeps its requirements and gets the pool's behind them, or there is one term with the pool's alone; preferred terms and affinity to pods are those of the template |
| `Affinity.AttachedAcceptsIff` | `pkg/yurtappmanager/controller/yurtappset/adapter/adapter_util.go:47-74` | For every template affinity and node: what the attached selector accepts, in terms of the template's own required terms |
| `Affinity.PodSpec.AttachTolerations` | `pkg/yurtappmanager/controller/yurtappset/adapter/adapter_util.go:76-91` | The pool's tolerations are appended in order |
| `Affinity.RewrittenAcceptsIff` | `pkg/yurtappmanager/controller/yurtappset/adapter/adapter_util.go:47-74` | What the rewritten selector accepts, for every template, pool and node |
| `Affinity.ConjoinsAtIff` | `pkg/yurtappmanager/controller/yurtappset/adapter/adapter_util.go:47-74` | The same for one node, with any meaning of the operators: it goes wrong exactly without expressions on a template without required affinity, and with them on a node that meets them and that a template with an empty term or an empty list refuses |
| `Affinity.ConjoinsIff` | `pkg/yurtappmanager/controller/yurtappset/adapter/adapter_util.go:47-74` | The rewritten selector accepts exactly what the original one and the pool's expressions accept, whatever requirements a node meets, if and only if: without expressions, the template has a required affinity; with expressions, the term list is absent or is non-empty without empty terms, or some term asks only for expressions of the pool |
| `Affinity.AttachedToleratesIff` | `pkg/yurtappmanager/controller/yurtappset/adapter/adapter_util.go:76-91` | A list of taints is tolerated after attaching exactly if each was tolerated by the template or by the pool |

## Left out

- NodePoolController.NodePoolReconciler.Reconcile: its two node lists and all writes are one undisturbed step without failing calls; interleaved writes, rejected updates, failures and restarts are the step system of `WakeUp`.
- WakeUp.NoLostWakeUp: workers read the pool and both node lists in one moment; a cache that lags behind its own events is not modelled.
- WakeUp.NoLostWakeUp: a failed or rejected write is taken to put the pool back into the queue, as the controller framework does; delays and rate limits are not modelled.
- WorkerRuns.RestIsHome: workers that read before the last edit may still write an outdated spec; where they do, only termination is stated.
- Revisions.HistoryController.ConstructRevisions: API errors other than a failing delete (an aborted trim) are left out, as is the selector by which histories are listed.
- Revisions.HistoryController.CreateControllerRevision: the collision count is unbounded; the wrap-around of 32 bits is left out.
- AppSetController.PoolReconciler.GetAllPools: the store holds the workloads that the YurtAppSet controls; claiming and adopting them is `RefManager`, and a failing list call is left out.
- AppSetController.PoolReconciler.Reconcile: concurrent changes during one reconcile and lagging caches are left out; between reconciles contents may drift.
- AppSetController.PoolReconciler.CreatePools: calls of one batch run one after the other in any order; truly parallel calls on different objects give the same stores.
- AppDaemonController.DaemonReconciler.Reconcile: a failing list of node pools, which the code turns into an empty map, is left out.
- AppDaemon.AppliedMatchesIff: only node selector, tolerations and revision are compared, as in the code; changes of other template fields show as a new revision.
- Affinity.ConjoinsIff: requirements are not interpreted, so the "only if" half ranges over all ways to meet them, not only those that some labels give; `Affinity.ConjoinsAtIff` is exact for each real node.
- RefManager.Manager.ClaimObject: a manager without a schema and failing conversions are left out.
- SlowStart.SlowStartBatch: which error of a failing batch is returned depends on timing in the code; the model returns the first of any order.
- `pkg/yurtappmanager/controller/uniteddeployment`: the same logic as the YurtAppSet's; a nil history limit counts as 0 there.
- YurtIngress reconciling and the YAML helpers: mostly input and output, with counters that are not kept equal to their lists.
- The StatefulSet adapter: the same steps as the Deployment adapter for everything modelled here.
- Status of a YurtAppSet and conditions: sums and field copying; an unchanged status is written all the same because pointers are compared.
- History limits below one: numbering starts over when the retained list is empty.
- 32-bit replica sums, timestamps in taints, label selector parsing, strategic merge patches, hashing and name validation: library matters, replaced by parameters or values.
- v1beta1 conversion, defaulting, stuck pods, manager setup, event recording and logging: field copying, unused or plumbing.
