# klusterOne: the rollout engine, its reconcile protocol and its data paths, verified

klusterOne runs a plan of actions (`Cordon`, `Drain`, `Script`, `Uncordon`) over
a set of Kubernetes nodes, a bounded number at a time. This project models in
Dafny the parts of it that carry the risk, and proves what they keep:

- **The rollout engine** (`Orchestrator`, `Rollout`, `Makespan`, `Schedule`).
  `Step` is a class method that works in place on the status of a
  `NodeMaintenance` and calls the cluster: `initStatus`, `admit`, `runActions`
  with `advanceNode`, `rollup`, with the loops of the program. Each method is
  proved equal to a specification function, and the theorems are about those
  functions: the budget, exact rollup, the makespan, independence of the
  schedule. The cluster answers adversarially: every registry lookup, node read
  and `Execute` may fail.
- **The reconcile protocol** (`Reconcile`, `Protocol`, `Progress`, `Liveness`,
  `Envelope`).
  A versioned store, a cached read that may lag, spec edits at any time, status
  writes that conflict, get lost or are stored unacknowledged, and passes that
  crash half-way. `Reconciler.Reconcile` is proved to be one transition of that
  system; the theorems hold over every history of transitions.
- **The polling loops** (`Drain`, `ScriptAction`, `ScriptRuns`): the drain loop
  with the diagnostics it carries from pass to pass, the wait for a runner pod,
  and the life of that pod across calls of the Script action and deletions by
  anyone else, up to how often a whole run can launch a script on a node.
- **The data paths** (`Base64`, `Copy`, `Create`, `Targets`, `MergePatch`,
  `ConfigMaps`): push and pull of a file, the "Targets" column against the flags
  that parse it, the merge patches of attach, pause and run, and the ConfigMaps
  the controller writes. `Strings`, `Requests` and `Api` hold the shared
  vocabulary.

`dafny verify dfyconfig.toml` checks the whole project.

How to read the protocol theorems: `After(registry, Initial(spec), events)` is
the state after an arbitrary history of edits, cache refreshes and passes. `Base`,
`StutterInv`, `PlanInv`, `BudgetInv` and `EnvelopeInv` are inductive invariants:
they hold of a freshly created object and every event keeps them, so a lemma that
requires one speaks about every reachable state. "Seen" is what the cache shows,
"Latest" what is stored. A node is identified by its position in the status list;
names are assumed distinct only where the cluster's own flags are concerned.

Where the code and its comments or documentation differ, the code is followed:

- `docs/reconcile-flow.md:461-464` says the run phase is set only in `rollup`.
  `initStatus` also sets it (`internal/orchestrator/orchestrator.go:142`, `:151`).
- `docs/reconcile-flow.md:468-470` counts `len(plan) * ceil(N/maxUnavailable)`
  reconciles from R#1. The first pass only seeds, so a run takes exactly one more
  (`Liveness.RunTerminatesExactly`), and an empty plan still takes one Step per
  batch.
- `api/v1alpha1/nodemaintenance_types.go:145-146` describes the budget as covering
  any non-terminal phase. `admit` counts `InProgress` only, and a Failed node
  releases its slot.
- `docs/reconcile-flow.md:448-452` counts `Script` as idempotent because it reuses
  its runner pod by name. It does so while that pod exists: a call launches the
  script exactly when every earlier launch's pod has been deleted, by the action
  after the script finished or by anyone else
  (`ScriptAction.LaunchesIffAllDeleted`, `ScriptAction.SecondCallLaunches`), which a
  call that succeeded or failed does itself unless pods are kept.
- `docs/reconcile-flow.md:471-481` says a pause blocks the next action. It does so
  exactly when no version the informer cache can still show is one an action can
  run on (`Liveness.PauseFence`); `Liveness.ActsAfterPause` is a run that acts
  after its pause is stored.
- Two facts about the CLI: `extractPayload` panics on logs whose two sentinels
  share dashes (`Copy.PanicsExactly`; pull output never does, by
  `Copy.ExtractCaptured`), and `create` and `push` read `--nodes` together with
  `--selector` differently (`Create.SelectionsAgree`, `Create.SelectionsDiffer`).

## Model

| member | source | states |
|---|---|---|
| Orchestrator.Orchestrator.ResolveNodes | internal/orchestrator/orchestrator.go:164-190 | AllNodes wins over NodeNames wins over NodeSelector; the result is sorted and has exactly the listed, or named, nodes with their multiplicities; an error iff a list was needed and failed |
| Api.PlanChosen | internal/orchestrator/orchestrator.go:108-123 | explicit actions are the plan, with a script or without; a script alone becomes Cordon, Script, Uncordon; neither, the empty plan |
| Orchestrator.Orchestrator.InitStatus | internal/orchestrator/orchestrator.go:128-160 | seeds an empty status in place and touches no other: one Pending node for each target with its multiplicity, in sorted order, or a Completed run when there is none; a failed list only stamps the Targets text |
| Orchestrator.Orchestrator.AppendPending | internal/orchestrator/orchestrator.go:149-158 | the seeding loop appends one Pending record per name, in order |
| Orchestrator.Orchestrator.Init | internal/orchestrator/orchestrator.go:48-57 | seeding, with every target, followed by a rollup; nothing when already seeded |
| Orchestrator.Orchestrator.Admit | internal/orchestrator/orchestrator.go:195-218 | the counting loop with early return promotes exactly the Pending nodes that a slot is left for, in list order (the closed form `Promoted`) |
| Orchestrator.FullBudgetStopsAdmission | internal/orchestrator/orchestrator.go:206-209 | returning early at a full budget skips no node that would have been promoted |
| Orchestrator.Orchestrator.AdvanceNode | internal/orchestrator/orchestrator.go:247-287 | one plan entry of one node, in place: the new record, the one call made if any, and that an error is returned exactly when the node ends Failed |
| Rollout.AdvanceRecords | internal/orchestrator/orchestrator.go:251-295 | the record after a turn: a call that went through is appended and clears the message; any other ending fails the node with its cause and the action it stopped in; a Completed node shows no action |
| Orchestrator.Orchestrator.FailNode | internal/orchestrator/orchestrator.go:289-295 | only phase and message of that node change |
| Orchestrator.Orchestrator.RunActions | internal/orchestrator/orchestrator.go:232-244 | every in-flight node is advanced once against its own answers, whatever fails before it, and the calls are made in list order |
| Orchestrator.Orchestrator.Rollup | internal/orchestrator/orchestrator.go:301-337 | publishes the per-phase counts and the run phase; returns whether the run is done |
| Orchestrator.Orchestrator.Step | internal/orchestrator/orchestrator.go:67-106 | the composition of the four stages, the calls it makes, a requeue exactly while the run is not terminal; when it fails it only stamps the Targets text |
| Rollout.AdmitFillsBudget | internal/orchestrator/orchestrator.go:195-228 | for any statuses and any budget, so after any edit of the strategy: in flight becomes max(old, min(budget, old + Pending)), and the budget is filled or nothing is Pending |
| Rollout.AdmitByStrategy | internal/orchestrator/orchestrator.go:195-228 | AtOnce leaves no node Pending; otherwise MaxUnavailable nodes are in flight, one when it is not positive |
| Rollout.BudgetInsideStep | internal/orchestrator/orchestrator.go:195-244 | at no point inside the admit or runActions loop are more nodes in flight than max(before, budget) |
| Rollout.RollupExact | internal/orchestrator/orchestrator.go:301-337 | the four counts partition the node list; Completed iff all nodes are, Failed iff all are terminal and one Failed, InProgress otherwise; "done" iff terminal |
| Rollout.SummaryCounts | internal/orchestrator/orchestrator.go:301-316 | each published count is the number of positions in its phase |
| Rollout.AdvancedShape | internal/orchestrator/orchestrator.go:67-106 | a Step under any spec keeps the status shape (exact rollup, Pending a suffix without progress, names sorted) and only moves every node forward; a terminal run does not change |
| Rollout.AdvancedOnPlan | internal/orchestrator/orchestrator.go:246-287 | under a fixed plan completed actions stay a prefix of it: empty while Pending, whole when Completed, proper when in flight or Failed |
| Rollout.SeededShape | internal/orchestrator/orchestrator.go:128-160 | seeding succeeds iff the targets resolve, and leaves exactly the sorted targets as Pending nodes, or a finished run when there is no target |
| Makespan.OneRound | internal/orchestrator/orchestrator.go:195-287 | with the first k nodes done, max(1, L) Steps finish another budget's worth of nodes, whatever fails |
| Makespan.MakespanBound | docs/reconcile-flow.md:468-470 | any seeded run of N nodes is terminal after max(1, L) * ceil(N / budget) Steps, whatever the cluster answers, and stays so |
| Makespan.LockstepRun | internal/orchestrator/orchestrator.go:195-287 | when nothing fails, the exact state after every number of Steps: which nodes are done and how far the current batch is |
| Makespan.MakespanExact | docs/reconcile-flow.md:468-470 | when nothing fails, a fresh run is terminal if and only if at least max(1, L) * ceil(N / budget) Steps were made, and then Completed |
| Schedule.SoloOutcome | internal/orchestrator/orchestrator.go:247-295 | driven alone, a node completes the plan exactly up to its first failing entry, and is Completed iff there is none |
| Schedule.ScheduleIndependence | internal/orchestrator/orchestrator.go:192-244 | when answers depend only on node and plan index, any two strategies (any MaxUnavailable, or AtOnce) end in the same status |
| Schedule.FailureIsolation | internal/orchestrator/orchestrator.go:230-244 | when answers depend only on node and plan index, two runs of the same length, at least the makespan bound, that agree on the answers for one node end with the same record for that node, whatever happens to the others |
| Actions.Cluster.CordonNode | internal/actions/cordon.go:21-36 | no request when already unschedulable; otherwise the flag is set unless refused, and success is an acknowledged patch |
| Actions.Cluster.UncordonNode | internal/actions/uncordon.go:21-36 | the mirror image, clearing the flag |
| Actions.Cluster.Execute | internal/actions/action.go:26-38 | logs the call, keeps the flags equal to what the log of calls leaves behind, and succeeds iff its request was acknowledged, or it was a Cordon or Uncordon with nothing to do |
| Reconcile.ApiServer.UpdateStatus | internal/controller/nodemaintenance_controller.go:155-161 | optimistic concurrency: only a write based on the latest version is stored, only its status is taken, and the caller may be told of a failure although it was stored |
| Reconcile.Reconciler.SetupWithManager | internal/controller/nodemaintenance_controller.go:193-200 | the requeue interval is positive afterwards, 10 s when unset |
| Reconcile.Reconciler.PausedRequeue | internal/controller/nodemaintenance_controller.go:185-190 | always a positive delay: the configured one, or 15 s |
| Reconcile.Reconciler.SeedPass | internal/controller/nodemaintenance_controller.go:114-130 | the seeding pass is a transition of the protocol that runs no action; the exact result: after the interval when listing failed, an error when a current write failed, at once otherwise |
| Reconcile.Reconciler.StepPass | internal/controller/nodemaintenance_controller.go:152-182 | one Step, persisted: a transition of the protocol; the exact result: at once on a conflict, an error on a failed write, silence iff the acknowledged status is terminal, after the interval otherwise |
| Reconcile.Reconciler.Reconcile | internal/controller/nodemaintenance_controller.go:96-183 | every pass is the Pass transition of the protocol, and its result is exact in every case: silent iff the status read is terminal or the acknowledged one its Step stored is; a paused run is left untouched until the paused delay; conflicts, failed writes, failed listings and seeding each come back in their own way |
| Protocol.InitStatusIsNoOp | internal/orchestrator/orchestrator.go:128-131 | whenever a pass over a well-shaped status reaches Step, Step's own initStatus has nothing to do |
| Protocol.ReachableVersions | internal/orchestrator/orchestrator.go:128-295 | over every history, every stored version has exact rollup, Pending a suffix, sorted names; and from version to version the name list is frozen, phases only move forward, progress is kept, terminal nodes and runs never change |
| Protocol.PassIndices | internal/orchestrator/orchestrator.go:230-244 | a pass, even one that crashes half-way, runs at most one action on a node, the one at the progress it read |
| Protocol.WriteProgress | internal/orchestrator/orchestrator.go:247-287 | the status a pass writes moves a node by one exactly when the call made there succeeded, and shows a failed call as Failed |
| Protocol.LinkExtends | internal/controller/nodemaintenance_controller.go:99-161 | the numeric heart of replay: how the indices run so far stay tied to the progress seen and the progress stored |
| Protocol.StutteringExecutions | docs/reconcile-flow.md:448-452 | from any state satisfying the invariant: despite conflicts, lost writes, stale reads, crashes and edits, the indices run on a node start at 0, never decrease and rise by at most one |
| Protocol.EveryRunStutters | docs/reconcile-flow.md:448-452 | the same for every history from the creation of the object |
| Protocol.CleanRunsExactlyOnce | internal/controller/nodemaintenance_controller.go:99-161 | with no stale read, lost write or crash, what ran on a node is exactly 0, 1, ..., n - 1, once each, n being its stored progress plus one if the last call failed |
| Protocol.AccountExtends | internal/controller/nodemaintenance_controller.go:152-161 | the numeric step of the next row: what a clean pass executes is accounted for by its write, anything else by the pass itself |
| Protocol.RepeatsPaidFor | internal/controller/nodemaintenance_controller.go:152-161 | over every history, the executions on a node are at most its stored progress, one failed call, and one for each pass that read stale, lost its write or crashed; so every repetition of an index is paid for by such a pass |
| Protocol.ProgressOnPlan | internal/orchestrator/orchestrator.go:247-287 | under a fixed plan, in every stored version of every history, progress is a prefix of the plan and what ran at index k was its k-th entry |
| Protocol.DisturbedWithinBudget | internal/orchestrator/orchestrator.go:195-228 | in any state satisfying the invariants, the nodes touched but not recorded terminal number at most the budget |
| Protocol.ClusterBudget | internal/controller/nodemaintenance_controller.go:152-161 | for a fixed strategy that holds over every history, with writes lost after their actions ran: replayed admission picks the same nodes |
| Progress.ProgressIsEarned | internal/orchestrator/orchestrator.go:273-278 | over every history, an action stored as completed is one whose Execute call on that node, at that index, went through; in particular a completed Drain or Script was acknowledged |
| Progress.NothingRunsBeyond | docs/reconcile-flow.md:457-460 | over every history no call on a node is beyond its stored progress, so on a Failed node nothing after the failed action ever ran |
| Progress.CompletedRanItsActions | internal/orchestrator/orchestrator.go:111-123 | for a spec that lists its actions, whatever script it carries, a clean history runs exactly these, in order, on a node that ends Completed |
| Progress.CompletedRanItsScript | internal/orchestrator/orchestrator.go:111-123 | for a script alone it runs exactly Cordon, Script, Uncordon |
| Progress.CompletedEarnedItsActions | internal/orchestrator/orchestrator.go:247-287 | with losses and crashes too, each of the listed actions has gone through on such a node |
| Progress.RunCoversItsTargets | internal/orchestrator/orchestrator.go:128-177 | over every history, a run that has started has exactly the targets of one of the specs it has had, each as often as listed or named, and is without nodes only if that has no targets |
| Liveness.StoredStatusNext | internal/controller/nodemaintenance_controller.go:104-182 | once seeded, paused, stale, lost and crashed passes leave the stored status alone, and every other pass is exactly one Step |
| Liveness.StutterErasure | internal/controller/nodemaintenance_controller.go:104-182 | the stored status of any history is the fold of Step over its productive passes |
| Liveness.UnseededNext | internal/controller/nodemaintenance_controller.go:114-130 | before seeding, a productive pass stores Pending nodes or finishes the run, and no other pass changes anything |
| Liveness.FirstProductiveSeeds | internal/controller/nodemaintenance_controller.go:114-130 | what that pass stores is exactly the sorted targets with their multiplicities, all Pending, or a Completed run when there is none |
| Liveness.RunTerminates | internal/controller/nodemaintenance_controller.go:104-182 | from creation, a run reaches a terminal phase within 1 + max(1, L) * ceil(N / budget) passes plus the number of wasted ones |
| Liveness.RunTerminatesExactly | docs/reconcile-flow.md:468-470 | when nothing fails, a run over N targets is terminal if and only if at least 1 + max(1, L) * ceil(N / budget) passes were made that are not wasted, and a run without targets from the first such pass on |
| Liveness.PassRunsExactly | internal/controller/nodemaintenance_controller.go:147-152 | a complete pass calls an action iff the object it read is stepping and its answers let some admitted node's next entry run |
| Liveness.StalePassRuns | internal/controller/nodemaintenance_controller.go:99-152 | a pass goes by the version it reads: if actions can run on that one they do, whatever is stored by then |
| Liveness.PausedStatusStays | internal/controller/nodemaintenance_controller.go:147-161 | from the moment a pause is stored, the status of a seeded run does not move, whatever a lagging cache lets through |
| Liveness.PauseFence | internal/controller/nodemaintenance_controller.go:147-150 | once a pause is stored, no history that keeps it runs an action if and only if no version the cache can still show is one an action can run on |
| Liveness.ActsAfterPause | internal/controller/nodemaintenance_controller.go:147-150 | a concrete run whose first action starts after its pause was stored |
| Envelope.TruthfulAnswersExist | internal/orchestrator/orchestrator.go:265-273 | the assumption of the envelope theorems can be met at every pass, however its requests end: answers showing each node's true flag exist |
| Envelope.PassFlag | internal/actions/cordon.go:28-35 | with distinct names, a pass changes a node's flag only by its own call, on the flag the earlier calls left |
| Envelope.FlagFactsKept | internal/actions/uncordon.go:28-35 | replay included, a node is unschedulable once past Cordon and until Uncordon runs, and schedulable when Completed |
| Envelope.TruthfulLogAfter | internal/orchestrator/orchestrator.go:265-273 | over a whole history without outside patches, every call was made on a node fetched with the flag the calls before it left |
| Envelope.CordonEnvelope | docs/architecture.md:160-165 | for plans with Cordon first, Uncordon last and neither in between, over every history without outside patches: whenever Drain or Script runs its node is unschedulable, a node failed in between stays unschedulable, a Completed node is schedulable, non-targets are untouched |
| Envelope.CordonEnvelopeBounded | docs/architecture.md:160-165 | with the strategy fixed too, at most budget + Failed initially schedulable targets are cordoned, and targets admission has not reached are untouched |
| Drain.PodsToEvict | internal/actions/drain.go:156-179 | a list error is passed on; otherwise the loop keeps exactly the listed pods that are not mirror, ignored DaemonSet or finished pods, in order |
| Drain.EvictableExactly | internal/actions/drain.go:165-177 | a pod is to be evicted iff it is listed and passes every filter |
| Drain.EvictablePositions | internal/actions/drain.go:165-178 | the pods kept are those at increasing positions of the list, exactly the ones that pass |
| Drain.Evict | internal/actions/drain.go:187-208 | NotFound and transient failures are swallowed, 429 means blocked, anything else is an error |
| Drain.SweepPods | internal/actions/drain.go:104-116 | one pass's requests: deleting pods are skipped, the first hard error stops the pass, blocked names are collected in order |
| Drain.RequestsExactly | internal/actions/drain.go:98-116 | every pass asks for exactly the listed pods that are wanted, in list order, up to and including the first answered by a hard error, and fails iff there is one, with that pod |
| Drain.BlockedExactly | internal/actions/drain.go:104-116 | the blocked names are those of the requests answered 429, in order |
| Drain.OnePass | internal/actions/drain.go:79-127 | one turn of the loop: whatever diagnostics were carried in, the ending depends on this pass only, and no stale count, blocked list or list error reaches the result |
| Drain.FirstOutcomeMeans | internal/actions/drain.go:78-132 | "no outcome among the first n passes" means that none of them ends the drain |
| Drain.Execute | internal/actions/drain.go:47-132 | the result is the outcome of the first pass that has one, the requests are those of the passes made, in order, and there are at most timeout / poll + 2 passes |
| Drain.DrainedExactly | internal/actions/drain.go:81-86 | success iff this pass listed successfully and nothing evictable was listed |
| Drain.EndsForAReason | internal/actions/drain.go:78-132 | transient errors alone never end a drain before its deadline: each ending has its own cause |
| Drain.ContinuesExactly | internal/actions/drain.go:78-131 | a drain goes on after a pass iff it was neither late nor cancelled and either its list failed transiently or it found pods and met no hard error |
| Drain.TimeoutBlame | internal/actions/drain.go:134-143 | a timeout blames listing iff the last list failed; otherwise it carries exactly the last pass's pod count and the pods refused with 429 |
| Drain.EvictionsLegitimate | internal/actions/drain.go:98-116 | every request ever made is for a pod that pass listed: no mirror, finished, ignored DaemonSet or already deleting pod |
| Drain.EvictedAtMostOnce | internal/actions/drain.go:98-116 | when eviction marks a pod deleting, no pod is evicted successfully twice |
| Drain.WaitForPod | internal/actions/script.go:503-523 | ends with the outcome of the first pass that has one, gives up on any read error, at most timeout / poll + 2 passes |
| Drain.WaitEndsExactly | internal/actions/script.go:506-521 | a pass ends the wait at a pod that succeeded or failed, at any read error, late or cancelled, and iff so |
| ScriptAction.Script.EnsurePod | internal/actions/script.go:317-335 | success means there is a pod, launched now iff there was none; failure leaves at most an unacknowledged launch behind |
| ScriptAction.Script.CollectPod | internal/actions/script.go:549-557 | the pod survives iff it is to be kept or the delete has no effect; nothing is launched |
| ScriptAction.Script.Execute | internal/actions/script.go:77-155 | the whole control flow: what is left of the pod, also when a read shows it deleted by someone else, how often it was launched; success iff there is a script, it could be prepared, there is a pod, it succeeded, and any capture did; it waits at most its own pass bound |
| ScriptAction.LaunchesConserved | internal/actions/script.go:313-335 | over any sequence of calls and deletions by others: launches plus the pod at the start equal the launches before plus deletions, by the action and by others, plus the pod at the end; no call launches twice; with kept pods and no outside deletion a script is launched at most once |
| ScriptRuns.CallsWithinRun | docs/reconcile-flow.md:448-452 | over every history that keeps the plan, Script runs on a node at most once per Script entry and once more for each pass that read stale, lost its write or crashed |
| ScriptRuns.LaunchesWithinRun | docs/reconcile-flow.md:448-452 | over such a history, whatever happens to the pod: launches are at most the Script calls, bounded in the same way, at most the Script entries when every pass was clean, and at most one more than the pod's deletions; if every call gets at a pod they equal the calls iff each call starts with the earlier pods deleted |
| ScriptAction.LaunchesIffAllDeleted | docs/reconcile-flow.md:448-452 | after any sequence of calls and deletions by others, a call whose create is not refused launches the script iff the deletions so far are as many as the launches |
| ScriptAction.SecondCallLaunches | docs/reconcile-flow.md:448-452 | of two calls in a row, after anything and with any deletions by others between them, the second launches again iff someone deleted the pod between them, or the first found it gone, or the first finished, with success or not, and deleted it |
| ScriptAction.SucceededTwice | docs/reconcile-flow.md:448-452 | such a case: one successful call made twice, two launches |
| ScriptAction.OneLaunchEach | internal/actions/script.go:317-335 | calls that get at a pod launch one script each iff every one of them starts with the earlier pods deleted |
| ScriptAction.SucceededWithoutLaunch | internal/actions/script.go:322-324 | a case where they do not: with kept pods, a second call finds the finished pod and succeeds without a launch |
| Base64.RoundTrip | internal/cli/copy.go:99 | decoding undoes encoding for every byte string, also with a newline appended (section 4 of RFC 4648) |
| Base64.SymbolsInOrder | internal/cli/copy.go:99 | the alphabet is table 1 of RFC 4648 |
| Base64.TestVectors | internal/cli/copy.go:99 | the one-group test vectors of section 10 of RFC 4648 |
| Copy.NoEarlierEnd | internal/cli/copy.go:360-373 | in pull output the end sentinel starts nowhere before its place, for any file |
| Copy.CapturedEnd | internal/actions/script.go:168-181 | a byte-limited prefix of the logs holds the end sentinel first at its place or not at all, whatever else is printed before (without a sentinel) and after |
| Copy.ExtractCaptured | internal/cli/copy.go:423-432 | on such logs extraction gives exactly the base64 text, or an error, and never panics |
| Copy.PullExact | internal/cli/copy.go:209-216 | a pull never yields a truncated or altered file: for every file, byte limit, other output before (without a sentinel) and other output after, it gives the file iff the end sentinel fits, and an error otherwise |
| Copy.PullableSize | internal/actions/script.go:40-43 | with the capture limit of 1000 KiB and nothing else printed, exactly the files of at most 767970 bytes can be pulled |
| Copy.PanicsExactly | internal/cli/copy.go:423-432 | on arbitrary logs extraction panics iff the end sentinel starts in the last three bytes of the begin sentinel |
| Copy.PanicsOnOverlap | internal/cli/copy.go:430 | such logs exist |
| Copy.PushRoundTrip | internal/cli/copy.go:345-358 | for every file the here-document ends at its intended terminator, its body decodes to the file, and the shell goes on with the rest of the script |
| Copy.PushLimit | internal/cli/copy.go:99-103 | the check on the encoded size accepts exactly the files of at most maxCopyBytes * 3 / 4 bytes |
| Targets.SummarizeTargets | api/v1alpha1/nodemaintenance_types.go:274-301 | the text does not depend on the order in which the selector map is ranged over; "all" for AllNodes, empty without targets, at most 62 bytes |
| Targets.TruncationKeeps | api/v1alpha1/nodemaintenance_types.go:296-301 | text that fits is kept, longer text keeps its first n - 1 bytes and is marked as cut |
| Targets.SortedKeysUnique | api/v1alpha1/nodemaintenance_types.go:282-286 | sorting any enumeration of the keys gives the same list |
| Create.ParseSelector | internal/cli/create.go:217-231 | the loop computes the fold over the pieces: trimmed, later keys win, pieces without a key ignored |
| Create.SelectorConcat | internal/cli/create.go:217-231 | a comma separates selectors, and of two values for a key the later wins |
| Create.OneSelector | internal/cli/create.go:224-228 | a piece with a key is cut at its first `=`, without the spaces around key and value |
| Create.NoSelector | internal/cli/create.go:220-227 | a piece that is blank, has no `=`, or no key, is ignored |
| Create.ParseNames | internal/cli/create.go:174-179 | the trimmed non-empty pieces, in order |
| Create.NamesConcat | internal/cli/create.go:174-179 | a comma separates lists of names |
| Create.OneName | internal/cli/create.go:175-178 | a piece is one name without the spaces around it, or none if blank |
| Create.SelectorRoundTrip | internal/cli/create.go:217-231 | parsing a printed selector gives back the map, for all label-syntax keys and values |
| Create.NamesRoundTrip | internal/cli/create.go:173-180 | splitting a printed name list gives back the list |
| Create.TargetsColumnRoundTrip | api/v1alpha1/nodemaintenance_types.go:269-301 | an untruncated "Targets" column, fed back to the flag it names, gives back the selection |
| Create.BuildTargets | internal/cli/create.go:172-184 | --all-nodes excludes the rest; names and selector are never both set, and names are set iff --nodes holds one |
| Create.SelectionsAgree | internal/cli/copy.go:311-322 | create and push read the same flags alike iff none of the listed differences applies: --nodes given, holding no name, while --selector selects something |
| Create.SelectionsDiffer | internal/cli/copy.go:311-322 | such flags: `--nodes "," --selector "a=b"` selects a=b in create and nothing in push |
| Create.BuildPlan | internal/cli/create.go:186-198 | the plan has each requested action once, Drain before Script, and is a cordon envelope iff both cordon flags are on |
| Create.DefaultPlanEnveloped | internal/orchestrator/orchestrator.go:108-123 | the synthesised default plan is a cordon envelope |
| MergePatch.CompatibleCommute | internal/cli/attach_run.go:107-115 | two merge patches (section 2 of RFC 7396) that meet only in objects commute on every document |
| MergePatch.UnnamedPreserved | internal/cli/attach_run.go:266-281 | a merge patch preserves every path it does not name |
| MergePatch.AttachCommutesWithPause | internal/cli/attach_run.go:107-124 | attach and any pause or run patch can be applied in either order, on any document |
| MergePatch.Store.Attach | internal/cli/attach_run.go:107-124 | afterwards the script body is the one sent, and pause state and reason are as before |
| MergePatch.ReasonReadable | internal/cli/attach_run.go:245-246 | a reason that is set reads back iff every other annotation was a string before |
| MergePatch.Store.SetPaused | internal/cli/attach_run.go:236-302 | patches iff the object is not as wanted; a patch sets the flag and sets or removes the reason; afterwards the object is as wanted, unless a reason was set on one with another annotation that is not a string |
| MergePatch.Store.SetPausedTwice | internal/cli/attach_run.go:233-235 | a repeated call issues a second patch iff the first one set a reason on an object with another annotation that is not a string; never when all annotations are strings |
| MergePatch.ReasonNotReadBack | internal/cli/attach_run.go:245-246 | such an object; the API server stores annotations as strings only, so it is outside what the server holds, and every stored object falls under the last case of the row above |
| MergePatch.Store.Run | internal/cli/attach_run.go:189-195 | goes ahead iff spec.script.inline is a non-empty string, and leaves other objects alone; afterwards the object is not paused, has no reason, and keeps its script |
| ConfigMaps.Namespace.Upsert | internal/actions/script.go:261-311 | create or update: success means exactly one sync of that name and no other change, an error means one sync or none |
| ConfigMaps.OwnersConverge | internal/actions/script.go:285-306 | over any sequence of calls earlier owner references survive as a prefix, and each UID's count is what it was, raised to one if a call brought it |
| ConfigMaps.LatestContentWins | internal/actions/script.go:203-223 | label and content equal those of the latest call, for scripts and for captured output |
| ConfigMaps.OtherSectionKept | internal/actions/script.go:209-210 | a call replaces the section it writes and leaves the other one |
| ConfigMaps.RepeatedCallIsNoOp | internal/actions/script.go:247-248 | the same call twice changes nothing the second time |

## Left out

- Kubernetes clients, informers, watch streams, RBAC and admission: the store, the cached read and the cluster's answers stand for them.
- Deletion of a NodeMaintenance (the NotFound branch of the cached read) and a failing cached read, which only returns its error.
- Reconcile.Reconciler.Reconcile: does not make the non-fatal EnsureScriptConfigMap call of `internal/controller/nodemaintenance_controller.go:141-145`, because its result is ignored; `ConfigMaps` models what it writes.
- Orchestrator.Orchestrator.AdvanceNode: keeps a failure's cause as a value and no message text, because Script's pod name, exit code and log tail are telemetry that no decision reads.
- Timestamps are kept as set or unset; LastTransitionTime is not part of this model.
- Orchestrator.Orchestrator.ResolveNodes: takes the answer of the node list as an input, because matching labels is the API server's work.
- The registry is the set of kinds it knows; overwriting one registration by another is not part of this model.
- Actions.Cluster.Execute: reduces Drain and Script to their verdict, because the engine reads no more of them; `Drain` and `ScriptAction` model their control flow on their own, with Drain's options given beside the plan.
- Drain.Execute: does not model int64 overflow of durations, and takes whether the context is cancelled during a wait as an input, because that choice is the runtime's; a pod's name stands for namespace and name.
- Drain.WaitForPod: is given its timeout and poll interval by the caller, as in the program; `waitForNMCompletion` is the same loop with a fixed one-second poll and is not repeated.
- ScriptAction.Script.EnsurePod: does not model another process creating the pod between the read and the create, which ends in a second read.
- The runner pod's own specification, image defaults, nsenter and the derivation of its name.
- int32 overflow of counts and MaxUnavailable.
- Create.TargetsColumnRoundTrip: says nothing of truncated columns, because the text that was cut cannot be recovered; columns are measured in bytes, as `len` does.
- Create.ParseSelector: trims ASCII white space only; the other Unicode spaces that TrimSpace knows cannot occur in label syntax.
- Copy.PushRoundTrip: takes the quoted destination and the mode as given text, because `%q` quoting against shell quoting is a matter of shell semantics.
- Error lines printed between the two sentinels: the model has other output only before and after them.
- Copy.PullOutput models what `echo` and `base64 -w0` print; a missing file, which ends the script early, is the NoSentinels case.
- Several targets of one pull writing the same output ConfigMap: the latest capture wins (`ConfigMaps.LatestContentWins`), and no claim is made which node that is.
- MergePatch.Store.SetPaused: does not model a patch request that fails, which changes nothing and returns its error, nor the API server's own validation of annotations.
- Flag parsing, printing, YAML, file reads and writes, `RunStatus`, `RunLogs` and `argparse.go`: user interface.
