# Verified model of the workflow server

The server runs tasks. A task is a row of nodes in `sort_order`; agents, humans and background jobs
move the nodes through pending, in progress, completed, rejected and manual intervention. Each of
them reads, checks in its own time, and then writes under an optimistic lock. This project models
that protocol and six mechanisms around it, and proves what they keep over every run.

| file | models |
|---|---|
| `Types.dfy`, `Writes.dfy` | the rows; every write of the protocol as one atomic step with its guards |
| `TaskStore.dfy`, `NodeService.dfy` | the store and service operations on mutable rows, each proved to be exactly one such step, or no change |
| `Protocol.dfy` | safety over every run of whole operations |
| `Interleaving.dfy`, `ConcurrentRuns.dfy` | the same operations with reads, checks and writes of any number of requests interleaved, and what of the later files carries over |
| `Rollback.dfy` | what a rejection means for the work behind it; completion by hand |
| `History.dfy` | what the rows remember: who worked on a node, how often it was rejected, when it was completed, until when it is reserved |
| `Termination.dfy` | agents and jobs alone come to rest, with a bound |
| `Reservations.dfy` | who may use a reservation, who may give it up, and who can come to hold one |
| `Progress.dfy` | exactly which tasks can be finished, and which never run into a dead end |
| `AuditTrail.dfy` | the transition records as an event log, one operation at a time |
| `ConcurrentLog.dfy` | the same under concurrency, where many records are inserted after their row is committed |
| `CreateTask.dfy` | from workflow template to task |
| `Board.dfy` | the kanban projection |
| `Ilike.dfy` | escaping of search terms against the LIKE matcher |
| `LoginLockout.dfy` | failure counter and lock key |
| `LeasedLock.dfy` | the scheduler's distributed lock |
| `PermissionCache.dfy`, `CacheStaleness.dfy` | the permission cache, one call at a time and concurrently |
| `Triggers.dfy`, `TriggerSpacing.dfy` | scheduled triggers: deduplication, and how far apart their tasks are |

`dafny verify dfyconfig.toml` checks everything.

How to read the protocol part: `Writes.Exec` is what one database write does to a task, with `None`
for a write whose guard fails; `Writes.Fresh` is what the service checks before it. `Writes.Step` is
a whole operation run without interference and `Writes.Run` a sequence of them. A node is identified by
its rank in `sort_order`, and `seen` is the row snapshot an operation acts on. In `Interleaving` the log
lists the records in the order in which their rows are written; when they really reach the table is the
subject of `ConcurrentLog`.

## What the proofs show about the code

- Claim looks at the immediate predecessor only, outside any transaction, and still never starts a
  node whose earlier nodes are not all completed (`Interleaving.ClaimLandsSafely`). For a claim that
  saw its node pending, the predecessor and dependency conditions repeated in the SQL never decide;
  the version does (`Interleaving.VersionSubsumesChecks`).
- For each node and version at most one guarded write ever lands, in any concurrent run
  (`Interleaving.OneWritePerVersion`). The reset on cancel and delete keeps the version. At any later
  time every single-row write and every interrupt that saw the node in progress is still turned down,
  except a member's claim: it lands exactly when the version is still the same and a fresh claim would
  land (`Interleaving.StaleAfterReset`, `Interleaving.StaleInterruptFails`).
- Resolving a node as completed neither reopens the next node nor finishes the task. It strands the
  task exactly when the next node is not already pending (`Rollback.CompletingByHandStrands`).
- A node that is not pending always carries the name of whoever claimed it last, so the self-review check
  cannot be deceived by rejections, reassignments or completions by hand: the agent that claims a review
  never is the one that worked on the standard node before it (`History.AssigneeIsWorker`,
  `History.ReviewedByAnother`).
- The reject count goes up on both sides of a rejection. A review that has rejected often is therefore
  closer to its own limit when a later node rejects back to it (`History.CountIsRejections`,
  `History.LimitReachedExactly`). Handing a node out again by hand gives it the whole limit back
  (`History.ReExecutionStartsAnew`).
- Giving up the reservation of a completed node, which its last agent still holds, erases the time of its
  completion (`History.CompletionIsLastClose`).
- A template whose only node is a human step makes a task that no operation ever finishes
  (`Progress.FinishableTasks`, `CreateTask.FinishableTemplates`).
- An agents' review next in line, reserved without expiry for the one whose work it reviews, can be
  claimed by nobody (`Reservations.UsableExactly`); a human's review can, since a member's claim looks at
  no reservation. Only completing a node by hand puts a task into that state
  (`Reservations.UnusableOnlyByHand`) or a template that starts so (`CreateTask.ReservationsAtCreation`),
  and the reserved agent can give the reservation up (`Progress.GiveUpReservation`).
- Claiming needs membership in the project and the permission to claim, giving a reservation up only the
  permission. A first step pre-assigned to an agent outside the project is therefore not lost: that agent
  can release it. Templates check the assignee only of specific-agent and human steps
  (`internal/server/handler/workflow.go:126-147`), so a first step can also wait for somebody without the
  permission. It is then never claimed, cleaned up or released: the task can never be finished
  (`Progress.LockedNeverFinishes`, `CreateTask.FinishableTemplates`). If such a step is started at once
  instead, the dead end comes when a later step rejects back to it, unless its limit allows no rejection
  or it is a manual step (`Progress.NoDeadEndsExactly`, `CreateTask.DeadEndFreeTemplates`).
- Cancel and delete leave no audit record: run by themselves they keep the log exact only when nothing was
  in progress (`AuditTrail.ResetUnrecorded`).
- Claims, manual interventions, resolutions, released claims and the claim-timeout job insert their
  record after their row is committed. An interrupt between a claim's row and its record already leaves
  a log that does not replay, with nobody cancelling and nothing lost
  (`ConcurrentLog.LateRecordFalsifies`). Exactly when the log is right can be counted from the rows and the
  outstanding records alone: `ConcurrentLog.LogIsExactExactly`.
- The comment on `WithLock` says the lock does not expire before the task completes. Nothing ensures
  that; up to the first body that outlives its lease the lock excludes, and from that moment on a
  second worker can enter (`LeasedLock.EntersExactlyOnOverrun`).
- The cache key holds no resource. Answers are exact for the resource asked about if and only if the
  permission is not granted at all or granted on everything (`PermissionCache.CacheIsExactFor`,
  `PermissionCache.UniformExactly`). A role grant that fails half-way leaves the cache stale
  (`PermissionCache.HalfGrantedRole`).
- A trigger slot whose task creation failed is never retried (`Triggers.NeverRetried`).
- Overlapping processings can create tasks less than an interval apart
  (`TriggerSpacing.OverlapBreaksSpacing`). Whether a template keeps its distance from then on can be
  read off its tables (`TriggerSpacing.StaysApartExactly`). Even one at a time it is the scheduled
  times that keep it, not the creation times (`TriggerSpacing.CreationsMayCoincide`).

Where code and comments disagree the model follows the code:

- `ReclaimTaskNode` is documented to restore an agent's claim. The parameter conversion
  (`internal/store/converter.go:408-414`) leaves out the reservation it is compared with, so the
  statement compares with NULL and never matches a row.
- The service lets an agent pass whose claim meets another agent's expired reservation
  (`internal/service/node.go:153-158`); the statement ignores the expiry and refuses it. An expired
  reservation therefore blocks others until the cleanup job has removed it.

## Model

| member | source | states |
|---|---|---|
| Types.PrevStandardAssignee | internal/db/queries/tasks.sql:253-259 | the answer is the assignee of the nearest earlier standard node that has one, and there is none exactly when no such node exists |
| Types.RejectLimit | internal/service/node.go:431-434 | the limit applied to a roll-back target is always positive |
| TaskStore.CountIsAll | internal/store/node.go:447-471 | the check "completed count equals node count" passes exactly when every node is completed |
| TaskStore.Store.ClaimTaskNode | internal/db/queries/tasks.sql:90-129 | succeeds exactly when the node is pending at that version, unreserved or reserved for the claimer, with predecessor and dependencies completed; then only that row changes, to one in progress assigned to and reserved for the claimer |
| TaskStore.Store.ClaimTaskNodeByHuman | internal/db/queries/tasks.sql:131-167 | as above, for nodes assigned to humans, whatever their reservation |
| TaskStore.Store.ReclaimTaskNode | internal/db/queries/tasks.sql:169-177 | needs an in-progress node at that version whose reservation equals the parameter in SQL's sense; bumps only the version |
| TaskStore.Store.UpdateTaskNodeStatus | internal/db/queries/tasks.sql:75-88 | overwrites the listed fields and bumps the version exactly when version and old status match |
| TaskStore.Store.CreateNodeTransition | internal/store/node.go:157-167 | appends one audit record |
| TaskStore.Store.ApproveNodeInTx | internal/store/node.go:408-578 | the transaction has exactly the effect of one Approve write: the approved row; the next one reopened, reserved for the assignee unless it reviews that work, for 900 or 300 seconds; the task finished after the last; or nothing |
| TaskStore.ApprovedEffect | internal/store/node.go:408-471 | an approval that goes through completes its row as given, finishes the task after the last node, leaves all rows but the next alone and writes these records |
| TaskStore.NextEffect | internal/store/node.go:472-553 | the next node, field by field: reopened, reserved for the assignee unless it reviews that work, for 900 or 300 seconds exactly when it ends up reserved |
| TaskStore.Store.RejectNodeInTx | internal/store/node.go:609-734 | the transaction has exactly the effect of one Reject write: both counts go up by one, the target reopens for its last assignee or, when its count reaches the limit, waits for a human; two records; or nothing |
| TaskStore.Store.InterruptInProgressNodes | internal/store/node_interrupt.go:20-91 | parks all listed in-progress nodes, each keeping its assignee, or none, with one record each; count and targets are those of the parked nodes |
| TaskStore.InterruptTargets | internal/store/node_interrupt.go:26-36 | the targets are exactly the assignees of the in-progress nodes |
| TaskStore.Store.MoveTimedOutNodeToManual | internal/store/scheduler.go:61-100 | exactly one timeout Park write |
| TaskStore.Store.OfflineAgentFallback | internal/store/scheduler.go:102-161 | exactly one Offline write: the rows in progress of offline agents, other than human ones, are parked and nothing else changes, so that no offline agent is left with work and no online one loses any; one record each, in order |
| TaskStore.Store.ReleaseClaimTimeoutNodes | internal/db/queries/tasks.sql:323-333 | the statement parks exactly the stale rows in progress that are neither manual steps nor a human's, writes no record and returns them in order |
| TaskStore.Store.ReleaseClaimTimeouts | internal/scheduler/scheduler.go:202-229 | the job inserts one record per released node afterwards; undisturbed it is one Release write |
| TaskStore.Store.SetCancelled | internal/server/handler/task.go:427-438 | the status write that precedes the reset of a cancelled task's nodes |
| TaskStore.Store.ClearExpiredReservations | internal/db/queries/tasks.sql:310-316 | drops exactly the expired reservations of pending nodes, keeping versions |
| TaskStore.Store.CancelTaskNodes | internal/store/task.go:313-321 | resets exactly the in-progress nodes, keeping versions and writing no record |
| TaskStore.Store.DeleteTask | internal/store/task.go:282-303 | cancels the task and resets its in-progress nodes |
| NodeService.Service.Claim | internal/service/node.go:85-214 | granted exactly when all guards and the claim's WHERE clause hold; then the node is in progress with the claimer as assignee, reserved for a claiming agent, everything else as it was and one record written; otherwise nothing changes, with the cause of each refusal |
| NodeService.Service.Approve | internal/service/node.go:290-336 | a fresh Approve step or no change; in a linear task it succeeds exactly for a permitted call on a node in progress; a review of the approved work keeps its reservation, any other next node is reserved for the assignee |
| NodeService.Service.Reject | internal/service/node.go:371-475 | succeeds exactly for a permitted call on a node in progress with an earlier target that agents work on; both counts then go up by one and the target waits for a human exactly when its count reaches its limit, by default five |
| NodeService.Service.ManualIntervention | internal/service/node.go:498-560 | succeeds exactly on a node in progress when permitted; the node then waits for a human and keeps its assignee and count |
| NodeService.Service.Resolve | internal/service/node.go:593-698 | succeeds exactly on a node waiting for a human: completed as it is, by the operator and at that time, or pending for any agent with count zero and the new or old assignee |
| NodeService.Service.SkipClaim | internal/service/node.go:718-773 | succeeds exactly for the permitted holder of the reservation, whatever the node's status; the reservation and the completion time go, the rest stays |
| NodeService.Service.InterruptTask | internal/service/node.go:870-908 | parks every node in progress with its assignee and count, leaves the others and reports how many it parked |
| NodeService.Service.InterruptAck | internal/server/handler/node.go:665-724 | succeeds exactly for the node's assignee and records the status it saw, from and to |
| NodeService.Service.CancelTask | internal/server/handler/task.go:378-448 | refused unless the task is active; then the status write and the reset, two whole operations in that order |
| Protocol.LinearStep | internal/store/node.go:503-541 | every operation keeps the linear order: whatever is live or next in line has a completed prefix |
| Protocol.OneOpen | internal/service/node.go:119-127 | at most one node is live or next in line |
| Protocol.OneLiveNode | internal/store/node.go:408-734 | in every reachable state a live node has a completed prefix, is the only live node, and blocks every claim |
| Protocol.GuardsSuffice | internal/store/node.go:447-541 | an approval, rejection, parking or resolution whose guards hold is never turned down; the last approval finishes the task, no approval meets a live next node, a rejection finds everything before it completed |
| Protocol.FinishedForGood | internal/service/node.go:97-99 | once an approval has finished the task all nodes are completed and stay so under every operation |
| Protocol.NeverSelfReview | internal/service/node.go:142-151 | no agent ever holds a review whose nearest earlier standard node is its own |
| Protocol.VersionConsumed | internal/store/node.go:115-142 | a guarded write that succeeds, single-row or interrupt, leaves a higher version behind |
| Protocol.StatusNeedsVersion | internal/store/task.go:296-298 | only the reset of cancel and delete changes a status without changing the version |
| Protocol.StepLater | internal/store/task.go:296-298 | under every write a row's version goes up, or the row changes only as the two statements without version bump change it |
| Protocol.Frozen | internal/store/node.go:49-76 | while a node that is in progress or next in line keeps its version and status, no other status changes and no earlier assignee does |
| Protocol.RunInvariant | internal/store/node.go:408-734 | every reachable state is linear and free of self-reviews, and finished means all completed |
| Interleaving.ClaimLandsSafely | internal/service/node.go:86-195 | when a claim's write lands, however old its reads, every earlier node and every dependency is completed and an agent does not review its own work |
| Interleaving.WriteLandsSafely | internal/store/node.go:408-734 | when a late approval or rejection lands, everything before its node is completed and the next node is not live; the last approval finishes the task |
| Interleaving.VersionSubsumesChecks | internal/db/queries/tasks.sql:90-129 | for a ready claim that saw its node pending, the write succeeds exactly on version and reservation (or human assignment) |
| Interleaving.LaterRun | internal/store/node.go:115-142 | from any state of a concurrent run to any later one a row's version goes up, or the row changed only as the two unversioned statements change it |
| Interleaving.OneWritePerVersion | internal/store/node.go:115-142 | over any concurrent run, once a write guarded by a version of a node has landed no write guarded by the same or an older version lands, interrupts included |
| Interleaving.StaleAfterReset | internal/store/task.go:313-321 | at any time after the reset without version bump, a single-row write that saw the node in progress lands if and only if it is a member's claim, the version is unchanged and a fresh claim would land |
| Interleaving.StaleInterruptFails | internal/store/node_interrupt.go:44-71 | at any time after that reset an interrupt that listed the node as in progress fails as a whole |
| Interleaving.FinishedForGoodConcurrently | internal/service/node.go:97-99 | once a concurrent run has finished the task all nodes are completed and stay so |
| Interleaving.InvRun | internal/service/node.go:85-475 | in every concurrent run the task stays linear and everything a pending request has checked still holds whenever its version still matches |
| Interleaving.NextMoves | internal/store/node.go:115-142 | every read, check or landed write leaves the rows alone or moves them as one atomic operation would |
| Interleaving.Linearizable | internal/service/node.go:85-908 | a concurrent run has the effect on rows and task status of exactly the operations that landed in it, each run whole, in the order of their landing |
| ConcurrentRuns.NoStaleWorkConcurrently | internal/store/node.go:684-696 | in a concurrent run without completion by hand, a rejected node opens again only after claims and approvals of every node from the target up have landed since, in order |
| ConcurrentRuns.FinishedInOrderConcurrently | internal/store/node.go:447-471 | a task that a concurrent run without completion by hand leaves finished was completed in sort order |
| ConcurrentRuns.AgentsTerminateConcurrently | internal/store/node.go:650-696 | the bounds on rejections and effective steps hold for concurrent requests and jobs |
| ConcurrentRuns.HistoryConcurrently | internal/store/node.go:408-734 | the laws on assignees and reject counts hold in every concurrent run, for the operations that landed |
| ConcurrentRuns.ReviewedByAnotherConcurrently | internal/service/node.go:142-195 | no agent's claim of a review lands after its own claim of the standard node before it was the last to land there |
| Interleaving.InterleavedSafety | internal/service/node.go:85-908 | one live node, completed prefix and no self-review in every state of every concurrent run |
| Rollback.AlwaysInOrder | internal/store/node.go:503-541 | without completion by hand, the completed prefix was always last approved in sort order |
| Rollback.NoStaleWork | internal/store/node.go:684-696 | after a rejection from i to t, node i opens again only when each of t to i-1 was claimed and then approved again, in order |
| Rollback.FinishedInOrder | internal/store/node.go:447-471 | a finished task was completed in sort order |
| Rollback.RejectedWaitRun | internal/store/node.go:637-696 | without completion by hand every rejected node has an earlier node that is not completed |
| Rollback.CompletingByHandStrands | internal/service/node.go:608-650 | completing a node by hand leaves nothing open and the task unfinished if and only if the next node is not pending |
| Rollback.CompletingTargetByHand | internal/service/node.go:608-650 | completing by hand the target of a rejection at the limit accepts the work behind it unredone and strands the task |
| Rollback.StrandedForGood | internal/service/node.go:608-650 | a stranded task stays stranded under every operation |
| History.AssigneeIsWorker | internal/db/queries/tasks.sql:90-140 | in every run a node that is not pending carries the name of whoever claimed it last, or of its assignee at creation; while in progress also the kind of that claim |
| History.ReviewedByAnother | internal/service/node.go:142-151 | the agent whose claim of a review goes through is not the one that last claimed the nearest standard node before it that anybody worked on |
| History.ApprovedWorkReviewedByAnother | internal/service/node.go:142-151 | without completion by hand it is not the one whose claim preceded the last approval of the standard node before the review |
| History.AcknowledgedByWorker | internal/server/handler/node.go:665-724 | an interrupt is acknowledged only by whoever worked on the node, unless it is pending again |
| History.RightPassesOn | internal/store/node.go:503-541 | an approval reserves the next node for whoever worked on the approved one, for 900 or 300 seconds, and leaves a review of that work as it was reserved |
| History.ReviewOpenToOthers | internal/store/node.go:511-515 | an unreserved review behind an approved standard node can be claimed at once by exactly the agents that are not its author |
| History.ExpiryFromApproval | internal/store/node.go:517-523 | every expiry stems from the last approval of the node before |
| History.CountIsRejections | internal/store/node.go:625-650 | the reject count of a node is the number of rejections it was part of, as rejected node or as target, since it was last handed out again by hand |
| History.LimitReachedExactly | internal/store/node.go:650-696 | a rejection leaves its target waiting for a human exactly when that number reaches its limit; otherwise it reopens for whoever worked on it |
| History.ReExecutionStartsAnew | internal/service/node.go:652-672 | a node handed out again by hand waits for a human because of a rejection exactly after its full limit of further ones |
| History.CompletionIsLastClose | internal/service/node.go:743-758 | a completed node names time and author of its last approval or completion by hand, unless its reservation was given up since |
| Termination.RejectionsStep | internal/store/node.go:650-696 | no agent or system step adds rejections; each rejection and each parking spends one |
| Termination.AllowanceStep | internal/store/node.go:408-734 | every agent or system step that changes a status or reservation strictly lowers the measure |
| Termination.AgentsTerminate | internal/store/node.go:650-696 | without human resolution a fresh task sees at most the sum of (limit - 1) plus one rejections, and a bounded number of effective steps |
| Progress.PlanAllowed | internal/service/node.go:652-674 | in every promising state the planned cleanup, claim, approval, re-opening or release of a reservation passes the guards and the server's rules on who may do it |
| Progress.PlanStep | internal/store/node.go:503-541 | one planned step finishes the task or leads to a promising state closer to the end |
| Progress.PlannedClaimGranted | internal/service/node.go:85-195 | the service grants the planned claim with all its checks, to an agent of the project with the permission or, on a human's node, to a member |
| Progress.PlanAdvances | internal/store/node.go:503-541 | that step moves the frontier, or brings the frontier node closer to completion |
| Progress.CanAlwaysFinish | internal/server/handler/node.go:131-142 | from every reachable state of an active task with backward dependencies two claimants and a member can finish it, every step accepted by the server, if nobody without the permission holds or can get back an agents' node at the start; if that is so even for agents outside the project and no reservation was unusable, nobody has to give one up |
| Progress.NoDeadEndsExactly | internal/store/node.go:684-696 | a new task with backward dependencies never reaches a dead end if and only if nobody without the permission holds its next node or has started a first step that a later one can reject back to |
| Progress.LockedNeverFinishes | internal/service/node.go:718-741 | an agents' node next in line, reserved without expiry for somebody who may neither claim it nor give it up, blocks the task for ever |
| Progress.FinishableTasks | internal/store/task.go:93-150 | a new task can be finished if and only if some node is not completed at creation, every pending node depends on earlier nodes only, and the node next in line is not reserved for somebody without the permission to claim |
| Progress.ActiveHasWork | internal/store/node.go:447-471 | an active task never has all nodes completed, unless it was created so |
| Reservations.UsableExactly | internal/service/node.go:142-195 | on the node next in line under a reservation without expiry some claim, an agent's or a member's, passes if and only if the reservation is usable |
| Reservations.ServedClaimsExactly | internal/service/node.go:103-116 | the server accepts some claim there if and only if the reservation is usable and its holder, on an agents' node, may claim in the project |
| Reservations.UnusableCreatedExactly | internal/service/node.go:608-650 | an operation creates an unusable reservation if and only if it completes by hand a node in front of an agents' review reserved without expiry for the one it reviews |
| Reservations.UnusableOnlyByHand | internal/service/node.go:608-650 | the same over every run of whole operations, earlier completions by hand included |
| Progress.GiveUpReservation | internal/service/node.go:718-773 | a reservation that no claimant can use can be given up by a holder of the permission, in the project or not, and the next node can then be taken |
| Reservations.ReservationsUsableStep | internal/store/node.go:684-696 | no operation but completing by hand creates an unusable reservation |
| Reservations.ReservationsHeldStep | internal/store/node.go:684-696 | while a task is active, no accepted step but completing by hand reserves an agents' node next in line for somebody outside a set that contains all claimants |
| Reservations.WorkedByStep | internal/store/node.go:684-696 | nor does work that a rejection can hand back get done by such a person |
| AuditTrail.ReplayStep | internal/service/node.go:197-211 | each operation's records start from the status the node had and lead to the one it has |
| AuditTrail.LogIsExact | internal/store/node_interrupt.go:73-82 | replaying all records from the creation statuses gives exactly the current statuses, each record chaining with its node's previous one |
| AuditTrail.ResetUnrecorded | internal/store/task.go:296-298 | after cancel or delete the log is still exact if and only if nothing was in progress |
| ConcurrentLog.RecordTiming | internal/service/node.go:164-208 | which writes insert their records at once and which only later |
| ConcurrentLog.EventAccounted | internal/service/node.go:197-211 | rows, their records and the changes no record describes agree for every event, late and stale writes included |
| ConcurrentLog.TracksStep | internal/service/node.go:530-557 | a step keeps an exact log exact if and only if every record it inserts leaves the status at which its node's row, taken back by what is outstanding, stands; otherwise the log stops replaying |
| ConcurrentLog.LogIsExactExactly | internal/service/node.go:197-211 | in every concurrent run, with late and lost records and resets, the log replays to the current statuses if and only if every record was inserted in place and the outstanding changes of every node cancel out |
| ConcurrentLog.LogIsExactWhenPaid | internal/service/node.go:197-211 | with nothing outstanding the insertions alone decide |
| ConcurrentLog.InPlaceWhileOwed | internal/service/node.go:616-688 | while one status-changing record of a node is owed, another record of it is in place if and only if it leaves the same status, which is no longer the node's |
| ConcurrentLog.InPlaceWhenPaid | internal/server/handler/node.go:713-722 | with nothing outstanding a record is in place if and only if it leaves the node's status: an acknowledgement only if that has not changed since it was read |
| ConcurrentLog.OvertakingFalsifies | internal/store/node_interrupt.go:73-82 | a record that leaves the current status of a node whose status-changing record is owed makes the log unreadable for ever |
| ConcurrentLog.InTurnSuffices | internal/scheduler/scheduler.go:218-225 | it is enough that no record is inserted while another change of its node is outstanding |
| ConcurrentLog.LateRecordFalsifies | internal/service/node.go:164-208 | a claim, an interrupt between its row and its record, then the record: nothing owed and the log does not replay |
| ConcurrentLog.RowsAreInterleaved | internal/service/node.go:85-908 | the rows of such runs are those of interleaved runs |
| CreateTask.CreateTask | internal/store/task.go:87-177 | the two loops yield exactly the specified rows, and they satisfy the protocol's initial condition |
| CreateTask.CreateNodes | internal/store/task.go:87-150 | the first loop's rows: auto-start of the first step only, the template's limit before the project's; and a map that sends each template id to its node |
| CreateTask.ResolveDependencies | internal/store/task.go:158-167 | keeps exactly the dependencies that name a template node, in order |
| CreateTask.ResolvedInOrder | internal/store/task.go:158-167 | the dependencies keep the template's order |
| CreateTask.LimitAtCreation | internal/store/task.go:118-122 | the limit of a new node is the template's, else the project's, else five |
| CreateTask.DependenciesAreTheImage | internal/store/task.go:152-177 | node j is a dependency of node i exactly when the template says so; references to later nodes survive, foreign ids are dropped |
| CreateTask.AcyclicityCarriesOver | internal/store/task.go:152-177 | any numbering that goes down along the template's dependencies goes down along the task's |
| CreateTask.ReservationsAtCreation | internal/store/task.go:93-139 | every initial reservation is usable unless a human's first step is followed by an agents' review pre-assigned to the same id |
| CreateTask.HeldAtCreation | internal/store/task.go:93-139 | somebody outside a set holds the node next in line of a new task if and only if the template's first open step is an agents' step pre-assigned to one |
| CreateTask.SafeAtCreation | internal/store/task.go:93-139 | which templates start a step that could come back to somebody outside a set |
| CreateTask.DeadEndFreeTemplates | internal/store/task.go:87-177 | which templates make tasks without dead ends, as an exact condition on the template |
| CreateTask.FinishableTemplates | internal/store/task.go:87-177 | which templates make tasks that can be finished, as an exact condition on the template |
| Board.GetBoardData | internal/store/board.go:143-209 | each column holds exactly the cards of the tasks that belong there, in query order |
| Board.PlaceTask | internal/store/board.go:150-196 | adds one card to the task's column and none elsewhere; cancelled tasks add none |
| Board.CurrentNode | internal/store/board.go:171-182 | the scan finds the first node that is not completed, or the last node |
| Board.GroupByTask | internal/store/board.go:127-137 | the map holds each task's nodes in listing order |
| Board.NodesInOrder | internal/store/board.go:127-137 | a task's nodes keep the order of the query |
| Board.OnBoard | internal/store/board.go:150-169 | a task has a card if and only if it is not cancelled |
| Board.ExactlyOnceInOrder | internal/store/board.go:150-196 | no task has two cards, and cards of a column follow the query order |
| Board.LiveNodeShown | internal/store/board.go:171-182 | the live node of a linear task is the one shown |
| Board.ColumnsAreExact | internal/store/board.go:218-233 | for tasks not completed by hand, each column means what it says: a node in progress, a node waiting for a human, finished, or a node next in line |
| Ilike.ThreePassesAreOne | internal/store/memory.go:34-39 | the three successive replacements equal one per-character escape |
| Ilike.EscapeInjective | internal/store/memory.go:34-39 | different inputs give different patterns |
| Ilike.SearchIsExact | internal/store/memory.go:161-165 | the pattern matches a text if and only if the query occurs in it literally, up to case folding of characters |
| Ilike.SearchNeverErrs | internal/store/memory.go:161-165 | no query yields a pattern with a dangling escape |
| Ilike.UnescapedIsNot | internal/store/memory.go:34-39 | without escaping the search would not be exact |
| LoginLockout.Redis.CheckLoginLockout | internal/store/auth.go:670-683 | locked exactly while the lock key is live |
| LoginLockout.Redis.RecordLoginFailure | internal/store/auth.go:694-712 | the counter and lock after a failure, expiry set only by the first |
| LoginLockout.Redis.RecordLoginSuccess | internal/store/auth.go:722-728 | a success removes the counter and only it |
| LoginLockout.Redis.Login | internal/service/auth.go:110-121 | check, verify, record, in that order: locked exactly while the lock is live, otherwise the password alone decides |
| LoginLockout.AtMostEightFailures | internal/store/auth.go:694-712 | any fifteen-minute window without success contains at most eight failed verifications |
| LoginLockout.EightIsReached | internal/store/auth.go:694-712 | eight is attained |
| LoginLockout.LockHolds | internal/service/auth.go:110-121 | every login within fifteen minutes of the locking failure is refused unverified |
| LoginLockout.OutcomeExactly | internal/service/auth.go:110-121 | in every run a login is refused unverified exactly within 900 seconds of the last locking failure; otherwise it succeeds exactly with the right password |
| LoginLockout.FreshStartAfterLock | internal/store/auth.go:694-712 | when the lock ends its counter has expired: the next failure counts as the first |
| LoginLockout.LockedByFiveFailures | internal/store/auth.go:694-712 | a lock is always set by the fifth of five failures less than fifteen minutes apart without a success between |
| LeasedLock.Redis.SetNX | internal/scheduler/scheduler.go:142-148 | sets the key with its lease exactly when no live key exists |
| LeasedLock.Redis.Del | internal/scheduler/scheduler.go:150 | removes the key whoever set it |
| LeasedLock.Redis.EnterWithLock | internal/scheduler/scheduler.go:139-150 | a worker enters the body exactly when no live key exists, and then holds it for the interval and five seconds |
| LeasedLock.OverlapNeedsOverrun | internal/scheduler/scheduler.go:139-155 | two workers are inside one task only after some body of that task outlived its lease |
| LeasedLock.DeletesOwnLock | internal/scheduler/scheduler.go:150 | until then the unconditional delete removes the worker's own lock |
| LeasedLock.EntersExactlyOnOverrun | internal/scheduler/scheduler.go:130-148 | until then a second worker can enter if and only if the first has outlived its lease |
| LeasedLock.OneOverrunTwoOverlaps | internal/scheduler/scheduler.go:150 | after one overrun the late delete lets two workers overlap neither of which has outlived its lease |
| LeasedLock.LeasesAreBounded | internal/scheduler/scheduler.go:142 | a key left by a crash lasts at most the longest interval plus five seconds |
| PermissionCache.PermissionService.HasAgentPermission | internal/db/queries/agent_permissions.sql:21-37 | true exactly when some row matches the question exactly or by wildcard |
| PermissionCache.PermissionService.HasPermission | internal/service/permission_cache.go:53-72 | a live entry is returned as it is, a miss asks the database and caches for 60 seconds; sequentially the answer is the database's to some question about that key, and to the one asked when answers do not depend on the resource |
| PermissionCache.PermissionService.Invalidate | internal/service/permission_cache.go:88-98 | deletes exactly the agent's keys |
| PermissionCache.PermissionService.Grant | internal/service/agent_permission.go:76-87 | after a grant no stale entry is left; a refused duplicate changes nothing |
| PermissionCache.PermissionService.Revoke | internal/service/agent_permission.go:104-119 | after a revoke no stale entry is left; an unknown id changes nothing |
| PermissionCache.PermissionService.GrantRolePermissions | internal/service/agent_permission.go:226-238 | all or a prefix of the role's wildcard rows; the cache is invalidated only when all succeeded |
| PermissionCache.UniformExactly | internal/db/queries/agent_permissions.sql:21-37 | the answer is independent of the resource if and only if there is a wildcard grant or no grant |
| PermissionCache.CacheIsExactFor | internal/service/agent_permission.go:132-156 | every coherent cache answers every question exactly if and only if the answer is independent of the resource |
| PermissionCache.HalfGrantedRole | internal/service/agent_permission.go:226-238 | after a role grant that failed half-way the cache is stale exactly about granted permissions cached as missing |
| CacheStaleness.AnswersAreRecent | internal/service/permission_cache.go:53-72 | under any interleaving each answer was the database's to some question about that key at most 60 seconds and the fill delay ago |
| CacheStaleness.WildcardAnswersAreRecent | internal/service/agent_permission.go:152-156 | when all grants are wildcard grants it was the answer to the question asked |
| CacheStaleness.RaceLeavesOldAnswer | internal/service/agent_permission.go:104-119 | a fill that overlaps a revoke keeps the old answer for a full time to live, so the bound is needed |
| Triggers.Tables.CreateTaskFromTrigger | internal/service/workflow_trigger.go:170-246 | a used slot creates nothing, an unused one a task and a completed run, or a failed run |
| Triggers.Tables.ProcessScheduleTemplate | internal/service/workflow_trigger.go:107-147 | the schedule moves on exactly when creation succeeded or the slot was a duplicate |
| Triggers.WorksThrough | internal/service/workflow_trigger.go:186-245 | from its duplicate check on, an undisturbed processing ends with the duplicate skipped, the task created or the run failed, whatever other processings are under way |
| Triggers.ProcessedInSteps | internal/service/workflow_trigger.go:107-147 | the uninterrupted processing is one of the interleaved ones |
| Triggers.AtMostOneTask | internal/service/workflow_trigger.go:186-211 | however processings overlap and crash, no slot ever has two tasks |
| Triggers.NeverRetried | internal/service/workflow_trigger.go:230-236 | a slot whose creation failed or crashed after its run was inserted never gets a task |
| TriggerSpacing.TasksAreSpaced | internal/service/workflow_trigger.go:125-146 | with one processing at a time each task is scheduled, and created, at least an interval after the previous one was scheduled |
| TriggerSpacing.StaysApartExactly | internal/service/workflow_trigger.go:125-146 | between processings, whatever overlapped before, all further tasks keep the interval from all existing ones if and only if the due slot is used up or the due time or the clock is an interval after each of them |
| TriggerSpacing.CreationsMayCoincide | internal/service/workflow_trigger.go:217-229 | one at a time, two tasks can still be created at the same moment when the first creation is slow |
| TriggerSpacing.OverlapBreaksSpacing | internal/service/workflow_trigger.go:138-146 | overlapping processings can create two tasks less than an interval apart |
| TriggerSpacing.NextSlotIsNew | internal/service/workflow_trigger.go:125-129 | successive due times have different slot keys although these are whole seconds |
| TriggerSpacing.NextSlotIsUnused | internal/service/workflow_trigger.go:125-146 | after the schedule moved on the next processing finds its slot unused |

## Left out

- CreateTask.CreateTask: template nodes come listed in `sort_order`; names, descriptions and directory lists are not part of the rows, and ids that fail to parse are foreign ids.
- 32-bit columns: versions, counts and intervals are unbounded integers here, so their overflow is not modelled.
- Database errors and failed audit writes: a lookup succeeds or the operation stops without effect; every transaction is one atomic step.
- The bulk UPDATE statements (cancel, delete, offline, release, cleanup) are single assignments over the node sequence; an UPDATE has no loop of its own.
- A service operation and its audit record are two statements. Whole operations, and with them `AuditTrail`, take both as one; `ConcurrentLog` separates them, and a crash in between is a record that stays owed.
- The order in which `ListNodeTransitions` returns records is that of their timestamps, which the model takes to be that of their insertion.
- CancelTaskNodes by itself: the reset is only taken after the task status was written, as its one caller does.
- `Writes.Fresh` and the interleaved machine leave out the service's checks of task status, permissions
  and unexpired reservations, and the handlers' rules on who may claim what. They can only stop a
  request, so the runs there include every real one; `NodeService` has the service's checks,
  `Reservations.Served` the handlers' rules.
- Progress.CanAlwaysFinish: memberships and permissions stay as they are; that two claimants and a member take part is an assumption, since nobody may review their own work and human steps need a human.
- NodeService.Service.Claim: project membership and the permission lookup appear as one boolean; `PermissionCache` models the lookup itself.
- Comments, summaries, events, notifications and agent status are not part of the rows.
- `UpdateTask` apart from cancelling, `DeleteAgent` and other administrative writes that overwrite rows or the task status outside the protocol.
- That a cancelled task has no node in progress: the claim checks the task status outside its write, so it does not hold across interleavings.
- Ilike.SearchIsExact: case folding that changes the number of characters, the order of results and their limit of 100 are not modelled.
- LoginLockout: logins run one after the other, the whole failure recording is one step, and Redis answers; with Redis absent or failing the code lets every login pass to verification.
- LeasedLock: one clock for Redis and all workers; the end of the body and the delete are one step.
- CacheStaleness: keys of other agents that a scan might match do not exist, since agent ids are UUIDs; with no Redis every check goes to the database.
- Triggers: one template; keys of other templates never collide because the template is part of the unique constraint. A failing project lookup is a crash before the insert, and a failure to mark the run completed a crash after the creation.
- AES, RSA, password hashing and tokens are library calls; password verification is a boolean.
- HTTP routing, the command line, the web front end and delivery of events carry no further invariants.
