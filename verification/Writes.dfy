/** The database writes of the node protocol, each one statement or one transaction.
    A write carries the row snapshot its caller read earlier; the version and old status
    in the snapshot guard it. Exec is None when a guard fails and everything rolls back. */
module Writes {
  import opened Types

  datatype Write =
    | Claim(i: nat, seen: Node, op: Id, byAgent: bool)
    | Approve(i: nat, seen: Node, completer: Option<Id>, now: Time)
    | Reject(i: nat, seen: Node, target: nat, limit: int)
    | Park(i: nat, seen: Node, timeout: bool)
    | Resolve(i: nat, seen: Node, completer: Option<Id>, agent: Option<Id>, complete: bool, now: Time)
    | Skip(i: nat, seen: Node)
    | Interrupt(rows: seq<Node>)
    | Offline(agents: set<Id>)
    | Release(stale: set<nat>)
    | Acknowledge(i: nat, seen: Node, op: Id)
    | ClearReservations(cutoff: Time)
    | Cancel
    | CancelNodes
    | DeleteTask

  /** The optimistic lock of UpdateTaskNodeStatus. */
  predicate Unchanged(row: Node, version: int, status: Status) {
    row.version == version && row.status == status
  }

  // ----- claims

  predicate Claimable(ns: seq<Node>, i: nat, version: int, op: Id, byAgent: bool)
    requires i < |ns|
  {
    && Unchanged(ns[i], version, Pending)
    && (if byAgent then ns[i].reservedFor.None? || ns[i].reservedFor == Some(op) else ns[i].assigneeType == Human)
    && LinearReady(ns, i)
    && DependenciesCompleted(ns, i)
  }

  function ClaimedRow(row: Node, op: Id, byAgent: bool): Node {
    if byAgent then
      row.(status := InProgress, assigneeType := SpecificAgent, assignee := Some(op), reservedFor := Some(op),
           version := row.version + 1)
    else
      row.(status := InProgress, assigneeType := Human, assignee := Some(op), version := row.version + 1)
  }

  // ----- approval

  function ApprovedRow(row: Node, seen: Node, completer: Option<Id>, now: Time): Node {
    row.(status := Completed, assigneeType := seen.assigneeType, assignee := seen.assignee,
         reservedFor := seen.reservedFor, rejectCount := seen.rejectCount, version := row.version + 1,
         completedAt := Some(now), completedBy := completer, reservedUntil := None)
  }

  /** Whether the continuation right passes from the approved node to the next one. */
  predicate PassesRight(seen: Node, next: Node) {
    seen.assignee.Some? && !(next.nodeType == Review && seen.nodeType == Standard)
  }

  function RightExpiry(next: Node, now: Time): Time {
    now + (if next.timeoutMinutes > 30 then 15 * 60 else 5 * 60)
  }

  /** The next node after an approval: reopened, or left in progress with only the right passed on. */
  function NextRow(next: Node, seen: Node, now: Time): Node {
    if next.status == InProgress then
      if PassesRight(seen, next) then
        next.(reservedFor := seen.assignee, version := next.version + 1, completedAt := None, completedBy := None,
              reservedUntil := Some(RightExpiry(next, now)))
      else
        next
    else
      var reserved := if PassesRight(seen, next) then seen.assignee else next.reservedFor;
      next.(status := Pending, reservedFor := reserved, version := next.version + 1, completedAt := None,
            completedBy := None, reservedUntil := if reserved.Some? then Some(RightExpiry(next, now)) else None)
  }

  // ----- rejection

  function RejectedRow(row: Node, seen: Node): Node {
    row.(status := Rejected, assigneeType := seen.assigneeType, assignee := seen.assignee,
         reservedFor := seen.reservedFor, rejectCount := seen.rejectCount + 1, version := row.version + 1,
         completedAt := None, completedBy := None, reservedUntil := None)
  }

  /** The roll-back target: its count goes up, then it reopens for its last assignee or, at the
      limit, waits for a human. Both updates bump the version. */
  function TargetRow(row: Node, limit: int): Node {
    var t := row.(rejectCount := row.rejectCount + 1, version := row.version + 2,
                  completedAt := None, completedBy := None, reservedUntil := None);
    if t.rejectCount >= limit then
      t.(status := Manual, assigneeType := Human, reservedFor := None)
    else
      t.(status := Pending, assigneeType := AnyAgent, assignee := None, reservedFor := row.assignee)
  }

  // ----- single-row updates

  function ParkedRow(row: Node, seen: Node, completer: Option<Id>): Node {
    row.(status := Manual, assigneeType := Human, assignee := seen.assignee, reservedFor := None,
         rejectCount := seen.rejectCount, version := row.version + 1, completedAt := None, completedBy := completer,
         reservedUntil := None)
  }

  function ResolvedRow(row: Node, w: Write): Node
    requires w.Resolve?
  {
    if w.complete then
      row.(status := Completed, assigneeType := w.seen.assigneeType, assignee := w.seen.assignee,
           reservedFor := w.seen.reservedFor, rejectCount := w.seen.rejectCount, version := row.version + 1,
           completedAt := Some(w.now), completedBy := w.completer, reservedUntil := None)
    else
      var assignee := if w.agent.Some? then w.agent else w.seen.assignee;
      row.(status := Pending, assigneeType := AnyAgent, assignee := assignee, reservedFor := None, rejectCount := 0,
           version := row.version + 1, completedAt := None, completedBy := assignee, reservedUntil := None)
  }

  function SkippedRow(row: Node, seen: Node): Node {
    row.(status := seen.status, assigneeType := seen.assigneeType, assignee := seen.assignee, reservedFor := None,
         rejectCount := seen.rejectCount, version := row.version + 1, completedAt := None,
         completedBy := seen.assignee, reservedUntil := None)
  }

  // ----- bulk statements

  /** The rows the offline fallback and the claim-timeout release move to manual intervention. */
  predicate Selected(w: Write, k: nat, row: Node) {
    && row.status == InProgress && row.assigneeType != Human
    && match w
       case Offline(agents) => row.assignee.Some? && row.assignee.value in agents
       case Release(stale) => k in stale && row.nodeType != ManualStep
       case _ => false
  }

  function SweptRow(w: Write, k: nat, row: Node): Node {
    if Selected(w, k, row) then row.(status := Manual, assigneeType := Human, version := row.version + 1) else row
  }

  function InterruptedRow(row: Node, seen: Node): Node {
    if seen.status == InProgress then ParkedRow(row, seen, None) else row
  }

  function ClearedRow(row: Node, cutoff: Time): Node {
    var expired := row.reservedUntil.Some? && row.reservedUntil.value < cutoff;
    if row.status == Pending && row.reservedFor.Some? && expired then
      row.(reservedFor := None, reservedUntil := None)
    else row
  }

  /** The reset on cancel and delete: no version bump. */
  function ResetRow(row: Node): Node {
    if row.status == InProgress then row.(status := Pending, assignee := None) else row
  }

  function Swept(w: Write, ns: seq<Node>): seq<Node> {
    seq(|ns|, k requires 0 <= k < |ns| => SweptRow(w, k, ns[k]))
  }

  function Interrupted(ns: seq<Node>, rows: seq<Node>): seq<Node>
    requires |rows| == |ns|
  {
    seq(|ns|, k requires 0 <= k < |ns| => InterruptedRow(ns[k], rows[k]))
  }

  function Cleared(ns: seq<Node>, cutoff: Time): seq<Node> {
    seq(|ns|, k requires 0 <= k < |ns| => ClearedRow(ns[k], cutoff))
  }

  function ResetAll(ns: seq<Node>): seq<Node> {
    seq(|ns|, k requires 0 <= k < |ns| => ResetRow(ns[k]))
  }

  /** The rows a bulk write parks. */
  function SweepRows(w: Write, ns: seq<Node>): seq<bool> {
    seq(|ns|, k requires 0 <= k < |ns| => Selected(w, k, ns[k]))
  }

  function InterruptRows(rows: seq<Node>): seq<bool> {
    seq(|rows|, k requires 0 <= k < |rows| => rows[k].status == InProgress)
  }

  /** One record per parked row among the first k. */
  function ParkLog(parked: seq<bool>, action: Action, k: nat): seq<Transition>
    requires k <= |parked|
  {
    if k == 0 then []
    else
      ParkLog(parked, action, k - 1) + (if parked[k - 1] then [Transition(k - 1, InProgress, Manual, action)] else [])
  }

  // ----- what a write does

  /** The node a single-row write addresses. */
  predicate InRange(d: Db, w: Write) {
    match w
    case Reject(i, _, t, _) => i < |d.nodes| && t < |d.nodes|
    case Interrupt(rows) => |rows| == |d.nodes|
    case _ => (w.Claim? || w.Approve? || w.Park? || w.Resolve? || w.Skip? || w.Acknowledge?) ==> w.i < |d.nodes|
  }

  function Exec(d: Db, w: Write): (r: Option<Db>)
    requires InRange(d, w)
    ensures r.Some? ==> |r.value.nodes| == |d.nodes|
  {
    var ns := d.nodes;
    match w
    case Claim(i, seen, op, byAgent) =>
      // An agent that saw the node in progress goes to ReclaimTaskNode instead, which never matches a row.
      if byAgent && seen.status == InProgress then None
      else if !Claimable(ns, i, seen.version, op, byAgent) then None
      else
        var from := if seen.status == InProgress then InProgress else Pending;
        Some(d.(nodes := ns[i := ClaimedRow(ns[i], op, byAgent)],
                log := d.log + [Transition(i, from, InProgress, ReclaimAction)]))
    case Approve(i, seen, completer, now) =>
      if !Unchanged(ns[i], seen.version, seen.status) then None
      else
        var done := ns[i := ApprovedRow(ns[i], seen, completer, now)];
        var log := d.log + [Transition(i, seen.status, Completed, ApproveAction)];
        if i + 1 < |ns| then
          Some(d.(nodes := done[i + 1 := NextRow(ns[i + 1], seen, now)],
                  log := if ns[i + 1].status == InProgress then log
                         else log + [Transition(i + 1, ns[i + 1].status, Pending, ReclaimAction)]))
        else if PrefixCompleted(ns, i) then
          Some(Db(Finished, done, log))
        else None
    case Reject(i, seen, t, limit) =>
      if !Unchanged(ns[i], seen.version, InProgress) then None
      else
        var rejected := ns[i := RejectedRow(ns[i], seen)];
        var target := TargetRow(rejected[t], limit);
        Some(d.(nodes := rejected[t := target],
                log := d.log + [Transition(i, seen.status, Rejected, RejectAction),
                                Transition(t, rejected[t].status, target.status,
                                           if target.status == Manual then ManualAction else RejectAction)]))
    case Park(i, seen, timeout) =>
      if !Unchanged(ns[i], seen.version, InProgress) then None
      else
        Some(d.(nodes := ns[i := ParkedRow(ns[i], seen, if timeout then None else seen.assignee)],
                log := d.log + [Transition(i, seen.status, Manual, if timeout then TimeoutAction else ManualAction)]))
    case Resolve(i, seen, _, _, complete, _) =>
      if !Unchanged(ns[i], seen.version, seen.status) then None
      else
        Some(d.(nodes := ns[i := ResolvedRow(ns[i], w)],
                log := d.log + [Transition(i, Manual, if complete then Completed else Pending, ManualAction)]))
    case Skip(i, seen) =>
      if !Unchanged(ns[i], seen.version, seen.status) then None
      else
        Some(d.(nodes := ns[i := SkippedRow(ns[i], seen)],
                log := d.log + [Transition(i, seen.status, seen.status, ReclaimAction)]))
    case Interrupt(rows) =>
      if exists k ::
        0 <= k < |rows| && rows[k].status == InProgress && !Unchanged(ns[k], rows[k].version, InProgress) then None
      else
        Some(d.(nodes := Interrupted(ns, rows),
                log := d.log + ParkLog(InterruptRows(rows), ManualAction, |rows|)))
    case Offline(_) =>
      Some(d.(nodes := Swept(w, ns),
              log := d.log + ParkLog(SweepRows(w, ns), ManualAction, |ns|)))
    case Release(_) =>
      Some(d.(nodes := Swept(w, ns),
              log := d.log + ParkLog(SweepRows(w, ns), TimeoutAction, |ns|)))
    case ClearReservations(cutoff) =>
      Some(d.(nodes := Cleared(ns, cutoff)))
    case Acknowledge(i, seen, _) =>
      Some(d.(log := d.log + [Transition(i, seen.status, seen.status, AckAction)]))
    case Cancel =>
      Some(d.(status := Cancelled))
    case CancelNodes =>
      Some(d.(nodes := ResetAll(ns)))
    case DeleteTask =>
      Some(d.(status := Cancelled, nodes := ResetAll(ns)))
  }

  /** The service guards at the moment of the write: the snapshot is the current row, and every
      check the service made on it holds now. An operation run atomically is a fresh write. */
  predicate Fresh(d: Db, w: Write)
    requires InRange(d, w)
  {
    match w
    case Claim(i, seen, op, byAgent) =>
      seen == d.nodes[i] &&
      (byAgent && seen.nodeType == Review ==> PrevStandardAssignee(d.nodes, i) != Some(op))
    case Approve(i, seen, _, _) => seen == d.nodes[i] && seen.status == InProgress
    case Reject(i, seen, t, limit) =>
      && seen == d.nodes[i] && seen.status == InProgress
      && t < i && d.nodes[t].nodeType != ManualStep && d.nodes[t].assigneeType != Human
      && limit == d.nodes[t].RejectLimit()
    case Park(i, seen, _) => seen == d.nodes[i] && seen.status == InProgress
    case Resolve(i, seen, _, _, _, _) => seen == d.nodes[i] && seen.status == Manual
    case Skip(i, seen) => seen == d.nodes[i]
    case Interrupt(rows) => rows == d.nodes
    case Acknowledge(i, seen, op) => seen == d.nodes[i] && seen.assignee == Some(op)
    // The reset follows the write of the task status in the same request, and no operation undoes that.
    case CancelNodes => d.status != Active
    case _ => true
  }

  predicate Step(d: Db, w: Write, d': Db) {
    InRange(d, w) && Fresh(d, w) && Exec(d, w) == Some(d')
  }

  predicate StepAt(ds: seq<Db>, ws: seq<Write>, k: int)
    requires 0 <= k < |ws| && |ds| == |ws| + 1
  {
    Step(ds[k], ws[k], ds[k + 1])
  }

  /** A run of whole operations, each executed atomically. */
  ghost predicate Run(ds: seq<Db>, ws: seq<Write>) {
    && |ds| == |ws| + 1
    && forall k :: 0 <= k < |ws| ==> StepAt(ds, ws, k)
  }
}
