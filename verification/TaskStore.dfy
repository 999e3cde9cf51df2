/** The store layer: rows changed in place, each transaction working on its own copy until it
    commits. Every method is proved to do exactly what its write in module Writes does. */
module TaskStore {
  import opened Types
  import opened Writes

  /** The SET list of UpdateTaskNodeStatus: every field but the version comes from the caller. */
  datatype NodeUpdate = NodeUpdate(status: Status, assigneeType: AssigneeType, assignee: Option<Id>,
                                   reservedFor: Option<Id>, rejectCount: int, completedAt: Option<Time>,
                                   completedBy: Option<Id>, reservedUntil: Option<Time>)

  function UpdateRow(rows: seq<Node>, i: nat, u: NodeUpdate, version: int, expected: Status): Option<seq<Node>>
    requires i < |rows|
  {
    if Unchanged(rows[i], version, expected) then
      Some(rows[i := rows[i].(status := u.status, assigneeType := u.assigneeType, assignee := u.assignee,
                              reservedFor := u.reservedFor, rejectCount := u.rejectCount,
                              version := rows[i].version + 1, completedAt := u.completedAt,
                              completedBy := u.completedBy, reservedUntil := u.reservedUntil)])
    else None
  }

  /** SQL equality of a nullable column with a parameter: NULL equals nothing. */
  predicate SqlEquals(column: Option<Id>, parameter: Option<Id>) {
    column.Some? && column == parameter
  }

  function CompletedCount(rows: seq<Node>): nat {
    if |rows| == 0 then 0 else CompletedCount(rows[1..]) + if rows[0].status == Completed then 1 else 0
  }

  /** The count check "completed n of n" holds exactly when no node is left. */
  lemma {:induction false} CountIsAll(rows: seq<Node>)
    ensures CompletedCount(rows) <= |rows|
    ensures CompletedCount(rows) == |rows| <==> PrefixCompleted(rows, |rows|)
  {
    if |rows| > 0 {
      CountIsAll(rows[1..]);
      assert rows == [rows[0]] + rows[1..];
      assert PrefixCompleted(rows, |rows|) ==> PrefixCompleted(rows[1..], |rows| - 1);
    }
  }

  /** Only a node that was in progress changes: it is pending without assignee, at the same version. */
  predicate WasReset(was: Node, row: Node) {
    && row.version == was.version && row.status != InProgress
    && (was.status != InProgress ==> row == was)
    && (was.status == InProgress ==> row == was.(status := Pending, assignee := None))
  }

  datatype InterruptTarget = InterruptTarget(node: nat, assignee: Id)

  predicate Increasing(ranks: seq<nat>) {
    forall j, k :: 0 <= j < k < |ranks| ==> ranks[j] < ranks[k]
  }

  /** The listed rows wait for a human, at the next version and otherwise as they were; the others stay. */
  predicate Parked(was: seq<Node>, rows: seq<Node>, listed: seq<nat>) {
    && |rows| == |was|
    && forall k: nat :: k < |rows| ==>
         rows[k] == if k in listed then was[k].(status := Manual, assigneeType := Human, version := was[k].version + 1)
                    else was[k]
  }

  /** One record per parked row. */
  function ParkRecords(ranks: seq<nat>, action: Action): (r: seq<Transition>)
    ensures |r| == |ranks|
  {
    seq(|ranks|, k requires 0 <= k < |ranks| => Transition(ranks[k], InProgress, Manual, action))
  }

  /** The rows that the statement of w updates, in the order in which it returns them. */
  method Returning(w: Write, rows: seq<Node>, action: Action) returns (ranks: seq<nat>)
    ensures Increasing(ranks)
    ensures forall k: nat :: k in ranks <==> k < |rows| && Selected(w, k, rows[k])
    ensures ParkRecords(ranks, action) == ParkLog(SweepRows(w, rows), action, |rows|)
  {
    ranks := [];
    for k := 0 to |rows|
      invariant Increasing(ranks) && forall m :: 0 <= m < |ranks| ==> ranks[m] < k
      invariant forall m: nat :: m in ranks <==> m < k && Selected(w, m, rows[m])
      invariant ParkRecords(ranks, action) == ParkLog(SweepRows(w, rows), action, k)
    {
      if Selected(w, k, rows[k]) {
        assert ParkRecords(ranks + [k], action) ==
               ParkRecords(ranks, action) + [Transition(k, InProgress, Manual, action)];
        ranks := ranks + [k];
      }
    }
  }

  /** The agents to notify: the assignees of the in-progress nodes. */
  method InterruptTargets(listed: seq<Node>) returns (targets: seq<InterruptTarget>)
    ensures forall t :: t in targets <==>
      t.node < |listed| && listed[t.node].status == InProgress && listed[t.node].assignee == Some(t.assignee)
  {
    targets := [];
    for k := 0 to |listed|
      invariant forall t :: t in targets <==>
        t.node < k && listed[t.node].status == InProgress && listed[t.node].assignee == Some(t.assignee)
    {
      if listed[k].status == InProgress && listed[k].assignee.Some? {
        targets := targets + [InterruptTarget(k, listed[k].assignee.value)];
      }
    }
  }

  /** An approval that goes through, row by row: the approved node and the task's status. */
  lemma ApprovedEffect(d: Db, i: nat, seen: Node, completer: Option<Id>, now: Time, d': Db)
    requires i < |d.nodes| && Exec(d, Approve(i, seen, completer, now)) == Some(d')
    ensures d.nodes[i].version == seen.version && d.nodes[i].status == seen.status
    ensures d'.nodes[i] ==
      d.nodes[i].(status := Completed, assigneeType := seen.assigneeType, assignee := seen.assignee,
                  reservedFor := seen.reservedFor, rejectCount := seen.rejectCount, version := seen.version + 1,
                  completedAt := Some(now), completedBy := completer, reservedUntil := None)
    ensures |d'.nodes| == |d.nodes|
    ensures forall k :: 0 <= k < |d.nodes| && k != i && k != i + 1 ==> d'.nodes[k] == d.nodes[k]
    ensures d'.status == if i + 1 == |d.nodes| then Finished else d.status
    ensures i + 1 == |d.nodes| ==> forall k :: 0 <= k < |d.nodes| ==> d'.nodes[k].status == Completed
    ensures var reopens := i + 1 < |d.nodes| && d.nodes[i + 1].status != InProgress;
      var second := if reopens then [Transition(i + 1, d.nodes[i + 1].status, Pending, ReclaimAction)] else [];
      d'.log == d.log + [Transition(i, seen.status, Completed, ApproveAction)] + second
  {
  }

  /** The node behind it reopens, reserved for the approved node's assignee unless it is a review of that
      node's work; a node in progress only takes the reservation. */
  lemma NextEffect(d: Db, i: nat, seen: Node, completer: Option<Id>, now: Time, d': Db)
    requires i + 1 < |d.nodes| && Exec(d, Approve(i, seen, completer, now)) == Some(d')
    ensures var passes := seen.assignee.Some? && (seen.nodeType != Standard || d.nodes[i + 1].nodeType != Review);
      var next, row := d.nodes[i + 1], d'.nodes[i + 1];
      var expiry := now + if next.timeoutMinutes > 30 then 900 else 300;
      if next.status == InProgress then
        row == if !passes then next
               else next.(reservedFor := seen.assignee, reservedUntil := Some(expiry), version := next.version + 1,
                          completedAt := None, completedBy := None)
      else
        && row == next.(status := Pending, reservedFor := row.reservedFor, reservedUntil := row.reservedUntil,
                        version := next.version + 1, completedAt := None, completedBy := None)
        && row.reservedFor == (if passes then seen.assignee else next.reservedFor)
        && row.reservedUntil == (if row.reservedFor.Some? then Some(expiry) else None)
  {
  }

  class Store {
    var status: TaskStatus
    var nodes: seq<Node>
    var log: seq<Transition>

    ghost function View(): Db
      reads this
    {
      Db(status, nodes, log)
    }

    /** The state after a write: its result, or nothing changed when it rolled back. */
    twostate predicate Did(w: Write, ok: bool)
      requires InRange(old(View()), w)
      reads this
    {
      var r := Exec(old(View()), w);
      ok == r.Some? && View() == (if r.Some? then r.value else old(View()))
    }

    method ClaimTaskNode(i: nat, version: int, op: Id) returns (ok: bool)
      requires i < |nodes|
      modifies this
      ensures var was := old(nodes)[i];
        && (ok <==> was.version == version && was.status == Pending &&
                    (was.reservedFor.None? || was.reservedFor == Some(op)) &&
                    (i == 0 || old(nodes)[i - 1].status == Completed) && DependenciesCompleted(old(nodes), i))
        && (ok ==> nodes == old(nodes)[i := was.(status := InProgress, assigneeType := SpecificAgent,
                                                 assignee := Some(op), reservedFor := Some(op),
                                                 version := was.version + 1)])
      ensures !ok ==> nodes == old(nodes)
      ensures status == old(status) && log == old(log)
    {
      ok := Claimable(nodes, i, version, op, true);
      if ok {
        nodes := nodes[i := nodes[i].(status := InProgress, assigneeType := SpecificAgent, assignee := Some(op),
                                      reservedFor := Some(op), version := nodes[i].version + 1)];
      }
    }

    method ClaimTaskNodeByHuman(i: nat, version: int, op: Id) returns (ok: bool)
      requires i < |nodes|
      modifies this
      ensures var was := old(nodes)[i];
        && (ok <==> was.version == version && was.status == Pending && was.assigneeType == Human &&
                    (i == 0 || old(nodes)[i - 1].status == Completed) && DependenciesCompleted(old(nodes), i))
        && (ok ==> nodes == old(nodes)[i := was.(status := InProgress, assigneeType := Human, assignee := Some(op),
                                                 version := was.version + 1)])
      ensures !ok ==> nodes == old(nodes)
      ensures status == old(status) && log == old(log)
    {
      ok := Claimable(nodes, i, version, op, false);
      if ok {
        nodes := nodes[i := nodes[i].(status := InProgress, assigneeType := Human, assignee := Some(op),
                                      version := nodes[i].version + 1)];
      }
    }

    method ReclaimTaskNode(i: nat, reservedFor: Option<Id>, version: int) returns (ok: bool)
      requires i < |nodes|
      modifies this
      ensures ok <==>
        && old(nodes)[i].version == version && old(nodes)[i].status == InProgress
        && reservedFor.Some? && old(nodes)[i].reservedFor == reservedFor
      ensures nodes == if ok then old(nodes)[i := old(nodes)[i].(version := version + 1)] else old(nodes)
      ensures status == old(status) && log == old(log)
    {
      ok := Unchanged(nodes[i], version, InProgress) && SqlEquals(nodes[i].reservedFor, reservedFor);
      if ok {
        nodes := nodes[i := nodes[i].(version := nodes[i].version + 1)];
      }
    }

    method UpdateTaskNodeStatus(i: nat, u: NodeUpdate, version: int, expected: Status) returns (ok: bool)
      requires i < |nodes|
      modifies this
      ensures ok <==> old(nodes)[i].version == version && old(nodes)[i].status == expected
      ensures nodes ==
        if ok then
          old(nodes)[i := old(nodes)[i].(status := u.status, assigneeType := u.assigneeType, assignee := u.assignee,
                                         reservedFor := u.reservedFor, rejectCount := u.rejectCount,
                                         version := version + 1, completedAt := u.completedAt,
                                         completedBy := u.completedBy, reservedUntil := u.reservedUntil)]
        else old(nodes)
      ensures status == old(status) && log == old(log)
    {
      ok := nodes[i].version == version && nodes[i].status == expected;
      if ok {
        nodes := nodes[i := nodes[i].(status := u.status, assigneeType := u.assigneeType, assignee := u.assignee,
                                      reservedFor := u.reservedFor, rejectCount := u.rejectCount,
                                      version := nodes[i].version + 1, completedAt := u.completedAt,
                                      completedBy := u.completedBy, reservedUntil := u.reservedUntil)];
      }
    }

    method CreateNodeTransition(t: Transition)
      modifies this`log
      ensures log == old(log) + [t]
    {
      log := log + [t];
    }

    method ApproveNodeInTx(i: nat, seen: Node, completer: Option<Id>, now: Time) returns (ok: bool)
      requires i < |nodes|
      modifies this
      ensures Did(Writes.Approve(i, seen, completer, now), ok)
    {
      var rows, records, taskStatus := nodes, log, status;
      var done := UpdateRow(rows, i,
        NodeUpdate(Completed, seen.assigneeType, seen.assignee, seen.reservedFor, seen.rejectCount, Some(now),
                   completer, None),
        seen.version, seen.status);
      if done.None? {
        return false;
      }
      rows := done.value;
      records := records + [Transition(i, seen.status, Completed, ApproveAction)];
      if i + 1 == |rows| {
        CountIsAll(rows);
        assert forall j :: 0 <= j < i ==> rows[j] == nodes[j];
        assert PrefixCompleted(rows, |rows|) <==> PrefixCompleted(nodes, i) by {
          if PrefixCompleted(rows, |rows|) {
            assert forall j :: 0 <= j < i ==> rows[j].status == Completed;
          }
        }
        if CompletedCount(rows) < |rows| {
          return false;
        }
        taskStatus := Finished;
      } else {
        var next := rows[i + 1];
        if next.status == InProgress {
          if PassesRight(seen, next) {
            var kept := UpdateRow(rows, i + 1,
              NodeUpdate(next.status, next.assigneeType, next.assignee, seen.assignee, next.rejectCount, None, None,
                         Some(RightExpiry(next, now))),
              next.version, InProgress);
            rows := kept.value;
          }
        } else {
          var reserved, expiry := next.reservedFor, None;
          if PassesRight(seen, next) {
            reserved := seen.assignee;
          }
          if reserved.Some? {
            expiry := Some(RightExpiry(next, now));
          }
          var reopened := UpdateRow(rows, i + 1,
            NodeUpdate(Pending, next.assigneeType, next.assignee, reserved, next.rejectCount, None, None, expiry),
            next.version, next.status);
          rows := reopened.value;
          records := records + [Transition(i + 1, next.status, Pending, ReclaimAction)];
        }
      }
      nodes, log, status := rows, records, taskStatus;
      return true;
    }

    method RejectNodeInTx(i: nat, seen: Node, target: nat, limit: int) returns (ok: bool)
      requires i < |nodes| && target < |nodes|
      modifies this
      ensures Did(Writes.Reject(i, seen, target, limit), ok)
      ensures ok && target != i ==>
        && nodes[i] == old(nodes)[i].(status := Rejected, assigneeType := seen.assigneeType, assignee := seen.assignee,
                                      reservedFor := seen.reservedFor, rejectCount := seen.rejectCount + 1,
                                      version := seen.version + 1, completedAt := None, completedBy := None,
                                      reservedUntil := None)
        && var was, limited := old(nodes)[target], old(nodes)[target].rejectCount + 1 >= limit;
           nodes[target] == was.(status := if limited then Manual else Pending,
                                 assigneeType := if limited then Human else AnyAgent,
                                 assignee := if limited then was.assignee else None,
                                 reservedFor := if limited then None else was.assignee,
                                 rejectCount := was.rejectCount + 1, version := was.version + 2,
                                 completedAt := None, completedBy := None, reservedUntil := None)
      ensures forall k :: 0 <= k < |nodes| && k != i && k != target ==> nodes[k] == old(nodes)[k]
      ensures ok && target != i ==>
        var to := nodes[target].status;
        log == old(log) + [Transition(i, seen.status, Rejected, RejectAction),
                           Transition(target, old(nodes)[target].status, to,
                                      if to == Manual then ManualAction else RejectAction)]
    {
      var rows, records := nodes, log;
      var rejected := UpdateRow(rows, i,
        NodeUpdate(Rejected, seen.assigneeType, seen.assignee, seen.reservedFor, seen.rejectCount + 1, None, None,
                   None),
        seen.version, InProgress);
      if rejected.None? {
        return false;
      }
      rows := rejected.value;
      records := records + [Transition(i, seen.status, Rejected, RejectAction)];
      // IncrementRejectCount is unguarded and bumps the version by itself.
      rows := rows[target := rows[target].(rejectCount := rows[target].rejectCount + 1,
                                           version := rows[target].version + 1)];
      var t := rows[target];
      if t.rejectCount >= limit {
        var parked := UpdateRow(rows, target,
          NodeUpdate(Manual, Human, t.assignee, None, t.rejectCount, None, None, None), t.version, t.status);
        rows := parked.value;
        records := records + [Transition(target, t.status, Manual, ManualAction)];
      } else {
        var reopened := UpdateRow(rows, target,
          NodeUpdate(Pending, AnyAgent, None, t.assignee, t.rejectCount, None, None, None), t.version, t.status);
        rows := reopened.value;
        records := records + [Transition(target, t.status, Pending, RejectAction)];
      }
      nodes, log := rows, records;
      return true;
    }

    /** All in_progress nodes of the listing go to manual intervention, or none does. */
    method InterruptInProgressNodes(listed: seq<Node>) returns (ok: bool, targets: seq<InterruptTarget>, count: nat)
      requires |listed| == |nodes|
      modifies this
      ensures Did(Writes.Interrupt(listed), ok)
      ensures ok ==> forall k :: 0 <= k < |nodes| ==>
        var was := old(nodes)[k];
        nodes[k] == if listed[k].status != InProgress then was
                    else was.(status := Manual, assigneeType := Human, assignee := listed[k].assignee,
                              reservedFor := None, rejectCount := listed[k].rejectCount, version := was.version + 1,
                              completedAt := None, completedBy := None, reservedUntil := None)
      ensures ok ==> |View().log| == |old(View().log)| + count
      ensures ok ==> forall t :: t in targets <==>
        t.node < |listed| && listed[t.node].status == InProgress && listed[t.node].assignee == Some(t.assignee)
    {
      targets := InterruptTargets(listed);
      var rows, records := nodes, log;
      count := 0;
      for k := 0 to |listed|
        invariant |rows| == |listed|
        invariant records == log + ParkLog(InterruptRows(listed), ManualAction, k) && |records| == |log| + count
        invariant forall m :: 0 <= m < k && listed[m].status == InProgress ==>
          Unchanged(nodes[m], listed[m].version, InProgress)
        invariant forall m :: 0 <= m < k ==> rows[m] == InterruptedRow(nodes[m], listed[m])
        invariant forall m :: k <= m < |rows| ==> rows[m] == nodes[m]
        invariant unchanged(this)
      {
        if listed[k].status == InProgress {
          var parked := UpdateRow(rows, k,
            NodeUpdate(Manual, Human, listed[k].assignee, None, listed[k].rejectCount, None, None, None),
            listed[k].version, InProgress);
          if parked.None? {
            return false, [], 0;
          }
          rows := parked.value;
          records := records + [Transition(k, InProgress, Manual, ManualAction)];
          count := count + 1;
        }
      }
      assert rows == Interrupted(nodes, listed);
      nodes, log := rows, records;
      return true, targets, count;
    }

    method MoveTimedOutNodeToManual(i: nat, seen: Node) returns (ok: bool)
      requires i < |nodes|
      modifies this
      ensures Did(Writes.Park(i, seen, true), ok)
      ensures ok ==>
        && nodes == old(nodes)[i := old(nodes)[i].(status := Manual, assigneeType := Human, assignee := seen.assignee,
                                                   reservedFor := None, rejectCount := seen.rejectCount,
                                                   version := seen.version + 1, completedAt := None,
                                                   completedBy := None, reservedUntil := None)]
        && log == old(log) + [Transition(i, seen.status, Manual, TimeoutAction)]
    {
      var records := log + [Transition(i, seen.status, Manual, TimeoutAction)];
      var parked := UpdateRow(nodes, i,
        NodeUpdate(Manual, Human, seen.assignee, None, seen.rejectCount, None, None, None), seen.version, InProgress);
      if parked.None? {
        return false;
      }
      nodes, log := parked.value, records;
      return true;
    }

    /** One UPDATE over the rows of offline agents, then a loop over the rows it returned. */
    method OfflineAgentFallback(offline: set<Id>) returns (affected: seq<nat>)
      modifies this
      ensures Did(Writes.Offline(offline), true)
      ensures Increasing(affected)
      ensures forall k: nat :: k in affected <==>
        && k < |old(nodes)| && old(nodes)[k].status == InProgress && old(nodes)[k].assigneeType != Human
        && old(nodes)[k].assignee.Some? && old(nodes)[k].assignee.value in offline
      ensures Parked(old(nodes), nodes, affected)
      ensures forall k, a :: 0 <= k < |nodes| && nodes[k].assigneeType != Human && nodes[k].assignee == Some(a) ==>
        a in offline ==> nodes[k].status != InProgress
      ensures forall k, a :: 0 <= k < |nodes| && old(nodes)[k].assignee == Some(a) && a !in offline ==>
        nodes[k] == old(nodes)[k]
      ensures |log| == |old(log)| + |affected|
      ensures forall m :: 0 <= m < |affected| ==>
        log[|old(log)| + m] == Transition(affected[m], InProgress, Manual, ManualAction)
    {
      var w := Writes.Offline(offline);
      affected := Returning(w, nodes, ManualAction);
      var records := log;
      for m := 0 to |affected|
        invariant unchanged(this)
        invariant records == log + ParkRecords(affected, ManualAction)[..m]
      {
        records := records + [Transition(affected[m], InProgress, Manual, ManualAction)];
      }
      assert ParkRecords(affected, ManualAction)[..|affected|] == ParkRecords(affected, ManualAction);
      nodes, log := Swept(w, nodes), records;
    }

    /** The release statement alone: the rows it moved, in the order in which it returns them. */
    method ReleaseClaimTimeoutNodes(stale: set<nat>) returns (released: seq<nat>)
      modifies this`nodes
      ensures nodes == Swept(Writes.Release(stale), old(nodes))
      ensures Increasing(released)
      ensures forall k: nat :: k in released <==>
        && k in stale && k < |old(nodes)| && old(nodes)[k].status == InProgress
        && old(nodes)[k].nodeType != ManualStep && old(nodes)[k].assigneeType != Human
      ensures Parked(old(nodes), nodes, released)
      ensures ParkRecords(released, TimeoutAction) ==
              ParkLog(SweepRows(Writes.Release(stale), old(nodes)), TimeoutAction, |old(nodes)|)
    {
      var w := Writes.Release(stale);
      released := Returning(w, nodes, TimeoutAction);
      nodes := Swept(w, nodes);
    }

    /** The scheduler's job: the statement, then one record per released row, each by a statement of its
        own. Without interference it is one write. */
    method ReleaseClaimTimeouts(stale: set<nat>)
      modifies this
      ensures Did(Writes.Release(stale), true)
    {
      var released := ReleaseClaimTimeoutNodes(stale);
      for k := 0 to |released|
        invariant nodes == Swept(Writes.Release(stale), old(nodes)) && status == old(status)
        invariant log == old(log) + ParkRecords(released, TimeoutAction)[..k]
      {
        CreateNodeTransition(Transition(released[k], InProgress, Manual, TimeoutAction));
      }
      assert ParkRecords(released, TimeoutAction)[..|released|] == ParkRecords(released, TimeoutAction);
    }

    /** The status write of a cancelled task; its nodes are reset by a second statement. */
    method SetCancelled()
      modifies this`status
      ensures Did(Writes.Cancel, true)
      ensures status == Cancelled
    {
      status := Cancelled;
    }

    method ClearExpiredReservations(cutoff: Time)
      modifies this
      ensures Did(Writes.ClearReservations(cutoff), true)
      ensures forall k :: 0 <= k < |nodes| ==>
        var was := old(nodes)[k];
        var expired := was.reservedUntil.Some? && was.reservedUntil.value < cutoff;
        nodes[k] == if was.status == Pending && was.reservedFor.Some? && expired
                    then was.(reservedFor := None, reservedUntil := None) else was
      ensures status == old(status) && log == old(log)
    {
      nodes := Cleared(nodes, cutoff);
    }

    method CancelTaskNodes()
      modifies this
      ensures Did(Writes.CancelNodes, true)
      ensures forall k :: 0 <= k < |nodes| ==> WasReset(old(nodes)[k], nodes[k])
      ensures status == old(status) && log == old(log)
    {
      nodes := ResetAll(nodes);
    }

    method DeleteTask()
      modifies this
      ensures Did(Writes.DeleteTask, true)
      ensures forall k :: 0 <= k < |nodes| ==> WasReset(old(nodes)[k], nodes[k])
      ensures status == Cancelled && log == old(log)
    {
      status := Cancelled;
      nodes := ResetAll(nodes);
    }
  }
}
