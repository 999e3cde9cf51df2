/** The service layer: each operation reads, checks its guards in order, then writes through the
    store. Run without interference, an operation is exactly one fresh write or no change. */
module NodeService {
  import opened Types
  import W = Writes
  import P = Protocol
  import opened TaskStore

  datatype Refusal =
    | NotFound | TaskClosed | NoAccess | PreviousNotCompleted | DependencyMissing | DependencyNotCompleted
    | SelfReview | ReservedForAnother | WrongStatus | NoPreviousNode | TargetNotFound | TargetNotEarlier
    | TargetNotForAgents | NotTheHolder | Conflict

  datatype Outcome = Done | AlreadyHeld | Refused(why: Refusal)

  /** Exactly when a claim goes through: the service's guards and the WHERE clause of the claim. */
  predicate ClaimGranted(d: Db, i: nat, op: Id, byAgent: bool, access: bool) {
    && i < |d.nodes| && d.status == Active && (byAgent ==> access)
    && (byAgent && d.nodes[i].nodeType == Review ==> PrevStandardAssignee(d.nodes, i) != Some(op))
    && W.Claimable(d.nodes, i, d.nodes[i].version, op, byAgent)
  }

  class Service {
    const store: Store

    constructor (store: Store)
      ensures this.store == store
    {
      this.store := store;
    }

    /** access: the agent may act in the project and holds task:claim. */
    method Claim(i: nat, op: Id, byAgent: bool, access: bool, now: Time) returns (r: Outcome)
      modifies store
      ensures r == Done <==> ClaimGranted(old(store.View()), i, op, byAgent, access)
      ensures r == Done ==> W.Step(old(store.View()), W.Claim(i, old(store.nodes)[i], op, byAgent), store.View())
      ensures r == Done ==>
        var was := old(store.nodes)[i];
        && was.status == Pending
        && store.nodes == old(store.nodes)[i := was.(status := InProgress, assignee := Some(op),
                                                     assigneeType := if byAgent then SpecificAgent else Human,
                                                     reservedFor := if byAgent then Some(op) else was.reservedFor,
                                                     version := was.version + 1)]
        && store.log == old(store.log) + [Transition(i, Pending, InProgress, ReclaimAction)]
      ensures r != Done ==> store.View() == old(store.View())
      ensures r == AlreadyHeld ==>
        i < |store.nodes| && store.nodes[i].status == InProgress && store.nodes[i].assignee == Some(op)
      ensures r == Refused(NotFound) <==> i >= |old(store.nodes)|
      ensures r == Refused(TaskClosed) ==> old(store.status) != Active
      ensures r == Refused(PreviousNotCompleted) ==> i < |old(store.nodes)| && !LinearReady(old(store.nodes), i)
      ensures r == Refused(DependencyMissing) || r == Refused(DependencyNotCompleted) ==>
        i < |old(store.nodes)| && !DependenciesCompleted(old(store.nodes), i)
      ensures r == Refused(SelfReview) ==>
        byAgent && i < |old(store.nodes)| && PrevStandardAssignee(old(store.nodes), i) == Some(op)
      ensures r == Refused(ReservedForAnother) ==>
        && byAgent && i < |old(store.nodes)|
        && old(store.nodes)[i].reservedFor.Some? && old(store.nodes)[i].reservedFor != Some(op)
    {
      if i >= |store.nodes| {
        return Refused(NotFound);
      }
      var node := store.nodes[i];
      if store.status == Cancelled || store.status == Finished {
        return Refused(TaskClosed);
      }
      if byAgent && !access {
        return Refused(NoAccess);
      }
      if i > 0 && store.nodes[i - 1].status != Completed {
        return Refused(PreviousNotCompleted);
      }
      for k := 0 to |node.dependsOn|
        invariant store.View() == old(store.View())
        invariant forall m :: 0 <= m < k ==>
          node.dependsOn[m] < |store.nodes| && store.nodes[node.dependsOn[m]].status == Completed
      {
        var dep := node.dependsOn[k];
        if dep >= |store.nodes| {
          return Refused(DependencyMissing);
        }
        if store.nodes[dep].status != Completed {
          return Refused(DependencyNotCompleted);
        }
      }
      if byAgent && node.nodeType == Review && PrevStandardAssignee(store.nodes, i) == Some(op) {
        return Refused(SelfReview);
      }
      if byAgent && node.reservedFor.Some? && node.reservedFor.value != op {
        if node.reservedUntil.Some? && node.reservedUntil.value > now {
          return Refused(ReservedForAnother);
        }
      }
      var ok;
      if !byAgent {
        ok := store.ClaimTaskNodeByHuman(i, node.version, op);
      } else if node.status == InProgress {
        if node.assignee == Some(op) {
          return AlreadyHeld;
        }
        // The parameter conversion fills in only the id and the version: the reservation compared with is NULL.
        ok := store.ReclaimTaskNode(i, None, node.version);
      } else {
        ok := store.ClaimTaskNode(i, node.version, op);
      }
      if !ok {
        return Refused(Conflict);
      }
      var from := if node.status == InProgress then InProgress else Pending;
      store.CreateNodeTransition(Transition(i, from, InProgress, ReclaimAction));
      return Done;
    }

    /** Approve and CompleteStandardNode: the latter skips the permission check. In a linear task
        an approval that passes the guards never fails in the transaction. */
    method Approve(i: nat, op: Option<Id>, byAgent: bool, permitted: bool, complete: bool, now: Time)
      returns (r: Outcome)
      modifies store
      ensures r == Done ==> i < |old(store.nodes)|
      ensures r == Done ==>
        W.Step(old(store.View()),
               W.Approve(i, old(store.nodes)[i], if byAgent || complete then op else None, now), store.View())
      ensures r == Done ==>
        store.nodes[i] == old(store.nodes)[i].(status := Completed, version := old(store.nodes)[i].version + 1,
                                               completedAt := Some(now), reservedUntil := None,
                                               completedBy := if byAgent || complete then op else None)
      ensures r == Done && i + 1 < |store.nodes| && old(store.nodes)[i + 1].status != InProgress ==>
        var was, next, row := old(store.nodes)[i], old(store.nodes)[i + 1], store.nodes[i + 1];
        && row.status == Pending
        && row.reservedFor == (if was.assignee.None? || (was.nodeType == Standard && next.nodeType == Review)
                               then next.reservedFor else was.assignee)
      ensures r != Done ==> store.View() == old(store.View())
      ensures P.Linear(old(store.nodes)) ==>
        (r == Done <==>
           i < |old(store.nodes)| && old(store.nodes)[i].status == InProgress && (byAgent && !complete ==> permitted))
    {
      if i >= |store.nodes| {
        return Refused(NotFound);
      }
      var node := store.nodes[i];
      if node.status != InProgress {
        return Refused(WrongStatus);
      }
      if byAgent && !complete && !permitted {
        return Refused(NoAccess);
      }
      var ok := store.ApproveNodeInTx(i, node, if byAgent || complete then op else None, now);
      return if ok then Done else Refused(Conflict);
    }

    method Reject(i: nat, byAgent: bool, permitted: bool, requested: Option<nat>) returns (r: Outcome)
      modifies store
      ensures r == Done <==>
        && i < |old(store.nodes)| && old(store.nodes)[i].status == InProgress && (byAgent ==> permitted)
        && (requested.None? ==> i > 0) && (requested.Some? ==> requested.value < i)
        && var t := old(store.nodes)[if requested.Some? then requested.value else i - 1];
           t.nodeType != ManualStep && t.assigneeType != Human
      ensures r == Done ==>
        var t := if requested.Some? then requested.value else i - 1;
        W.Step(old(store.View()), W.Reject(i, old(store.nodes)[i], t, old(store.nodes)[t].RejectLimit()), store.View())
      ensures r == Done ==>
        var t := if requested.Some? then requested.value else i - 1;
        var was, row, target, rolled := old(store.nodes)[i], store.nodes[i], old(store.nodes)[t], store.nodes[t];
        var limit := if target.maxRejectCycles > 0 then target.maxRejectCycles else 5;
        && row.status == Rejected && row.rejectCount == was.rejectCount + 1 && row.assignee == was.assignee
        && rolled.rejectCount == target.rejectCount + 1
        && rolled.status == (if target.rejectCount + 1 >= limit then Manual else Pending)
        && (rolled.status == Manual ==> rolled.assigneeType == Human && rolled.assignee == target.assignee)
        && (rolled.status == Pending ==> rolled.assigneeType == AnyAgent && rolled.reservedFor == target.assignee)
        && forall k :: 0 <= k < |store.nodes| && k != i && k != t ==> store.nodes[k] == old(store.nodes)[k]
      ensures r != Done ==> store.View() == old(store.View())
    {
      if i >= |store.nodes| {
        return Refused(NotFound);
      }
      var node := store.nodes[i];
      if node.status != InProgress {
        return Refused(WrongStatus);
      }
      if byAgent && !permitted {
        return Refused(NoAccess);
      }
      var t;
      if requested.Some? {
        t := requested.value;
      } else {
        if i == 0 {
          return Refused(NoPreviousNode);
        }
        t := i - 1;
      }
      if t >= |store.nodes| {
        return Refused(TargetNotFound);
      }
      var target := store.nodes[t];
      if t >= i {
        return Refused(TargetNotEarlier);
      }
      if target.nodeType == ManualStep || target.assigneeType == Human {
        return Refused(TargetNotForAgents);
      }
      var limit := 5;
      if target.maxRejectCycles > 0 {
        limit := target.maxRejectCycles;
      }
      var ok := store.RejectNodeInTx(i, node, t, limit);
      return if ok then Done else Refused(Conflict);
    }

    method ManualIntervention(i: nat, byAgent: bool, permitted: bool) returns (r: Outcome)
      modifies store
      ensures r == Done <==>
        i < |old(store.nodes)| && old(store.nodes)[i].status == InProgress && (byAgent ==> permitted)
      ensures r == Done ==> W.Step(old(store.View()), W.Park(i, old(store.nodes)[i], false), store.View())
      ensures r == Done ==>
        var was := old(store.nodes)[i];
        && store.nodes == old(store.nodes)[i := was.(status := Manual, assigneeType := Human, reservedFor := None,
                                                     reservedUntil := None, version := was.version + 1,
                                                     completedAt := None, completedBy := was.assignee)]
        && store.log == old(store.log) + [Transition(i, InProgress, Manual, ManualAction)]
      ensures r != Done ==> store.View() == old(store.View())
    {
      if i >= |store.nodes| {
        return Refused(NotFound);
      }
      var node := store.nodes[i];
      if node.status != InProgress {
        return Refused(WrongStatus);
      }
      if byAgent && !permitted {
        return Refused(NoAccess);
      }
      var ok := store.UpdateTaskNodeStatus(i,
        NodeUpdate(Manual, Human, node.assignee, None, node.rejectCount, None, node.assignee, None),
        node.version, node.status);
      store.CreateNodeTransition(Transition(i, node.status, Manual, ManualAction));
      return Done;
    }

    method Resolve(i: nat, op: Option<Id>, agent: Option<Id>, complete: bool, now: Time) returns (r: Outcome)
      modifies store
      ensures r == Done <==> i < |old(store.nodes)| && old(store.nodes)[i].status == Manual
      ensures r == Done ==>
        W.Step(old(store.View()), W.Resolve(i, old(store.nodes)[i], op, agent, complete, now), store.View())
      ensures r == Done && complete ==>
        var was := old(store.nodes)[i];
        && store.nodes == old(store.nodes)[i := was.(status := Completed, completedAt := Some(now), completedBy := op,
                                                     reservedUntil := None, version := was.version + 1)]
        && store.log == old(store.log) + [Transition(i, Manual, Completed, ManualAction)]
      ensures r == Done && !complete ==>
        var was, row := old(store.nodes)[i], store.nodes[i];
        && row.assignee == (if agent.Some? then agent else was.assignee)
        && store.nodes == old(store.nodes)[i := was.(status := Pending, assigneeType := AnyAgent, rejectCount := 0,
                                                     assignee := row.assignee, completedBy := row.assignee,
                                                     reservedFor := None, reservedUntil := None, completedAt := None,
                                                     version := was.version + 1)]
        && store.log == old(store.log) + [Transition(i, Manual, Pending, ManualAction)]
      ensures r != Done ==> store.View() == old(store.View())
    {
      if i >= |store.nodes| {
        return Refused(NotFound);
      }
      var node := store.nodes[i];
      if node.status != Manual {
        return Refused(WrongStatus);
      }
      if complete {
        var ok := store.UpdateTaskNodeStatus(i,
          NodeUpdate(Completed, node.assigneeType, node.assignee, node.reservedFor, node.rejectCount, Some(now), op,
                     None),
          node.version, node.status);
        store.CreateNodeTransition(Transition(i, Manual, Completed, ManualAction));
        return Done;
      }
      var assignee := node.assignee;
      if agent.Some? {
        assignee := agent;
      }
      var ok := store.UpdateTaskNodeStatus(i,
        NodeUpdate(Pending, AnyAgent, assignee, None, 0, None, assignee, None), node.version, node.status);
      store.CreateNodeTransition(Transition(i, Manual, Pending, ManualAction));
      return Done;
    }

    method SkipClaim(i: nat, op: Id, permitted: bool) returns (r: Outcome)
      modifies store
      ensures r == Done <==> i < |old(store.nodes)| && old(store.nodes)[i].reservedFor == Some(op) && permitted
      ensures r == Done ==> W.Step(old(store.View()), W.Skip(i, old(store.nodes)[i]), store.View())
      ensures r == Done ==>
        var was := old(store.nodes)[i];
        && store.nodes == old(store.nodes)[i := was.(reservedFor := None, reservedUntil := None, completedAt := None,
                                                     completedBy := was.assignee, version := was.version + 1)]
        && store.log == old(store.log) + [Transition(i, was.status, was.status, ReclaimAction)]
      ensures r != Done ==> store.View() == old(store.View())
    {
      if i >= |store.nodes| {
        return Refused(NotFound);
      }
      var node := store.nodes[i];
      if node.reservedFor != Some(op) {
        return Refused(NotTheHolder);
      }
      if !permitted {
        return Refused(NoAccess);
      }
      var ok := store.UpdateTaskNodeStatus(i,
        NodeUpdate(node.status, node.assigneeType, node.assignee, None, node.rejectCount, None, node.assignee, None),
        node.version, node.status);
      store.CreateNodeTransition(Transition(i, node.status, node.status, ReclaimAction));
      return Done;
    }

    /** Without interference between listing and transaction, an interrupt cannot fail. */
    method InterruptTask(byAgent: bool, permitted: bool) returns (r: Outcome, interrupted: nat)
      modifies store
      ensures r == Done <==> (byAgent ==> permitted)
      ensures r == Done ==> W.Step(old(store.View()), W.Interrupt(old(store.nodes)), store.View())
      ensures r == Done ==> forall k :: 0 <= k < |store.nodes| ==>
        var was := old(store.nodes)[k];
        store.nodes[k] == if was.status != InProgress then was
                          else was.(status := Manual, assigneeType := Human, reservedFor := None, completedAt := None,
                                    completedBy := None, reservedUntil := None, version := was.version + 1)
      ensures r == Done ==> |store.log| == |old(store.log)| + interrupted
      ensures r != Done ==> store.View() == old(store.View())
    {
      if byAgent && !permitted {
        return Refused(NoAccess), 0;
      }
      var ok, _, count := store.InterruptInProgressNodes(store.nodes);
      return Done, count;
    }

    /** An agent confirms an interrupt: a record from and to the status it saw, whatever that is. */
    method InterruptAck(i: nat, op: Id) returns (r: Outcome)
      modifies store
      ensures r == Done <==> i < |old(store.nodes)| && old(store.nodes)[i].assignee == Some(op)
      ensures r == Done ==> W.Step(old(store.View()), W.Acknowledge(i, old(store.nodes)[i], op), store.View())
      ensures r == Done ==>
        var status := old(store.nodes)[i].status;
        store.nodes == old(store.nodes) && store.log == old(store.log) + [Transition(i, status, status, AckAction)]
      ensures r != Done ==> store.View() == old(store.View())
    {
      if i >= |store.nodes| {
        return Refused(NotFound);
      }
      var node := store.nodes[i];
      if node.assignee != Some(op) {
        return Refused(NotTheHolder);
      }
      store.CreateNodeTransition(Transition(i, node.status, node.status, AckAction));
      return Done;
    }

    /** Cancelling a task: refused once it is finished or cancelled, otherwise the status first and then
        the reset of its nodes, two whole operations. */
    method CancelTask(permitted: bool) returns (r: Outcome, ghost between: Db)
      modifies store
      ensures r == Done <==> old(store.status) == Active && permitted
      ensures r == Done ==>
        && W.Step(old(store.View()), W.Cancel, between)
        && W.Step(between, W.CancelNodes, store.View())
      ensures r != Done ==> store.View() == old(store.View())
    {
      between := store.View();
      if store.status == Finished || store.status == Cancelled {
        return Refused(TaskClosed), between;
      }
      if !permitted {
        return Refused(NoAccess), between;
      }
      store.SetCancelled();
      between := store.View();
      store.CancelTaskNodes();
      return Done, between;
    }
  }
}
