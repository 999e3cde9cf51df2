/** Liveness: from every reachable state of an active task some sequence of steps the server accepts
    finishes it, and exactly when that is so. */
module Progress {
  import opened Types
  import opened Writes
  import opened Protocol
  import opened Rollback
  import opened Reservations
  import NodeService

  // ----- the way to the end

  predicate Backward(ns: seq<Node>, i: nat)
    requires i < |ns|
  {
    forall k :: 0 <= k < |ns[i].dependsOn| ==> ns[i].dependsOn[k] < i
  }

  /** Every node that still has to be claimed depends on earlier nodes only. */
  ghost predicate BackwardAhead(ns: seq<Node>) {
    forall i :: Frontier(ns) <= i < |ns| && !(i == Frontier(ns) && ns[i].status == InProgress) ==> Backward(ns, i)
  }

  /** What every reachable state satisfies. */
  ghost predicate Sane(d: Db) {
    Linear(d.nodes) && NoSelfReview(d.nodes) && RejectedWait(d.nodes) && PrefixImpartial(d.nodes)
  }

  ghost predicate Healthy(d: Db) {
    Sane(d) && ReservationsUsable(d.nodes)
  }

  lemma SaneStep(d: Db, w: Write, d': Db)
    requires Sane(d) && Step(d, w, d') && ByWork(w)
    ensures Sane(d')
    ensures Healthy(d) ==> Healthy(d')
  {
    LinearStep(d, w, d');
    NoSelfReviewStep(d, w, d');
    RejectedWaitStep(d, w, d');
    PrefixImpartialStep(d, w, d');
    if Healthy(d) {
      ReservationsUsableStep(d, w, d');
    }
  }

  /** Every reservation that is still to be used is usable by a claimant, and will be. */
  ghost predicate Smooth(d: Db, agents: Agents) {
    && Healthy(d) && CountsNatural(d.nodes)
    && ReservationsHeld(d.nodes, agents.claimants) && WorkedBy(d.nodes, agents.claimants)
  }

  lemma SmoothStep(d: Db, w: Write, d': Db, agents: Agents)
    requires Smooth(d, agents) && Step(d, w, d') && ByWork(w) && Served(d, w, agents) && d'.status == Active
    ensures Smooth(d', agents)
  {
    SaneStep(d, w, d');
    CountsNaturalStep(d, w, d');
    WorkedByStep(d, w, d', agents, agents.claimants);
    ReservationsHeldStep(d, w, d', agents, agents.claimants);
  }

  /** The people a plan needs: two claimants, because nobody reviews their own work, and a member. */
  datatype Team = Team(first: Id, second: Id, member: Id)

  predicate Staffed(team: Team, agents: Agents) {
    team.first in agents.claimants && team.second in agents.claimants && team.first != team.second
  }

  /** Somebody who may claim the agents' node f. */
  function Claimant(ns: seq<Node>, f: nat, team: Team): (op: Id)
    requires f < |ns| && team.first != team.second
    ensures ns[f].reservedFor.Some? ==> ns[f].reservedFor == Some(op)
    ensures ns[f].reservedFor.None? ==> PrevStandardAssignee(ns, f) != Some(op)
  {
    if ns[f].reservedFor.Some? then ns[f].reservedFor.value
    else if PrevStandardAssignee(ns, f) == Some(team.first) then team.second else team.first
  }

  /** A claimant can take the agents' node f as it is reserved now. */
  predicate Takable(ns: seq<Node>, f: nat, agents: Agents)
    requires f < |ns|
  {
    Usable(ns, f) && Held(ns, f, agents.claimants)
  }

  /** The next planned step. A member claims a human's node whatever its reservation. Otherwise an
      expired reservation is cleared, one that cannot be used is given up by its holder, and an agent
      claims. */
  function Plan(d: Db, agents: Agents, team: Team): Write
    requires Frontier(d.nodes) < |d.nodes| && team.first != team.second
  {
    var f := Frontier(d.nodes);
    var n := d.nodes[f];
    if n.status == InProgress then Approve(f, n, None, 0)
    else if n.status == Manual then Resolve(f, n, None, None, false, 0)
    else if n.assigneeType == Human then Claim(f, n, team.member, false)
    else if n.reservedFor.Some? && n.reservedUntil.Some? then ClearReservations(n.reservedUntil.value + 1)
    else if !Takable(d.nodes, f, agents) then Skip(f, n)
    else Claim(f, n, Claimant(d.nodes, f, team), true)
  }

  function RowPhase(n: Node, takable: bool): nat {
    if n.status == InProgress then 1
    else if n.status != Pending then 4
    else if n.assigneeType == Human then 2
    else if (n.reservedFor.Some? && n.reservedUntil.Some?) || !takable then 3
    else 2
  }

  function Phase(ns: seq<Node>, agents: Agents): nat {
    var f := Frontier(ns);
    if f == |ns| then 0 else RowPhase(ns[f], Takable(ns, f, agents))
  }

  /** The steps of a plan. */
  predicate Planned(w: Write) {
    w.Claim? || w.Approve? || w.ClearReservations? || w.Skip? || (w.Resolve? && !w.complete)
  }

  /** A state from which the plan works: unfinished, and the node next in line is not reserved for
      somebody who can neither use nor give up the reservation. */
  ghost predicate Promising(d: Db, agents: Agents) {
    && Sane(d) && d.status == Active && Frontier(d.nodes) < |d.nodes| && BackwardAhead(d.nodes)
    && Held(d.nodes, Frontier(d.nodes), agents.holders)
  }

  /** The planned step is always allowed, by the database and by the server. */
  lemma PlanAllowed(d: Db, agents: Agents, team: Team) returns (d': Db)
    requires Promising(d, agents) && Staffed(team, agents)
    ensures Step(d, Plan(d, agents, team), d') && Served(d, Plan(d, agents, team), agents)
    ensures Planned(Plan(d, agents, team)) && (Plan(d, agents, team).Skip? ==> !Smooth(d, agents))
  {
    var ns, f, w := d.nodes, Frontier(d.nodes), Plan(d, agents, team);
    assert ns[f].status != Rejected;
    assert ns[f].status == Pending ==> Backward(ns, f) && Open(ns, f);
    assert w.Claim? ==> Claimable(ns, f, w.seen.version, w.op, w.byAgent);
    if w.Approve? {
      GuardsSuffice(d, w);
    }
    d' := Exec(d, w).value;
  }

  /** The service grants the planned claim with all its checks, the reservation check included; the
      other planned steps are granted on the row of their node alone. */
  lemma PlannedClaimGranted(d: Db, agents: Agents, team: Team)
    requires Promising(d, agents) && Staffed(team, agents)
    ensures var w := Plan(d, agents, team);
      && (w.Claim? ==> NodeService.ClaimGranted(d, w.i, w.op, w.byAgent, w.op in agents.claimants))
      && (w.Skip? ==> d.nodes[w.i].reservedFor.Some? && d.nodes[w.i].reservedFor.value in agents.holders)
      && (w.Approve? ==> d.nodes[w.i].status == InProgress)
      && (w.Resolve? ==> d.nodes[w.i].status == Manual)
  {
    var d' := PlanAllowed(d, agents, team);
  }

  lemma ApprovalAdvances(d: Db, w: Write, d': Db)
    requires Linear(d.nodes) && Step(d, w, d') && w.Approve? && w.i == Frontier(d.nodes) && d.status == Active
    ensures d'.status == Finished || (d'.status == Active && w.i + 1 < |d'.nodes| && Frontier(d'.nodes) == w.i + 1)
  {
    if w.i + 1 < |d.nodes| {
      assert d'.nodes[w.i + 1].status == Pending by { assert Open(d.nodes, w.i) && !Open(d.nodes, w.i + 1); }
      FrontierAt(d'.nodes, w.i + 1);
    }
  }

  /** The row of the frontier node after any other planned step. */
  lemma PlannedRow(d: Db, agents: Agents, team: Team, d': Db)
    requires Promising(d, agents) && Staffed(team, agents)
    requires Step(d, Plan(d, agents, team), d') && !Plan(d, agents, team).Approve?
    ensures var f := Frontier(d.nodes);
      && d'.status == Active && |d'.nodes| == |d.nodes| && PrefixCompleted(d'.nodes, f)
      && (d'.nodes[f].status == InProgress || d'.nodes[f].status == Pending)
      && RowPhase(d'.nodes[f], Takable(d'.nodes, f, agents)) < RowPhase(d.nodes[f], Takable(d.nodes, f, agents))
      && (d'.nodes[f].status == Pending ==> d'.nodes[f].reservedFor.None?)
  {
    assert d.nodes[Frontier(d.nodes)].status != Rejected;
  }

  /** d' is closer to the end than d. */
  predicate Closer(d': Db, d: Db, agents: Agents) {
    && |d'.nodes| == |d.nodes|
    && (Frontier(d'.nodes) > Frontier(d.nodes) ||
        (Frontier(d'.nodes) == Frontier(d.nodes) && Phase(d'.nodes, agents) < Phase(d.nodes, agents)))
  }

  /** The planned step brings the task closer to its end. */
  lemma PlanAdvances(d: Db, agents: Agents, team: Team, d': Db)
    requires Promising(d, agents) && Staffed(team, agents) && Step(d, Plan(d, agents, team), d')
    ensures d'.status == Finished ||
      (d'.status == Active && Frontier(d'.nodes) < |d'.nodes| && Closer(d', d, agents))
  {
    if Plan(d, agents, team).Approve? {
      ApprovalAdvances(d, Plan(d, agents, team), d');
    } else {
      PlannedRow(d, agents, team, d');
      FrontierAt(d'.nodes, Frontier(d.nodes));
    }
  }

  lemma PlanKeepsHeld(d: Db, agents: Agents, team: Team, d': Db)
    requires Promising(d, agents) && Staffed(team, agents) && Step(d, Plan(d, agents, team), d')
    requires d'.status == Active && Frontier(d'.nodes) < |d'.nodes|
    ensures Held(d'.nodes, Frontier(d'.nodes), agents.holders)
  {
    if Plan(d, agents, team).Approve? {
      ApprovalAdvances(d, Plan(d, agents, team), d');
      HeldNext(d, Plan(d, agents, team), d', agents.holders);
    } else {
      PlannedRow(d, agents, team, d');
      FrontierAt(d'.nodes, Frontier(d.nodes));
    }
  }

  lemma BackwardKept(d: Db, w: Write, d': Db)
    requires Step(d, w, d') && BackwardAhead(d.nodes) && Frontier(d.nodes) < |d.nodes|
    requires Frontier(d'.nodes) >= Frontier(d.nodes)
    requires Frontier(d'.nodes) == Frontier(d.nodes) ==> d.nodes[Frontier(d.nodes)].status != InProgress
    ensures BackwardAhead(d'.nodes)
  {
    StaticStep(d, w, d');
    assert forall i :: 0 <= i < |d.nodes| && Backward(d.nodes, i) ==> Backward(d'.nodes, i);
  }

  lemma FrontierAt(ns: seq<Node>, f: nat)
    requires f < |ns| && PrefixCompleted(ns, f) && ns[f].status != Completed
    ensures Frontier(ns) == f
  {
  }

  /** One planned step leaves a finished task or a state from which the plan works again. */
  lemma PlanStep(d: Db, agents: Agents, team: Team) returns (w: Write, d': Db)
    requires Promising(d, agents) && Staffed(team, agents)
    ensures Step(d, w, d') && Served(d, w, agents) && Planned(w)
    ensures Smooth(d, agents) ==> !w.Skip? && (d'.status != Finished ==> Smooth(d', agents))
    ensures d'.status != Finished ==> Promising(d', agents) && Closer(d', d, agents)
  {
    w := Plan(d, agents, team);
    d' := PlanAllowed(d, agents, team);
    PlanAdvances(d, agents, team, d');
    SaneStep(d, w, d');
    if d'.status != Finished {
      BackwardKept(d, w, d');
      PlanKeepsHeld(d, agents, team, d');
      if Smooth(d, agents) {
        SmoothStep(d, w, d', agents);
      }
    }
  }

  /** The plan, step by step, to the end; a reservation is only given up where it cannot be used. */
  lemma {:induction false} PlanFinishes(d: Db, agents: Agents, team: Team) returns (ds: seq<Db>, ws: seq<Write>)
    requires Promising(d, agents) && Staffed(team, agents)
    ensures Run(ds, ws) && AllServed(ds, ws, agents) && ds[0] == d && ds[|ds| - 1].status == Finished
    ensures forall k :: 0 <= k < |ws| ==> Planned(ws[k]) && (Smooth(d, agents) ==> !ws[k].Skip?)
    decreases |d.nodes| - Frontier(d.nodes), Phase(d.nodes, agents)
  {
    var w, d' := PlanStep(d, agents, team);
    if d'.status == Finished {
      JustOne(d, w, d', agents);
      ds, ws := [d, d'], [w];
    } else {
      var rest, steps := PlanFinishes(d', agents, team);
      Prepend(d, w, rest, steps, agents);
      ds, ws := [d] + rest, [w] + steps;
    }
  }

  lemma JustOne(d: Db, w: Write, d': Db, agents: Agents)
    requires Step(d, w, d') && Served(d, w, agents)
    ensures Run([d, d'], [w]) && AllServed([d, d'], [w], agents)
  {
    assert StepAt([d, d'], [w], 0) && ServedAt([d, d'], [w], 0, agents);
  }

  lemma Prepend(d: Db, w: Write, ds: seq<Db>, ws: seq<Write>, agents: Agents)
    requires Run(ds, ws) && Step(d, w, ds[0]) && Served(d, w, agents) && AllServed(ds, ws, agents)
    ensures Run([d] + ds, [w] + ws) && AllServed([d] + ds, [w] + ws, agents)
  {
    var all, steps := [d] + ds, [w] + ws;
    forall k | 0 <= k < |steps|
      ensures StepAt(all, steps, k) && ServedAt(all, steps, k, agents)
    {
      assert k > 0 ==> StepAt(ds, ws, k - 1) && ServedAt(ds, ws, k - 1, agents);
    }
  }

  /** A reservation that no claimant can use can be given up by its holder, in the project or not, and
      then nothing is in the way any more. */
  lemma GiveUpReservation(d: Db, agents: Agents) returns (d': Db)
    requires Promising(d, agents) && !Takable(d.nodes, Frontier(d.nodes), agents)
    requires d.nodes[Frontier(d.nodes)].status == Pending
    ensures var w := Skip(Frontier(d.nodes), d.nodes[Frontier(d.nodes)]);
      Step(d, w, d') && Served(d, w, agents)
    ensures Promising(d', agents) && Frontier(d'.nodes) == Frontier(d.nodes)
    ensures Takable(d'.nodes, Frontier(d'.nodes), agents) && ReservationsUsable(d'.nodes)
  {
    var f := Frontier(d.nodes);
    var w := Skip(f, d.nodes[f]);
    d' := Exec(d, w).value;
    SaneStep(d, w, d');
    FrontierAt(d'.nodes, f);
    BackwardKept(d, w, d');
    assert forall i :: 0 <= i < |d.nodes| && PrefixCompleted(d'.nodes, i) ==> i <= f;
  }

  // ----- reachable states

  /** A run without completion by hand in which the server accepted every step. */
  ghost predicate ServedRun(ds: seq<Db>, ws: seq<Write>, agents: Agents) {
    WorkRun(ds, ws) && AllServed(ds, ws, agents)
  }

  lemma {:induction false} SaneRun(ds: seq<Db>, ws: seq<Write>, k: nat)
    requires WorkRun(ds, ws) && k < |ds|
    ensures Sane(ds[k])
    ensures ReservationsUsable(ds[0].nodes) ==> Healthy(ds[k])
  {
    if k > 0 {
      SaneRun(ds, ws, k - 1);
      assert StepAt(ds, ws, k - 1) && ByWork(ws[k - 1]);
      SaneStep(ds[k - 1], ws[k - 1], ds[k]);
    } else {
      RunInvariant(ds, ws, 0);
      forall i | 0 <= i < |ds[0].nodes| && PrefixCompleted(ds[0].nodes, i + 1)
        ensures Impartial(ds[0].nodes, i)
      {
        assert ds[0].nodes[i].status == Completed;
      }
    }
  }

  /** Nobody outside ids holds the node next in line, or did work that a rejection can hand back. */
  ghost predicate Safe(ns: seq<Node>, ids: set<Id>) {
    ReservationsHeld(ns, ids) && WorkedBy(ns, ids)
  }

  lemma {:induction false} SafeRun(ds: seq<Db>, ws: seq<Write>, k: nat, agents: Agents, ids: set<Id>)
    requires ServedRun(ds, ws, agents) && k < |ds| && Safe(ds[0].nodes, ids) && agents.claimants <= ids
    ensures WorkedBy(ds[k].nodes, ids) && CountsNatural(ds[k].nodes)
    ensures ds[k].status == Active ==> ReservationsHeld(ds[k].nodes, ids)
  {
    if k > 0 {
      SafeRun(ds, ws, k - 1, agents, ids);
      RunInvariant(ds, ws, k - 1);
      var d, w, d' := ds[k - 1], ws[k - 1], ds[k];
      assert StepAt(ds, ws, k - 1) && ByWork(w) && ServedAt(ds, ws, k - 1, agents);
      CountsNaturalStep(d, w, d');
      WorkedByStep(d, w, d', agents, ids);
      if d'.status == Active {
        ReservationsHeldStep(d, w, d', agents, ids);
      }
    }
  }

  /** An active task is never left with all nodes completed, unless it was created that way. */
  lemma {:induction false} ActiveHasWork(ds: seq<Db>, ws: seq<Write>, k: nat)
    requires WorkRun(ds, ws) && !AllCompleted(ds[0]) && k < |ds|
    ensures ds[k].status == Active ==> !AllCompleted(ds[k])
  {
    if k > 0 {
      ActiveHasWork(ds, ws, k - 1);
      RunInvariant(ds, ws, k - 1);
      RunInvariant(ds, ws, 0);
      var d, w, d' := ds[k - 1], ws[k - 1], ds[k];
      assert StepAt(ds, ws, k - 1) && ByWork(w);
      if d'.status == Active && AllCompleted(d') && !(w.Approve? && w.i == |d.nodes| - 1) {
        PrefixShrinks(d, w, d', |d.nodes|);
      }
    }
  }

  /** No reachable state of an active task is a dead end: agents and a member can finish it, and nobody has
      to give up a reservation unless somebody but a claimant had one or work in hand at the start. */
  lemma CanAlwaysFinish(ds: seq<Db>, ws: seq<Write>, k: nat, agents: Agents, team: Team)
    returns (rest: seq<Db>, steps: seq<Write>)
    requires ServedRun(ds, ws, agents) && k < |ds| && ds[k].status == Active && !AllCompleted(ds[0])
    requires Safe(ds[0].nodes, agents.holders) && Staffed(team, agents)
    requires forall i :: 0 <= i < |ds[k].nodes| ==> Backward(ds[k].nodes, i)
    ensures Run(rest, steps) && AllServed(rest, steps, agents)
    ensures rest[0] == ds[k] && rest[|rest| - 1].status == Finished
    ensures forall m :: 0 <= m < |steps| ==> Planned(steps[m])
    ensures ReservationsUsable(ds[0].nodes) && Safe(ds[0].nodes, agents.claimants) ==>
      forall m :: 0 <= m < |steps| ==> !steps[m].Skip?
  {
    SaneRun(ds, ws, k);
    SafeRun(ds, ws, k, agents, agents.holders);
    if Safe(ds[0].nodes, agents.claimants) {
      SafeRun(ds, ws, k, agents, agents.claimants);
    }
    ActiveHasWork(ds, ws, k);
    rest, steps := PlanFinishes(ds[k], agents, team);
  }

  // ----- exactly which tasks can finish

  ghost predicate CanFinish(d: Db, agents: Agents) {
    exists ds: seq<Db>, ws: seq<Write> ::
      Run(ds, ws) && AllServed(ds, ws, agents) && ds[0] == d && ds[|ds| - 1].status == Finished
  }

  /** Nodes from i on have never been started, and never will be. */
  ghost predicate Blocked(d: Db, i: nat) {
    && i < |d.nodes| && d.status != Finished && !Backward(d.nodes, i)
    && forall j :: i <= j < |d.nodes| ==> d.nodes[j].status == Pending
  }

  lemma {:induction false} BlockedForGood(ds: seq<Db>, ws: seq<Write>, k: nat, i: nat)
    requires Run(ds, ws) && Blocked(ds[0], i) && k < |ds|
    ensures Blocked(ds[k], i)
  {
    if k > 0 {
      BlockedForGood(ds, ws, k - 1, i);
      assert StepAt(ds, ws, k - 1);
      BlockedStep(ds[k - 1], ws[k - 1], ds[k], i);
    }
  }

  lemma BlockedRows(d: Db, w: Write, d': Db, i: nat)
    requires Blocked(d, i) && Step(d, w, d') && !DependenciesCompleted(d.nodes, i)
    ensures forall j :: i <= j < |d.nodes| ==> d'.nodes[j].status == Pending
    ensures d'.status != Finished
  {
  }

  lemma BlockedStep(d: Db, w: Write, d': Db, i: nat)
    requires Blocked(d, i) && Step(d, w, d')
    ensures Blocked(d', i)
  {
    StaticStep(d, w, d');
    var k :| 0 <= k < |d.nodes[i].dependsOn| && d.nodes[i].dependsOn[k] >= i;
    assert !DependenciesCompleted(d.nodes, i);
    assert d'.nodes[i].dependsOn[k] >= i;
    BlockedRows(d, w, d', i);
  }

  lemma {:induction false} CompletedNeverFinishes(ds: seq<Db>, ws: seq<Write>, k: nat)
    requires Run(ds, ws) && AllCompleted(ds[0]) && ds[0].status != Finished && k < |ds|
    ensures AllCompleted(ds[k]) && ds[k].status != Finished
  {
    if k > 0 {
      CompletedNeverFinishes(ds, ws, k - 1);
      assert StepAt(ds, ws, k - 1);
      AllCompletedStep(ds[k - 1], ws[k - 1], ds[k]);
    }
  }

  /** The node next in line is an agents' node, reserved without expiry for somebody who can neither claim
      it nor give the reservation up. */
  ghost predicate Locked(d: Db, i: nat, agents: Agents) {
    && Linear(d.nodes) && i < |d.nodes| && d.status != Finished && !Held(d.nodes, i, agents.holders)
  }

  lemma LockedStep(d: Db, w: Write, d': Db, i: nat, agents: Agents)
    requires Locked(d, i, agents) && Step(d, w, d') && Served(d, w, agents)
    ensures Locked(d', i, agents)
  {
    LinearStep(d, w, d');
    assert Open(d.nodes, i);
    if w.Claim? || w.Approve? || w.Reject? || w.Park? || w.Resolve? {
      assert Open(d.nodes, w.i);
      OneOpen(d.nodes, i, w.i);
    }
    forall j | 0 <= j < |d.nodes| && j != i
      ensures !Live(d.nodes[j])
    {
      assert !Open(d.nodes, j);
    }
  }

  lemma {:induction false} LockedForGood(ds: seq<Db>, ws: seq<Write>, k: nat, i: nat, agents: Agents)
    requires Run(ds, ws) && AllServed(ds, ws, agents) && Locked(ds[0], i, agents) && k < |ds|
    ensures Locked(ds[k], i, agents)
  {
    if k > 0 {
      LockedForGood(ds, ws, k - 1, i, agents);
      assert StepAt(ds, ws, k - 1) && ServedAt(ds, ws, k - 1, agents);
      LockedStep(ds[k - 1], ws[k - 1], ds[k], i, agents);
    }
  }

  /** Nobody can ever claim a locked node, and no job or operation unlocks it. */
  lemma LockedNeverFinishes(d: Db, i: nat, agents: Agents)
    requires Locked(d, i, agents)
    ensures !CanFinish(d, agents)
  {
    forall ds: seq<Db>, ws | Run(ds, ws) && AllServed(ds, ws, agents) && ds[0] == d
      ensures ds[|ds| - 1].status != Finished
    {
      LockedForGood(ds, ws, |ds| - 1, i, agents);
    }
  }

  /** A new task can be finished exactly when it has a node that is not completed at creation, every
      pending node depends on earlier nodes only, and the node next in line is not reserved for
      somebody who is no holder. In particular a task whose only node is a human step is created with
      that node completed and stays active for ever. */
  lemma FinishableTasks(d: Db, agents: Agents, team: Team)
    requires Created(d) && Staffed(team, agents)
    ensures CanFinish(d, agents) <==>
      && !AllCompleted(d)
      && (forall i :: 0 <= i < |d.nodes| && d.nodes[i].status == Pending ==> Backward(d.nodes, i))
      && ReservationsHeld(d.nodes, agents.holders)
  {
    RunInvariant([d], [], 0);
    if AllCompleted(d) {
      forall ds: seq<Db>, ws | Run(ds, ws) && ds[0] == d
        ensures ds[|ds| - 1].status != Finished
      {
        CompletedNeverFinishes(ds, ws, |ds| - 1);
      }
    } else if i :| 0 <= i < |d.nodes| && d.nodes[i].status == Pending && !Backward(d.nodes, i) {
      forall ds: seq<Db>, ws | Run(ds, ws) && ds[0] == d
        ensures ds[|ds| - 1].status != Finished
      {
        BlockedForGood(ds, ws, |ds| - 1, i);
      }
    } else if i :| 0 <= i < |d.nodes| && !Held(d.nodes, i, agents.holders) {
      LockedNeverFinishes(d, i, agents);
    } else {
      assert WorkRun([d], []);
      SaneRun([d], [], 0);
      var ds, ws := PlanFinishes(d, agents, team);
    }
  }

  // ----- exactly which tasks never run into a dead end

  lemma Onward(ds: seq<Db>, ws: seq<Write>, w: Write, d: Db, agents: Agents)
    requires ServedRun(ds, ws, agents) && Step(ds[|ds| - 1], w, d) && ByWork(w) && Served(ds[|ds| - 1], w, agents)
    ensures ServedRun(ds + [d], ws + [w], agents)
  {
    AppendStep(ds, ws, w, d);
    var all, steps := ds + [d], ws + [w];
    forall k | 0 <= k < |steps|
      ensures ServedAt(all, steps, k, agents)
    {
      assert k < |ws| ==> ServedAt(ds, ws, k, agents);
    }
  }

  /** The second node waits behind the first, which an outsider did and a rejection can hand back. */
  ghost predicate SecondNext(d: Db, agents: Agents) {
    && d.status == Active && |d.nodes| >= 2 && Linear(d.nodes) && Backward(d.nodes, 1)
    && d.nodes[0].status == Completed && Returnable(d.nodes, 0) && d.nodes[0].rejectCount == 0
    && ByAgent(d.nodes[0]) && d.nodes[0].assignee.Some? && d.nodes[0].assignee.value !in agents.holders
  }

  lemma FirstApproved(d: Db, agents: Agents) returns (w: Write, d': Db)
    requires Created(d) && !WorkedBy(d.nodes, agents.holders) && forall i :: 0 <= i < |d.nodes| ==> Backward(d.nodes, i)
    ensures Step(d, w, d') && ByWork(w) && Served(d, w, agents) && SecondNext(d', agents)
    ensures d'.nodes[1].status == Pending && (d'.nodes[1].reservedFor.Some? ==> d'.nodes[1].reservedUntil.Some?)
  {
    RunInvariant([d], [], 0);
    var i :| 0 <= i < |d.nodes| && ByAgent(d.nodes[i]) && Returnable(d.nodes, i) && d.nodes[i].assignee.Some?
             && d.nodes[i].assignee.value !in agents.holders;
    assert i == 0 && d.nodes[1].status == Pending;
    w := Approve(0, d.nodes[0], None, 0);
    d' := Exec(d, w).value;
    LinearStep(d, w, d');
    StaticStep(d, w, d');
    assert Backward(d.nodes, 1);
  }

  lemma SecondFreed(d: Db, agents: Agents) returns (w: Write, d': Db)
    requires SecondNext(d, agents) && d.nodes[1].status == Pending
    requires d.nodes[1].reservedFor.Some? && d.nodes[1].reservedUntil.Some?
    ensures Step(d, w, d') && ByWork(w) && Served(d, w, agents) && SecondNext(d', agents)
    ensures d'.nodes[1].status == Pending && d'.nodes[1].reservedFor.None?
  {
    w := ClearReservations(d.nodes[1].reservedUntil.value + 1);
    d' := Exec(d, w).value;
    LinearStep(d, w, d');
    StaticStep(d, w, d');
  }

  lemma SecondTaken(d: Db, agents: Agents, team: Team) returns (w: Write, d': Db)
    requires SecondNext(d, agents) && Staffed(team, agents)
    requires d.nodes[1].status == Pending && d.nodes[1].reservedFor.None?
    ensures Step(d, w, d') && ByWork(w) && Served(d, w, agents) && SecondNext(d', agents)
    ensures d'.nodes[1].status == InProgress
  {
    w := if d.nodes[1].assigneeType == Human then Claim(1, d.nodes[1], team.member, false)
         else Claim(1, d.nodes[1], Claimant(d.nodes, 1, team), true);
    d' := Exec(d, w).value;
    LinearStep(d, w, d');
    StaticStep(d, w, d');
  }

  lemma HandedBack(d: Db, agents: Agents) returns (w: Write, d': Db)
    requires SecondNext(d, agents) && d.nodes[1].status == InProgress
    ensures Step(d, w, d') && ByWork(w) && Served(d, w, agents) && d'.status == Active && Locked(d', 0, agents)
  {
    w := Reject(1, d.nodes[1], 0, d.nodes[0].RejectLimit());
    d' := Exec(d, w).value;
    LinearStep(d, w, d');
  }

  /** An outsider's first step is approved, the second is taken and rejects back: the first step now waits
      for the outsider. */
  lemma DeadEndByRejection(d: Db, agents: Agents, team: Team) returns (ds: seq<Db>, ws: seq<Write>)
    requires Created(d) && !WorkedBy(d.nodes, agents.holders) && Staffed(team, agents)
    requires forall i :: 0 <= i < |d.nodes| ==> Backward(d.nodes, i)
    ensures ServedRun(ds, ws, agents) && ds[0] == d
    ensures ds[|ds| - 1].status == Active && !CanFinish(ds[|ds| - 1], agents)
  {
    var w1, d1 := FirstApproved(d, agents);
    assert ServedRun([d], [], agents);
    Onward([d], [], w1, d1, agents);
    ds, ws := [d] + [d1], [] + [w1];
    var d2 := d1;
    if d1.nodes[1].reservedFor.Some? {
      var w2;
      w2, d2 := SecondFreed(d1, agents);
      Onward(ds, ws, w2, d2, agents);
      ds, ws := ds + [d2], ws + [w2];
    }
    var w3, d3 := SecondTaken(d2, agents, team);
    Onward(ds, ws, w3, d3, agents);
    ds, ws := ds + [d3], ws + [w3];
    var w4, d4 := HandedBack(d3, agents);
    Onward(ds, ws, w4, d4, agents);
    ds, ws := ds + [d4], ws + [w4];
    LockedNeverFinishes(d4, 0, agents);
  }

  lemma DeadEnd(d: Db, agents: Agents, team: Team) returns (ds: seq<Db>, ws: seq<Write>)
    requires Created(d) && !Safe(d.nodes, agents.holders) && Staffed(team, agents)
    requires forall i :: 0 <= i < |d.nodes| ==> Backward(d.nodes, i)
    ensures ServedRun(ds, ws, agents) && ds[0] == d
    ensures ds[|ds| - 1].status == Active && !CanFinish(ds[|ds| - 1], agents)
  {
    if i :| 0 <= i < |d.nodes| && !Held(d.nodes, i, agents.holders) {
      RunInvariant([d], [], 0);
      ds, ws := [d], [];
      LockedNeverFinishes(d, i, agents);
    } else {
      ds, ws := DeadEndByRejection(d, agents, team);
    }
  }

  /** From every reachable state in which the task is active it can be finished. */
  ghost predicate NeverDeadEnds(d: Db, agents: Agents) {
    forall ds: seq<Db>, ws: seq<Write> ::
      ServedRun(ds, ws, agents) && ds[0] == d && ds[|ds| - 1].status == Active ==> CanFinish(ds[|ds| - 1], agents)
  }

  /** Exactly which new tasks never run into a dead end: those whose node next in line is not reserved for
      an outsider, and whose first step, if it was started for one, cannot be handed back by a rejection:
      it is the only step, a manual one, or allows no rejection. */
  lemma NoDeadEndsExactly(d: Db, agents: Agents, team: Team)
    requires Created(d) && !AllCompleted(d) && Staffed(team, agents)
    requires forall i :: 0 <= i < |d.nodes| ==> Backward(d.nodes, i)
    ensures Safe(d.nodes, agents.holders) <==> NeverDeadEnds(d, agents)
  {
    if Safe(d.nodes, agents.holders) {
      forall ds: seq<Db>, ws: seq<Write> | ServedRun(ds, ws, agents) && ds[0] == d && ds[|ds| - 1].status == Active
        ensures CanFinish(ds[|ds| - 1], agents)
      {
        var k := |ds| - 1;
        StaticRun(ds, ws, k);
        assert forall i :: 0 <= i < |d.nodes| && Backward(d.nodes, i) ==> Backward(ds[k].nodes, i);
        var rest, steps := CanAlwaysFinish(ds, ws, k, agents, team);
      }
    } else {
      var ds, ws := DeadEnd(d, agents, team);
    }
  }
}
