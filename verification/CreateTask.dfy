/** Instantiating a workflow template: the rows of a new task and its dependency graph. */
module CreateTask {
  import opened Types
  import opened Protocol
  import opened Progress
  import opened Reservations

  /** A row of workflow_template_nodes; a template is the list in sort_order. */
  datatype TemplateNode = TemplateNode(id: Id, nodeType: NodeType, assigneeType: AssigneeType, assignee: Option<Id>,
                                       maxRejectCycles: int, timeoutMinutes: int, dependsOn: seq<Id>)

  predicate DistinctIds(ts: seq<TemplateNode>) {
    forall i, j :: 0 <= i < j < |ts| ==> ts[i].id != ts[j].id
  }

  /** The map from template ids to task nodes after the first n nodes: the last entry wins. */
  function RankOf(ts: seq<TemplateNode>, n: nat, id: Id): (r: Option<nat>)
    requires n <= |ts|
    ensures r.Some? ==> r.value < n && ts[r.value].id == id
    ensures r.None? ==> forall j :: 0 <= j < n ==> ts[j].id != id
  {
    if n == 0 then None else if ts[n - 1].id == id then Some(n - 1) else RankOf(ts, n - 1, id)
  }

  /** The dependencies that name a node of the template, in order. */
  function Resolved(ts: seq<TemplateNode>, deps: seq<Id>, n: nat): seq<nat>
    requires n <= |deps|
  {
    if n == 0 then []
    else
      var r := RankOf(ts, |ts|, deps[n - 1]);
      Resolved(ts, deps, n - 1) + (if r.Some? then [r.value] else [])
  }

  function InitialStatus(t: TemplateNode, i: nat): Status {
    if i > 0 then Pending
    else match t.assigneeType
      case SpecificAgent => if t.assignee.Some? then InProgress else Pending
      case Human => Completed
      case Auto => InProgress
      case AnyAgent => Pending
  }

  function NewNode(t: TemplateNode, i: nat, projectLimit: int): Node {
    Node(t.nodeType, if t.maxRejectCycles == 0 then projectLimit else t.maxRejectCycles, t.timeoutMinutes, [],
         InitialStatus(t, i), t.assigneeType, t.assignee, t.assignee, None, 0, 1, None, None)
  }

  function NewRows(ts: seq<TemplateNode>, projectLimit: int): seq<Node> {
    seq(|ts|, i requires 0 <= i < |ts| =>
      NewNode(ts[i], i, projectLimit).(dependsOn := Resolved(ts, ts[i].dependsOn, |ts[i].dependsOn|)))
  }

  /** The first loop: one row per template node, and the map from template ids to task nodes. */
  method CreateNodes(ts: seq<TemplateNode>, projectLimit: int) returns (rows: seq<Node>, taskNode: map<Id, nat>)
    ensures |rows| == |ts| && forall k :: 0 <= k < |ts| ==> rows[k] == NewNode(ts[k], k, projectLimit)
    ensures forall k :: 0 <= k < |ts| ==>
      var t, row := ts[k], rows[k];
      && row == Node(t.nodeType, row.maxRejectCycles, t.timeoutMinutes, [], row.status, t.assigneeType, t.assignee,
                     t.assignee, None, 0, 1, None, None)
      && row.maxRejectCycles == (if t.maxRejectCycles != 0 then t.maxRejectCycles else projectLimit)
      && (row.status == Completed <==> k == 0 && t.assigneeType == Human)
      && (row.status == InProgress <==>
            k == 0 && (t.assigneeType == Auto || (t.assigneeType == SpecificAgent && t.assignee.Some?)))
      && (row.status == Pending || row.status == InProgress || row.status == Completed)
    ensures forall id :: RankOf(ts, |ts|, id) == if id in taskNode then Some(taskNode[id]) else None
  {
    rows, taskNode := [], map[];
    for i := 0 to |ts|
      invariant |rows| == i && forall k :: 0 <= k < i ==> rows[k] == NewNode(ts[k], k, projectLimit)
      invariant forall id :: RankOf(ts, i, id) == if id in taskNode then Some(taskNode[id]) else None
    {
      var t := ts[i];
      var status := Pending;
      if i == 0 {
        if t.assigneeType == SpecificAgent && t.assignee.Some? {
          status := InProgress;
        } else if t.assigneeType == Human {
          status := Completed;
        } else if t.assigneeType == Auto {
          status := InProgress;
        }
      }
      var limit := t.maxRejectCycles;
      if limit == 0 {
        limit := projectLimit;
      }
      rows := rows + [Node(t.nodeType, limit, t.timeoutMinutes, [], status, t.assigneeType, t.assignee, t.assignee,
                           None, 0, 1, None, None)];
      taskNode := taskNode[t.id := i];
    }
  }

  /** The inner loop: ids without a task node are dropped. */
  method ResolveDependencies(ts: seq<TemplateNode>, taskNode: map<Id, nat>, deps: seq<Id>) returns (resolved: seq<nat>)
    requires forall id :: RankOf(ts, |ts|, id) == if id in taskNode then Some(taskNode[id]) else None
    ensures resolved == Resolved(ts, deps, |deps|)
  {
    resolved := [];
    for k := 0 to |deps|
      invariant resolved == Resolved(ts, deps, k)
    {
      if deps[k] in taskNode {
        resolved := resolved + [taskNode[deps[k]]];
      }
    }
  }

  method CreateTask(ts: seq<TemplateNode>, projectLimit: int) returns (d: Db)
    ensures d == Db(Active, NewRows(ts, projectLimit), [])
    ensures Created(d)
  {
    var rows, taskNode := CreateNodes(ts, projectLimit);
    for i := 0 to |ts|
      invariant |rows| == |ts|
      invariant forall k :: 0 <= k < i ==> rows[k] == NewRows(ts, projectLimit)[k]
      invariant forall k :: i <= k < |ts| ==> rows[k] == NewNode(ts[k], k, projectLimit)
    {
      var resolved := ResolveDependencies(ts, taskNode, ts[i].dependsOn);
      if |resolved| > 0 {
        rows := rows[i := rows[i].(dependsOn := resolved)];
      }
    }
    assert rows == NewRows(ts, projectLimit);
    d := Db(Active, rows, []);
  }

  /** The dependencies keep the template's order: each part of the list resolves by itself. */
  lemma {:induction false} ResolvedInOrder(ts: seq<TemplateNode>, a: seq<Id>, b: seq<Id>)
    ensures Resolved(ts, a + b, |a + b|) == Resolved(ts, a, |a|) + Resolved(ts, b, |b|)
    ensures |a| == 1 && DistinctIds(ts) ==> forall j: nat :: j < |ts| && ts[j].id == a[0] ==> Resolved(ts, a, 1) == [j]
  {
    if |b| == 0 {
      assert a + b == a;
    } else {
      var init := b[..|b| - 1];
      ResolvedInOrder(ts, a, init);
      ResolvedPrefix(ts, a + b, a + init, |a + init|);
      ResolvedPrefix(ts, b, init, |init|);
    }
    assert |a| == 1 ==> Resolved(ts, a, 0) == [];
  }

  lemma {:induction false} ResolvedPrefix(ts: seq<TemplateNode>, a: seq<Id>, b: seq<Id>, n: nat)
    requires n <= |a| && n <= |b| && a[..n] == b[..n]
    ensures Resolved(ts, a, n) == Resolved(ts, b, n)
  {
    if n > 0 {
      assert a[..n][n - 1] == b[..n][n - 1] && a[..n - 1] == a[..n][..n - 1] && b[..n - 1] == b[..n][..n - 1];
      ResolvedPrefix(ts, a, b, n - 1);
    }
  }

  lemma {:induction false} ResolvedMembers(ts: seq<TemplateNode>, deps: seq<Id>, n: nat, j: nat)
    requires n <= |deps| && j < |ts| && DistinctIds(ts)
    ensures j in Resolved(ts, deps, n) <==> ts[j].id in deps[..n]
  {
    if n > 0 {
      ResolvedMembers(ts, deps, n - 1, j);
      assert deps[..n] == deps[..n - 1] + [deps[n - 1]];
      var r := RankOf(ts, |ts|, deps[n - 1]);
    }
  }

  lemma {:induction false} ResolvedInRange(ts: seq<TemplateNode>, deps: seq<Id>, n: nat)
    requires n <= |deps|
    ensures forall k :: 0 <= k < |Resolved(ts, deps, n)| ==> Resolved(ts, deps, n)[k] < |ts|
  {
    if n > 0 {
      ResolvedInRange(ts, deps, n - 1);
    }
  }

  /** The new task's dependency graph is the template's, restricted to the template's own nodes;
      references to later nodes survive, references to foreign ids do not. */
  lemma DependenciesAreTheImage(ts: seq<TemplateNode>, projectLimit: int, i: nat)
    requires DistinctIds(ts) && i < |ts|
    ensures var deps := NewRows(ts, projectLimit)[i].dependsOn;
      && (forall k :: 0 <= k < |deps| ==> deps[k] < |ts|)
      && (forall j: nat :: j < |ts| ==> (j in deps <==> ts[j].id in ts[i].dependsOn))
  {
    var ids := ts[i].dependsOn;
    assert ids[..|ids|] == ids;
    ResolvedInRange(ts, ids, |ids|);
    forall j: nat | j < |ts|
      ensures j in Resolved(ts, ids, |ids|) <==> ts[j].id in ids
    {
      ResolvedMembers(ts, ids, |ids|, j);
    }
  }

  /** Acyclicity carries over: whatever numbers the template's edges downwards numbers the task's. */
  lemma AcyclicityCarriesOver(ts: seq<TemplateNode>, projectLimit: int, level: Id -> int, i: nat, k: nat)
    requires DistinctIds(ts) && i < |ts| && k < |NewRows(ts, projectLimit)[i].dependsOn|
    requires forall a, b ::
      0 <= a < |ts| && 0 <= b < |ts| && ts[b].id in ts[a].dependsOn ==> level(ts[b].id) < level(ts[a].id)
    ensures NewRows(ts, projectLimit)[i].dependsOn[k] < |ts|
    ensures level(ts[NewRows(ts, projectLimit)[i].dependsOn[k]].id) < level(ts[i].id)
  {
    DependenciesAreTheImage(ts, projectLimit, i);
    var j := NewRows(ts, projectLimit)[i].dependsOn[k];
    assert j in NewRows(ts, projectLimit)[i].dependsOn;
  }

  /** How many rejections a new node takes: the template's limit, else the project's, else five. */
  lemma LimitAtCreation(ts: seq<TemplateNode>, projectLimit: int, i: nat)
    requires i < |ts|
    ensures var limit := NewRows(ts, projectLimit)[i].RejectLimit();
      && (ts[i].maxRejectCycles > 0 ==> limit == ts[i].maxRejectCycles)
      && (ts[i].maxRejectCycles == 0 && projectLimit > 0 ==> limit == projectLimit)
      && (ts[i].maxRejectCycles < 0 || (ts[i].maxRejectCycles == 0 && projectLimit <= 0) ==> limit == 5)
  {
  }

  // ----- which templates make tasks that can be finished

  /** The first step is a human's, and the second an agents' review pre-assigned to the same id. */
  predicate SelfReviewAtStart(ts: seq<TemplateNode>) {
    && |ts| >= 2 && ts[0].assigneeType == Human && ts[0].nodeType == Standard && ts[0].assignee.Some?
    && ts[1].nodeType == Review && ts[1].assigneeType != Human && ts[1].assignee == ts[0].assignee
  }

  /** The one kind of template whose task starts with a reservation nobody can use. */
  lemma ReservationsAtCreation(ts: seq<TemplateNode>, projectLimit: int)
    ensures ReservationsUsable(NewRows(ts, projectLimit)) <==> !SelfReviewAtStart(ts)
  {
    var ns := NewRows(ts, projectLimit);
    forall i | 1 < i < |ns|
      ensures Usable(ns, i)
    {
      assert ns[1].status == Pending;
    }
    if |ns| >= 2 {
      assert PrevStandardAssignee(ns, 0) == None;
      assert PrevStandardAssignee(ns, 1) == if ns[0].nodeType == Standard then ns[0].assignee else None;
      assert Usable(ns, 1) <==> !SelfReviewAtStart(ts);
    }
  }

  /** The first step that is not done at creation. */
  function FirstStep(ts: seq<TemplateNode>): (s: nat)
    requires |ts| > 0
  {
    if ts[0].assigneeType == Human then 1 else 0
  }

  /** The first step waits for an agent but is pre-assigned to somebody outside ids. */
  predicate LockedAtStart(ts: seq<TemplateNode>, ids: set<Id>) {
    |ts| > 0 && FirstStep(ts) < |ts| &&
    var s := FirstStep(ts);
    && InitialStatus(ts[s], s) == Pending && ts[s].assigneeType != Human
    && ts[s].assignee.Some? && ts[s].assignee.value !in ids
  }

  lemma HeldAtCreation(ts: seq<TemplateNode>, projectLimit: int, ids: set<Id>)
    ensures ReservationsHeld(NewRows(ts, projectLimit), ids) <==> !LockedAtStart(ts, ids)
  {
    var ns := NewRows(ts, projectLimit);
    if |ts| > 0 {
      assert ns[0].status == Completed <==> ts[0].assigneeType == Human;
      if FirstStep(ts) < |ts| {
        assert Held(ns, FirstStep(ts), ids) <==> !LockedAtStart(ts, ids);
      }
      forall i | 0 <= i < |ns| && i != FirstStep(ts)
        ensures Held(ns, i, ids)
      {
        assert i > FirstStep(ts) ==> ns[FirstStep(ts)].status != Completed;
      }
    }
  }

  /** The first step starts for somebody outside ids, and a later step can reject back to it. */
  predicate ReturnsAtStart(ts: seq<TemplateNode>, projectLimit: int, ids: set<Id>) {
    && |ts| >= 2 && InitialStatus(ts[0], 0) == InProgress
    && ts[0].assignee.Some? && ts[0].assignee.value !in ids
    && ts[0].nodeType != ManualStep && NewNode(ts[0], 0, projectLimit).RejectLimit() > 1
  }

  lemma SafeAtCreation(ts: seq<TemplateNode>, projectLimit: int, ids: set<Id>)
    ensures Safe(NewRows(ts, projectLimit), ids) <==>
      !LockedAtStart(ts, ids) && !ReturnsAtStart(ts, projectLimit, ids)
  {
    var ns := NewRows(ts, projectLimit);
    HeldAtCreation(ts, projectLimit, ids);
    if |ts| > 0 {
      assert ByAgent(ns[0]) <==> InitialStatus(ts[0], 0) == InProgress;
      assert ns[0].RejectLimit() == NewNode(ts[0], 0, projectLimit).RejectLimit();
      assert forall i :: 1 <= i < |ns| ==> !ByAgent(ns[i]);
    }
  }

  lemma NothingLeftAtCreation(ts: seq<TemplateNode>, projectLimit: int)
    ensures PrefixCompleted(NewRows(ts, projectLimit), |ts|) <==>
      |ts| == 0 || (|ts| == 1 && ts[0].assigneeType == Human)
  {
    var ns := NewRows(ts, projectLimit);
    if |ts| >= 2 {
      assert ns[1].status == Pending;
    } else if |ts| == 1 {
      assert ns[0].status == Completed <==> ts[0].assigneeType == Human;
    }
  }

  /** From template to outcome: a task can be finished exactly when its template is not empty and not
      a lone human step, no step that starts pending depends on itself or a later step, and its first
      step does not wait for somebody who may neither claim it nor give it up. */
  lemma FinishableTemplates(ts: seq<TemplateNode>, projectLimit: int, d: Db, agents: Agents, team: Team)
    requires DistinctIds(ts) && d == Db(Active, NewRows(ts, projectLimit), []) && Staffed(team, agents)
    ensures CanFinish(d, agents) <==>
      && |ts| >= 1 && !(|ts| == 1 && ts[0].assigneeType == Human) && !LockedAtStart(ts, agents.holders)
      && forall i, j :: 0 <= i <= j < |ts| && InitialStatus(ts[i], i) == Pending ==> ts[j].id !in ts[i].dependsOn
  {
    var ns := NewRows(ts, projectLimit);
    FinishableTasks(d, agents, team);
    NothingLeftAtCreation(ts, projectLimit);
    HeldAtCreation(ts, projectLimit, agents.holders);
    forall i | 0 <= i < |ts|
      ensures Backward(ns, i) <==> forall j :: i <= j < |ts| ==> ts[j].id !in ts[i].dependsOn
    {
      BackwardTemplate(ts, projectLimit, i);
    }
  }

  lemma BackwardTemplate(ts: seq<TemplateNode>, projectLimit: int, i: nat)
    requires DistinctIds(ts) && i < |ts|
    ensures Backward(NewRows(ts, projectLimit), i) <==> forall j :: i <= j < |ts| ==> ts[j].id !in ts[i].dependsOn
  {
    var deps := NewRows(ts, projectLimit)[i].dependsOn;
    DependenciesAreTheImage(ts, projectLimit, i);
    assert forall k :: 0 <= k < |deps| ==> deps[k] in deps;
  }

  /** The same for dead ends: a template without forward dependencies makes tasks that can be finished
      from every reachable active state exactly when its first step neither waits for an outsider nor is
      started for one and can come back. */
  lemma DeadEndFreeTemplates(ts: seq<TemplateNode>, projectLimit: int, d: Db, agents: Agents, team: Team)
    requires DistinctIds(ts) && d == Db(Active, NewRows(ts, projectLimit), []) && Staffed(team, agents)
    requires |ts| >= 1 && !(|ts| == 1 && ts[0].assigneeType == Human)
    requires forall i, j :: 0 <= i <= j < |ts| ==> ts[j].id !in ts[i].dependsOn
    ensures !LockedAtStart(ts, agents.holders) && !ReturnsAtStart(ts, projectLimit, agents.holders) <==>
      NeverDeadEnds(d, agents)
  {
    var task := CreatedFrom(ts, projectLimit);
    NothingLeftAtCreation(ts, projectLimit);
    SafeAtCreation(ts, projectLimit, agents.holders);
    forall i | 0 <= i < |ts|
      ensures Backward(d.nodes, i)
    {
      BackwardTemplate(ts, projectLimit, i);
    }
    NoDeadEndsExactly(d, agents, team);
  }

  lemma CreatedFrom(ts: seq<TemplateNode>, projectLimit: int) returns (d: Db)
    ensures d == Db(Active, NewRows(ts, projectLimit), []) && Created(d)
  {
    d := Db(Active, NewRows(ts, projectLimit), []);
  }
}
