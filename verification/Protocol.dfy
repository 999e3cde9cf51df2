/** Safety of the node protocol over every run of atomic operations. */
module Protocol {
  import opened Types
  import opened Writes

  // ----- the linear order

  predicate Live(row: Node) {
    row.status == InProgress || row.status == Manual
  }

  /** Being worked on, waiting for a human, or claimable as far as the linear order goes. */
  predicate Open(ns: seq<Node>, i: nat)
    requires i < |ns|
  {
    Live(ns[i]) || (ns[i].status == Pending && LinearReady(ns, i))
  }

  /** Every open node has a completed prefix, although claims only look at one predecessor. */
  ghost predicate Linear(ns: seq<Node>) {
    forall i :: 0 <= i < |ns| && Open(ns, i) ==> PrefixCompleted(ns, i)
  }

  /** At most one node of a task is open: at most one is live and at most one is claimable. */
  lemma OneOpen(ns: seq<Node>, i: nat, k: nat)
    requires Linear(ns) && i < |ns| && k < |ns| && Open(ns, i) && Open(ns, k)
    ensures i == k
  {
  }

  lemma LinearStep(d: Db, w: Write, d': Db)
    requires Linear(d.nodes) && Step(d, w, d')
    ensures Linear(d'.nodes)
  {
    var ns, ns' := d.nodes, d'.nodes;
    forall i | 0 <= i < |ns'| && Open(ns', i)
      ensures PrefixCompleted(ns', i)
    {
      // Only the write's own row, its successor or its target can open now; anything else was open before.
      if Open(ns, i) && (w.Claim? || w.Approve? || w.Reject?) {
        OneOpen(ns, i, w.i);
      }
      match w
      case Claim(k, _, _, _) => assert i == k;
      case Approve(k, _, _, _) => assert Open(ns, k); assert i == k + 1;
      case Reject(k, _, t, _) => assert Open(ns, k); assert i == t;
      case Park(k, _, _) => assert Open(ns, i);
      case Resolve(k, _, _, _, _, _) => assert Open(ns, k);
      case Skip(_, _) => assert Open(ns, i);
      case Interrupt(_) => assert Open(ns, i);
      case Offline(_) => assert Open(ns, i);
      case Release(_) => assert Open(ns, i);
      case ClearReservations(_) => assert Open(ns, i);
      case Acknowledge(_, _, _) => assert Open(ns, i);
      case Cancel => assert Open(ns, i);
      case CancelNodes => assert Open(ns, i);
      case DeleteTask => assert Open(ns, i);
    }
  }

  // ----- versions

  /** How a row may differ from an earlier read of it that has the same version: only the two
      statements that do not bump the version can have run in between. */
  predicate Drift(was: Node, row: Node) {
    var reservationKept := row.reservedFor == was.reservedFor && row.reservedUntil == was.reservedUntil;
    var reservationCleared := row.reservedFor.None? && row.reservedUntil.None?;
    || row == was
    || (&& was.status == Pending
        && row == was.(reservedFor := row.reservedFor, reservedUntil := row.reservedUntil)
        && (reservationKept || reservationCleared))
    || (&& was.status == InProgress
        && row == was.(status := Pending, assignee := None, reservedFor := row.reservedFor,
                       reservedUntil := row.reservedUntil)
        && (reservationKept || reservationCleared))
  }

  /** The row's version went up, or the row drifted. */
  predicate Later(was: Node, row: Node) {
    was.version < row.version || Drift(was, row)
  }

  lemma LaterTransitive(a: Node, b: Node, c: Node)
    requires Later(a, b) && Later(b, c)
    ensures Later(a, c)
  {
  }

  lemma StepLater(d: Db, w: Write, d': Db, i: nat)
    requires InRange(d, w) && Exec(d, w) == Some(d') && i < |d.nodes|
    ensures Later(d.nodes[i], d'.nodes[i])
  {
  }

  /** No write touches what the template fixed. */
  lemma StaticStep(d: Db, w: Write, d': Db)
    requires InRange(d, w) && Exec(d, w) == Some(d')
    ensures forall i :: 0 <= i < |d.nodes| ==>
      && d'.nodes[i].nodeType == d.nodes[i].nodeType && d'.nodes[i].dependsOn == d.nodes[i].dependsOn
      && d'.nodes[i].maxRejectCycles == d.nodes[i].maxRejectCycles
      && d'.nodes[i].timeoutMinutes == d.nodes[i].timeoutMinutes
  {
  }

  lemma {:induction false} StaticRun(ds: seq<Db>, ws: seq<Write>, k: nat)
    requires Run(ds, ws) && k < |ds|
    ensures |ds[k].nodes| == |ds[0].nodes|
    ensures forall i :: 0 <= i < |ds[k].nodes| ==>
      && ds[k].nodes[i].nodeType == ds[0].nodes[i].nodeType && ds[k].nodes[i].dependsOn == ds[0].nodes[i].dependsOn
      && ds[k].nodes[i].maxRejectCycles == ds[0].nodes[i].maxRejectCycles
      && ds[k].nodes[i].timeoutMinutes == ds[0].nodes[i].timeoutMinutes
  {
    if k > 0 {
      StaticRun(ds, ws, k - 1);
      assert StepAt(ds, ws, k - 1);
      StaticStep(ds[k - 1], ws[k - 1], ds[k]);
    }
  }

  predicate SingleRow(w: Write) {
    w.Claim? || w.Approve? || w.Reject? || w.Park? || w.Resolve? || w.Skip?
  }

  /** The write is guarded by version v of node i: it is a single-row write built on that version, or
      an interrupt whose listing has the node in progress at it. */
  predicate GuardedBy(w: Write, i: nat, v: int) {
    || (SingleRow(w) && w.i == i && w.seen.version == v)
    || (w.Interrupt? && i < |w.rows| && w.rows[i].status == InProgress && w.rows[i].version == v)
  }

  /** A guarded write that succeeds leaves a higher version behind. */
  lemma VersionConsumed(d: Db, w: Write, d': Db, i: nat, v: int)
    requires InRange(d, w) && Exec(d, w) == Some(d') && GuardedBy(w, i, v)
    ensures i < |d.nodes| && d'.nodes[i].version > v
  {
  }

  /** A write guarded by a version that is no longer the row's does nothing. */
  lemma StaleVersionFails(d: Db, w: Write, i: nat, v: int)
    requires InRange(d, w) && GuardedBy(w, i, v) && i < |d.nodes| && d.nodes[i].version != v
    ensures Exec(d, w) == None
  {
  }

  /** Only the reset of cancel and delete moves a row to another status at the same version. */
  lemma StatusNeedsVersion(d: Db, w: Write, d': Db, i: nat)
    requires InRange(d, w) && Exec(d, w) == Some(d') && i < |d.nodes| && !w.CancelNodes? && !w.DeleteTask?
    requires d'.nodes[i].version == d.nodes[i].version
    ensures d'.nodes[i].status == d.nodes[i].status
  {
  }

  // ----- self-review

  lemma PrevStandardSame(ns: seq<Node>, ns': seq<Node>, i: nat)
    requires i <= |ns| && i <= |ns'|
    requires forall j :: 0 <= j < i ==> ns'[j].nodeType == ns[j].nodeType && ns'[j].assignee == ns[j].assignee
    ensures PrevStandardAssignee(ns', i) == PrevStandardAssignee(ns, i)
  {
  }

  /** A row held by an agent: its assignee is not the one whose work it reviews. */
  predicate Impartial(ns: seq<Node>, i: nat)
    requires i < |ns|
  {
    ns[i].nodeType == Review && ns[i].assigneeType != Human && ns[i].assignee.Some? ==>
      PrevStandardAssignee(ns, i) != ns[i].assignee
  }

  ghost predicate NoSelfReview(ns: seq<Node>) {
    forall i :: 0 <= i < |ns| && ns[i].status == InProgress ==> Impartial(ns, i)
  }

  /** While a node keeps its version and status in progress, or pending below a completed prefix,
      nothing around it moves: every other status stays, and so do the earlier assignees. */
  lemma Frozen(d: Db, w: Write, d': Db, i: nat)
    requires Linear(d.nodes) && Step(d, w, d') && i < |d.nodes|
    requires d.nodes[i].status == InProgress || d.nodes[i].status == Pending
    requires PrefixCompleted(d.nodes, i)
    requires d'.nodes[i].version == d.nodes[i].version && d'.nodes[i].status == d.nodes[i].status
    ensures forall j :: 0 <= j < |d.nodes| && j != i ==> d'.nodes[j].status == d.nodes[j].status
    ensures forall j :: 0 <= j < i ==>
      d'.nodes[j].assigneeType == d.nodes[j].assigneeType && d'.nodes[j].assignee == d.nodes[j].assignee
  {
    assert Open(d.nodes, i);
    if w.Claim? || w.Approve? || w.Reject? || w.Park? || w.Resolve? {
      assert Open(d.nodes, w.i);
      OneOpen(d.nodes, i, w.i);
    }
    forall j | 0 <= j < |d.nodes| && j != i
      ensures !Live(d.nodes[j])
    {
      assert Live(d.nodes[j]) ==> Open(d.nodes, j);
    }
  }

  /** A node in progress after a step was just claimed, or was in progress and kept its assignee. */
  lemma InProgressKept(d: Db, w: Write, d': Db, i: nat)
    requires Linear(d.nodes) && Step(d, w, d') && i < |d.nodes| && d'.nodes[i].status == InProgress
    ensures (w.Claim? && w.i == i) ||
            (&& d.nodes[i].status == InProgress && d'.nodes[i].nodeType == d.nodes[i].nodeType
             && d'.nodes[i].assignee == d.nodes[i].assignee && d'.nodes[i].assigneeType == d.nodes[i].assigneeType)
  {
  }

  lemma NoSelfReviewStep(d: Db, w: Write, d': Db)
    requires Linear(d.nodes) && NoSelfReview(d.nodes) && Step(d, w, d')
    ensures NoSelfReview(d'.nodes)
  {
    forall i | 0 <= i < |d'.nodes| && d'.nodes[i].status == InProgress
      ensures Impartial(d'.nodes, i)
    {
      InProgressKept(d, w, d', i);
      EarlierKept(d, w, d', i);
      PrevStandardSame(d.nodes, d'.nodes, i);
      if w.Claim? && w.i == i {
        assert d'.nodes[i] == ClaimedRow(d.nodes[i], w.op, w.byAgent);
      } else {
        assert Impartial(d.nodes, i);
      }
    }
  }

  /** The rows before a node that is in progress after a step kept their types and assignees. */
  lemma EarlierKept(d: Db, w: Write, d': Db, i: nat)
    requires Linear(d.nodes) && Step(d, w, d') && i < |d.nodes| && d'.nodes[i].status == InProgress
    ensures forall j :: 0 <= j < i ==>
      d'.nodes[j].nodeType == d.nodes[j].nodeType && d'.nodes[j].assignee == d.nodes[j].assignee
  {
    var ns := d.nodes;
    LinearStep(d, w, d');
    assert Open(d'.nodes, i);
    assert (w.Claim? && w.i == i) || ns[i].status == InProgress;
    assert Open(ns, i);
    if w.Claim? || w.Approve? || w.Reject? || w.Park? || w.Resolve? {
      assert Open(ns, w.i);
      OneOpen(ns, i, w.i);
    }
  }

  // ----- whole runs

  lemma AppendStep(ds: seq<Db>, ws: seq<Write>, w: Write, d: Db)
    requires Run(ds, ws) && Step(ds[|ds| - 1], w, d)
    ensures Run(ds + [d], ws + [w])
  {
    var all, steps := ds + [d], ws + [w];
    forall k | 0 <= k < |steps|
      ensures StepAt(all, steps, k)
    {
      assert k < |ws| ==> StepAt(ds, ws, k);
    }
  }

  /** A task as CreateTask leaves it: only the first node may have started. */
  ghost predicate Created(d: Db) {
    && d.status == Active && d.log == []
    && forall i :: 0 <= i < |d.nodes| ==>
      var n := d.nodes[i];
      && n.version == 1 && n.rejectCount == 0
      && n.reservedFor == n.assignee && n.reservedUntil == None && n.completedAt == None && n.completedBy == None
      && (n.status == Pending ||
          (i == 0 && (n.status == Completed ==> n.assigneeType == Human)
                  && (n.status == InProgress ==> n.assigneeType == SpecificAgent || n.assigneeType == Auto)
                  && !n.status.Rejected? && !n.status.Manual?))
  }

  ghost predicate AllCompleted(d: Db) {
    PrefixCompleted(d.nodes, |d.nodes|)
  }

  lemma {:induction false} RunInvariant(ds: seq<Db>, ws: seq<Write>, k: nat)
    requires Run(ds, ws) && Created(ds[0]) && k < |ds|
    ensures |ds[k].nodes| == |ds[0].nodes|
    ensures Linear(ds[k].nodes) && NoSelfReview(ds[k].nodes)
    ensures ds[k].status == Finished ==> AllCompleted(ds[k])
  {
    if k > 0 {
      RunInvariant(ds, ws, k - 1);
      var d, w, d' := ds[k - 1], ws[k - 1], ds[k];
      assert StepAt(ds, ws, k - 1);
      LinearStep(d, w, d');
      NoSelfReviewStep(d, w, d');
      if AllCompleted(d) {
        AllCompletedStep(d, w, d');
      }
    }
  }

  /** In every reachable state a live node has a completed prefix, no other node is live and no
      node at all can be claimed. */
  lemma OneLiveNode(ds: seq<Db>, ws: seq<Write>, k: nat, i: nat)
    requires Run(ds, ws) && Created(ds[0]) && k < |ds| && i < |ds[k].nodes| && Live(ds[k].nodes[i])
    ensures PrefixCompleted(ds[k].nodes, i)
    ensures forall j :: 0 <= j < |ds[k].nodes| && j != i ==> !Live(ds[k].nodes[j])
    ensures forall j: nat, version: int, op: Id, byAgent: bool ::
      j < |ds[k].nodes| ==> !Claimable(ds[k].nodes, j, version, op, byAgent)
  {
    RunInvariant(ds, ws, k);
    var ns := ds[k].nodes;
    assert Open(ns, i);
    forall j | 0 <= j < |ns| && j != i
      ensures !Open(ns, j) && !Live(ns[j])
    {
      if Open(ns, j) {
        OneOpen(ns, i, j);
      }
    }
    forall j: nat, version: int, op: Id, byAgent: bool | j < |ns|
      ensures !Claimable(ns, j, version, op, byAgent)
    {
      assert Claimable(ns, j, version, op, byAgent) ==> Open(ns, j) && j != i;
    }
  }

  /** In a linear task an operation whose guards hold is never turned down by the database: the
      last approval passes the "n of n completed" check, an approval never meets a next node that is
      already live, and a rejection finds its target and everything in between completed. */
  lemma GuardsSuffice(d: Db, w: Write)
    requires Linear(d.nodes) && InRange(d, w) && Fresh(d, w) && !w.Claim?
    ensures Exec(d, w).Some?
    ensures w.Approve? && w.i + 1 < |d.nodes| ==> !Live(d.nodes[w.i + 1])
    ensures w.Approve? && w.i + 1 == |d.nodes| ==>
      Exec(d, w).value.status == Finished && AllCompleted(Exec(d, w).value)
    ensures w.Reject? ==> PrefixCompleted(d.nodes, w.i)
  {
    if w.Approve? || w.Reject? {
      assert Open(d.nodes, w.i);
      assert w.i + 1 < |d.nodes| ==> !Open(d.nodes, w.i + 1);
    }
  }

  lemma AllCompletedStep(d: Db, w: Write, d': Db)
    requires AllCompleted(d) && Step(d, w, d')
    ensures AllCompleted(d')
  {
  }

  /** Once an approval has finished the task, every node is completed, and no operation ever
      changes that. */
  lemma {:induction false} FinishedForGood(ds: seq<Db>, ws: seq<Write>, k: nat, m: nat)
    requires Run(ds, ws) && Created(ds[0]) && k <= m < |ds| && ds[k].status == Finished
    ensures AllCompleted(ds[m])
  {
    if m == k {
      RunInvariant(ds, ws, k);
    } else {
      FinishedForGood(ds, ws, k, m - 1);
      assert StepAt(ds, ws, m - 1);
      AllCompletedStep(ds[m - 1], ws[m - 1], ds[m]);
    }
  }

  /** No agent ever holds a review of its own work: the assignee of a review node in progress
      differs from that of the nearest earlier standard node. */
  lemma NeverSelfReview(ds: seq<Db>, ws: seq<Write>, k: nat, i: nat, reviewer: Id)
    requires Run(ds, ws) && Created(ds[0]) && k < |ds| && i < |ds[k].nodes|
    requires ds[k].nodes[i].status == InProgress && ds[k].nodes[i].nodeType == Review
    requires ds[k].nodes[i].assigneeType != Human && ds[k].nodes[i].assignee == Some(reviewer)
    ensures PrevStandardAssignee(ds[k].nodes, i) != Some(reviewer)
  {
    RunInvariant(ds, ws, k);
  }
}
