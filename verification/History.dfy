/** What the rows remember of a run. Who works on a node, how often it was rejected, when and by whom it
    was completed and until when it is reserved can all be read off the operations alone. */
module History {
  import opened Types
  import opened Writes
  import opened Protocol
  import opened Reservations
  import opened Rollback

  // ----- who worked on a node

  /** The step that last claimed node j among the first k, or -1. */
  function LastClaim(ws: seq<Write>, k: nat, j: nat): (c: int)
    requires k <= |ws|
    ensures -1 <= c < k
    ensures c >= 0 ==> ws[c].Claim? && ws[c].i == j
    ensures forall m :: c < m < k ==> !(ws[m].Claim? && ws[m].i == j)
  {
    if k == 0 then -1
    else if ws[k - 1].Claim? && ws[k - 1].i == j then k - 1
    else LastClaim(ws, k - 1, j)
  }

  /** Whoever claimed node j last, or was assigned to it when the task was created. */
  function Worker(start: Db, ws: seq<Write>, k: nat, j: nat): Option<Id>
    requires k <= |ws| && j < |start.nodes|
  {
    var c := LastClaim(ws, k, j);
    if c >= 0 then Some(ws[c].op) else start.nodes[j].assignee
  }

  lemma ClaimNames(d: Db, w: Write, d': Db)
    requires Step(d, w, d') && w.Claim?
    ensures d'.nodes[w.i].assignee == Some(w.op)
    ensures d'.nodes[w.i].assigneeType == if w.byAgent then SpecificAgent else Human
  {
  }

  /** A node that is not pending after a step was not before, with the same assignee, unless the step
      claimed it. */
  lemma AssigneeKept(d: Db, w: Write, d': Db, j: nat)
    requires Linear(d.nodes) && Step(d, w, d') && j < |d.nodes| && d'.nodes[j].status != Pending
    requires !(w.Claim? && w.i == j)
    ensures d.nodes[j].status != Pending && d'.nodes[j].assignee == d.nodes[j].assignee
    ensures d'.nodes[j].status == InProgress ==>
      d.nodes[j].status == InProgress && d'.nodes[j].assigneeType == d.nodes[j].assigneeType
  {
    if w.Reject? {
      GuardsSuffice(d, w);
    }
  }

  /** In every run: a node that is not pending, be it in progress, done, rejected or waiting for a human,
      carries the name of whoever claimed it last, and while in progress also the kind of its claim. */
  lemma {:induction false} AssigneeIsWorker(ds: seq<Db>, ws: seq<Write>, k: nat, j: nat)
    requires Run(ds, ws) && Created(ds[0]) && k < |ds| && j < |ds[0].nodes| == |ds[k].nodes|
    requires ds[k].nodes[j].status != Pending
    ensures ds[k].nodes[j].assignee == Worker(ds[0], ws, k, j)
    ensures ds[k].nodes[j].status == InProgress && LastClaim(ws, k, j) >= 0 ==>
      ds[k].nodes[j].assigneeType == if ws[LastClaim(ws, k, j)].byAgent then SpecificAgent else Human
  {
    if k > 0 {
      RunInvariant(ds, ws, k - 1);
      assert StepAt(ds, ws, k - 1);
      if ws[k - 1].Claim? && ws[k - 1].i == j {
        ClaimNames(ds[k - 1], ws[k - 1], ds[k]);
      } else {
        AssigneeKept(ds[k - 1], ws[k - 1], ds[k], j);
        AssigneeIsWorker(ds, ws, k - 1, j);
      }
    }
  }

  /** An interrupt is acknowledged only by whoever worked on the node, unless it is pending again. */
  lemma AcknowledgedByWorker(ds: seq<Db>, ws: seq<Write>, a: nat)
    requires Run(ds, ws) && Created(ds[0]) && a < |ws| && ws[a].Acknowledge? && ws[a].i < |ds[0].nodes|
    ensures |ds[a].nodes| == |ds[0].nodes|
    ensures ds[a].nodes[ws[a].i].status != Pending ==> Worker(ds[0], ws, a, ws[a].i) == Some(ws[a].op)
  {
    RunInvariant(ds, ws, a);
    assert StepAt(ds, ws, a);
    if ds[a].nodes[ws[a].i].status != Pending {
      AssigneeIsWorker(ds, ws, a, ws[a].i);
    }
  }

  /** Behind a completed prefix the nearest standard node somebody worked on decides who may not review. */
  lemma {:induction false} PrevStandardIsWorker(ds: seq<Db>, ws: seq<Write>, k: nat, i: nat, j: nat)
    requires Run(ds, ws) && Created(ds[0]) && k < |ds| && j < i <= |ds[0].nodes| == |ds[k].nodes|
    requires PrefixCompleted(ds[k].nodes, i)
    requires ds[0].nodes[j].nodeType == Standard && Worker(ds[0], ws, k, j).Some?
    requires forall m :: j < m < i && ds[0].nodes[m].nodeType == Standard ==> Worker(ds[0], ws, k, m) == None
    ensures PrevStandardAssignee(ds[k].nodes, i) == Worker(ds[0], ws, k, j)
  {
    StaticRun(ds, ws, k);
    AssigneeIsWorker(ds, ws, k, i - 1);
    if j < i - 1 {
      PrevStandardIsWorker(ds, ws, k, i - 1, j);
    }
  }

  /** The agent that claims a review is not the one who worked on the nearest standard node before it that
      anybody worked on: whatever was rejected, reassigned or completed by hand in between. */
  lemma ReviewedByAnother(ds: seq<Db>, ws: seq<Write>, a: nat, j: nat)
    requires Run(ds, ws) && Created(ds[0]) && a < |ws| && ws[a].Claim? && ws[a].byAgent
    requires j < ws[a].i < |ds[0].nodes| && ds[0].nodes[ws[a].i].nodeType == Review
    requires ds[0].nodes[j].nodeType == Standard
    requires forall m :: j < m < ws[a].i && ds[0].nodes[m].nodeType == Standard ==> Worker(ds[0], ws, a, m) == None
    ensures Worker(ds[0], ws, a, j) != Some(ws[a].op)
  {
    StaticRun(ds, ws, a);
    RunInvariant(ds, ws, a);
    assert StepAt(ds, ws, a);
    assert Open(ds[a].nodes, ws[a].i);
    if Worker(ds[0], ws, a, j).Some? {
      PrevStandardIsWorker(ds, ws, a, ws[a].i, j);
    }
  }

  /** Without completion by hand a completed node that was ever claimed was approved after its last claim. */
  lemma ApprovedSinceClaim(ds: seq<Db>, ws: seq<Write>, k: nat, j: nat)
    requires WorkRun(ds, ws) && k < |ds| && j < |ds[0].nodes| == |ds[k].nodes|
    requires ds[k].nodes[j].status == Completed && LastClaim(ws, k, j) >= 0
    ensures LastClaim(ws, k, j) < Stamp(ws, k, j)
    ensures LastClaim(ws, Stamp(ws, k, j), j) == LastClaim(ws, k, j)
  {
    var c := LastClaim(ws, k, j);
    RunInvariant(ds, ws, c + 1);
    assert StepAt(ds, ws, c);
    ApprovedBetween(ds, ws, c + 1, k, j);
  }

  /** Then it is operations only: the agent whose claim put a review in progress is not the one whose claim
      preceded the last approval of the standard node before it. */
  lemma ApprovedWorkReviewedByAnother(ds: seq<Db>, ws: seq<Write>, a: nat, j: nat)
    requires WorkRun(ds, ws) && a < |ws| && ws[a].Claim? && ws[a].byAgent
    requires j < ws[a].i < |ds[0].nodes| && ds[0].nodes[ws[a].i].nodeType == Review
    requires ds[0].nodes[j].nodeType == Standard
    requires forall m :: j < m < ws[a].i ==> ds[0].nodes[m].nodeType != Standard
    requires Stamp(ws, a, j) >= 0 && LastClaim(ws, Stamp(ws, a, j), j) >= 0
    ensures ws[LastClaim(ws, Stamp(ws, a, j), j)].op != ws[a].op
  {
    RunInvariant(ds, ws, a);
    assert StepAt(ds, ws, a);
    assert Open(ds[a].nodes, ws[a].i);
    assert LastClaim(ws, a, j) >= 0;
    ApprovedSinceClaim(ds, ws, a, j);
    ReviewedByAnother(ds, ws, a, j);
  }

  // ----- what an approval passes on

  /** An approval opens the next node for whoever did the approved work: for five minutes, or fifteen when
      the node may take more than thirty. A review of that work is left as it was reserved before. */
  lemma RightPassesOn(ds: seq<Db>, ws: seq<Write>, a: nat)
    requires Run(ds, ws) && Created(ds[0]) && a < |ws| && ws[a].Approve? && ws[a].i + 1 < |ds[0].nodes|
    ensures |ds[a].nodes| == |ds[a + 1].nodes| == |ds[0].nodes|
    ensures var i, worker := ws[a].i, Worker(ds[0], ws, a, ws[a].i);
      var was, row := ds[a].nodes[i + 1], ds[a + 1].nodes[i + 1];
      var reviewed := ds[0].nodes[i].nodeType == Standard && ds[0].nodes[i + 1].nodeType == Review;
      && row.status == Pending
      && row.reservedFor == (if worker.Some? && !reviewed then worker else was.reservedFor)
      && row.reservedUntil == (if row.reservedFor.None? then None
                               else Some(ws[a].now + if ds[0].nodes[i + 1].timeoutMinutes > 30 then 900 else 300))
  {
    StaticRun(ds, ws, a);
    RunInvariant(ds, ws, a);
    assert StepAt(ds, ws, a);
    AssigneeIsWorker(ds, ws, a, ws[a].i);
    assert Open(ds[a].nodes, ws[a].i) && !Open(ds[a].nodes, ws[a].i + 1);
  }

  lemma ReviewNext(d: Db, w: Write, d': Db)
    requires Linear(d.nodes) && Step(d, w, d') && w.Approve? && w.i + 1 < |d.nodes|
    requires d.nodes[w.i].nodeType == Standard && d.nodes[w.i + 1].nodeType == Review
    ensures d'.nodes[w.i].status == Completed
    ensures var was, row := d.nodes[w.i + 1], d'.nodes[w.i + 1];
      row.status == Pending && row.nodeType == Review && row.reservedFor == was.reservedFor
    ensures PrevStandardAssignee(d'.nodes, w.i + 1) ==
            if d.nodes[w.i].assignee.Some? then d.nodes[w.i].assignee else PrevStandardAssignee(d.nodes, w.i)
  {
    assert Open(d.nodes, w.i) && !Open(d.nodes, w.i + 1);
    PrevStandardSame(d.nodes, d'.nodes, w.i);
  }

  /** So an approved standard node leaves an unreserved review open at once to every agent but its author. */
  lemma ReviewOpenToOthers(d: Db, w: Write, d': Db, op: Id)
    requires Linear(d.nodes) && Step(d, w, d') && w.Approve? && w.i + 1 < |d.nodes|
    requires d.nodes[w.i].nodeType == Standard && d.nodes[w.i + 1].nodeType == Review
    requires d.nodes[w.i + 1].reservedFor.None? && DependenciesCompleted(d'.nodes, w.i + 1)
    ensures ClaimPasses(d', w.i + 1, op, true) <==>
      (if d.nodes[w.i].assignee.Some? then d.nodes[w.i].assignee else PrevStandardAssignee(d.nodes, w.i)) != Some(op)
  {
    ReviewNext(d, w, d');
  }

  lemma ExpiryKept(d: Db, w: Write, d': Db, j: nat)
    requires Step(d, w, d') && j < |d.nodes| && d'.nodes[j].reservedUntil.Some?
    requires !(w.Approve? && w.i + 1 == j)
    ensures d'.nodes[j].reservedUntil == d.nodes[j].reservedUntil
  {
  }

  /** Every expiry stems from the last approval of the node before. */
  lemma {:induction false} ExpiryFromApproval(ds: seq<Db>, ws: seq<Write>, k: nat, j: nat)
    requires Run(ds, ws) && Created(ds[0]) && k < |ds| && j < |ds[0].nodes| == |ds[k].nodes|
    requires ds[k].nodes[j].reservedUntil.Some?
    ensures j > 0 && Stamp(ws, k, j - 1) >= 0
    ensures ds[k].nodes[j].reservedUntil ==
            Some(ws[Stamp(ws, k, j - 1)].now + if ds[0].nodes[j].timeoutMinutes > 30 then 900 else 300)
  {
    RunInvariant(ds, ws, k - 1);
    assert StepAt(ds, ws, k - 1);
    if ws[k - 1].Approve? && ws[k - 1].i == j - 1 {
      RightPassesOn(ds, ws, k - 1);
    } else {
      ExpiryKept(ds[k - 1], ws[k - 1], ds[k], j);
      ExpiryFromApproval(ds, ws, k - 1, j);
    }
  }

  // ----- how often a node was rejected

  predicate ReExecutes(w: Write, j: nat) {
    w.Resolve? && !w.complete && w.i == j
  }

  /** A rejection of node j, or back to it. */
  predicate Rejects(w: Write, j: nat) {
    w.Reject? && (w.i == j || w.target == j)
  }

  /** The rejections that node j was part of among steps from, ..., to - 1. */
  function RejectionsIn(ws: seq<Write>, from: nat, to: nat, j: nat): nat
    requires from <= to <= |ws|
  {
    if from == to then 0 else RejectionsIn(ws, from, to - 1, j) + if Rejects(ws[to - 1], j) then 1 else 0
  }

  /** The first step after the last re-execution of node j among the first k, or 0. */
  function SinceReExecution(ws: seq<Write>, k: nat, j: nat): (s: nat)
    requires k <= |ws|
    ensures s <= k && (s == 0 || ReExecutes(ws[s - 1], j))
    ensures forall m :: s <= m < k ==> !ReExecutes(ws[m], j)
  {
    if k == 0 then 0 else if ReExecutes(ws[k - 1], j) then k else SinceReExecution(ws, k - 1, j)
  }

  lemma CountStep(d: Db, w: Write, d': Db, j: nat)
    requires Step(d, w, d') && j < |d.nodes|
    ensures d'.nodes[j].rejectCount ==
            if ReExecutes(w, j) then 0 else d.nodes[j].rejectCount + if Rejects(w, j) then 1 else 0
  {
  }

  /** In every run the reject count of a node is the number of rejections it was part of, as rejected node
      or as target, since it was last handed out again by a human. */
  lemma {:induction false} CountIsRejections(ds: seq<Db>, ws: seq<Write>, k: nat, j: nat)
    requires Run(ds, ws) && Created(ds[0]) && k < |ds| && j < |ds[0].nodes| == |ds[k].nodes|
    ensures ds[k].nodes[j].rejectCount == RejectionsIn(ws, SinceReExecution(ws, k, j), k, j)
  {
    if k > 0 {
      RunInvariant(ds, ws, k - 1);
      CountIsRejections(ds, ws, k - 1, j);
      assert StepAt(ds, ws, k - 1);
      CountStep(ds[k - 1], ws[k - 1], ds[k], j);
    }
  }

  /** A rejection leaves its target waiting for a human exactly when the target has now been part of as many
      rejections as its limit allows since a human last handed it out; otherwise it reopens, reserved for
      whoever worked on it. */
  lemma LimitReachedExactly(ds: seq<Db>, ws: seq<Write>, b: nat)
    requires Run(ds, ws) && Created(ds[0]) && b < |ws| && ws[b].Reject? && ws[b].target < |ds[0].nodes|
    ensures |ds[b + 1].nodes| == |ds[0].nodes|
    ensures var t := ws[b].target;
      var limit := if ds[0].nodes[t].maxRejectCycles > 0 then ds[0].nodes[t].maxRejectCycles else 5;
      var row := ds[b + 1].nodes[t];
      && (row.status == Manual <==> RejectionsIn(ws, SinceReExecution(ws, b + 1, t), b + 1, t) >= limit)
      && (row.status == Manual ==> row.assignee == Worker(ds[0], ws, b, t) && row.reservedFor.None?)
      && (row.status != Manual ==>
            row.status == Pending && row.reservedFor == Worker(ds[0], ws, b, t) && row.reservedUntil.None?)
  {
    var t := ws[b].target;
    StaticRun(ds, ws, b);
    RunInvariant(ds, ws, b);
    RunInvariant(ds, ws, b + 1);
    CountIsRejections(ds, ws, b + 1, t);
    assert StepAt(ds, ws, b);
    GuardsSuffice(ds[b], ws[b]);
    AssigneeIsWorker(ds, ws, b, t);
  }

  /** A human who hands a node out again gives it its whole limit back: it waits for a human because of a
      rejection only after that many more. */
  lemma ReExecutionStartsAnew(ds: seq<Db>, ws: seq<Write>, a: nat, b: nat)
    requires Run(ds, ws) && Created(ds[0]) && a < b < |ws| && ws[b].Reject? && ws[b].target < |ds[0].nodes|
    requires ReExecutes(ws[a], ws[b].target) && forall m :: a < m < b ==> !ReExecutes(ws[m], ws[b].target)
    ensures var t := ws[b].target;
      var limit := if ds[0].nodes[t].maxRejectCycles > 0 then ds[0].nodes[t].maxRejectCycles else 5;
      t < |ds[b + 1].nodes| && (ds[b + 1].nodes[t].status == Manual <==> RejectionsIn(ws, a + 1, b + 1, t) >= limit)
  {
    LimitReachedExactly(ds, ws, b);
    assert SinceReExecution(ws, b + 1, ws[b].target) == a + 1;
  }

  // ----- when and by whom a node was completed

  /** The operations that write the completion of node j. */
  predicate Closes(w: Write, j: nat) {
    (w.Approve? || (w.Resolve? && w.complete) || w.Skip?) && w.i == j
  }

  function LastClose(ws: seq<Write>, k: nat, j: nat): (m: int)
    requires k <= |ws|
    ensures -1 <= m < k
    ensures m >= 0 ==> Closes(ws[m], j)
  {
    if k == 0 then -1 else if Closes(ws[k - 1], j) then k - 1 else LastClose(ws, k - 1, j)
  }

  /** A completed node names the time and the author of its last approval or completion by hand. Giving up
      its reservation afterwards erases the time and names the assignee. */
  lemma {:induction false} CompletionIsLastClose(ds: seq<Db>, ws: seq<Write>, k: nat, j: nat)
    requires Run(ds, ws) && Created(ds[0]) && k < |ds| && j < |ds[0].nodes| == |ds[k].nodes|
    requires ds[k].nodes[j].status == Completed
    ensures var m, row := LastClose(ws, k, j), ds[k].nodes[j];
      if m < 0 then row.completedAt == None && row.completedBy == None
      else if ws[m].Skip? then row.completedAt == None && row.completedBy == Worker(ds[0], ws, m, j)
      else row.completedAt == Some(ws[m].now) && row.completedBy == ws[m].completer
  {
    if k > 0 {
      RunInvariant(ds, ws, k - 1);
      assert StepAt(ds, ws, k - 1);
      if !Closes(ws[k - 1], j) {
        assert ds[k - 1].nodes[j] == ds[k].nodes[j];
        CompletionIsLastClose(ds, ws, k - 1, j);
      } else if ws[k - 1].Skip? {
        AssigneeIsWorker(ds, ws, k - 1, j);
      }
    }
  }
}
