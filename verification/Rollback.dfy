/** What a rejection means over whole runs: no work completed before a roll-back is ever relied on
    after it, and completing a node by hand is the one operation that breaks this. */
module Rollback {
  import opened Types
  import opened Writes
  import opened Protocol

  /** Every write but the manual completion of a node waiting for a human. */
  predicate ByWork(w: Write) {
    w.Resolve? ==> !w.complete
  }

  ghost predicate WorkRun(ds: seq<Db>, ws: seq<Write>) {
    Run(ds, ws) && Created(ds[0]) && forall k :: 0 <= k < |ws| ==> ByWork(ws[k])
  }

  /** The step that last approved node j among the first k, or -1. */
  function Stamp(ws: seq<Write>, k: nat, j: nat): (m: int)
    requires k <= |ws|
    ensures -1 <= m < k
    ensures m >= 0 ==> ws[m].Approve? && ws[m].i == j
  {
    if k == 0 then -1
    else if ws[k - 1].Approve? && ws[k - 1].i == j then k - 1
    else Stamp(ws, k - 1, j)
  }

  /** The completed prefix was completed in sort order. */
  ghost predicate InOrder(ds: seq<Db>, ws: seq<Write>, k: nat)
    requires k < |ds| && |ds| == |ws| + 1
  {
    forall j, j' :: 0 <= j < j' < |ds[k].nodes| && PrefixCompleted(ds[k].nodes, j' + 1) ==>
      Stamp(ws, k, j) < Stamp(ws, k, j')
  }

  lemma {:induction false} AlwaysInOrder(ds: seq<Db>, ws: seq<Write>, k: nat)
    requires WorkRun(ds, ws) && k < |ds|
    ensures InOrder(ds, ws, k)
  {
    if k == 0 {
      forall n | 1 < n <= |ds[0].nodes|
        ensures !PrefixCompleted(ds[0].nodes, n)
      {
        assert ds[0].nodes[n - 1].status == Pending;
      }
    } else {
      AlwaysInOrder(ds, ws, k - 1);
      RunInvariant(ds, ws, k - 1);
      var d, w, d' := ds[k - 1], ws[k - 1], ds[k];
      assert StepAt(ds, ws, k - 1) && ByWork(w);
      forall j, j' | 0 <= j < j' < |d'.nodes| && PrefixCompleted(d'.nodes, j' + 1)
        ensures Stamp(ws, k, j) < Stamp(ws, k, j')
      {
        if w.Approve? && w.i == j' {
        } else {
          PrefixShrinks(d, w, d', j' + 1);
          assert w.Approve? ==> w.i != j;
        }
      }
    }
  }

  /** A work step lengthens the completed prefix only by approving its last node. */
  lemma PrefixShrinks(d: Db, w: Write, d': Db, n: nat)
    requires Linear(d.nodes) && Step(d, w, d') && ByWork(w) && 0 < n <= |d.nodes|
    requires PrefixCompleted(d'.nodes, n) && !(w.Approve? && w.i == n - 1)
    ensures PrefixCompleted(d.nodes, n)
    ensures w.Approve? ==> w.i >= n
  {
    var next := if w.Approve? && w.i + 1 < |d'.nodes| then d'.nodes[w.i + 1].status else Pending;
    assert w.Approve? && w.i + 1 < n ==> next == Completed;
    forall j | 0 <= j < n
      ensures d.nodes[j].status == Completed
    {
      assert d'.nodes[j].status == Completed;
    }
  }

  // ----- a rejection makes everything behind it be done again

  /** A node that is in progress and was not before has been claimed in between. */
  lemma {:induction false} ClaimedBetween(ds: seq<Db>, ws: seq<Write>, x: nat, y: nat, j: nat) returns (c: nat)
    requires WorkRun(ds, ws) && x <= y < |ds| && j < |ds[y].nodes| && j < |ds[x].nodes|
    requires ds[x].nodes[j].status != InProgress && ds[y].nodes[j].status == InProgress
    ensures x <= c < y && ws[c].Claim? && ws[c].i == j
  {
    assert StepAt(ds, ws, y - 1);
    if ds[y - 1].nodes[j].status == InProgress {
      c := ClaimedBetween(ds, ws, x, y - 1, j);
    } else {
      c := y - 1;
    }
  }

  /** A node that is completed and was not before has been approved in between. */
  lemma {:induction false} ApprovedBetween(ds: seq<Db>, ws: seq<Write>, x: nat, y: nat, j: nat)
    requires WorkRun(ds, ws) && x <= y < |ds| && j < |ds[y].nodes| && j < |ds[x].nodes|
    requires ds[x].nodes[j].status != Completed && ds[y].nodes[j].status == Completed
    ensures x <= Stamp(ws, y, j)
  {
    assert StepAt(ds, ws, y - 1) && ByWork(ws[y - 1]);
    if ds[y - 1].nodes[j].status == Completed {
      ApprovedBetween(ds, ws, x, y - 1, j);
    }
  }

  /** Node j was claimed and then approved again, all strictly between steps a and b. */
  ghost predicate DoneAgain(ws: seq<Write>, a: nat, b: nat, j: nat)
    requires b <= |ws|
  {
    exists c, m :: a < c < m < b && ws[c].Claim? && ws[c].i == j && ws[m].Approve? && ws[m].i == j
  }

  /** An approval since state x of a node that was not in progress then was preceded by a claim. */
  lemma ClaimedThenApproved(ds: seq<Db>, ws: seq<Write>, a: nat, b: nat, j: nat)
    requires WorkRun(ds, ws) && a < b < |ds| && j < |ds[a + 1].nodes| && ds[a + 1].nodes[j].status != InProgress
    requires a < Stamp(ws, b, j)
    ensures DoneAgain(ws, a, b, j)
  {
    var m := Stamp(ws, b, j);
    assert StepAt(ds, ws, m) && Fresh(ds[m], ws[m]);
    RunInvariant(ds, ws, m);
    RunInvariant(ds, ws, a + 1);
    var c := ClaimedBetween(ds, ws, a + 1, m, j);
  }

  lemma AfterRejection(d: Db, w: Write, d': Db)
    requires Linear(d.nodes) && Step(d, w, d') && w.Reject?
    ensures w.target < w.i < |d.nodes| && d'.nodes[w.target].status != Completed
    ensures forall j :: 0 <= j < w.i ==> d'.nodes[j].status != InProgress
  {
    assert Open(d.nodes, w.i);
  }

  /** After node i was rejected back to t, it is open again only once every node from t up to i was
      claimed and approved again, in sort order, although the roll-back itself resets only t. */
  lemma NoStaleWork(ds: seq<Db>, ws: seq<Write>, a: nat, b: nat, i: nat)
    requires WorkRun(ds, ws) && a < b < |ds| && ws[a].Reject? && ws[a].i == i
    requires i < |ds[b].nodes| && Open(ds[b].nodes, i)
    ensures ws[a].target < i
    ensures forall j :: ws[a].target <= j < i ==> DoneAgain(ws, a, b, j)
    ensures forall j, j' :: ws[a].target <= j < j' < i ==> Stamp(ws, b, j) < Stamp(ws, b, j')
  {
    RunInvariant(ds, ws, a);
    RunInvariant(ds, ws, b);
    AlwaysInOrder(ds, ws, b);
    var t := ws[a].target;
    assert StepAt(ds, ws, a);
    AfterRejection(ds[a], ws[a], ds[a + 1]);
    ApprovedBetween(ds, ws, a + 1, b, t);
    forall j | t <= j < i
      ensures DoneAgain(ws, a, b, j)
    {
      assert PrefixCompleted(ds[b].nodes, j + 1);
      assert Stamp(ws, b, t) <= Stamp(ws, b, j);
      ClaimedThenApproved(ds, ws, a, b, j);
    }
    forall j, j' | t <= j < j' < i
      ensures Stamp(ws, b, j) < Stamp(ws, b, j')
    {
      assert PrefixCompleted(ds[b].nodes, j' + 1);
    }
  }

  /** A finished task was completed in sort order. */
  lemma FinishedInOrder(ds: seq<Db>, ws: seq<Write>, k: nat)
    requires WorkRun(ds, ws) && k < |ds| && ds[k].status == Finished
    ensures forall j, j' :: 0 <= j < j' < |ds[k].nodes| ==> Stamp(ws, k, j) < Stamp(ws, k, j')
  {
    RunInvariant(ds, ws, k);
    AlwaysInOrder(ds, ws, k);
    forall j, j' | 0 <= j < j' < |ds[k].nodes|
      ensures Stamp(ws, k, j) < Stamp(ws, k, j')
    {
      assert PrefixCompleted(ds[k].nodes, j' + 1);
    }
  }

  // ----- rejected nodes wait for earlier work

  ghost predicate RejectedWait(ns: seq<Node>) {
    forall i :: 0 <= i < |ns| && ns[i].status == Rejected ==> !PrefixCompleted(ns, i)
  }

  lemma RejectedWaitStep(d: Db, w: Write, d': Db)
    requires Linear(d.nodes) && RejectedWait(d.nodes) && Step(d, w, d') && ByWork(w)
    ensures RejectedWait(d'.nodes)
  {
    forall i | 0 <= i < |d'.nodes| && d'.nodes[i].status == Rejected
      ensures !PrefixCompleted(d'.nodes, i)
    {
      if w.Reject? && w.i == i {
        assert d'.nodes[w.target].status != Completed;
      } else if PrefixCompleted(d'.nodes, i) {
        assert d.nodes[i].status == Rejected;
        if i > 0 {
          PrefixShrinks(d, w, d', i);
        }
      }
    }
  }

  lemma {:induction false} RejectedWaitRun(ds: seq<Db>, ws: seq<Write>, k: nat)
    requires WorkRun(ds, ws) && k < |ds|
    ensures RejectedWait(ds[k].nodes)
  {
    if k > 0 {
      RejectedWaitRun(ds, ws, k - 1);
      RunInvariant(ds, ws, k - 1);
      assert StepAt(ds, ws, k - 1) && ByWork(ws[k - 1]);
      RejectedWaitStep(ds[k - 1], ws[k - 1], ds[k]);
    }
  }

  // ----- completing by hand

  ghost predicate NothingOpen(ns: seq<Node>) {
    forall i :: 0 <= i < |ns| ==> !Open(ns, i)
  }

  /** No node is claimable, in progress or waiting for a human, and the task is not finished. */
  ghost predicate Stranded(d: Db) {
    NothingOpen(d.nodes) && d.status != Finished
  }

  /** Resolve with action "complete" neither reopens the next node nor finishes the task: it strands
      the task if and only if the next node is not already waiting to be claimed. */
  lemma CompletingByHandStrands(d: Db, r: Write, d': Db)
    requires Linear(d.nodes) && d.status != Finished && r.Resolve? && r.complete && Step(d, r, d')
    ensures Stranded(d') <==> r.i + 1 == |d.nodes| || d.nodes[r.i + 1].status != Pending
  {
    assert Open(d.nodes, r.i);
    forall i | 0 <= i < |d.nodes| && i != r.i
      ensures !Open(d.nodes, i) && (i != r.i + 1 ==> !Open(d'.nodes, i))
    {
      if Open(d.nodes, i) {
        OneOpen(d.nodes, i, r.i);
      }
    }
    assert r.i + 1 < |d.nodes| ==> (Open(d'.nodes, r.i + 1) <==> d.nodes[r.i + 1].status == Pending);
  }

  /** So after a rejection that hit the limit it counts everything between target and rejected node
      as done without redoing it, and nothing can ever be claimed again. */
  lemma CompletingTargetByHand(d: Db, w: Write, d1: Db, r: Write, d2: Db)
    requires Linear(d.nodes) && d.status != Finished
    requires w.Reject? && Step(d, w, d1) && d1.nodes[w.target].status == Manual
    requires r.Resolve? && r.i == w.target && r.complete && Step(d1, r, d2)
    ensures PrefixCompleted(d2.nodes, w.i) && d2.nodes[w.i].status == Rejected
    ensures Stranded(d2)
  {
    assert Open(d.nodes, w.i);
    LinearStep(d, w, d1);
    CompletingByHandStrands(d1, r, d2);
  }

  lemma {:induction false} StrandedForGood(ds: seq<Db>, ws: seq<Write>, k: nat)
    requires Run(ds, ws) && Stranded(ds[0]) && k < |ds|
    ensures Stranded(ds[k])
  {
    if k > 0 {
      StrandedForGood(ds, ws, k - 1);
      assert StepAt(ds, ws, k - 1);
      StrandedStep(ds[k - 1], ws[k - 1], ds[k]);
    }
  }

  lemma NothingOpenStep(d: Db, w: Write, d': Db)
    requires NothingOpen(d.nodes) && Step(d, w, d')
    ensures NothingOpen(d'.nodes)
  {
    assert w.Claim? || w.Approve? || w.Reject? || w.Park? || w.Resolve? ==> Open(d.nodes, w.i);
    forall i | 0 <= i < |d'.nodes|
      ensures !Open(d'.nodes, i)
    {
      assert !Open(d.nodes, i);
    }
  }

  lemma StrandedStep(d: Db, w: Write, d': Db)
    requires Stranded(d) && Step(d, w, d')
    ensures Stranded(d')
  {
    NothingOpenStep(d, w, d');
    assert w.Approve? ==> Open(d.nodes, w.i);
  }
}
