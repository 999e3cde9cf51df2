/** What whole operations promise over runs, carried over to concurrent requests: order of completion,
    no stale work after a rejection, and termination. All speak of the operations that landed. */
module ConcurrentRuns {
  import opened Types
  import opened Writes
  import opened Protocol
  import opened Interleaving
  import History
  import Rollback
  import Termination

  /** No completion by hand has landed. */
  predicate NoneByHand(ws: seq<Write>) {
    forall m :: 0 <= m < |ws| ==> Rollback.ByWork(ws[m])
  }

  /** After node i was rejected back to t, it is open again only once every node from t up to i was
      claimed and approved again, in sort order: claims and approvals that landed after the rejection,
      whatever requests were under way. */
  lemma NoStaleWorkConcurrently(ss: seq<Sys>, es: seq<Event>, k: nat, a: nat, i: nat)
    requires Interleaved(ss, es) && k < |ss|
    requires var ws := Landed(ss, es, k); NoneByHand(ws) && a < |ws| && ws[a].Reject? && ws[a].i == i
    requires i < |ss[k].db.nodes| && Open(ss[k].db.nodes, i)
    ensures var ws := Landed(ss, es, k);
      && ws[a].target < i
      && (forall j :: ws[a].target <= j < i ==> Rollback.DoneAgain(ws, a, |ws|, j))
      && (forall j, j' :: ws[a].target <= j < j' < i ==> Rollback.Stamp(ws, |ws|, j) < Rollback.Stamp(ws, |ws|, j'))
  {
    var ds := Linearizable(ss, es, k);
    Rollback.NoStaleWork(ds, Landed(ss, es, k), a, |ds| - 1, i);
  }

  /** A task finished in a concurrent run was last approved in sort order, as far as its status still says
      finished. */
  lemma FinishedInOrderConcurrently(ss: seq<Sys>, es: seq<Event>, k: nat)
    requires Interleaved(ss, es) && k < |ss| && NoneByHand(Landed(ss, es, k)) && ss[k].db.status == Finished
    ensures var ws := Landed(ss, es, k);
      forall j, j' :: 0 <= j < j' < |ss[k].db.nodes| ==> Rollback.Stamp(ws, |ws|, j) < Rollback.Stamp(ws, |ws|, j')
  {
    var ds := Linearizable(ss, es, k);
    Rollback.FinishedInOrder(ds, Landed(ss, es, k), |ds| - 1);
  }

  /** A node that is not pending carries the name of whoever's claim landed last, and its reject count is the
      number of rejections that landed on it since it was last handed out again by a human. */
  lemma HistoryConcurrently(ss: seq<Sys>, es: seq<Event>, k: nat, j: nat)
    requires Interleaved(ss, es) && k < |ss| && j < |ss[0].db.nodes|
    ensures j < |ss[k].db.nodes|
    ensures var ws, row := Landed(ss, es, k), ss[k].db.nodes[j];
      && (row.status != Pending ==> row.assignee == History.Worker(ss[0].db, ws, |ws|, j))
      && row.rejectCount == History.RejectionsIn(ws, History.SinceReExecution(ws, |ws|, j), |ws|, j)
  {
    var ds := Linearizable(ss, es, k);
    var ws := Landed(ss, es, k);
    RunInvariant(ds, ws, |ws|);
    History.CountIsRejections(ds, ws, |ws|, j);
    if ss[k].db.nodes[j].status != Pending {
      History.AssigneeIsWorker(ds, ws, |ws|, j);
    }
  }

  /** An agent whose claim of a review landed is not the one whose claim landed last on the nearest standard
      node before it that anybody worked on, however old the claim's reads were. */
  lemma ReviewedByAnotherConcurrently(ss: seq<Sys>, es: seq<Event>, k: nat, a: nat, j: nat)
    requires Interleaved(ss, es) && k < |ss|
    requires var ws := Landed(ss, es, k); a < |ws| && ws[a].Claim? && ws[a].byAgent && j < ws[a].i < |ss[0].db.nodes|
    requires var ws, ns := Landed(ss, es, k), ss[0].db.nodes;
      && ns[ws[a].i].nodeType == Review && ns[j].nodeType == Standard
      && forall m :: j < m < ws[a].i && ns[m].nodeType == Standard ==> History.Worker(ss[0].db, ws, a, m) == None
    ensures var ws := Landed(ss, es, k); History.Worker(ss[0].db, ws, a, j) != Some(ws[a].op)
  {
    var ds := Linearizable(ss, es, k);
    History.ReviewedByAnother(ds, Landed(ss, es, k), a, j);
  }

  /** The landed operations that changed a status or a reservation, among the first k events. */
  ghost function EffectiveEvents(ss: seq<Sys>, es: seq<Event>, k: nat): nat
    requires k <= |es| && |ss| == |es| + 1 && forall m :: 0 <= m < |ss| ==> |ss[m].db.nodes| == |ss[0].db.nodes|
  {
    if k == 0 then 0
    else
      EffectiveEvents(ss, es, k - 1) + if Termination.Effective(ss[k - 1].db, ss[k].db) then 1 else 0
  }

  lemma SameSize(ss: seq<Sys>, es: seq<Event>)
    requires Interleaved(ss, es)
    ensures forall m :: 0 <= m < |ss| ==> |ss[m].db.nodes| == |ss[0].db.nodes|
  {
    forall m | 0 <= m < |ss|
      ensures |ss[m].db.nodes| == |ss[0].db.nodes|
    {
      InvRun(ss, es, m);
    }
  }

  /** No human resolution, cancel or delete has landed. */
  predicate AgentsOnly(ws: seq<Write>) {
    forall k :: 0 <= k < |ws| ==> Termination.AgentOrSystem(ws[k])
  }

  /** Each event spends from the same allowance as the whole operation it is the effect of. */
  lemma AllowanceEvent(s: Sys, e: Event, s': Sys)
    requires Inv(s) && Next(s, e, s')
    requires !SameRows(s.db, s'.db) ==> EffectOf(s, e).Some? && Termination.AgentOrSystem(EffectOf(s, e).value)
    ensures |s'.db.nodes| == |s.db.nodes|
    ensures Termination.Allowance(s'.db.nodes) + (if Termination.Effective(s.db, s'.db) then 1 else 0)
            <= Termination.Allowance(s.db.nodes)
  {
    if !SameRows(s.db, s'.db) {
      EventMovesBy(s, e, s');
      var w := EffectOf(s, e).value;
      var d' := Exec(s.db, w).value;
      Termination.AllowanceStep(s.db, w, d');
      assert Termination.Effective(s.db, s'.db) ==> Termination.Effective(s.db, d');
    }
  }

  lemma {:induction false} SpentConcurrently(ss: seq<Sys>, es: seq<Event>, k: nat)
    requires Interleaved(ss, es) && k <= |es|
    requires AgentsOnly(Landed(ss, es, k))
    ensures forall m :: 0 <= m < |ss| ==> |ss[m].db.nodes| == |ss[0].db.nodes|
    ensures EffectiveEvents(ss, es, k) + Termination.Allowance(ss[k].db.nodes)
            <= Termination.Allowance(ss[0].db.nodes)
  {
    SameSize(ss, es);
    if k > 0 {
      var before, ws := Landed(ss, es, k - 1), Landed(ss, es, k);
      assert AgentsOnly(before) by {
        assert forall m :: 0 <= m < |before| ==> before[m] == ws[m];
      }
      SpentConcurrently(ss, es, k - 1);
      InvRun(ss, es, k - 1);
      assert Follows(ss, es, k - 1);
      var s, e, s' := ss[k - 1], es[k - 1], ss[k];
      if !SameRows(s.db, s'.db) {
        EventMovesBy(s, e, s');
        assert ws[|ws| - 1] == EffectOf(s, e).value;
      }
      AllowanceEvent(s, e, s');
    }
  }

  /** Without human resolution a concurrent run of a fresh task has at most RejectBound rejections and at
      most StepBound effective events, however requests and jobs interleave. */
  lemma AgentsTerminateConcurrently(ss: seq<Sys>, es: seq<Event>)
    requires Interleaved(ss, es)
    requires AgentsOnly(Landed(ss, es, |es|))
    ensures forall m :: 0 <= m < |ss| ==> |ss[m].db.nodes| == |ss[0].db.nodes|
    ensures EffectiveEvents(ss, es, |es|) <= Termination.StepBound(ss[0].db.nodes)
    ensures var ws := Landed(ss, es, |es|);
      Termination.RejectSteps(ws, |ws|) <= Termination.RejectBound(ss[0].db.nodes)
  {
    SpentConcurrently(ss, es, |es|);
    Termination.FreshAllowance(ss[0].db.nodes);
    var ds := Linearizable(ss, es, |es|);
    var ws := Landed(ss, es, |es|);
    assert Run(ds, ws) && Created(ds[0]) && AgentsOnly(ws);
    Termination.AgentsTerminate(ds, ws);
  }
}
