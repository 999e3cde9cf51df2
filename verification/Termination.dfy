/** Agents and background jobs cannot keep a task busy for ever: without a human resolving, and
    without cancel or delete, every step that does something uses up a finite allowance. */
module Termination {
  import opened Types
  import opened Writes
  import opened Protocol

  predicate AgentOrSystem(w: Write) {
    !w.Resolve? && !w.CancelNodes? && !w.DeleteTask?
  }

  /** A step that changed a status or a reservation; the rest are no-ops but for version numbers. */
  ghost predicate Effective(d: Db, d': Db)
    requires |d.nodes| == |d'.nodes|
  {
    exists i :: 0 <= i < |d.nodes| &&
      (d'.nodes[i].status != d.nodes[i].status || d'.nodes[i].reservedFor != d.nodes[i].reservedFor)
  }

  // ----- totals over the rows

  function Total(ns: seq<Node>, f: Node -> nat): nat {
    if |ns| == 0 then 0 else f(ns[0]) + Total(ns[1..], f)
  }

  /** If the rows other than a do not weigh more and row a weighs at most e more, so does the total. */
  lemma {:induction false} TotalChange(ns: seq<Node>, ns': seq<Node>, f: Node -> nat, a: nat, e: int)
    requires |ns'| == |ns| && a < |ns|
    requires forall k :: 0 <= k < |ns| && k != a ==> f(ns'[k]) <= f(ns[k])
    requires f(ns'[a]) <= f(ns[a]) + e
    ensures Total(ns', f) <= Total(ns, f) + e
  {
    if a == 0 {
      TotalLess(ns[1..], ns'[1..], f);
    } else {
      assert forall k :: 0 <= k < |ns[1..]| ==> ns[1..][k] == ns[k + 1] && ns'[1..][k] == ns'[k + 1];
      TotalChange(ns[1..], ns'[1..], f, a - 1, e);
    }
  }

  lemma {:induction false} TotalLess(ns: seq<Node>, ns': seq<Node>, f: Node -> nat)
    requires |ns'| == |ns| && forall k :: 0 <= k < |ns| ==> f(ns'[k]) <= f(ns[k])
    ensures Total(ns', f) <= Total(ns, f)
  {
    if |ns| > 0 {
      TotalLess(ns[1..], ns'[1..], f);
    }
  }

  // ----- the allowance

  /** How often the node can still be reopened by a rejection. */
  function Budget(row: Node): nat {
    if row.RejectLimit() - 1 > row.rejectCount then row.RejectLimit() - 1 - row.rejectCount else 0
  }

  function Reserved(row: Node): nat {
    if row.reservedFor.Some? then 1 else 0
  }

  predicate HasManual(ns: seq<Node>) {
    exists i :: 0 <= i < |ns| && ns[i].status == Manual
  }

  /** How many rejections the task can still take. */
  function Rejections(ns: seq<Node>): nat {
    Total(ns, Budget) + if HasManual(ns) then 0 else 1
  }

  /** Steps the frontier node still has to take before it can be approved. */
  function Rank(ns: seq<Node>): nat {
    var f := Frontier(ns);
    if f < |ns| && ns[f].status == Pending then 2 else if f < |ns| && ns[f].status == InProgress then 1 else 0
  }

  function Allowance(ns: seq<Node>): nat {
    Rejections(ns) * (4 * |ns| + 4) + 4 * (|ns| - Frontier(ns)) + 2 * Rank(ns) + Total(ns, Reserved)
  }

  lemma OneRejectionLess(r': nat, r: nat, c: nat)
    requires r' < r
    ensures r' * c + c <= r * c
  {
    assert r * c == (r' + 1) * c + (r - r' - 1) * c;
  }

  lemma FrontierIs(ns: seq<Node>, f: nat)
    requires f < |ns| && PrefixCompleted(ns, f) && ns[f].status != Completed
    ensures Frontier(ns) == f
  {
  }

  lemma BudgetsShrink(d: Db, w: Write, d': Db)
    requires Step(d, w, d') && AgentOrSystem(w)
    ensures forall k :: 0 <= k < |d.nodes| ==> Budget(d'.nodes[k]) <= Budget(d.nodes[k])
    ensures w.Reject? && d'.nodes[w.target].status != Manual ==> Budget(d'.nodes[w.target]) < Budget(d.nodes[w.target])
  {
  }

  lemma ManualStays(d: Db, w: Write, d': Db, i: nat)
    requires Linear(d.nodes) && Step(d, w, d') && AgentOrSystem(w) && i < |d.nodes| && d.nodes[i].status == Manual
    ensures d'.nodes[i].status == Manual && !w.Reject?
  {
    assert Open(d.nodes, i);
    if w.Claim? || w.Approve? || w.Reject? || w.Park? {
      assert Open(d.nodes, w.i);
      OneOpen(d.nodes, w.i, i);
    }
  }

  /** Rejections never come back; a rejection, or a node newly waiting for a human, costs one. */
  lemma RejectionsStep(d: Db, w: Write, d': Db)
    requires Linear(d.nodes) && Step(d, w, d') && AgentOrSystem(w)
    ensures Rejections(d'.nodes) <= Rejections(d.nodes)
    ensures w.Reject? || (HasManual(d'.nodes) && !HasManual(d.nodes)) ==> Rejections(d'.nodes) < Rejections(d.nodes)
  {
    var ns, ns' := d.nodes, d'.nodes;
    BudgetsShrink(d, w, d');
    TotalLess(ns, ns', Budget);
    if i :| 0 <= i < |ns| && ns[i].status == Manual {
      ManualStays(d, w, d', i);
    } else if w.Reject? && ns'[w.target].status != Manual {
      TotalChange(ns, ns', Budget, w.target, -1);
    } else if w.Reject? {
      assert HasManual(ns');
    }
  }

  /** Spending a rejection pays for anything else a step can do while some node is live. */
  lemma RejectionPays(d: Db, w: Write, d': Db, i: nat)
    requires Linear(d.nodes) && Step(d, w, d') && AgentOrSystem(w)
    requires i < |d.nodes| && d.nodes[i].status == InProgress && Rejections(d'.nodes) < Rejections(d.nodes)
    ensures Allowance(d'.nodes) < Allowance(d.nodes)
  {
    var ns, ns' := d.nodes, d'.nodes;
    assert Open(ns, i);
    FrontierIs(ns, i);
    OneRejectionLess(Rejections(ns'), Rejections(ns), 4 * |ns| + 4);
    ReservationsGrowByOne(d, w, d');
  }

  lemma ReservationsGrowByOne(d: Db, w: Write, d': Db)
    requires Step(d, w, d') && AgentOrSystem(w)
    ensures Total(d'.nodes, Reserved) <= Total(d.nodes, Reserved) + 1
  {
    var ns, ns' := d.nodes, d'.nodes;
    match w
    case Claim(i, _, _, _) => TotalChange(ns, ns', Reserved, i, 1);
    case Approve(i, _, _, _) =>
      if i + 1 < |ns| {
        TotalChange(ns, ns', Reserved, i + 1, 1);
      } else {
        TotalLess(ns, ns', Reserved);
      }
    case Reject(_, _, t, _) => TotalChange(ns, ns', Reserved, t, 1);
    case _ => TotalLess(ns, ns', Reserved);
  }

  lemma AllowanceClaim(d: Db, w: Write, d': Db)
    requires Linear(d.nodes) && Step(d, w, d') && w.Claim?
    ensures Allowance(d'.nodes) < Allowance(d.nodes)
  {
    RejectionsStep(d, w, d');
    assert Open(d.nodes, w.i);
    FrontierIs(d.nodes, w.i);
    FrontierIs(d'.nodes, w.i);
    ReservationsGrowByOne(d, w, d');
    RejectionsMonotone(d, d');
  }

  lemma AllowanceApprove(d: Db, w: Write, d': Db)
    requires Linear(d.nodes) && Step(d, w, d') && w.Approve?
    ensures Allowance(d'.nodes) < Allowance(d.nodes)
  {
    RejectionsStep(d, w, d');
    assert Open(d.nodes, w.i);
    FrontierIs(d.nodes, w.i);
    if w.i + 1 < |d.nodes| {
      assert !Open(d.nodes, w.i + 1);
      FrontierIs(d'.nodes, w.i + 1);
    }
    ReservationsGrowByOne(d, w, d');
    RejectionsMonotone(d, d');
  }

  lemma RejectionsMonotone(d: Db, d': Db)
    requires |d'.nodes| == |d.nodes| && Rejections(d'.nodes) <= Rejections(d.nodes)
    ensures Rejections(d'.nodes) * (4 * |d.nodes| + 4) <= Rejections(d.nodes) * (4 * |d.nodes| + 4)
  {
  }

  predicate KeepsStatuses(w: Write) {
    w.Skip? || w.ClearReservations? || w.Acknowledge? || w.Cancel?
  }

  lemma QuietRows(d: Db, w: Write, d': Db)
    requires Step(d, w, d') && KeepsStatuses(w)
    ensures forall k :: 0 <= k < |d.nodes| ==> d'.nodes[k].status == d.nodes[k].status
    ensures forall k :: 0 <= k < |d.nodes| ==>
      || d'.nodes[k].reservedFor == d.nodes[k].reservedFor
      || (d'.nodes[k].reservedFor.None? && d.nodes[k].reservedFor.Some?)
  {
  }

  /** A step that keeps every status only ever gives up reservations. */
  lemma AllowanceQuiet(d: Db, w: Write, d': Db)
    requires Linear(d.nodes) && Step(d, w, d') && KeepsStatuses(w)
    ensures Allowance(d'.nodes) <= Allowance(d.nodes)
    ensures Effective(d, d') ==> Allowance(d'.nodes) < Allowance(d.nodes)
  {
    RejectionsStep(d, w, d');
    RejectionsMonotone(d, d');
    QuietRows(d, w, d');
    SameFrontier(d.nodes, d'.nodes);
    ReservationsGivenUp(d, d');
  }

  lemma SameFrontier(ns: seq<Node>, ns': seq<Node>)
    requires |ns'| == |ns| && forall k :: 0 <= k < |ns| ==> ns'[k].status == ns[k].status
    ensures Frontier(ns') == Frontier(ns) && Rank(ns') == Rank(ns)
  {
  }

  lemma ReservationsGivenUp(d: Db, d': Db)
    requires |d'.nodes| == |d.nodes|
    requires forall k :: 0 <= k < |d.nodes| ==> d'.nodes[k].status == d.nodes[k].status
    requires forall k :: 0 <= k < |d.nodes| ==>
      || d'.nodes[k].reservedFor == d.nodes[k].reservedFor
      || (d'.nodes[k].reservedFor.None? && d.nodes[k].reservedFor.Some?)
    ensures Total(d'.nodes, Reserved) <= Total(d.nodes, Reserved)
    ensures Effective(d, d') ==> Total(d'.nodes, Reserved) < Total(d.nodes, Reserved)
  {
    TotalLess(d.nodes, d'.nodes, Reserved);
    if i :| 0 <= i < |d.nodes| && d'.nodes[i].reservedFor != d.nodes[i].reservedFor {
      TotalChange(d.nodes, d'.nodes, Reserved, i, -1);
    }
  }

  /** Parking spends the task's last rejection; a sweep that selects nothing does nothing. */
  lemma AllowancePark(d: Db, w: Write, d': Db)
    requires Linear(d.nodes) && Step(d, w, d') && (w.Park? || w.Interrupt? || w.Offline? || w.Release?)
    ensures Allowance(d'.nodes) <= Allowance(d.nodes)
    ensures Effective(d, d') ==> Allowance(d'.nodes) < Allowance(d.nodes)
  {
    var ns, ns' := d.nodes, d'.nodes;
    if i :| 0 <= i < |ns| && ns'[i] != ns[i] {
      assert ns[i].status == InProgress && ns'[i].status == Manual;
      assert HasManual(ns');
      assert !HasManual(ns) by {
        assert Open(ns, i);
        if k :| 0 <= k < |ns| && ns[k].status == Manual {
          assert Open(ns, k);
          OneOpen(ns, i, k);
        }
      }
      RejectionsStep(d, w, d');
      RejectionPays(d, w, d', i);
    } else {
      assert ns' == ns;
    }
  }

  lemma AllowanceStep(d: Db, w: Write, d': Db)
    requires Linear(d.nodes) && Step(d, w, d') && AgentOrSystem(w)
    ensures Allowance(d'.nodes) <= Allowance(d.nodes)
    ensures Effective(d, d') ==> Allowance(d'.nodes) < Allowance(d.nodes)
  {
    match w
    case Claim(_, _, _, _) => AllowanceClaim(d, w, d');
    case Approve(_, _, _, _) => AllowanceApprove(d, w, d');
    case Reject(_, _, _, _) =>
      RejectionsStep(d, w, d');
      RejectionPays(d, w, d', w.i);
    case _ =>
      if KeepsStatuses(w) {
        AllowanceQuiet(d, w, d');
      } else {
        AllowancePark(d, w, d');
      }
  }

  // ----- whole runs

  ghost predicate AgentRun(ds: seq<Db>, ws: seq<Write>) {
    Run(ds, ws) && Created(ds[0]) && forall k :: 0 <= k < |ws| ==> AgentOrSystem(ws[k])
  }

  ghost function EffectiveSteps(ds: seq<Db>, ws: seq<Write>, k: nat): nat
    requires AgentRun(ds, ws) && k <= |ws|
  {
    if k == 0 then 0
    else
      assert StepAt(ds, ws, k - 1);
      EffectiveSteps(ds, ws, k - 1) + if Effective(ds[k - 1], ds[k]) then 1 else 0
  }

  function RejectSteps(ws: seq<Write>, k: nat): nat
    requires k <= |ws|
  {
    if k == 0 then 0 else RejectSteps(ws, k - 1) + if ws[k - 1].Reject? then 1 else 0
  }

  function FreshBudget(row: Node): nat {
    row.RejectLimit() - 1
  }

  lemma {:induction false} SpentSoFar(ds: seq<Db>, ws: seq<Write>, k: nat)
    requires AgentRun(ds, ws) && k <= |ws|
    ensures EffectiveSteps(ds, ws, k) + Allowance(ds[k].nodes) <= Allowance(ds[0].nodes)
    ensures RejectSteps(ws, k) + Rejections(ds[k].nodes) <= Rejections(ds[0].nodes)
  {
    if k > 0 {
      SpentSoFar(ds, ws, k - 1);
      RunInvariant(ds, ws, k - 1);
      var d, w, d' := ds[k - 1], ws[k - 1], ds[k];
      assert StepAt(ds, ws, k - 1) && AgentOrSystem(w);
      AllowanceStep(d, w, d');
      RejectionsStep(d, w, d');
    }
  }

  lemma {:induction false} TotalBound(ns: seq<Node>, f: Node -> nat, g: Node -> nat)
    requires forall k :: 0 <= k < |ns| ==> f(ns[k]) <= g(ns[k])
    ensures Total(ns, f) <= Total(ns, g)
  {
    if |ns| > 0 {
      TotalBound(ns[1..], f, g);
    }
  }

  lemma {:induction false} ReservedBound(ns: seq<Node>)
    ensures Total(ns, Reserved) <= |ns|
  {
    if |ns| > 0 {
      ReservedBound(ns[1..]);
    }
  }

  lemma TimesMonotone(a: nat, b: nat, c: nat)
    requires a <= b
    ensures a * c <= b * c
  {
  }

  /** One more than the sum of (limit - 1) over the nodes. */
  function RejectBound(ns: seq<Node>): nat {
    Total(ns, FreshBudget) + 1
  }

  function StepBound(ns: seq<Node>): nat {
    RejectBound(ns) * (4 * |ns| + 4) + 5 * |ns| + 4
  }

  lemma FreshAllowance(ns: seq<Node>)
    requires forall k :: 0 <= k < |ns| ==> ns[k].rejectCount == 0
    ensures Rejections(ns) <= RejectBound(ns)
    ensures Allowance(ns) <= StepBound(ns)
  {
    var bound := RejectBound(ns);
    TotalBound(ns, Budget, FreshBudget);
    ReservedBound(ns);
    TimesMonotone(Rejections(ns), bound, 4 * |ns| + 4);
    assert Rank(ns) <= 2;
  }

  /** Without human resolution a run of a fresh task has at most RejectBound rejections and at most
      StepBound effective steps, however agents and jobs are scheduled. */
  lemma AgentsTerminate(ds: seq<Db>, ws: seq<Write>)
    requires AgentRun(ds, ws)
    ensures RejectSteps(ws, |ws|) <= RejectBound(ds[0].nodes)
    ensures EffectiveSteps(ds, ws, |ws|) <= StepBound(ds[0].nodes)
  {
    SpentSoFar(ds, ws, |ws|);
    FreshAllowance(ds[0].nodes);
  }
}
