/** The transition records are an exact event log of the node statuses. */
module AuditTrail {
  import opened Types
  import opened Writes
  import opened Protocol

  function Statuses(ns: seq<Node>): (r: seq<Status>)
    ensures |r| == |ns| && forall i :: 0 <= i < |ns| ==> r[i] == ns[i].status
  {
    seq(|ns|, i requires 0 <= i < |ns| => ns[i].status)
  }

  /** The statuses after replaying the records in order; None as soon as a record does not start
      from the status its node has at that point. */
  function Replay(log: seq<Transition>, start: seq<Status>): Option<seq<Status>> {
    if |log| == 0 then Some(start)
    else
      match Replay(log[..|log| - 1], start)
      case None => None
      case Some(st) =>
        var t := log[|log| - 1];
        if t.node < |st| && st[t.node] == t.from then Some(st[t.node := t.to]) else None
  }

  lemma ReplayOne(log: seq<Transition>, start: seq<Status>, st: seq<Status>, t: Transition)
    requires Replay(log, start) == Some(st) && t.node < |st| && st[t.node] == t.from
    ensures Replay(log + [t], start) == Some(st[t.node := t.to])
  {
  }

  predicate Recorded(w: Write) {
    !w.CancelNodes? && !w.DeleteTask?
  }

  lemma ReplayTwo(log: seq<Transition>, start: seq<Status>, st: seq<Status>, t: Transition, u: Transition)
    requires Replay(log, start) == Some(st) && t.node < |st| && st[t.node] == t.from
    requires u.node < |st| && st[t.node := t.to][u.node] == u.from
    ensures Replay(log + [t, u], start) == Some(st[t.node := t.to][u.node := u.to])
  {
    ReplayOne(log, start, st, t);
    ReplayOne(log + [t], start, st[t.node := t.to], u);
    assert log + [t, u] == log + [t] + [u];
  }

  function Parked(st: seq<Status>, parked: seq<bool>, k: nat): seq<Status>
    requires |parked| == |st|
  {
    seq(|st|, i requires 0 <= i < |st| => if i < k && parked[i] then Manual else st[i])
  }

  lemma {:induction false} ReplayParks(log: seq<Transition>, start: seq<Status>, st: seq<Status>, parked: seq<bool>,
                                       action: Action, k: nat)
    requires k <= |parked| == |st| && Replay(log, start) == Some(st)
    requires forall i :: 0 <= i < |st| && parked[i] ==> st[i] == InProgress
    ensures Replay(log + ParkLog(parked, action, k), start) == Some(Parked(st, parked, k))
  {
    var records := ParkLog(parked, action, k);
    if k == 0 {
      assert Parked(st, parked, 0) == st;
      assert log + records == log;
    } else {
      var before := ParkLog(parked, action, k - 1);
      ReplayParks(log, start, st, parked, action, k - 1);
      if parked[k - 1] {
        var t := Transition(k - 1, InProgress, Manual, action);
        ReplayOne(log + before, start, Parked(st, parked, k - 1), t);
        assert log + before + [t] == log + records;
        assert Parked(st, parked, k) == Parked(st, parked, k - 1)[k - 1 := Manual];
      } else {
        assert records == before;
        assert Parked(st, parked, k) == Parked(st, parked, k - 1);
      }
    }
  }

  lemma ReplayBulk(d: Db, w: Write, d': Db, start: seq<Status>)
    requires Step(d, w, d') && (w.Interrupt? || w.Offline? || w.Release?)
    requires Replay(d.log, start) == Some(Statuses(d.nodes))
    ensures Replay(d'.log, start) == Some(Statuses(d'.nodes))
  {
    var parked := if w.Interrupt? then InterruptRows(d.nodes) else SweepRows(w, d.nodes);
    ReplayParks(d.log, start, Statuses(d.nodes), parked, if w.Release? then TimeoutAction else ManualAction, |d.nodes|);
    assert Statuses(d'.nodes) == Parked(Statuses(d.nodes), parked, |d.nodes|);
  }

  lemma ReplayReject(d: Db, w: Write, d': Db, start: seq<Status>)
    requires Step(d, w, d') && w.Reject? && Replay(d.log, start) == Some(Statuses(d.nodes))
    ensures Replay(d'.log, start) == Some(Statuses(d'.nodes))
  {
    var t, u := d'.log[|d.log|], d'.log[|d.log| + 1];
    ReplayTwo(d.log, start, Statuses(d.nodes), t, u);
    assert Statuses(d'.nodes) == Statuses(d.nodes)[t.node := t.to][u.node := u.to];
  }

  lemma ReplayApprove(d: Db, w: Write, d': Db, start: seq<Status>)
    requires Step(d, w, d') && w.Approve? && Replay(d.log, start) == Some(Statuses(d.nodes))
    ensures Replay(d'.log, start) == Some(Statuses(d'.nodes))
  {
    var t := d'.log[|d.log|];
    if w.i + 1 < |d.nodes| && d.nodes[w.i + 1].status != InProgress {
      var u := d'.log[|d.log| + 1];
      ReplayTwo(d.log, start, Statuses(d.nodes), t, u);
      assert Statuses(d'.nodes) == Statuses(d.nodes)[t.node := t.to][u.node := u.to];
      assert d'.log == d.log + [t, u];
    } else {
      ReplayOne(d.log, start, Statuses(d.nodes), t);
      assert Statuses(d'.nodes) == Statuses(d.nodes)[t.node := t.to];
    }
  }

  lemma ReplayStep(d: Db, w: Write, d': Db, start: seq<Status>)
    requires Step(d, w, d') && Recorded(w) && Replay(d.log, start) == Some(Statuses(d.nodes))
    ensures Replay(d'.log, start) == Some(Statuses(d'.nodes))
  {
    if w.Interrupt? || w.Offline? || w.Release? {
      ReplayBulk(d, w, d', start);
    } else if w.Reject? {
      ReplayReject(d, w, d', start);
    } else if w.Approve? {
      ReplayApprove(d, w, d', start);
    } else if w.ClearReservations? || w.Cancel? {
      assert Statuses(d'.nodes) == Statuses(d.nodes);
    } else {
      var t := d'.log[|d.log|];
      ReplayOne(d.log, start, Statuses(d.nodes), t);
      assert Statuses(d'.nodes) == Statuses(d.nodes)[t.node := t.to];
    }
  }

  /** In every run of whole operations without cancel and delete, each record starts where its
      node's previous record ended, and replaying all of them from the statuses CreateTask set gives
      exactly the current statuses. */
  lemma {:induction false} LogIsExact(ds: seq<Db>, ws: seq<Write>, k: nat)
    requires Run(ds, ws) && Created(ds[0]) && k < |ds| && forall m :: 0 <= m < |ws| ==> Recorded(ws[m])
    ensures Replay(ds[k].log, Statuses(ds[0].nodes)) == Some(Statuses(ds[k].nodes))
  {
    if k > 0 {
      LogIsExact(ds, ws, k - 1);
      assert StepAt(ds, ws, k - 1) && Recorded(ws[k - 1]);
      ReplayStep(ds[k - 1], ws[k - 1], ds[k], Statuses(ds[0].nodes));
    }
  }

  /** The reset on cancel and delete leaves no record: the log stays exact if and only if there was
      nothing in progress to reset. */
  lemma ResetUnrecorded(d: Db, w: Write, d': Db, start: seq<Status>)
    requires Step(d, w, d') && !Recorded(w) && Replay(d.log, start) == Some(Statuses(d.nodes))
    ensures Replay(d'.log, start) == Some(Statuses(d'.nodes)) <==>
      forall i :: 0 <= i < |d.nodes| ==> d.nodes[i].status != InProgress
  {
    if i :| 0 <= i < |d.nodes| && d.nodes[i].status == InProgress {
      assert Statuses(d'.nodes)[i] != Statuses(d.nodes)[i];
    } else {
      assert d'.nodes == d.nodes;
    }
  }
}
