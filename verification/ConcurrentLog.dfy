/** The audit trail under concurrency. Claims, manual interventions, resolutions, released claims and the
    claim-timeout job commit their row first and insert the record later, by a statement of its own;
    approvals, rejections, interrupts, timeouts and the offline job do both in one transaction. */
module ConcurrentLog {
  import opened Types
  import opened Writes
  import opened Protocol
  import opened Interleaving
  import opened AuditTrail

  /** The log of sys.db lists the records in the order of their rows; log is the table as it is.
      owed are records whose row is committed and which are not inserted yet, or never will be after a
      crash; silent are the changes of rows that no record describes. */
  datatype Trail = Trail(sys: Sys, log: seq<Transition>, owed: seq<Transition>, silent: seq<Transition>)

  datatype TrailEvent =
    | Rows(e: Event)
    | Insert(k: nat)

  predicate RecordsLater(w: Write) {
    w.Claim? || (w.Park? && !w.timeout) || w.Resolve? || w.Skip? || w.Release?
  }

  function Attempted(s: Sys, e: Event): Option<Write> {
    match e
    case Land(r) => if r in s.requests then ReadyWrite(s.requests[r]) else None
    case Direct(w) => Some(w)
    case _ => None
  }

  /** One change per node in progress that the reset touches. */
  function ResetChanges(ns: seq<Node>, k: nat): seq<Transition>
    requires k <= |ns|
  {
    if k == 0 then []
    else
      ResetChanges(ns, k - 1) +
      if ns[k - 1].status == InProgress then [Transition(k - 1, InProgress, Pending, ManualAction)] else []
  }

  /** A member's claim lands that saw its node in progress: its record will not mention that the node had
      been reset to pending. */
  predicate StaleClaim(s: Sys, e: Event) {
    && e.Land? && Attempted(s, e).Some?
    && var w := Attempted(s, e).value;
       w.Claim? && w.seen.status == InProgress && InRange(s.db, w) && Exec(s.db, w).Some?
  }

  function SilentChanges(s: Sys, e: Event): seq<Transition> {
    if e.Direct? && (e.w.CancelNodes? || e.w.DeleteTask?) then ResetChanges(s.db.nodes, |s.db.nodes|)
    else if StaleClaim(s, e) then [Transition(Attempted(s, e).value.i, Pending, InProgress, ReclaimAction)]
    else []
  }

  /** The records of the rows that an event wrote. */
  function NewRecords(d: Db, d': Db): seq<Transition> {
    if |d.log| <= |d'.log| then d'.log[|d.log|..] else []
  }

  predicate Deferred(s: Sys, e: Event) {
    Attempted(s, e).Some? && RecordsLater(Attempted(s, e).value)
  }

  predicate TrailNext(t: Trail, e: TrailEvent, t': Trail) {
    match e
    case Rows(b) =>
      var records := NewRecords(t.sys.db, t'.sys.db);
      && Next(t.sys, b, t'.sys)
      && t'.log == t.log + (if Deferred(t.sys, b) then [] else records)
      && t'.owed == t.owed + (if Deferred(t.sys, b) then records else [])
      && t'.silent == t.silent + SilentChanges(t.sys, b)
    case Insert(k) =>
      && k < |t.owed|
      && t' == t.(log := t.log + [t.owed[k]], owed := t.owed[..k] + t.owed[k + 1..])
  }

  /** When the records of a landed write reach the table: those of approvals, rejections, interrupts, timeouts,
      acknowledgements and the offline job at once, those of the others only by a later insertion. */
  lemma RecordTiming(t: Trail, e: Event, t': Trail, w: Write)
    requires TrailNext(t, Rows(e), t') && Attempted(t.sys, e) == Some(w)
    ensures w.Approve? || w.Reject? || w.Interrupt? || w.Offline? || w.Acknowledge? || (w.Park? && w.timeout) ==>
      t'.owed == t.owed && t'.log == t.log + NewRecords(t.sys.db, t'.sys.db)
    ensures w.Claim? || w.Resolve? || w.Skip? || w.Release? || (w.Park? && !w.timeout) ==>
      t'.log == t.log && t'.owed == t.owed + NewRecords(t.sys.db, t'.sys.db)
  {
  }

  predicate TrailFollows(ts: seq<Trail>, es: seq<TrailEvent>, k: int)
    requires 0 <= k < |es| && |ts| == |es| + 1
  {
    TrailNext(ts[k], es[k], ts[k + 1])
  }

  ghost predicate TrailRun(ts: seq<Trail>, es: seq<TrailEvent>) {
    && |ts| == |es| + 1
    && Created(ts[0].sys.db) && ts[0].sys.requests == map[]
    && ts[0].log == [] && ts[0].owed == [] && ts[0].silent == []
    && forall k :: 0 <= k < |es| ==> TrailFollows(ts, es, k)
  }

  // ----- outstanding changes, counted

  /** Whether a record leaves (1) or enters (-1) status st of node n. */
  function Leaves(r: Transition, n: nat, st: Status): int {
    if r.node != n then 0 else (if r.from == st then 1 else 0) - (if r.to == st then 1 else 0)
  }

  /** How many more of the records leave status st of node n than enter it. */
  function Net(rs: seq<Transition>, n: nat, st: Status): int {
    if |rs| == 0 then 0 else Net(rs[..|rs| - 1], n, st) + Leaves(rs[|rs| - 1], n, st)
  }

  function Is(a: Status, b: Status): int {
    if a == b then 1 else 0
  }

  /** One for the status that the log should show for node n, zero for all others: the node's own status,
      taken back by what is outstanding. It is computed without looking at the log. */
  function Balance(t: Trail, n: nat, st: Status): int
    requires n < |t.sys.db.nodes|
  {
    Is(t.sys.db.nodes[n].status, st) + Net(t.owed, n, st) + Net(t.silent, n, st)
  }

  lemma {:induction false} NetAppend(a: seq<Transition>, b: seq<Transition>, n: nat, st: Status)
    ensures Net(a + b, n, st) == Net(a, n, st) + Net(b, n, st)
  {
    if |b| == 0 {
      assert a + b == a;
    } else {
      assert (a + b)[..|a + b| - 1] == a + b[..|b| - 1];
      NetAppend(a, b[..|b| - 1], n, st);
    }
  }

  lemma NetOne(r: Transition, n: nat, st: Status)
    ensures Net([r], n, st) == Leaves(r, n, st)
  {
    assert [r][..0] == [];
  }

  lemma NetTwo(r: Transition, u: Transition, n: nat, st: Status)
    ensures Net([r, u], n, st) == Leaves(r, n, st) + Leaves(u, n, st)
  {
    assert [r, u] == [r] + [u];
    NetAppend([r], [u], n, st);
    NetOne(r, n, st);
    NetOne(u, n, st);
  }

  lemma NetRemove(rs: seq<Transition>, k: nat, n: nat, st: Status)
    requires k < |rs|
    ensures Net(rs[..k] + rs[k + 1..], n, st) == Net(rs, n, st) - Leaves(rs[k], n, st)
  {
    assert rs == rs[..k] + ([rs[k]] + rs[k + 1..]);
    NetAppend(rs[..k], [rs[k]] + rs[k + 1..], n, st);
    NetAppend([rs[k]], rs[k + 1..], n, st);
    NetAppend(rs[..k], rs[k + 1..], n, st);
    NetOne(rs[k], n, st);
  }

  lemma {:induction false} NetParkLog(parked: seq<bool>, action: Action, k: nat, n: nat, st: Status)
    requires k <= |parked|
    ensures Net(ParkLog(parked, action, k), n, st) ==
            if n < k && parked[n] then Is(InProgress, st) - Is(Manual, st) else 0
  {
    if k > 0 {
      NetParkLog(parked, action, k - 1, n, st);
      var before := ParkLog(parked, action, k - 1);
      if parked[k - 1] {
        var last := Transition(k - 1, InProgress, Manual, action);
        NetAppend(before, [last], n, st);
        NetOne(last, n, st);
      } else {
        assert ParkLog(parked, action, k) == before;
      }
    }
  }

  lemma {:induction false} NetReset(ns: seq<Node>, k: nat, n: nat, st: Status)
    requires k <= |ns|
    ensures Net(ResetChanges(ns, k), n, st) ==
            if n < k && ns[n].status == InProgress then Is(InProgress, st) - Is(Pending, st) else 0
  {
    if k > 0 {
      NetReset(ns, k - 1, n, st);
      var last := Transition(k - 1, InProgress, Pending, ManualAction);
      NetAppend(ResetChanges(ns, k - 1), if ns[k - 1].status == InProgress then [last] else [], n, st);
      NetOne(last, n, st);
    }
  }

  // ----- rows, records and silent changes agree

  /** Node n left status st as often, on balance, as the new records and silent changes say. */
  predicate Accounted(s: Sys, e: Event, s': Sys, n: nat, st: Status)
    requires n < |s.db.nodes| && |s'.db.nodes| == |s.db.nodes|
  {
    Is(s'.db.nodes[n].status, st) + Net(NewRecords(s.db, s'.db), n, st) + Net(SilentChanges(s, e), n, st) ==
    Is(s.db.nodes[n].status, st)
  }

  /** A record that says what happened to its node, while the others kept their statuses. */
  predicate Describes(d: Db, r: Transition, d': Db) {
    && |d'.nodes| == |d.nodes| && r.node < |d.nodes|
    && d.nodes[r.node].status == r.from && d'.nodes[r.node].status == r.to
    && forall j :: 0 <= j < |d.nodes| && j != r.node ==> d'.nodes[j].status == d.nodes[j].status
  }

  lemma NewRecordsAre(d: Db, d': Db, rs: seq<Transition>)
    requires d'.log == d.log + rs
    ensures NewRecords(d, d') == rs
  {
  }

  lemma OneRecord(d: Db, r: Transition, d': Db, n: nat, st: Status)
    requires Describes(d, r, d') && d'.log == d.log + [r] && n < |d.nodes|
    ensures Is(d'.nodes[n].status, st) + Net(NewRecords(d, d'), n, st) == Is(d.nodes[n].status, st)
  {
    NewRecordsAre(d, d', [r]);
    NetOne(r, n, st);
  }

  /** The status of node n before and after two records of different nodes. */
  lemma TwoMoves(before: Status, after: Status, r: Transition, u: Transition, n: nat, st: Status)
    requires r.node != u.node
    requires n == r.node ==> before == r.from && after == r.to
    requires n == u.node ==> before == u.from && after == u.to
    requires n != r.node && n != u.node ==> after == before
    ensures Is(after, st) + Leaves(r, n, st) + Leaves(u, n, st) == Is(before, st)
  {
  }

  /** Two records that say what happened to their nodes, while the others kept their statuses. */
  lemma TwoRecords(d: Db, r: Transition, u: Transition, d': Db, n: nat, st: Status)
    requires |d'.nodes| == |d.nodes| && n < |d.nodes| && d'.log == d.log + [r, u]
    requires r.node < |d.nodes| && u.node < |d.nodes| && r.node != u.node
    requires d.nodes[r.node].status == r.from && d'.nodes[r.node].status == r.to
    requires d.nodes[u.node].status == u.from && d'.nodes[u.node].status == u.to
    requires forall j :: 0 <= j < |d.nodes| && j != r.node && j != u.node ==> d'.nodes[j].status == d.nodes[j].status
    ensures Is(d'.nodes[n].status, st) + Net(NewRecords(d, d'), n, st) == Is(d.nodes[n].status, st)
  {
    NewRecordsAre(d, d', [r, u]);
    NetTwo(r, u, n, st);
    TwoMoves(d.nodes[n].status, d'.nodes[n].status, r, u, n, st);
  }

  lemma ApproveAccounted(d: Db, w: Write, d': Db, n: nat, st: Status)
    requires w.Approve? && InRange(d, w) && Exec(d, w) == Some(d') && n < |d.nodes|
    ensures Is(d'.nodes[n].status, st) + Net(NewRecords(d, d'), n, st) == Is(d.nodes[n].status, st)
  {
    var r := d'.log[|d.log|];
    if w.i + 1 < |d.nodes| && d.nodes[w.i + 1].status != InProgress {
      var u := d'.log[|d.log| + 1];
      assert d'.log == d.log + [r, u];
      TwoRecords(d, r, u, d', n, st);
    } else {
      OneRecord(d, r, d', n, st);
    }
  }

  lemma RejectAccounted(d: Db, w: Write, d': Db, n: nat, st: Status)
    requires w.Reject? && InRange(d, w) && Exec(d, w) == Some(d') && n < |d.nodes|
    requires w.target != w.i && w.seen.status == InProgress
    ensures Is(d'.nodes[n].status, st) + Net(NewRecords(d, d'), n, st) == Is(d.nodes[n].status, st)
  {
    TwoRecords(d, d'.log[|d.log|], d'.log[|d.log| + 1], d', n, st);
  }

  lemma BulkAccounted(d: Db, w: Write, d': Db, n: nat, st: Status)
    requires (w.Interrupt? || w.Offline? || w.Release?) && InRange(d, w) && Exec(d, w) == Some(d') && n < |d.nodes|
    ensures Is(d'.nodes[n].status, st) + Net(NewRecords(d, d'), n, st) == Is(d.nodes[n].status, st)
  {
    var parked := if w.Interrupt? then InterruptRows(w.rows) else SweepRows(w, d.nodes);
    var action := if w.Release? then TimeoutAction else ManualAction;
    assert NewRecords(d, d') == ParkLog(parked, action, |d.nodes|);
    NetParkLog(parked, action, |d.nodes|, n, st);
    assert w.Interrupt? && w.rows[n].status == InProgress ==> Unchanged(d.nodes[n], w.rows[n].version, InProgress);
  }

  /** A claim, a manual intervention, a resolution, a released claim or an acknowledgement. */
  lemma SingleAccounted(d: Db, w: Write, d': Db, n: nat, st: Status)
    requires (w.Claim? && w.seen.status != InProgress) || w.Park? || w.Resolve? || w.Skip?
    requires w.Park? ==> w.seen.status == InProgress
    requires w.Resolve? ==> w.seen.status == Manual
    requires InRange(d, w) && Exec(d, w) == Some(d') && n < |d.nodes|
    ensures Is(d'.nodes[n].status, st) + Net(NewRecords(d, d'), n, st) == Is(d.nodes[n].status, st)
  {
    OneRecord(d, d'.log[|d.log|], d', n, st);
  }

  lemma AcknowledgeAccounted(d: Db, w: Write, d': Db, n: nat, st: Status)
    requires w.Acknowledge? && InRange(d, w) && Exec(d, w) == Some(d') && n < |d.nodes|
    ensures Is(d'.nodes[n].status, st) + Net(NewRecords(d, d'), n, st) == Is(d.nodes[n].status, st)
  {
    var r := d'.log[|d.log|];
    assert NewRecords(d, d') == [r];
    NetOne(r, n, st);
  }

  lemma StaleClaimAccounted(s: Sys, e: Event, s': Sys, n: nat, st: Status)
    requires Next(s, e, s') && StaleClaim(s, e) && n < |s.db.nodes| && |s'.db.nodes| == |s.db.nodes|
    ensures Accounted(s, e, s', n, st)
  {
    var w := Attempted(s, e).value;
    var r := Transition(w.i, InProgress, InProgress, ReclaimAction);
    assert NewRecords(s.db, s'.db) == [r];
    NetOne(r, n, st);
    NetOne(SilentChanges(s, e)[0], n, st);
  }

  /** What a sound request knows about the statuses its records will start from. */
  predicate Trustworthy(d: Db, w: Write) {
    && InRange(d, w) && Exec(d, w).Some?
    && (w.Claim? ==> w.seen.status != InProgress)
    && (w.Park? || w.Reject? ==> w.seen.status == InProgress)
    && (w.Reject? ==> w.target != w.i)
    && (w.Resolve? ==> w.seen.status == Manual)
  }

  lemma WriteAccounted(d: Db, w: Write, n: nat, st: Status)
    requires Trustworthy(d, w) && n < |d.nodes| && !w.CancelNodes? && !w.DeleteTask?
    ensures var d' := Exec(d, w).value;
      Is(d'.nodes[n].status, st) + Net(NewRecords(d, d'), n, st) == Is(d.nodes[n].status, st)
  {
    var d' := Exec(d, w).value;
    match w
    case Approve(_, _, _, _) => ApproveAccounted(d, w, d', n, st);
    case Reject(_, _, _, _) => RejectAccounted(d, w, d', n, st);
    case Acknowledge(_, _, _) => AcknowledgeAccounted(d, w, d', n, st);
    case ClearReservations(_) =>
    case Cancel =>
    case _ =>
      if SingleRow(w) {
        SingleAccounted(d, w, d', n, st);
      } else {
        BulkAccounted(d, w, d', n, st);
      }
  }

  lemma LandAccounted(s: Sys, e: Event, s': Sys, n: nat, st: Status)
    requires Inv(s) && Next(s, e, s') && e.Land? && !StaleClaim(s, e)
    requires n < |s.db.nodes| && |s'.db.nodes| == |s.db.nodes|
    ensures Accounted(s, e, s', n, st)
  {
    var q, w := s.requests[e.r], Attempted(s, e).value;
    assert Sound(s.db, q);
    if InRange(s.db, w) && Exec(s.db, w).Some? {
      WriteAccounted(s.db, w, n, st);
    }
  }

  lemma DirectAccounted(s: Sys, e: Event, s': Sys, n: nat, st: Status)
    requires Next(s, e, s') && e.Direct? && n < |s.db.nodes| && |s'.db.nodes| == |s.db.nodes|
    ensures Accounted(s, e, s', n, st)
  {
    if e.w.CancelNodes? || e.w.DeleteTask? {
      NetReset(s.db.nodes, |s.db.nodes|, n, st);
    } else {
      WriteAccounted(s.db, e.w, n, st);
    }
  }

  lemma EventAccounted(s: Sys, e: Event, s': Sys, n: nat, st: Status)
    requires Inv(s) && Next(s, e, s') && n < |s.db.nodes|
    ensures |s'.db.nodes| == |s.db.nodes| && Accounted(s, e, s', n, st)
  {
    if StaleClaim(s, e) {
      StaleClaimAccounted(s, e, s', n, st);
    } else if e.Land? {
      LandAccounted(s, e, s', n, st);
    } else if e.Direct? {
      DirectAccounted(s, e, s', n, st);
    }
  }

  // ----- what insertions do to the log

  /** The records that a step inserts. */
  function Inserted(t: Trail, e: TrailEvent, t': Trail): seq<Transition> {
    match e
    case Rows(b) => if Deferred(t.sys, b) then [] else NewRecords(t.sys.db, t'.sys.db)
    case Insert(k) => if k < |t.owed| then [t.owed[k]] else []
  }

  /** The records are in place: each leaves the status that the log should show for its node. */
  predicate InPlace(t: Trail, rs: seq<Transition>) {
    forall k :: 0 <= k < |rs| ==> rs[k].node < |t.sys.db.nodes| && Balance(t, rs[k].node, rs[k].from) == 1
  }

  lemma BalanceStep(t: Trail, e: TrailEvent, t': Trail, n: nat, st: Status)
    requires Inv(t.sys) && TrailNext(t, e, t') && n < |t.sys.db.nodes|
    ensures |t'.sys.db.nodes| == |t.sys.db.nodes|
    ensures Balance(t', n, st) == Balance(t, n, st) - Net(Inserted(t, e, t'), n, st)
  {
    match e
    case Rows(b) =>
      EventAccounted(t.sys, b, t'.sys, n, st);
      NetAppend(t.silent, SilentChanges(t.sys, b), n, st);
      NetAppend(t.owed, if Deferred(t.sys, b) then NewRecords(t.sys.db, t'.sys.db) else [], n, st);
    case Insert(k) =>
      NetRemove(t.owed, k, n, st);
      NetOne(t.owed[k], n, st);
  }

  predicate DistinctNodes(rs: seq<Transition>) {
    forall j, k :: 0 <= j < k < |rs| ==> rs[j].node != rs[k].node
  }

  lemma {:induction false} ParkLogNodes(parked: seq<bool>, action: Action, k: nat)
    requires k <= |parked|
    ensures DistinctNodes(ParkLog(parked, action, k))
    ensures forall j :: 0 <= j < |ParkLog(parked, action, k)| ==> ParkLog(parked, action, k)[j].node < k
  {
    if k > 0 {
      ParkLogNodes(parked, action, k - 1);
    }
  }

  /** No transaction inserts two records of one node. */
  lemma InsertedDistinct(t: Trail, e: TrailEvent, t': Trail)
    requires Inv(t.sys) && TrailNext(t, e, t')
    ensures DistinctNodes(Inserted(t, e, t'))
  {
    if e.Rows? && Attempted(t.sys, e.e).Some? {
      var d, w := t.sys.db, Attempted(t.sys, e.e).value;
      if e.e.Land? {
        assert Sound(d, t.sys.requests[e.e.r]);
      }
      if InRange(d, w) && Exec(d, w).Some? {
        WrittenDistinct(d, w);
      }
    }
  }

  lemma WrittenDistinct(d: Db, w: Write)
    requires InRange(d, w) && Exec(d, w).Some? && (w.Reject? ==> w.target != w.i)
    ensures DistinctNodes(NewRecords(d, Exec(d, w).value))
  {
    if w.Interrupt? {
      ParkLogNodes(InterruptRows(w.rows), ManualAction, |d.nodes|);
    } else if w.Offline? || w.Release? {
      ParkLogNodes(SweepRows(w, d.nodes), if w.Release? then TimeoutAction else ManualAction, |d.nodes|);
    }
  }

  lemma ReplayAppendOne(log: seq<Transition>, r: Transition, start: seq<Status>)
    ensures Replay(log, start).None? ==> Replay(log + [r], start).None?
    ensures Replay(log, start).Some? ==>
      var sh := Replay(log, start).value;
      Replay(log + [r], start) ==
      if r.node < |sh| && sh[r.node] == r.from then Some(sh[r.node := r.to]) else None
  {
    assert (log + [r])[..|log + [r]| - 1] == log;
  }

  /** What the log shows after sh and the records rs: each record's node moves, the others stay. */
  predicate MovedBy(sh: seq<Status>, rs: seq<Transition>, sh': seq<Status>) {
    && |sh'| == |sh|
    && (forall n: nat :: n < |sh| && (forall k :: 0 <= k < |rs| ==> rs[k].node != n) ==> sh'[n] == sh[n])
    && (forall n: nat, st: Status :: n < |sh| ==> Is(sh'[n], st) == Is(sh[n], st) - Net(rs, n, st))
  }

  predicate Fits(sh: seq<Status>, r: Transition) {
    r.node < |sh| && sh[r.node] == r.from
  }

  predicate AllFit(sh: seq<Status>, rs: seq<Transition>) {
    forall k :: 0 <= k < |rs| ==> Fits(sh, rs[k])
  }

  lemma AllFitLast(sh: seq<Status>, rs: seq<Transition>)
    requires |rs| > 0
    ensures AllFit(sh, rs) <==> AllFit(sh, rs[..|rs| - 1]) && Fits(sh, rs[|rs| - 1])
  {
    var init := rs[..|rs| - 1];
    assert forall k :: 0 <= k < |init| ==> init[k] == rs[k];
    if AllFit(sh, init) && Fits(sh, rs[|rs| - 1]) {
      forall k | 0 <= k < |rs|
        ensures Fits(sh, rs[k])
      {
        assert k < |init| ==> Fits(sh, init[k]);
      }
    }
  }

  lemma {:induction false} ReplayMany(log: seq<Transition>, rs: seq<Transition>, start: seq<Status>, sh: seq<Status>)
    requires Replay(log, start) == Some(sh) && DistinctNodes(rs)
    ensures if AllFit(sh, rs) then Replay(log + rs, start).Some? && MovedBy(sh, rs, Replay(log + rs, start).value)
            else Replay(log + rs, start).None?
  {
    if |rs| == 0 {
      assert log + rs == log;
    } else {
      var init, r := rs[..|rs| - 1], rs[|rs| - 1];
      assert DistinctNodes(init);
      ReplayMany(log, init, start, sh);
      AllFitLast(sh, rs);
      assert log + rs == (log + init) + [r];
      ReplayAppendOne(log + init, r, start);
      if AllFit(sh, init) {
        NodeUntouched(sh, rs, Replay(log + init, start).value);
        if Fits(sh, r) {
          MovedByOneMore(sh, rs, Replay(log + init, start).value);
        }
      }
    }
  }

  lemma NodeUntouched(sh: seq<Status>, rs: seq<Transition>, sh': seq<Status>)
    requires |rs| > 0 && DistinctNodes(rs) && MovedBy(sh, rs[..|rs| - 1], sh')
    ensures Fits(sh', rs[|rs| - 1]) <==> Fits(sh, rs[|rs| - 1])
  {
    var init, r := rs[..|rs| - 1], rs[|rs| - 1];
    assert forall k :: 0 <= k < |init| ==> init[k] == rs[k] && init[k].node != r.node;
  }

  lemma MovedByOneMore(sh: seq<Status>, rs: seq<Transition>, sh': seq<Status>)
    requires |rs| > 0 && DistinctNodes(rs) && MovedBy(sh, rs[..|rs| - 1], sh')
    requires var r := rs[|rs| - 1]; r.node < |sh| && sh[r.node] == r.from
    ensures sh'[rs[|rs| - 1].node] == sh[rs[|rs| - 1].node]
    ensures MovedBy(sh, rs, sh'[rs[|rs| - 1].node := rs[|rs| - 1].to])
  {
    var r := rs[|rs| - 1];
    assert forall k :: 0 <= k < |rs| - 1 ==> rs[..|rs| - 1][k] == rs[k] && rs[k].node != r.node;
    assert sh'[r.node] == sh[r.node];
  }

  lemma {:induction false} NeverRepaired(log: seq<Transition>, rs: seq<Transition>, start: seq<Status>)
    requires Replay(log, start).None?
    ensures Replay(log + rs, start).None?
  {
    if |rs| == 0 {
      assert log + rs == log;
    } else {
      NeverRepaired(log, rs[..|rs| - 1], start);
      assert log + rs == (log + rs[..|rs| - 1]) + [rs[|rs| - 1]];
      ReplayAppendOne(log + rs[..|rs| - 1], rs[|rs| - 1], start);
    }
  }

  /** The log replays, and shows for every node the status that the balance says. */
  ghost predicate Tracks(t: Trail, start: seq<Status>) {
    && Replay(t.log, start).Some? && |Replay(t.log, start).value| == |t.sys.db.nodes|
    && forall n: nat, st: Status :: n < |t.sys.db.nodes| ==> Balance(t, n, st) == Is(Replay(t.log, start).value[n], st)
  }

  lemma InPlaceFits(t: Trail, rs: seq<Transition>, start: seq<Status>)
    requires Tracks(t, start)
    ensures InPlace(t, rs) <==> AllFit(Replay(t.log, start).value, rs)
  {
    var sh := Replay(t.log, start).value;
    forall k | 0 <= k < |rs|
      ensures Fits(sh, rs[k]) <==> rs[k].node < |t.sys.db.nodes| && Balance(t, rs[k].node, rs[k].from) == 1
    {
    }
    if InPlace(t, rs) {
      assert forall k :: 0 <= k < |rs| ==> Fits(sh, rs[k]);
    }
  }

  lemma TracksAfter(t: Trail, rs: seq<Transition>, t': Trail, start: seq<Status>)
    requires Tracks(t, start) && |t'.sys.db.nodes| == |t.sys.db.nodes|
    requires Replay(t'.log, start).Some? && MovedBy(Replay(t.log, start).value, rs, Replay(t'.log, start).value)
    requires forall n: nat, st: Status :: n < |t.sys.db.nodes| ==>
      Balance(t', n, st) == Balance(t, n, st) - Net(rs, n, st)
    ensures Tracks(t', start)
  {
  }

  /** One step keeps the log exact if and only if the records it inserts are in place. */
  lemma TracksStep(t: Trail, e: TrailEvent, t': Trail, start: seq<Status>)
    requires Inv(t.sys) && TrailNext(t, e, t') && Tracks(t, start)
    ensures InPlace(t, Inserted(t, e, t')) ==> Tracks(t', start)
    ensures !InPlace(t, Inserted(t, e, t')) ==> Replay(t'.log, start).None?
  {
    var rs := Inserted(t, e, t');
    SizeKept(t, e, t');
    InsertedDistinct(t, e, t');
    InPlaceFits(t, rs, start);
    assert t'.log == t.log + rs;
    ReplayMany(t.log, rs, start, Replay(t.log, start).value);
    if InPlace(t, rs) {
      forall n: nat, st: Status | n < |t.sys.db.nodes|
        ensures Balance(t', n, st) == Balance(t, n, st) - Net(rs, n, st)
      {
        BalanceStep(t, e, t', n, st);
      }
      TracksAfter(t, rs, t', start);
    }
  }

  lemma SizeKept(t: Trail, e: TrailEvent, t': Trail)
    requires Inv(t.sys) && TrailNext(t, e, t')
    ensures |t'.sys.db.nodes| == |t.sys.db.nodes|
  {
    if e.Rows? {
      NextMoves(t.sys, e.e, t'.sys);
      MovesEvolve(t.sys.db, t'.sys.db);
    }
  }

  // ----- whole runs

  lemma {:induction false} InvTrail(ts: seq<Trail>, es: seq<TrailEvent>, k: nat)
    requires TrailRun(ts, es) && k < |ts|
    ensures Inv(ts[k].sys) && |ts[k].sys.db.nodes| == |ts[0].sys.db.nodes|
  {
    if k > 0 {
      InvTrail(ts, es, k - 1);
      assert TrailFollows(ts, es, k - 1);
      if es[k - 1].Rows? {
        var s, e, s' := ts[k - 1].sys, es[k - 1].e, ts[k].sys;
        InvNext(s, e, s');
        NextMoves(s, e, s');
        MovesEvolve(s.db, s'.db);
      }
    } else {
      InvRun([ts[0].sys], [], 0);
    }
  }

  /** The rows of such a run are those of an interleaved run, so all that holds of one holds of the other. */
  lemma {:induction false} RowsAreInterleaved(ts: seq<Trail>, es: seq<TrailEvent>, k: nat)
    returns (ss: seq<Sys>, bs: seq<Event>)
    requires TrailRun(ts, es) && k < |ts|
    ensures Interleaved(ss, bs) && ss[0] == ts[0].sys && ss[|ss| - 1] == ts[k].sys
  {
    if k == 0 {
      ss, bs := [ts[0].sys], [];
    } else {
      ss, bs := RowsAreInterleaved(ts, es, k - 1);
      assert TrailFollows(ts, es, k - 1);
      if es[k - 1].Rows? {
        var all, steps := ss + [ts[k].sys], bs + [es[k - 1].e];
        forall m | 0 <= m < |steps|
          ensures Follows(all, steps, m)
        {
          assert m < |bs| ==> Follows(ss, bs, m);
        }
        ss, bs := all, steps;
      }
    }
  }

  predicate InPlaceAt(ts: seq<Trail>, es: seq<TrailEvent>, m: int)
    requires 0 <= m < |es| && |ts| == |es| + 1
  {
    InPlace(ts[m], Inserted(ts[m], es[m], ts[m + 1]))
  }

  /** Every insertion among the first k steps was in place. */
  ghost predicate AllInPlace(ts: seq<Trail>, es: seq<TrailEvent>, k: nat)
    requires k <= |es| && |ts| == |es| + 1
  {
    forall m :: 0 <= m < k ==> InPlaceAt(ts, es, m)
  }

  /** The log replays and tracks the rows, or does not replay. */
  ghost predicate TracksOrNot(t: Trail, start: seq<Status>, tracks: bool) {
    if tracks then Tracks(t, start) else Replay(t.log, start).None?
  }

  lemma TracksNext(t: Trail, e: TrailEvent, t': Trail, start: seq<Status>, tracks: bool)
    requires Inv(t.sys) && TrailNext(t, e, t') && TracksOrNot(t, start, tracks)
    ensures TracksOrNot(t', start, tracks && InPlace(t, Inserted(t, e, t')))
  {
    if tracks {
      TracksStep(t, e, t', start);
    } else {
      assert t'.log == t.log + Inserted(t, e, t');
      NeverRepaired(t.log, Inserted(t, e, t'), start);
    }
  }

  lemma {:induction false} TracksExactly(ts: seq<Trail>, es: seq<TrailEvent>, k: nat)
    requires TrailRun(ts, es) && k < |ts|
    ensures TracksOrNot(ts[k], Statuses(ts[0].sys.db.nodes), AllInPlace(ts, es, k))
  {
    if k > 0 {
      TracksExactly(ts, es, k - 1);
      InvTrail(ts, es, k - 1);
      assert TrailFollows(ts, es, k - 1);
      TracksNext(ts[k - 1], es[k - 1], ts[k], Statuses(ts[0].sys.db.nodes), AllInPlace(ts, es, k - 1));
      AllInPlaceLast(ts, es, k);
    } else {
      StartTracks(ts[0]);
    }
  }

  lemma AllInPlaceLast(ts: seq<Trail>, es: seq<TrailEvent>, k: nat)
    requires 0 < k <= |es| && |ts| == |es| + 1
    ensures AllInPlace(ts, es, k) <==>
      AllInPlace(ts, es, k - 1) && InPlace(ts[k - 1], Inserted(ts[k - 1], es[k - 1], ts[k]))
  {
    assert InPlaceAt(ts, es, k - 1) <==> InPlace(ts[k - 1], Inserted(ts[k - 1], es[k - 1], ts[k]));
  }

  lemma StartTracks(t: Trail)
    requires t.log == [] && t.owed == [] && t.silent == []
    ensures Tracks(t, Statuses(t.sys.db.nodes))
  {
  }

  /** As many outstanding changes of node n leave its status as enter it. */
  predicate Settled(t: Trail, n: nat)
    requires n < |t.sys.db.nodes|
  {
    Balance(t, n, t.sys.db.nodes[n].status) == 1
  }

  /** In every concurrent run, with crashes, cancels and late records: the log replays from the creation
      statuses to the current ones if and only if every record was inserted in place and the outstanding
      changes of every node cancel out. */
  lemma LogIsExactExactly(ts: seq<Trail>, es: seq<TrailEvent>, k: nat)
    requires TrailRun(ts, es) && k < |ts|
    ensures var t := ts[k];
      Replay(t.log, Statuses(ts[0].sys.db.nodes)) == Some(Statuses(t.sys.db.nodes)) <==>
      AllInPlace(ts, es, k) && forall n: nat :: n < |t.sys.db.nodes| ==> Settled(t, n)
  {
    var t, start := ts[k], Statuses(ts[0].sys.db.nodes);
    TracksExactly(ts, es, k);
    if AllInPlace(ts, es, k) && (forall n: nat :: n < |t.sys.db.nodes| ==> Settled(t, n)) {
      var sh := Replay(t.log, start).value;
      forall n: nat | n < |sh|
        ensures sh[n] == t.sys.db.nodes[n].status
      {
        assert Settled(t, n) && Balance(t, n, t.sys.db.nodes[n].status) == Is(sh[n], t.sys.db.nodes[n].status);
      }
      assert sh == Statuses(t.sys.db.nodes);
    }
  }

  /** With nothing outstanding it is the insertions alone that decide. */
  lemma LogIsExactWhenPaid(ts: seq<Trail>, es: seq<TrailEvent>, k: nat)
    requires TrailRun(ts, es) && k < |ts| && ts[k].owed == [] && ts[k].silent == []
    ensures Replay(ts[k].log, Statuses(ts[0].sys.db.nodes)) == Some(Statuses(ts[k].sys.db.nodes)) <==>
            AllInPlace(ts, es, k)
  {
    LogIsExactExactly(ts, es, k);
  }

  // ----- reading the condition

  /** What is outstanding for node n amounts to record r alone. */
  ghost predicate OnlyOutstanding(t: Trail, n: nat, r: Transition) {
    r.node == n && forall st: Status :: Net(t.owed, n, st) + Net(t.silent, n, st) == Leaves(r, n, st)
  }

  ghost predicate NothingOutstanding(t: Trail, n: nat) {
    forall st: Status :: Net(t.owed, n, st) + Net(t.silent, n, st) == 0
  }

  /** With nothing outstanding for its node a record is in place exactly when it leaves the node's status:
      a transaction's always is, an acknowledgement only if the status is still the one it saw. */
  lemma InPlaceWhenPaid(t: Trail, x: Transition)
    requires x.node < |t.sys.db.nodes| && NothingOutstanding(t, x.node)
    ensures InPlace(t, [x]) <==> x.from == t.sys.db.nodes[x.node].status
  {
    assert Net(t.owed, x.node, x.from) + Net(t.silent, x.node, x.from) == 0;
    assert InPlace(t, [x]) <==> Balance(t, x.node, x.from) == 1 by {
      assert [x][0] == x;
    }
  }

  /** While one status-changing record is owed, inserting it is in place, and another record of the same
      node is in place exactly when it leaves the same status. The node itself has moved on, so a record
      that leaves its current status never is. */
  lemma InPlaceWhileOwed(t: Trail, start: seq<Status>, r: Transition, x: Transition)
    requires Tracks(t, start) && x.node < |t.sys.db.nodes| && OnlyOutstanding(t, x.node, r) && r.from != r.to
    ensures InPlace(t, [x]) <==> x.from == r.from
    ensures t.sys.db.nodes[x.node].status == r.to
  {
    var n := x.node;
    forall st: Status
      ensures Balance(t, n, st) == Is(t.sys.db.nodes[n].status, st) + Leaves(r, n, st)
      ensures 0 <= Balance(t, n, st) <= 1
    {
      assert Net(t.owed, n, st) + Net(t.silent, n, st) == Leaves(r, n, st);
      assert Balance(t, n, st) == Is(Replay(t.log, start).value[n], st);
    }
    assert Balance(t, n, r.from) == 1 && Balance(t, n, r.to) == 0;
    assert InPlace(t, [x]) <==> Balance(t, n, x.from) == 1 by {
      assert [x][0] == x;
    }
  }

  /** An approval, rejection, interrupt, timeout or sweep of a node whose status-changing record is still
      owed makes the log unreadable for ever. */
  lemma OvertakingFalsifies(ts: seq<Trail>, es: seq<TrailEvent>, j: nat, k: nat, r: Transition, x: Transition)
    requires TrailRun(ts, es) && j < k < |ts| && x.node < |ts[j].sys.db.nodes|
    requires OnlyOutstanding(ts[j], x.node, r) && r.from != r.to
    requires x in Inserted(ts[j], es[j], ts[j + 1]) && x.from == ts[j].sys.db.nodes[x.node].status
    ensures Replay(ts[k].log, Statuses(ts[0].sys.db.nodes)).None?
  {
    TracksExactly(ts, es, j);
    TracksExactly(ts, es, k);
    var rs := Inserted(ts[j], es[j], ts[j + 1]);
    var m :| 0 <= m < |rs| && rs[m] == x;
    if AllInPlace(ts, es, j) {
      InPlaceWhileOwed(ts[j], Statuses(ts[0].sys.db.nodes), r, x);
      assert Balance(ts[j], x.node, x.from) != 1;
      assert !InPlaceAt(ts, es, j);
    }
  }

  /** A record is inserted in its turn: it is the only change outstanding for its node, or there is none and
      the node has the status it leaves. */
  ghost predicate InTurn(t: Trail, x: Transition) {
    && x.node < |t.sys.db.nodes|
    && (|| (NothingOutstanding(t, x.node) && x.from == t.sys.db.nodes[x.node].status)
        || (OnlyOutstanding(t, x.node, x) && x.from != x.to))
  }

  lemma InTurnInPlace(t: Trail, start: seq<Status>, x: Transition)
    requires Tracks(t, start) && InTurn(t, x)
    ensures InPlace(t, [x])
  {
    if NothingOutstanding(t, x.node) {
      InPlaceWhenPaid(t, x);
    } else {
      InPlaceWhileOwed(t, start, x, x);
    }
  }

  ghost predicate AllInTurn(t: Trail, rs: seq<Transition>) {
    forall k :: 0 <= k < |rs| ==> InTurn(t, rs[k])
  }

  lemma AllInTurnInPlace(t: Trail, start: seq<Status>, rs: seq<Transition>)
    requires Tracks(t, start) && AllInTurn(t, rs)
    ensures InPlace(t, rs)
  {
    forall k | 0 <= k < |rs|
      ensures rs[k].node < |t.sys.db.nodes| && Balance(t, rs[k].node, rs[k].from) == 1
    {
      InTurnInPlace(t, start, rs[k]);
      assert [rs[k]][0] == rs[k];
    }
  }

  ghost predicate InTurnAt(ts: seq<Trail>, es: seq<TrailEvent>, m: int)
    requires 0 <= m < |es| && |ts| == |es| + 1
  {
    AllInTurn(ts[m], Inserted(ts[m], es[m], ts[m + 1]))
  }

  /** It is enough that every record is inserted in its turn. */
  lemma {:induction false} InTurnSuffices(ts: seq<Trail>, es: seq<TrailEvent>, k: nat)
    requires TrailRun(ts, es) && k < |ts| && forall m :: 0 <= m < k ==> InTurnAt(ts, es, m)
    ensures AllInPlace(ts, es, k)
  {
    if k > 0 {
      InTurnSuffices(ts, es, k - 1);
      TracksExactly(ts, es, k - 1);
      assert InTurnAt(ts, es, k - 1);
      AllInTurnInPlace(ts[k - 1], Statuses(ts[0].sys.db.nodes), Inserted(ts[k - 1], es[k - 1], ts[k]));
      assert InPlaceAt(ts, es, k - 1);
    }
  }

  lemma ReadStep(s: Sys, e: Event, s': Sys, log: seq<Transition>, owed: seq<Transition>)
    requires Next(s, e, s') && Reads(e)
    ensures TrailNext(Trail(s, log, owed, []), Rows(e), Trail(s', log, owed, []))
  {
    assert NewRecords(s.db, s'.db) == [];
  }

  /** A free standard node that anybody may claim. */
  predicate Free(row: Node, op: Id) {
    && row.status == Pending && row.dependsOn == [] && row.nodeType != Review
    && (row.reservedFor.None? || row.reservedFor == Some(op))
  }

  /** An agent's claim of the only node, up to the commit of its row. */
  lemma ClaimWithoutRecord(d: Db, op: Id) returns (ts: seq<Trail>, es: seq<TrailEvent>)
    requires Created(d) && |d.nodes| == 1 && Free(d.nodes[0], op)
    ensures TrailRun(ts, es) && |es| == 4 && ts[0].sys.db == d
    ensures var d' := Exec(d, Claim(0, d.nodes[0], op, true));
      d'.Some? && ts[4] == Trail(Sys(d'.value, map[]), [], [Transition(0, Pending, InProgress, ReclaimAction)], [])
  {
    var row := d.nodes[0];
    var w := Claim(0, row, op, true);
    assert Claimable(d.nodes, 0, row.version, op, true);
    var d' := Exec(d, w).value;
    var q := Claiming(0, op, true, row, false, 0, false);
    var s0, s1, s2 := Sys(d, map[]), Sys(d, map[0 := q]), Sys(d, map[0 := q.(prevOk := true)]);
    var s3, s4 := Sys(d, map[0 := q.(prevOk := true, reviewOk := true)]), Sys(d', map[]);
    ReadStep(s0, BeginClaim(0, 0, op, true), s1, [], []);
    ReadStep(s1, CheckPrevious(0), s2, [], []);
    ReadStep(s2, CheckReview(0), s3, [], []);
    var t0, t1, t2, t3 := Trail(s0, [], [], []), Trail(s1, [], [], []), Trail(s2, [], [], []), Trail(s3, [], [], []);
    var t4 := Trail(s4, [], [Transition(0, Pending, InProgress, ReclaimAction)], []);
    assert TrailNext(t3, Rows(Land(0)), t4) by {
      assert ReadyWrite(s3.requests[0]) == Some(w) && s3.requests - {0} == map[];
      assert NewRecords(d, d') == t4.owed;
    }
    ts := [t0, t1, t2, t3, t4];
    es := [Rows(BeginClaim(0, 0, op, true)), Rows(CheckPrevious(0)), Rows(CheckReview(0)), Rows(Land(0))];
  }

  lemma AppendTrail(ts: seq<Trail>, es: seq<TrailEvent>, e: TrailEvent, t: Trail)
    requires TrailRun(ts, es) && TrailNext(ts[|ts| - 1], e, t)
    ensures TrailRun(ts + [t], es + [e])
  {
    var all, steps := ts + [t], es + [e];
    forall k | 0 <= k < |steps|
      ensures TrailFollows(all, steps, k)
    {
      assert k < |es| ==> TrailFollows(ts, es, k);
    }
  }

  /** An interrupt of the only node, in progress, while other records are owed. */
  lemma InterruptOnTime(d: Db, owed: seq<Transition>) returns (t': Trail)
    requires |d.nodes| == 1 && d.nodes[0].status == InProgress
    ensures t'.log == [Transition(0, InProgress, Manual, ManualAction)] && t'.owed == owed && t'.silent == []
    ensures var s' := Sys(d, map[0 := Prepared(Interrupt(d.nodes))]);
      && TrailNext(Trail(Sys(d, map[]), [], owed, []), Rows(Prepare(0, Interrupt(d.nodes))), Trail(s', [], owed, []))
      && TrailNext(Trail(s', [], owed, []), Rows(Land(0)), t')
  {
    var w := Interrupt(d.nodes);
    var d' := Exec(d, w).value;
    var s' := Sys(d, map[0 := Prepared(w)]);
    ReadStep(Sys(d, map[]), Prepare(0, w), s', [], owed);
    t' := Trail(Sys(d', map[]), [Transition(0, InProgress, Manual, ManualAction)], owed, []);
    assert s'.requests - {0} == map[];
    assert ParkLog(InterruptRows(d.nodes), ManualAction, 0) == [];
    assert NewRecords(d, d') == ParkLog(InterruptRows(d.nodes), ManualAction, 1) == t'.log;
  }

  /** A claim commits its row, an interrupt parks the node with its own record, then the claim's record is
      inserted: nothing is owed, nobody cancelled, and the log does not replay. */
  lemma LateRecordFalsifies(d: Db, op: Id) returns (ts: seq<Trail>, es: seq<TrailEvent>)
    requires Created(d) && |d.nodes| == 1 && Free(d.nodes[0], op)
    ensures TrailRun(ts, es) && ts[0].sys.db == d && |es| == 7
    ensures ts[7].owed == [] && ts[7].silent == []
    ensures Replay(ts[7].log, Statuses(d.nodes)).None?
  {
    var claimed := Transition(0, Pending, InProgress, ReclaimAction);
    var parked := Transition(0, InProgress, Manual, ManualAction);
    ts, es := ClaimWithoutRecord(d, op);
    var d1 := ts[4].sys.db;
    var t6 := InterruptOnTime(d1, [claimed]);
    var t5 := Trail(Sys(d1, map[0 := Prepared(Interrupt(d1.nodes))]), [], [claimed], []);
    AppendTrail(ts, es, Rows(Prepare(0, Interrupt(d1.nodes))), t5);
    ts, es := ts + [t5], es + [Rows(Prepare(0, Interrupt(d1.nodes)))];
    AppendTrail(ts, es, Rows(Land(0)), t6);
    ts, es := ts + [t6], es + [Rows(Land(0))];
    var t7 := t6.(log := [parked, claimed], owed := []);
    assert t6.owed[..0] + t6.owed[0 + 1..] == [] && t6.log + [claimed] == t7.log;
    AppendTrail(ts, es, Insert(0), t7);
    ts, es := ts + [t7], es + [Insert(0)];
    var start := Statuses(d.nodes);
    assert [] + [parked] == [parked] && [parked] + [claimed] == [parked, claimed];
    ReplayAppendOne([], parked, start);
    ReplayAppendOne([parked], claimed, start);
  }
}
