/** Concurrent requests: every operation reads in its own steps and writes later, with any other
    request's reads and writes in between. Each write that lands has the effect of its whole
    operation run at that moment, so concurrent runs reach no rows that atomic runs do not. */
module Interleaving {
  import opened Types
  import opened Writes
  import opened Protocol

  datatype Request =
    | Claiming(i: nat, op: Id, byAgent: bool, seen: Node, prevOk: bool, deps: nat, reviewOk: bool)
    | Rejecting(i: nat, seen: Node)
    | Prepared(w: Write)

  datatype Sys = Sys(db: Db, requests: map<nat, Request>)

  datatype Event =
    | BeginClaim(r: nat, i: nat, op: Id, byAgent: bool)
    | CheckPrevious(r: nat)
    | CheckDependency(r: nat)
    | CheckReview(r: nat)
    | BeginReject(r: nat, i: nat)
    | ReadTarget(r: nat, target: nat)
    | Prepare(r: nat, w: Write)
    | Land(r: nat)
    | Drop(r: nat)
    | Direct(w: Write)

  /** The write a request has become ready for. */
  function ReadyWrite(q: Request): Option<Write> {
    match q
    case Claiming(i, op, byAgent, seen, prevOk, deps, reviewOk) =>
      if prevOk && deps == |seen.dependsOn| && reviewOk then Some(Claim(i, seen, op, byAgent)) else None
    case Rejecting(_, _) => None
    case Prepared(w) => Some(w)
  }

  /** The database after an attempted write. */
  function After(d: Db, w: Write): Db {
    if InRange(d, w) && Exec(d, w).Some? then Exec(d, w).value else d
  }

  /** One event. A failed check, an error or a crash is a Drop; reads see the current rows. */
  predicate Next(s: Sys, e: Event, s': Sys) {
    var ns := s.db.nodes;
    match e
    case BeginClaim(r, i, op, byAgent) =>
      r !in s.requests && i < |ns| &&
      s' == s.(requests := s.requests[r := Claiming(i, op, byAgent, ns[i], false, 0, false)])
    case CheckPrevious(r) =>
      r in s.requests && s.requests[r].Claiming? &&
      var q := s.requests[r];
      q.i < |ns| && LinearReady(ns, q.i) && s' == s.(requests := s.requests[r := q.(prevOk := true)])
    case CheckDependency(r) =>
      r in s.requests && s.requests[r].Claiming? &&
      var q := s.requests[r];
      q.prevOk && q.deps < |q.seen.dependsOn| &&
      var dep := q.seen.dependsOn[q.deps];
      dep < |ns| && ns[dep].status == Completed && s' == s.(requests := s.requests[r := q.(deps := q.deps + 1)])
    case CheckReview(r) =>
      r in s.requests && s.requests[r].Claiming? &&
      var q := s.requests[r];
      q.prevOk && q.deps == |q.seen.dependsOn| && q.i < |ns| &&
      (q.byAgent && q.seen.nodeType == Review ==> PrevStandardAssignee(ns, q.i) != Some(q.op)) &&
      s' == s.(requests := s.requests[r := q.(reviewOk := true)])
    case BeginReject(r, i) =>
      r !in s.requests && i < |ns| && ns[i].status == InProgress &&
      s' == s.(requests := s.requests[r := Rejecting(i, ns[i])])
    case ReadTarget(r, t) =>
      r in s.requests && s.requests[r].Rejecting? &&
      var q := s.requests[r];
      t < |ns| && t < q.i && ns[t].nodeType != ManualStep && ns[t].assigneeType != Human &&
      s' == s.(requests := s.requests[r := Prepared(Reject(q.i, q.seen, t, ns[t].RejectLimit()))])
    case Prepare(r, w) =>
      r !in s.requests && (w.Approve? || w.Park? || w.Resolve? || w.Skip? || w.Interrupt? || w.Acknowledge?) &&
      InRange(s.db, w) && Fresh(s.db, w) && s' == s.(requests := s.requests[r := Prepared(w)])
    case Land(r) =>
      r in s.requests && ReadyWrite(s.requests[r]).Some? &&
      s' == Sys(After(s.db, ReadyWrite(s.requests[r]).value), s.requests - {r})
    case Drop(r) =>
      s' == s.(requests := s.requests - {r})
    case Direct(w) =>
      && (w.Offline? || w.Release? || w.ClearReservations? || w.Cancel? || w.CancelNodes? || w.DeleteTask?)
      && (w.CancelNodes? ==> s.db.status != Active)
      && s' == s.(db := After(s.db, w))
  }

  predicate Follows(ss: seq<Sys>, es: seq<Event>, k: int)
    requires 0 <= k < |es| && |ss| == |es| + 1
  {
    Next(ss[k], es[k], ss[k + 1])
  }

  ghost predicate Interleaved(ss: seq<Sys>, es: seq<Event>) {
    && |ss| == |es| + 1
    && Created(ss[0].db) && ss[0].requests == map[]
    && forall k :: 0 <= k < |es| ==> Follows(ss, es, k)
  }

  // ----- what a pending request may rely on

  /** The snapshot is still the version the database holds, and was pending when it was read. */
  predicate Held(seen: Node, row: Node) {
    seen.status == Pending && row.version == seen.version
  }

  ghost predicate Sound(d: Db, q: Request) {
    var ns := d.nodes;
    match q
    case Claiming(i, op, byAgent, seen, prevOk, deps, reviewOk) =>
      && i < |ns| && Later(seen, ns[i]) && seen.nodeType == ns[i].nodeType && seen.dependsOn == ns[i].dependsOn
      && deps <= |seen.dependsOn| && (deps > 0 || reviewOk ==> prevOk)
      && (Held(seen, ns[i]) && prevOk ==> PrefixCompleted(ns, i))
      && (Held(seen, ns[i]) ==>
            forall m :: 0 <= m < deps ==> seen.dependsOn[m] < |ns| && ns[seen.dependsOn[m]].status == Completed)
      && (Held(seen, ns[i]) && reviewOk && byAgent && seen.nodeType == Review ==>
            PrevStandardAssignee(ns, i) != Some(op))
    case Rejecting(i, seen) => i < |ns| && seen.status == InProgress && Later(seen, ns[i])
    case Prepared(w) =>
      InRange(d, w) &&
      match w
      case Approve(i, seen, _, _) => seen.status == InProgress && Later(seen, ns[i])
      case Park(i, seen, _) => seen.status == InProgress && Later(seen, ns[i])
      case Resolve(i, seen, _, _, _, _) => seen.status == Manual && Later(seen, ns[i])
      case Skip(i, seen) => Later(seen, ns[i])
      case Reject(i, seen, t, limit) =>
        && seen.status == InProgress && Later(seen, ns[i])
        && t < i && ns[t].nodeType != ManualStep && limit == ns[t].RejectLimit()
        && (Unchanged(ns[i], seen.version, InProgress) ==> ns[t].assigneeType != Human)
      case Interrupt(rows) => forall k :: 0 <= k < |rows| ==> Later(rows[k], ns[k])
      case Acknowledge(_, _, _) => true
      case _ => false
  }

  ghost predicate Inv(s: Sys) {
    && Linear(s.db.nodes) && NoSelfReview(s.db.nodes)
    && forall r :: r in s.requests ==> Sound(s.db, s.requests[r])
  }

  // ----- a landed write is the whole operation run now

  /** The same operation on the rows as they are now. */
  function Refreshed(d: Db, w: Write): Write
    requires InRange(d, w)
  {
    match w
    case Claim(i, _, op, byAgent) => Claim(i, d.nodes[i], op, byAgent)
    case Approve(i, _, completer, now) => Approve(i, d.nodes[i], completer, now)
    case Reject(i, _, t, limit) => Reject(i, d.nodes[i], t, limit)
    case Park(i, _, timeout) => Park(i, d.nodes[i], timeout)
    case Resolve(i, _, completer, agent, complete, now) => Resolve(i, d.nodes[i], completer, agent, complete, now)
    case Skip(i, _) => Skip(i, d.nodes[i])
    case Interrupt(_) => Interrupt(d.nodes)
    case _ => w
  }

  predicate SameRows(d: Db, d': Db) {
    d.nodes == d'.nodes && d.status == d'.status
  }

  /** The rows and the task status moved as operation w, run by itself, moves them. */
  predicate MovesBy(d: Db, w: Write, d': Db) {
    InRange(d, w) && Fresh(d, w) && Exec(d, w).Some? && SameRows(d', Exec(d, w).value)
  }

  /** The database did not move, or it moved as one atomic operation moves it. */
  ghost predicate Moves(d: Db, d': Db) {
    SameRows(d, d') || exists w :: MovesBy(d, w, d')
  }

  lemma LandedClaim(d: Db, q: Request)
    requires q.Claiming? && Sound(d, q) && ReadyWrite(q).Some? && Exec(d, ReadyWrite(q).value).Some?
    ensures MovesBy(d, Refreshed(d, ReadyWrite(q).value), Exec(d, ReadyWrite(q).value).value)
  {
  }

  lemma LandedPrepared(d: Db, w: Write)
    requires Linear(d.nodes) && Sound(d, Prepared(w)) && Exec(d, w).Some?
    ensures SameRows(d, Exec(d, w).value) || MovesBy(d, Refreshed(d, w), Exec(d, w).value)
  {
    if w.Interrupt? {
      LandedInterrupt(d, w.rows);
    }
  }

  /** A late interrupt is the current one, or does nothing. */
  lemma LandedInterrupt(d: Db, rows: seq<Node>)
    requires Linear(d.nodes) && Sound(d, Prepared(Interrupt(rows))) && Exec(d, Interrupt(rows)).Some?
    ensures var d' := Exec(d, Interrupt(rows)).value;
      SameRows(d, d') || MovesBy(d, Interrupt(d.nodes), d')
  {
    var d' := Exec(d, Interrupt(rows)).value;
    if k :| 0 <= k < |rows| && rows[k].status == InProgress {
      assert Unchanged(d.nodes[k], rows[k].version, InProgress) && rows[k] == d.nodes[k];
      assert Open(d.nodes, k);
      forall j | 0 <= j < |rows| && j != k
        ensures d'.nodes[j] == InterruptedRow(d.nodes[j], d.nodes[j])
      {
        assert !Open(d.nodes, j);
      }
      assert d'.nodes == Exec(d, Interrupt(d.nodes)).value.nodes;
    } else {
      assert d'.nodes == d.nodes;
    }
  }

  // ----- pending requests stay sound

  /** Node i kept its version and status while it was in progress or pending, below a completed prefix. */
  predicate Quiet(ns: seq<Node>, ns': seq<Node>, i: nat)
    requires i < |ns| && |ns'| == |ns|
  {
    && (ns[i].status == InProgress || ns[i].status == Pending) && PrefixCompleted(ns, i)
    && ns'[i].version == ns[i].version && ns'[i].status == ns[i].status
  }

  predicate AroundKept(ns: seq<Node>, ns': seq<Node>, i: nat)
    requires i < |ns| && |ns'| == |ns|
  {
    && (forall j :: 0 <= j < |ns| && j != i ==> ns'[j].status == ns[j].status)
    && (forall j :: 0 <= j < i ==> ns'[j].assigneeType == ns[j].assigneeType && ns'[j].assignee == ns[j].assignee)
  }

  /** What every move guarantees to the requests that are pending across it. */
  ghost predicate Evolves(ns: seq<Node>, ns': seq<Node>) {
    && |ns'| == |ns|
    && (forall i :: 0 <= i < |ns| ==>
          && Later(ns[i], ns'[i])
          && ns'[i].nodeType == ns[i].nodeType && ns'[i].dependsOn == ns[i].dependsOn
          && ns'[i].RejectLimit() == ns[i].RejectLimit())
    && (forall i :: 0 <= i < |ns| && Quiet(ns, ns', i) ==> AroundKept(ns, ns', i))
  }

  lemma MovesEvolve(d: Db, d': Db)
    requires Linear(d.nodes) && Moves(d, d')
    ensures Evolves(d.nodes, d'.nodes)
  {
    if !SameRows(d, d') {
      var w :| MovesBy(d, w, d');
      var d'' := Exec(d, w).value;
      StaticStep(d, w, d'');
      forall i | 0 <= i < |d.nodes|
        ensures Later(d.nodes[i], d'.nodes[i])
      {
        StepLater(d, w, d'', i);
      }
      forall i | 0 <= i < |d.nodes| && Quiet(d.nodes, d'.nodes, i)
        ensures AroundKept(d.nodes, d'.nodes, i)
      {
        Frozen(d, w, d'', i);
      }
    }
  }

  lemma ClaimKept(d: Db, d': Db, q: Request)
    requires q.Claiming? && Evolves(d.nodes, d'.nodes) && Sound(d, q)
    ensures Sound(d', q)
  {
    LaterTransitive(q.seen, d.nodes[q.i], d'.nodes[q.i]);
    if Held(q.seen, d'.nodes[q.i]) && q.prevOk {
      assert Quiet(d.nodes, d'.nodes, q.i);
      PrevStandardSame(d.nodes, d'.nodes, q.i);
    }
  }

  lemma OthersKept(d: Db, d': Db, q: Request)
    requires !q.Claiming? && Linear(d.nodes) && Evolves(d.nodes, d'.nodes) && Sound(d, q)
    ensures Sound(d', q)
  {
    if q.Prepared? && q.w.Interrupt? {
      forall k | 0 <= k < |q.w.rows|
        ensures Later(q.w.rows[k], d'.nodes[k])
      {
        LaterTransitive(q.w.rows[k], d.nodes[k], d'.nodes[k]);
      }
    } else if !(q.Prepared? && q.w.Acknowledge?) {
      var i, seen := if q.Rejecting? then q.i else q.w.i, if q.Rejecting? then q.seen else q.w.seen;
      LaterTransitive(seen, d.nodes[i], d'.nodes[i]);
      if Unchanged(d'.nodes[i], seen.version, InProgress) {
        assert seen.status == InProgress ==> Open(d.nodes, i) && Quiet(d.nodes, d'.nodes, i);
      }
    }
  }

  lemma InvariantMoves(d: Db, d': Db)
    requires Linear(d.nodes) && NoSelfReview(d.nodes) && Moves(d, d')
    ensures Linear(d'.nodes) && NoSelfReview(d'.nodes)
  {
    if !SameRows(d, d') {
      var w :| MovesBy(d, w, d');
      var d'' := Exec(d, w).value;
      LinearStep(d, w, d'');
      NoSelfReviewStep(d, w, d'');
    }
  }

  /** The whole operation whose effect an event can have: the write that lands, on the rows as they are. */
  function EffectOf(s: Sys, e: Event): Option<Write> {
    match e
    case Land(r) =>
      if r in s.requests && ReadyWrite(s.requests[r]).Some? && InRange(s.db, ReadyWrite(s.requests[r]).value) then
        Some(Refreshed(s.db, ReadyWrite(s.requests[r]).value))
      else None
    case Direct(w) => Some(w)
    case _ => None
  }

  lemma EventMovesBy(s: Sys, e: Event, s': Sys)
    requires Inv(s) && Next(s, e, s') && !SameRows(s.db, s'.db)
    ensures EffectOf(s, e).Some? && MovesBy(s.db, EffectOf(s, e).value, s'.db)
  {
    if e.Land? {
      var q := s.requests[e.r];
      assert Sound(s.db, q);
      if q.Claiming? {
        LandedClaim(s.db, q);
      } else {
        LandedPrepared(s.db, q.w);
      }
    }
  }

  /** Every event leaves the rows alone or moves them as one atomic operation would. */
  lemma NextMoves(s: Sys, e: Event, s': Sys)
    requires Inv(s) && Next(s, e, s')
    ensures Moves(s.db, s'.db)
  {
    if !SameRows(s.db, s'.db) {
      EventMovesBy(s, e, s');
    }
  }

  lemma FirstReadSound(s: Sys, e: Event, s': Sys)
    requires Inv(s) && Next(s, e, s') && (e.BeginClaim? || e.BeginReject? || e.Prepare?)
    ensures Sound(s'.db, s'.requests[e.r])
  {
  }

  lemma PreviousSound(s: Sys, e: Event, s': Sys)
    requires Inv(s) && Next(s, e, s') && e.CheckPrevious?
    ensures Sound(s'.db, s'.requests[e.r])
  {
    var q := s.requests[e.r];
    assert Sound(s.db, q);
    assert Held(q.seen, s.db.nodes[q.i]) ==> Open(s.db.nodes, q.i);
  }

  lemma DependencySound(s: Sys, e: Event, s': Sys)
    requires Inv(s) && Next(s, e, s') && e.CheckDependency?
    ensures Sound(s'.db, s'.requests[e.r])
  {
    assert Sound(s.db, s.requests[e.r]);
  }

  lemma ReviewSound(s: Sys, e: Event, s': Sys)
    requires Inv(s) && Next(s, e, s') && e.CheckReview?
    ensures Sound(s'.db, s'.requests[e.r])
  {
    assert Sound(s.db, s.requests[e.r]);
  }

  lemma TargetSound(s: Sys, e: Event, s': Sys)
    requires Inv(s) && Next(s, e, s') && e.ReadTarget?
    ensures Sound(s'.db, s'.requests[e.r])
  {
    assert Sound(s.db, s.requests[e.r]);
  }

  /** The events that read. */
  predicate Reads(e: Event) {
    || e.BeginClaim? || e.CheckPrevious? || e.CheckDependency? || e.CheckReview?
    || e.BeginReject? || e.ReadTarget? || e.Prepare?
  }

  /** A request is sound right after each of its reads. */
  lemma ReadSound(s: Sys, e: Event, s': Sys)
    requires Inv(s) && Next(s, e, s') && Reads(e)
    ensures e.r in s'.requests && Sound(s'.db, s'.requests[e.r])
  {
    match e
    case CheckPrevious(_) => PreviousSound(s, e, s');
    case CheckDependency(_) => DependencySound(s, e, s');
    case CheckReview(_) => ReviewSound(s, e, s');
    case ReadTarget(_, _) => TargetSound(s, e, s');
    case _ => FirstReadSound(s, e, s');
  }

  lemma InvNext(s: Sys, e: Event, s': Sys)
    requires Inv(s) && Next(s, e, s')
    ensures Inv(s')
  {
    NextMoves(s, e, s');
    InvariantMoves(s.db, s'.db);
    MovesEvolve(s.db, s'.db);
    forall r | r in s'.requests
      ensures Sound(s'.db, s'.requests[r])
    {
      if r in s.requests && s'.requests[r] == s.requests[r] {
        if s.requests[r].Claiming? {
          ClaimKept(s.db, s'.db, s.requests[r]);
        } else {
          OthersKept(s.db, s'.db, s.requests[r]);
        }
      } else {
        ReadSound(s, e, s');
      }
    }
  }

  // ----- whole concurrent runs

  lemma {:induction false} InvRun(ss: seq<Sys>, es: seq<Event>, k: nat)
    requires Interleaved(ss, es) && k < |ss|
    ensures Inv(ss[k]) && |ss[k].db.nodes| == |ss[0].db.nodes|
  {
    if k > 0 {
      InvRun(ss, es, k - 1);
      assert Follows(ss, es, k - 1);
      InvNext(ss[k - 1], es[k - 1], ss[k]);
      NextMoves(ss[k - 1], es[k - 1], ss[k]);
      MovesEvolve(ss[k - 1].db, ss[k].db);
    }
  }

  /** The non-atomic claim is safe: when its write lands, however old its reads are, every earlier
      node and every dependency is completed, and an agent is not reviewing its own work. */
  lemma ClaimLandsSafely(ss: seq<Sys>, es: seq<Event>, k: nat, r: nat)
    requires Interleaved(ss, es) && k < |es| && es[k] == Land(r)
    requires r in ss[k].requests && ss[k].requests[r].Claiming?
    requires ss[k + 1].db != ss[k].db
    ensures var q, ns := ss[k].requests[r], ss[k].db.nodes;
      && q.i < |ns| && PrefixCompleted(ns, q.i) && DependenciesCompleted(ns, q.i)
      && (q.byAgent && ns[q.i].nodeType == Review ==> PrevStandardAssignee(ns, q.i) != Some(q.op))
  {
    InvRun(ss, es, k);
    assert Follows(ss, es, k);
    var q, ns := ss[k].requests[r], ss[k].db.nodes;
    assert Sound(ss[k].db, q);
    assert Claimable(ns, q.i, q.seen.version, q.op, q.byAgent);
    assert Open(ns, q.i);
  }

  /** Late approvals and rejections: when one lands, the rows before its node, a rejection's target among
      them, are all completed, the next node is not live, and the last approval finishes the task. */
  lemma WriteLandsSafely(ss: seq<Sys>, es: seq<Event>, k: nat, r: nat)
    requires Interleaved(ss, es) && k < |es| && es[k] == Land(r) && ss[k + 1].db != ss[k].db
    requires r in ss[k].requests && ss[k].requests[r].Prepared?
    requires ss[k].requests[r].w.Approve? || ss[k].requests[r].w.Reject?
    ensures var w, ns := ss[k].requests[r].w, ss[k].db.nodes;
      && w.i < |ns| && PrefixCompleted(ns, w.i) && (w.Reject? ==> w.target < w.i)
      && (w.i + 1 < |ns| ==> !Live(ns[w.i + 1]))
      && (w.Approve? && w.i + 1 == |ns| ==> ss[k + 1].db.status == Finished && AllCompleted(ss[k + 1].db))
  {
    InvRun(ss, es, k);
    assert Follows(ss, es, k);
    var w, ns := ss[k].requests[r].w, ss[k].db.nodes;
    assert Sound(ss[k].db, ss[k].requests[r]);
    assert Open(ns, w.i);
    assert w.i + 1 < |ns| ==> !Open(ns, w.i + 1);
  }

  /** The version alone protects a claim that saw its node pending: whenever its version still
      matches, the predecessor and dependency conditions it read long ago still hold, so the copies of
      them in the claim's WHERE clause never decide. */
  lemma VersionSubsumesChecks(ss: seq<Sys>, es: seq<Event>, k: nat, r: nat)
    requires Interleaved(ss, es) && k < |ss| && r in ss[k].requests && ss[k].requests[r].Claiming?
    requires ReadyWrite(ss[k].requests[r]).Some? && ss[k].requests[r].seen.status == Pending
    ensures var q, d := ss[k].requests[r], ss[k].db;
      q.i < |d.nodes| &&
      (Exec(d, ReadyWrite(q).value).Some? <==>
        && d.nodes[q.i].version == q.seen.version
        && (if q.byAgent then d.nodes[q.i].reservedFor.None? || d.nodes[q.i].reservedFor == Some(q.op)
            else d.nodes[q.i].assigneeType == Human))
  {
    InvRun(ss, es, k);
    assert Sound(ss[k].db, ss[k].requests[r]);
  }

  // ----- the optimistic lock, over whole runs

  lemma RunEvolves(ss: seq<Sys>, es: seq<Event>, k: nat)
    requires Interleaved(ss, es) && k < |es|
    ensures Moves(ss[k].db, ss[k + 1].db) && Evolves(ss[k].db.nodes, ss[k + 1].db.nodes)
  {
    InvRun(ss, es, k);
    assert Follows(ss, es, k);
    NextMoves(ss[k], es[k], ss[k + 1]);
    MovesEvolve(ss[k].db, ss[k + 1].db);
  }

  /** From any state of a run to any later one a row's version goes up, or the row drifts. */
  lemma {:induction false} LaterRun(ss: seq<Sys>, es: seq<Event>, a: nat, b: nat, i: nat)
    requires Interleaved(ss, es) && a <= b < |ss| && i < |ss[a].db.nodes|
    ensures i < |ss[b].db.nodes| && Later(ss[a].db.nodes[i], ss[b].db.nodes[i])
  {
    if a < b {
      LaterRun(ss, es, a, b - 1, i);
      RunEvolves(ss, es, b - 1);
      LaterTransitive(ss[a].db.nodes[i], ss[b - 1].db.nodes[i], ss[b].db.nodes[i]);
    }
  }

  /** Request r writes at step k, and the write succeeds. */
  predicate Lands(ss: seq<Sys>, es: seq<Event>, k: nat, w: Write)
    requires k < |es| && k < |ss|
  {
    && es[k].Land? && es[k].r in ss[k].requests && ReadyWrite(ss[k].requests[es[k].r]) == Some(w)
    && InRange(ss[k].db, w) && Exec(ss[k].db, w).Some?
  }

  /** For each node and version at most one guarded write ever succeeds: whatever happens in between,
      no write guarded by the same version, or an older one, lands after it. */
  lemma OneWritePerVersion(ss: seq<Sys>, es: seq<Event>, a: nat, b: nat, w: Write, w2: Write, i: nat, v: int, v2: int)
    requires Interleaved(ss, es) && a < b < |es| && Lands(ss, es, a, w)
    requires GuardedBy(w, i, v) && GuardedBy(w2, i, v2) && v2 <= v
    ensures !Lands(ss, es, b, w2)
  {
    assert Follows(ss, es, a);
    VersionConsumed(ss[a].db, w, ss[a + 1].db, i, v);
    LaterRun(ss, es, a + 1, b, i);
    if Lands(ss, es, b, w2) {
      StaleVersionFails(ss[b].db, w2, i, v2);
    }
  }

  /** A cancel or delete at step a resets node i. */
  predicate Resets(ss: seq<Sys>, es: seq<Event>, a: nat, i: nat)
    requires a < |es| && a < |ss|
  {
    && es[a].Direct? && (es[a].w.CancelNodes? || es[a].w.DeleteTask?)
    && i < |ss[a].db.nodes| && ss[a].db.nodes[i].status == InProgress
  }

  /** After the reset the row is never in progress at its old version, or an older one, again. */
  lemma NotResumed(ss: seq<Sys>, es: seq<Event>, a: nat, b: nat, i: nat)
    requires Interleaved(ss, es) && a < b < |ss| && Resets(ss, es, a, i)
    ensures i < |ss[b].db.nodes|
    ensures ss[b].db.nodes[i].version > ss[a].db.nodes[i].version ||
            (ss[b].db.nodes[i].version == ss[a].db.nodes[i].version && ss[b].db.nodes[i].status == Pending)
  {
    assert Follows(ss, es, a);
    LaterRun(ss, es, a + 1, b, i);
    assert ss[a + 1].db.nodes[i] == ResetRow(ss[a].db.nodes[i]);
  }

  /** The optimistic lock against the one reset that keeps the version. Whatever happens after a
      cancel or delete, no single-row write built on an earlier in-progress snapshot of a node it
      reset ever succeeds, with one exception: a member's claim, which succeeds exactly when nothing
      has changed the version since and a fresh claim would succeed. */
  lemma StaleAfterReset(ss: seq<Sys>, es: seq<Event>, a: nat, b: nat, i: nat, w: Write)
    requires Interleaved(ss, es) && a < b < |ss| && Resets(ss, es, a, i)
    requires InRange(ss[b].db, w) && SingleRow(w) && w.i == i
    requires w.seen.status == InProgress && w.seen.version <= ss[a].db.nodes[i].version
    ensures var d := ss[b].db;
      Exec(d, w).Some? <==>
        && w.Claim? && !w.byAgent && d.nodes[i].version == w.seen.version
        && Exec(d, Refreshed(d, w)).Some?
  {
    NotResumed(ss, es, a, b, i);
  }

  /** Nor does an interrupt whose listing shows the node in progress as it was. */
  lemma StaleInterruptFails(ss: seq<Sys>, es: seq<Event>, a: nat, b: nat, i: nat, rows: seq<Node>)
    requires Interleaved(ss, es) && a < b < |ss| && Resets(ss, es, a, i)
    requires InRange(ss[b].db, Interrupt(rows)) && i < |rows|
    requires rows[i].status == InProgress && rows[i].version <= ss[a].db.nodes[i].version
    ensures Exec(ss[b].db, Interrupt(rows)) == None
  {
    NotResumed(ss, es, a, b, i);
  }

  // ----- one operation after the other

  /** The operations that took effect in the first k events, in the order in which they landed. */
  function Landed(ss: seq<Sys>, es: seq<Event>, k: nat): seq<Write>
    requires k <= |es| && |ss| == |es| + 1
  {
    if k == 0 then []
    else
      var w := EffectOf(ss[k - 1], es[k - 1]);
      Landed(ss, es, k - 1) + if w.None? || SameRows(ss[k - 1].db, ss[k].db) then [] else [w.value]
  }

  lemma RowsDecide(d: Db, w: Write, d': Db, e: Db) returns (e': Db)
    requires MovesBy(d, w, d') && SameRows(d, e)
    ensures Step(e, w, e') && SameRows(d', e')
  {
    e' := Exec(e, w).value;
  }

  /** Concurrency adds nothing to the rows: a concurrent run has the effect of the operations that
      landed in it, each run whole and by itself, in the order in which they landed. */
  lemma {:induction false} Linearizable(ss: seq<Sys>, es: seq<Event>, k: nat) returns (ds: seq<Db>)
    requires Interleaved(ss, es) && k < |ss|
    ensures Run(ds, Landed(ss, es, k)) && ds[0] == ss[0].db && SameRows(ds[|ds| - 1], ss[k].db)
  {
    if k == 0 {
      ds := [ss[0].db];
    } else {
      ds := Linearizable(ss, es, k - 1);
      InvRun(ss, es, k - 1);
      assert Follows(ss, es, k - 1);
      if !SameRows(ss[k - 1].db, ss[k].db) {
        EventMovesBy(ss[k - 1], es[k - 1], ss[k]);
        var w := EffectOf(ss[k - 1], es[k - 1]).value;
        var d := RowsDecide(ss[k - 1].db, w, ss[k].db, ds[|ds| - 1]);
        AppendStep(ds, Landed(ss, es, k - 1), w, d);
        ds := ds + [d];
      } else {
        assert Landed(ss, es, k) == Landed(ss, es, k - 1);
      }
    }
  }

  /** One live node, and no self-review, in every state of every concurrent run. */
  lemma InterleavedSafety(ss: seq<Sys>, es: seq<Event>, k: nat, i: nat)
    requires Interleaved(ss, es) && k < |ss| && i < |ss[k].db.nodes| && Live(ss[k].db.nodes[i])
    ensures PrefixCompleted(ss[k].db.nodes, i)
    ensures forall j :: 0 <= j < |ss[k].db.nodes| && j != i ==> !Live(ss[k].db.nodes[j])
    ensures ss[k].db.nodes[i].status == InProgress ==> Impartial(ss[k].db.nodes, i)
  {
    InvRun(ss, es, k);
    var ns := ss[k].db.nodes;
    assert Open(ns, i);
    forall j | 0 <= j < |ns| && j != i
      ensures !Live(ns[j])
    {
      assert !Open(ns, j);
    }
  }

  lemma AllCompletedMoves(d: Db, d': Db)
    requires AllCompleted(d) && Moves(d, d')
    ensures AllCompleted(d')
  {
    if !SameRows(d, d') {
      var w :| MovesBy(d, w, d');
      var d'' := Exec(d, w).value;
      AllCompletedStep(d, w, d'');
    }
  }

  lemma FinishedMeansCompleted(ss: seq<Sys>, es: seq<Event>, k: nat)
    requires Interleaved(ss, es) && k < |ss| && ss[k].db.status == Finished
    ensures AllCompleted(ss[k].db)
  {
    var ds := Linearizable(ss, es, k);
    RunInvariant(ds, Landed(ss, es, k), |ds| - 1);
  }

  /** Once a concurrent run has finished the task, every node is completed and stays so. */
  lemma {:induction false} FinishedForGoodConcurrently(ss: seq<Sys>, es: seq<Event>, k: nat, m: nat)
    requires Interleaved(ss, es) && k <= m < |ss| && ss[k].db.status == Finished
    ensures AllCompleted(ss[m].db)
  {
    if m == k {
      FinishedMeansCompleted(ss, es, k);
    } else {
      FinishedForGoodConcurrently(ss, es, k, m - 1);
      RunEvolves(ss, es, m - 1);
      AllCompletedMoves(ss[m - 1].db, ss[m].db);
    }
  }
}
