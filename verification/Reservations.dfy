/** Reservations: who may use them and who may give them up, and what keeps the node next in line from
    being reserved for somebody who can do neither. */
module Reservations {
  import opened Types
  import opened Writes
  import opened Protocol
  import opened Rollback

  // ----- who may do what

  /** The holders are all agents with the permission to claim; they may give up a reservation. The
      claimants are those of them that are members of the project; they may claim. */
  datatype Roster = Roster(claimants: set<Id>, holders: set<Id>)

  type Agents = r: Roster | r.claimants <= r.holders witness Roster({}, {})

  /** What the server accepts from whom, beyond the guards of the operation: agents claim nodes that are
      not a human's and members those that are, only an agent gives up a reservation, and only an active
      task is cancelled. */
  predicate Served(d: Db, w: Write, agents: Agents)
    requires InRange(d, w)
  {
    match w
    case Claim(i, _, op, byAgent) =>
      d.status == Active && (byAgent <==> d.nodes[i].assigneeType != Human) && (byAgent ==> op in agents.claimants)
    case Skip(i, _) => d.nodes[i].reservedFor.Some? && d.nodes[i].reservedFor.value in agents.holders
    case Cancel => d.status == Active
    case _ => true
  }

  predicate ServedAt(ds: seq<Db>, ws: seq<Write>, k: int, agents: Agents)
    requires 0 <= k < |ws| && |ds| == |ws| + 1
  {
    InRange(ds[k], ws[k]) && Served(ds[k], ws[k], agents)
  }

  ghost predicate AllServed(ds: seq<Db>, ws: seq<Write>, agents: Agents)
    requires |ds| == |ws| + 1
  {
    forall k :: 0 <= k < |ws| ==> ServedAt(ds, ws, k, agents)
  }

  // ----- reservations that nobody can use

  /** A reservation without expiry on the node next in line is held by someone allowed to claim it;
      on a human's node any member may. */
  predicate Usable(ns: seq<Node>, i: nat)
    requires i < |ns|
  {
    && (ns[i].status == Pending || ns[i].status == InProgress) && PrefixCompleted(ns, i)
    && ns[i].reservedFor.Some? && ns[i].reservedUntil.None?
    && ns[i].nodeType == Review && ns[i].assigneeType != Human
    ==> PrevStandardAssignee(ns, i) != ns[i].reservedFor
  }

  ghost predicate ReservationsUsable(ns: seq<Node>) {
    forall i :: 0 <= i < |ns| ==> Usable(ns, i)
  }

  predicate ClaimPasses(d: Db, i: nat, op: Id, byAgent: bool)
    requires i < |d.nodes|
  {
    var w := Claim(i, d.nodes[i], op, byAgent);
    Fresh(d, w) && Exec(d, w).Some?
  }

  /** On the node next in line under a reservation without expiry some claim passes, an agent's or a
      member's, if and only if the reservation is usable. */
  lemma UsableExactly(d: Db, i: nat)
    requires i < |d.nodes| && d.nodes[i].status == Pending && d.nodes[i].reservedFor.Some?
    requires d.nodes[i].reservedUntil.None? && PrefixCompleted(d.nodes, i) && DependenciesCompleted(d.nodes, i)
    ensures (exists op: Id, byAgent: bool :: ClaimPasses(d, i, op, byAgent)) <==> Usable(d.nodes, i)
  {
    var row := d.nodes[i];
    if Usable(d.nodes, i) {
      assert ClaimPasses(d, i, row.reservedFor.value, row.assigneeType != Human);
    }
  }

  /** A reservation without expiry on an agents' node next in line is held by one of ids. */
  predicate Held(ns: seq<Node>, i: nat, ids: set<Id>)
    requires i < |ns|
  {
    && ns[i].status == Pending && PrefixCompleted(ns, i)
    && ns[i].reservedFor.Some? && ns[i].reservedUntil.None? && ns[i].assigneeType != Human
    ==> ns[i].reservedFor.value in ids
  }

  ghost predicate ReservationsHeld(ns: seq<Node>, ids: set<Id>) {
    forall i :: 0 <= i < |ns| ==> Held(ns, i, ids)
  }

  /** For the claims the whole server accepts the holder must also be a claimant. */
  lemma ServedClaimsExactly(d: Db, i: nat, agents: Agents)
    requires i < |d.nodes| && d.nodes[i].status == Pending && d.nodes[i].reservedFor.Some?
    requires d.nodes[i].reservedUntil.None? && PrefixCompleted(d.nodes, i) && DependenciesCompleted(d.nodes, i)
    requires d.status == Active
    ensures (exists op: Id, byAgent: bool ::
               ClaimPasses(d, i, op, byAgent) && Served(d, Claim(i, d.nodes[i], op, byAgent), agents)) <==>
            Usable(d.nodes, i) && Held(d.nodes, i, agents.claimants)
  {
    var row := d.nodes[i];
    var op, byAgent := row.reservedFor.value, row.assigneeType != Human;
    if Usable(d.nodes, i) && Held(d.nodes, i, agents.claimants) {
      assert ClaimPasses(d, i, op, byAgent) && Served(d, Claim(i, row, op, byAgent), agents);
    }
  }

  /** Completed reviews in the prefix were not self-reviews, so a roll-back reserves them for
      somebody who may claim them. */
  ghost predicate PrefixImpartial(ns: seq<Node>) {
    forall i :: 0 <= i < |ns| && PrefixCompleted(ns, i + 1) ==> Impartial(ns, i)
  }

  lemma CompletedKept(d: Db, w: Write, d': Db, n: nat)
    requires Linear(d.nodes) && Step(d, w, d') && ByWork(w) && n <= |d.nodes| && (w.Approve? ==> w.i >= n)
    requires PrefixCompleted(d.nodes, n) && PrefixCompleted(d'.nodes, n)
    ensures forall j :: 0 <= j < n ==>
      && d'.nodes[j].nodeType == d.nodes[j].nodeType && d'.nodes[j].assignee == d.nodes[j].assignee
      && d'.nodes[j].assigneeType == d.nodes[j].assigneeType
  {
  }

  lemma PrefixImpartialStep(d: Db, w: Write, d': Db)
    requires Linear(d.nodes) && NoSelfReview(d.nodes) && PrefixImpartial(d.nodes) && Step(d, w, d') && ByWork(w)
    ensures PrefixImpartial(d'.nodes)
  {
    forall i | 0 <= i < |d'.nodes| && PrefixCompleted(d'.nodes, i + 1)
      ensures Impartial(d'.nodes, i)
    {
      if w.Approve? && w.i == i {
        assert Impartial(d.nodes, i);
        PrevStandardSame(d.nodes, d'.nodes, i);
      } else {
        PrefixShrinks(d, w, d', i + 1);
        CompletedKept(d, w, d', i + 1);
        assert Impartial(d.nodes, i);
        PrevStandardSame(d.nodes, d'.nodes, i);
      }
    }
  }

  lemma UsableSwept(d: Db, w: Write, d': Db, i: nat)
    requires Step(d, w, d') && !SingleRow(w) && i < |d.nodes| && PrefixCompleted(d.nodes, i)
    requires PrevStandardAssignee(d'.nodes, i) == PrevStandardAssignee(d.nodes, i) && Usable(d.nodes, i)
    ensures Usable(d'.nodes, i)
  {
  }

  /** The row of node i after a step that left the rows before it completed. */
  lemma UsableRow(d: Db, w: Write, d': Db, i: nat)
    requires Linear(d.nodes) && Step(d, w, d') && 0 < i < |d.nodes| && PrefixCompleted(d.nodes, i)
    requires PrevStandardAssignee(d'.nodes, i) == PrevStandardAssignee(d.nodes, i)
    requires !(w.Approve? && w.i == i - 1) && Usable(d.nodes, i)
    requires w.Reject? && w.target == i ==> Impartial(d.nodes, i)
    ensures Usable(d'.nodes, i)
  {
    if !SingleRow(w) {
      UsableSwept(d, w, d', i);
    }
  }

  lemma UsableNext(d: Db, w: Write, d': Db)
    requires Linear(d.nodes) && Step(d, w, d') && w.Approve? && w.i + 1 < |d.nodes|
    ensures Usable(d'.nodes, w.i + 1)
  {
    assert Open(d.nodes, w.i) && !Open(d.nodes, w.i + 1);
  }

  lemma ReservationsUsableStep(d: Db, w: Write, d': Db)
    requires Linear(d.nodes) && ReservationsUsable(d.nodes) && PrefixImpartial(d.nodes)
    requires Step(d, w, d') && ByWork(w)
    ensures ReservationsUsable(d'.nodes)
  {
    var ns, ns' := d.nodes, d'.nodes;
    forall i | 0 <= i < |ns'|
      ensures Usable(ns', i)
    {
      if w.Approve? && w.i == i - 1 {
        UsableNext(d, w, d');
      } else if PrefixCompleted(ns', i) && i > 0 {
        PrefixShrinks(d, w, d', i);
        CompletedKept(d, w, d', i);
        PrevStandardSame(ns, ns', i);
        assert w.Reject? && w.target == i ==> Open(ns, w.i) && PrefixCompleted(ns, i + 1);
        UsableRow(d, w, d', i);
      }
    }
  }

  /** The node after i waits as an agents' review, reserved without expiry for the one it reviews. */
  predicate OwnReviewNext(ns: seq<Node>, i: nat)
    requires i < |ns|
  {
    && i + 1 < |ns| && ns[i + 1].status == Pending
    && ns[i + 1].nodeType == Review && ns[i + 1].assigneeType != Human
    && ns[i + 1].reservedFor.Some? && ns[i + 1].reservedUntil.None?
    && PrevStandardAssignee(ns, i + 1) == ns[i + 1].reservedFor
  }

  /** Completing by hand moves the line to the next node as it is. */
  lemma CompletedRow(d: Db, w: Write, d': Db)
    requires Linear(d.nodes) && Step(d, w, d') && w.Resolve? && w.complete
    ensures |d'.nodes| == |d.nodes| && d'.nodes[w.i].status == Completed
    ensures forall j :: 0 <= j < |d.nodes| && j != w.i ==> d'.nodes[j] == d.nodes[j] && !Open(d.nodes, j)
    ensures PrefixCompleted(d.nodes, w.i)
    ensures forall n :: 0 <= n <= |d.nodes| ==> PrevStandardAssignee(d'.nodes, n) == PrevStandardAssignee(d.nodes, n)
  {
    assert Open(d.nodes, w.i);
    forall n | 0 <= n <= |d.nodes|
      ensures PrevStandardAssignee(d'.nodes, n) == PrevStandardAssignee(d.nodes, n)
    {
      PrevStandardSame(d.nodes, d'.nodes, n);
    }
    forall j | 0 <= j < |d.nodes| && j != w.i
      ensures !Open(d.nodes, j)
    {
      if Open(d.nodes, j) {
        OneOpen(d.nodes, j, w.i);
      }
    }
  }

  lemma UnusableAfterCompletion(d: Db, w: Write, d': Db)
    requires Linear(d.nodes) && Step(d, w, d') && w.Resolve? && w.complete
    ensures ReservationsUsable(d'.nodes) <==> !OwnReviewNext(d.nodes, w.i)
  {
    CompletedRow(d, w, d');
    var ns', n := d'.nodes, w.i + 1;
    if n < |ns'| {
      assert PrefixCompleted(ns', n);
      assert ns'[n].status != InProgress;
      assert Usable(ns', n) <==> !OwnReviewNext(d.nodes, w.i);
    }
    forall i | 0 <= i < |ns'| && i != n
      ensures Usable(ns', i)
    {
      assert i > n && PrefixCompleted(ns', i) ==> d.nodes[i - 1] == ns'[i - 1];
    }
  }

  /** A step creates an unusable reservation if and only if it completes by hand a node in front of
      such a review. */
  lemma UnusableCreatedExactly(d: Db, w: Write, d': Db)
    requires Linear(d.nodes) && ReservationsUsable(d.nodes) && PrefixImpartial(d.nodes) && Step(d, w, d')
    ensures ReservationsUsable(d'.nodes) <==> !(w.Resolve? && w.complete && OwnReviewNext(d.nodes, w.i))
  {
    if ByWork(w) {
      ReservationsUsableStep(d, w, d');
    } else {
      UnusableAfterCompletion(d, w, d');
    }
  }

  /** A node waits for a human only as a human's node. */
  ghost predicate ManualIsHuman(ns: seq<Node>) {
    forall i :: 0 <= i < |ns| && ns[i].status == Manual ==> ns[i].assigneeType == Human
  }

  lemma ManualIsHumanStep(d: Db, w: Write, d': Db)
    requires ManualIsHuman(d.nodes) && Step(d, w, d')
    ensures ManualIsHuman(d'.nodes)
  {
  }

  /** What holds in every run, completions by hand included: the completed reviews are impartial, or
      nothing can be opened any more. */
  ghost predicate ImpartialOrOver(d: Db) {
    && Linear(d.nodes) && NoSelfReview(d.nodes) && ManualIsHuman(d.nodes)
    && (PrefixImpartial(d.nodes) || NothingOpen(d.nodes))
  }

  /** A completion by hand lengthens the completed prefix by its own node only, or leaves nothing open. */
  lemma ImpartialByHand(d: Db, w: Write, d': Db)
    requires Linear(d.nodes) && ManualIsHuman(d.nodes) && PrefixImpartial(d.nodes)
    requires Step(d, w, d') && w.Resolve? && w.complete
    ensures PrefixImpartial(d'.nodes) || NothingOpen(d'.nodes)
  {
    CompletedRow(d, w, d');
    var ns', n := d'.nodes, w.i + 1;
    if n < |ns'| && ns'[n].status == Pending {
      forall i | 0 <= i < |ns'| && PrefixCompleted(ns', i + 1)
        ensures Impartial(ns', i)
      {
        assert i < n;
        if i < w.i {
          assert PrefixCompleted(d.nodes, i + 1) && Impartial(d.nodes, i);
        }
      }
    } else {
      forall i | 0 <= i < |ns'|
        ensures !Open(ns', i)
      {
        assert i != w.i ==> !Open(d.nodes, i);
      }
    }
  }

  lemma {:induction false} ImpartialOrOverRun(ds: seq<Db>, ws: seq<Write>, k: nat)
    requires Run(ds, ws) && Created(ds[0]) && k < |ds|
    ensures ImpartialOrOver(ds[k])
  {
    RunInvariant(ds, ws, k);
    if k > 0 {
      ImpartialOrOverRun(ds, ws, k - 1);
      var d, w, d' := ds[k - 1], ws[k - 1], ds[k];
      assert StepAt(ds, ws, k - 1);
      ManualIsHumanStep(d, w, d');
      if NothingOpen(d.nodes) {
        NothingOpenStep(d, w, d');
      } else if ByWork(w) {
        PrefixImpartialStep(d, w, d');
      } else {
        ImpartialByHand(d, w, d');
      }
    } else {
      forall i | 0 <= i < |ds[0].nodes| && PrefixCompleted(ds[0].nodes, i + 1)
        ensures Impartial(ds[0].nodes, i)
      {
        assert ds[0].nodes[i].status == Completed;
      }
    }
  }

  lemma UsableWhenNothingOpen(ns: seq<Node>)
    requires NothingOpen(ns)
    ensures ReservationsUsable(ns)
  {
    forall i | 0 <= i < |ns|
      ensures Usable(ns, i)
    {
      assert !Open(ns, i);
    }
  }

  predicate CompletesBeforeOwnReview(d: Db, w: Write) {
    InRange(d, w) && w.Resolve? && w.complete && OwnReviewNext(d.nodes, w.i)
  }

  lemma UnusableCreated(d: Db, w: Write, d': Db)
    requires ImpartialOrOver(d) && ReservationsUsable(d.nodes) && Step(d, w, d')
    ensures ReservationsUsable(d'.nodes) <==> !CompletesBeforeOwnReview(d, w)
  {
    if NothingOpen(d.nodes) {
      NothingOpenStep(d, w, d');
      UsableWhenNothingOpen(d'.nodes);
      assert w.Resolve? ==> Open(d.nodes, w.i);
    } else {
      UnusableCreatedExactly(d, w, d');
    }
  }

  /** Over every run: reservations stop being usable exactly at a step that completes by hand a node in
      front of an agents' review reserved for the one it reviews. */
  lemma UnusableOnlyByHand(ds: seq<Db>, ws: seq<Write>, k: nat)
    requires Run(ds, ws) && Created(ds[0]) && k < |ws| && ReservationsUsable(ds[k].nodes)
    ensures ReservationsUsable(ds[k + 1].nodes) <==> !CompletesBeforeOwnReview(ds[k], ws[k])
  {
    ImpartialOrOverRun(ds, ws, k);
    assert StepAt(ds, ws, k);
    UnusableCreated(ds[k], ws[k], ds[k + 1]);
  }

  // ----- reservations come back to whoever did the work

  predicate ByAgent(row: Node) {
    (row.status == InProgress || row.status == Completed) && row.assigneeType != Human
  }

  /** A rejection can reopen node i for its last assignee: the limit leaves room, and a later node can
      reject back to it. */
  predicate Returnable(ns: seq<Node>, i: nat)
    requires i < |ns|
  {
    ns[i].nodeType != ManualStep && ns[i].RejectLimit() > 1 && i + 1 < |ns|
  }

  /** Agents' nodes that can come back are in progress with, or were done by, one of ids. */
  ghost predicate WorkedBy(ns: seq<Node>, ids: set<Id>) {
    forall i :: 0 <= i < |ns| && ByAgent(ns[i]) && Returnable(ns, i) && ns[i].assignee.Some? ==>
      ns[i].assignee.value in ids
  }

  ghost predicate CountsNatural(ns: seq<Node>) {
    forall i :: 0 <= i < |ns| ==> ns[i].rejectCount >= 0
  }

  lemma CountsNaturalStep(d: Db, w: Write, d': Db)
    requires CountsNatural(d.nodes) && Step(d, w, d')
    ensures CountsNatural(d'.nodes)
  {
  }

  lemma WorkedByStep(d: Db, w: Write, d': Db, agents: Agents, ids: set<Id>)
    requires Linear(d.nodes) && WorkedBy(d.nodes, ids) && agents.claimants <= ids
    requires Step(d, w, d') && ByWork(w) && Served(d, w, agents)
    ensures WorkedBy(d'.nodes, ids)
  {
    StaticStep(d, w, d');
    forall i | 0 <= i < |d'.nodes| && ByAgent(d'.nodes[i]) && Returnable(d'.nodes, i) && d'.nodes[i].assignee.Some?
      ensures d'.nodes[i].assignee.value in ids
    {
      assert Returnable(d.nodes, i);
    }
  }

  lemma HeldRow(d: Db, w: Write, d': Db, i: nat, agents: Agents, ids: set<Id>)
    requires Linear(d.nodes) && WorkedBy(d.nodes, ids) && CountsNatural(d.nodes) && agents.claimants <= ids
    requires Step(d, w, d') && ByWork(w) && Served(d, w, agents) && d'.status == Active
    requires i < |d.nodes| && PrefixCompleted(d.nodes, i) && !(w.Approve? && w.i + 1 == i) && Held(d.nodes, i, ids)
    ensures Held(d'.nodes, i, ids)
  {
    if w.Reject? {
      assert Open(d.nodes, w.i);
      assert w.target == i ==> ByAgent(d.nodes[i]);
    }
  }

  lemma HeldNext(d: Db, w: Write, d': Db, ids: set<Id>)
    requires Linear(d.nodes) && Step(d, w, d') && w.Approve? && w.i + 1 < |d.nodes|
    ensures Held(d'.nodes, w.i + 1, ids)
  {
    assert Open(d.nodes, w.i) && !Open(d.nodes, w.i + 1);
  }

  /** While the task stays active, no step but completing by hand reserves the node next in line for
      anybody outside ids. */
  lemma ReservationsHeldStep(d: Db, w: Write, d': Db, agents: Agents, ids: set<Id>)
    requires Linear(d.nodes) && WorkedBy(d.nodes, ids) && CountsNatural(d.nodes) && agents.claimants <= ids
    requires ReservationsHeld(d.nodes, ids)
    requires Step(d, w, d') && ByWork(w) && Served(d, w, agents) && d'.status == Active
    ensures ReservationsHeld(d'.nodes, ids)
  {
    forall i | 0 <= i < |d'.nodes|
      ensures Held(d'.nodes, i, ids)
    {
      if w.Approve? && w.i + 1 == i {
        HeldNext(d, w, d', ids);
      } else if PrefixCompleted(d'.nodes, i) {
        if i > 0 {
          PrefixShrinks(d, w, d', i);
        }
        HeldRow(d, w, d', i, agents, ids);
      }
    }
  }
}
