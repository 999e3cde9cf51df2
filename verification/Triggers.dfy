/** Scheduled workflow triggers of one template: deduplication by slot key, under concurrent
    processing and crashes between any two steps. Times are microseconds. */
module Triggers {
  import opened Types

  const SECOND: Time := 1000000
  const MINUTE: Time := 60 * SECOND

  datatype RunStatus = Started | RunCompleted | RunFailed

  /** scheduled is the moment the processing read its clock, created the moment of the insert. */
  datatype Task = Task(slot: int, scheduled: Time, created: Time)

  /** The template's next_run_at, its rows in workflow_trigger_runs by external key, its tasks. */
  datatype Data = Data(next: Option<Time>, runs: map<int, RunStatus>, tasks: seq<Task>)

  datatype Stage = Checking | Inserting | Creating | Completing | Advancing

  /** One processing of the template: the due time it read, its clock, and what it does next. */
  datatype Proc = Proc(due: Time, now: Time, stage: Stage)

  datatype Sys = Sys(now: Time, data: Data, procs: map<nat, Proc>)

  /** The external key's number: the due time in whole seconds. */
  function Slot(due: Time): int {
    due / SECOND
  }

  datatype Event =
    | Tick(to: Time)
    | Begin(p: nat)
    | Check(p: nat)
    | Insert(p: nat)
    | Create(p: nat, ok: bool)
    | Complete(p: nat)
    | Advance(p: nat, interval: int)
    | Crash(p: nat)

  /** One step on the tables: the new tables, and the next stage or None when processing ends. */
  function Act(d: Data, q: Proc, now: Time, interval: int, ok: bool): (Data, Option<Stage>) {
    var slot := Slot(q.due);
    match q.stage
    case Checking => (d, Some(if slot in d.runs then Advancing else Inserting))
    case Inserting =>
      if slot in d.runs then (d, None)  // the unique constraint
      else (d.(runs := d.runs[slot := Started]), Some(Creating))
    case Creating =>
      if ok then (d.(tasks := d.tasks + [Task(slot, q.now, now)]), Some(Completing))
      else (d.(runs := d.runs[slot := RunFailed]), None)
    case Completing => (d.(runs := d.runs[slot := RunCompleted]), Some(Advancing))
    case Advancing => (d.(next := Some(q.now + interval * MINUTE)), None)
  }

  function Acted(s: Sys, p: nat, interval: int, ok: bool): Sys
    requires p in s.procs
  {
    var (d, stage) := Act(s.data, s.procs[p], s.now, interval, ok);
    Sys(s.now, d, if stage.Some? then s.procs[p := s.procs[p].(stage := stage.value)] else s.procs - {p})
  }

  predicate At(s: Sys, p: nat, stage: Stage) {
    p in s.procs && s.procs[p].stage == stage
  }

  predicate Next(s: Sys, e: Event, s': Sys) {
    match e
    case Tick(to) => s.now <= to && s' == s.(now := to)
    case Begin(p) =>
      p !in s.procs && s.data.next.Some? && s.data.next.value <= s.now &&
      s' == s.(procs := s.procs[p := Proc(s.data.next.value, s.now, Checking)])
    case Check(p) => At(s, p, Checking) && s' == Acted(s, p, 0, true)
    case Insert(p) => At(s, p, Inserting) && s' == Acted(s, p, 0, true)
    case Create(p, ok) => At(s, p, Creating) && s' == Acted(s, p, 0, ok)
    case Complete(p) => At(s, p, Completing) && s' == Acted(s, p, 0, true)
    case Advance(p, interval) => At(s, p, Advancing) && interval > 0 && s' == Acted(s, p, interval, true)
    case Crash(p) => s' == s.(procs := s.procs - {p})
  }

  ghost predicate Run(ss: seq<Sys>, es: seq<Event>) {
    && |ss| == |es| + 1
    && ss[0].procs == map[] && ss[0].data.runs == map[] && ss[0].data.tasks == []
    && forall k :: 0 <= k < |es| ==> Next(ss[k], es[k], ss[k + 1])
  }

  // ----- one uninterrupted processing, on the tables themselves

  class Tables {
    var next: Option<Time>
    var runs: map<int, RunStatus>
    var tasks: seq<Task>

    ghost function View(): Data
      reads this
    {
      Data(next, runs, tasks)
    }

    /** createTaskFromTrigger; ok says whether creating the task succeeds. None is an error. */
    method CreateTaskFromTrigger(slot: int, now: Time, ok: bool) returns (created: Option<bool>)
      modifies this
      ensures next == old(next)
      ensures created == (if slot in old(runs) then Some(false) else if ok then Some(true) else None)
      ensures runs == if slot in old(runs) then old(runs) else old(runs)[slot := if ok then RunCompleted else RunFailed]
      ensures tasks == if created == Some(true) then old(tasks) + [Task(slot, now, now)] else old(tasks)
    {
      if slot in runs {
        return Some(false);
      }
      runs := runs[slot := Started];
      if !ok {
        runs := runs[slot := RunFailed];
        return None;
      }
      tasks := tasks + [Task(slot, now, now)];
      runs := runs[slot := RunCompleted];
      return Some(true);
    }

    method ProcessScheduleTemplate(now: Time, interval: int, ok: bool) returns (done: bool)
      modifies this
      ensures done <==> interval > 0 && (ok || DueSlot(old(next)) in old(runs))
      ensures View() == Processed(old(View()), now, interval, ok)
      ensures next == if done then Some(now + interval * 60000000) else old(next)
      ensures |tasks| > |old(tasks)| ==>
        tasks == old(tasks) + [Task(if old(next).Some? then old(next).value / 1000000 else 0, now, now)]
    {
      if interval <= 0 {
        return false;
      }
      var slot := 0;
      if next.Some? {
        slot := Slot(next.value);
      }
      var created := CreateTaskFromTrigger(slot, now, ok);
      if created.None? {
        return false;
      }
      next := Some(now + interval * MINUTE);
      return true;
    }
  }

  function DueSlot(next: Option<Time>): int {
    if next.Some? then Slot(next.value) else 0
  }

  function Processed(d: Data, now: Time, interval: int, ok: bool): Data {
    var slot := DueSlot(d.next);
    var next := Some(now + interval * MINUTE);
    if interval <= 0 then d
    else if slot in d.runs then d.(next := next)
    else if ok then Data(next, d.runs[slot := RunCompleted], d.tasks + [Task(slot, now, now)])
    else d.(runs := d.runs[slot := RunFailed])
  }

  /** The interval is the configured one; alone says that no processing begins beside another one. */
  predicate Fits(s: Sys, e: Event, interval: int, alone: bool) {
    (e.Advance? ==> e.interval == interval) && (alone && e.Begin? ==> s.procs == map[])
  }

  ghost predicate Chain(ss: seq<Sys>, es: seq<Event>, interval: int, alone: bool) {
    |ss| == |es| + 1 &&
    forall k :: 0 <= k < |es| ==> Next(ss[k], es[k], ss[k + 1]) && Fits(ss[k], es[k], interval, alone)
  }

  /** A finite run, given by its first and last state. */
  ghost predicate Leads(s: Sys, es: seq<Event>, s': Sys, interval: int, alone: bool) {
    exists ss: seq<Sys> :: Chain(ss, es, interval, alone) && ss[0] == s && ss[|es|] == s'
  }

  lemma Stay(s: Sys, interval: int, alone: bool)
    ensures Leads(s, [], s, interval, alone)
  {
    assert Chain([s], [], interval, alone);
  }

  lemma Extend(s: Sys, es: seq<Event>, s': Sys, e: Event, s'': Sys, interval: int, alone: bool)
    requires Leads(s, es, s', interval, alone) && Next(s', e, s'') && Fits(s', e, interval, alone)
    ensures Leads(s, es + [e], s'', interval, alone)
  {
    var ss :| Chain(ss, es, interval, alone) && ss[0] == s && ss[|es|] == s';
    assert Chain(ss + [s''], es + [e], interval, alone);
  }

  lemma Join(s: Sys, es: seq<Event>, s': Sys, es': seq<Event>, s'': Sys, interval: int, alone: bool)
    requires Leads(s, es, s', interval, alone) && Leads(s', es', s'', interval, alone)
    ensures Leads(s, es + es', s'', interval, alone)
  {
    var ss :| Chain(ss, es, interval, alone) && ss[0] == s && ss[|es|] == s';
    var ss' :| Chain(ss', es', interval, alone) && ss'[0] == s' && ss'[|es'|] == s'';
    assert Chain(ss[..|es|] + ss', es + es', interval, alone);
  }

  /** The tables after processing q ran from its duplicate check to its end at time now. */
  function WorkedThrough(d: Data, q: Proc, now: Time, interval: int, ok: bool): Data {
    var slot, next := Slot(q.due), Some(q.now + interval * MINUTE);
    if slot in d.runs then d.(next := next)
    else if ok then Data(next, d.runs[slot := RunCompleted], d.tasks + [Task(slot, q.now, now)])
    else d.(runs := d.runs[slot := RunFailed])
  }

  /** The duplicate check and the insert of processing p, for an unused slot. */
  lemma ToCreation(s0: Sys, before: seq<Event>, s: Sys, p: nat, interval: int, alone: bool)
    requires Leads(s0, before, s, interval, alone) && At(s, p, Checking)
    requires Slot(s.procs[p].due) !in s.data.runs
    ensures var q, d := s.procs[p], s.data;
      var started := d.(runs := d.runs[Slot(q.due) := Started]);
      Leads(s0, before + [Check(p)] + [Insert(p)], Sys(s.now, started, s.procs[p := q.(stage := Creating)]),
            interval, alone)
  {
    var q, d := s.procs[p], s.data;
    var s1 := s.(procs := s.procs[p := q.(stage := Inserting)]);
    var s2 := Sys(s.now, d.(runs := d.runs[Slot(q.due) := Started]), s.procs[p := q.(stage := Creating)]);
    assert s1.procs[p := q.(stage := Creating)] == s2.procs;
    Extend(s0, before, s, Check(p), s1, interval, alone);
    Extend(s0, before + [Check(p)], s1, Insert(p), s2, interval, alone);
  }

  lemma Duplicate(s: Sys, p: nat, interval: int, alone: bool) returns (es: seq<Event>)
    requires At(s, p, Checking) && Slot(s.procs[p].due) in s.data.runs && interval > 0
    ensures Leads(s, es, Sys(s.now, s.data.(next := Some(s.procs[p].now + interval * MINUTE)), s.procs - {p}),
                  interval, alone)
  {
    var q := s.procs[p];
    var s1 := s.(procs := s.procs[p := q.(stage := Advancing)]);
    var end := Sys(s.now, s.data.(next := Some(q.now + interval * MINUTE)), s.procs - {p});
    assert s1.procs - {p} == end.procs;
    Stay(s, interval, alone);
    Extend(s, [], s, Check(p), s1, interval, alone);
    Extend(s, [] + [Check(p)], s1, Advance(p, interval), end, interval, alone);
    es := [] + [Check(p)] + [Advance(p, interval)];
  }

  /** The steps of processing p from its duplicate check to its end, whatever else is under way. */
  lemma WorksThrough(s: Sys, p: nat, interval: int, ok: bool, alone: bool) returns (es: seq<Event>)
    requires At(s, p, Checking) && interval > 0
    ensures Leads(s, es, Sys(s.now, WorkedThrough(s.data, s.procs[p], s.now, interval, ok), s.procs - {p}),
                  interval, alone)
  {
    var q, d, slot := s.procs[p], s.data, Slot(s.procs[p].due);
    if slot in d.runs {
      es := Duplicate(s, p, interval, alone);
    } else {
      var started := d.(runs := d.runs[slot := Started]);
      var s2 := Sys(s.now, started, s.procs[p := q.(stage := Creating)]);
      assert s2.procs - {p} == s.procs - {p};
      Stay(s, interval, alone);
      ToCreation(s, [], s, p, interval, alone);
      es := [] + [Check(p)] + [Insert(p)];
      if ok {
        es := FromCreation(s, es, s2, p, interval, alone);
        assert started.runs[slot := RunCompleted] == d.runs[slot := RunCompleted];
      } else {
        assert started.runs[slot := RunFailed] == d.runs[slot := RunFailed];
        var end := Sys(s.now, d.(runs := d.runs[slot := RunFailed]), s.procs - {p});
        Extend(s, es, s2, Create(p, false), end, interval, alone);
        es := es + [Create(p, false)];
      }
    }
  }

  /** The tables once processing q has created its task and marked its run. */
  function WithTask(d: Data, q: Proc, now: Time): Data {
    Data(d.next, d.runs[Slot(q.due) := RunCompleted], d.tasks + [Task(Slot(q.due), q.now, now)])
  }

  lemma ToAdvancing(s0: Sys, before: seq<Event>, s: Sys, p: nat, interval: int, alone: bool)
    requires Leads(s0, before, s, interval, alone) && At(s, p, Creating)
    ensures var q := s.procs[p];
      var end := Sys(s.now, WithTask(s.data, q, s.now), s.procs[p := q.(stage := Advancing)]);
      Leads(s0, before + [Create(p, true)] + [Complete(p)], end, interval, alone)
  {
    var q, d := s.procs[p], s.data;
    var d1 := d.(tasks := d.tasks + [Task(Slot(q.due), q.now, s.now)]);
    var s1 := Sys(s.now, d1, s.procs[p := q.(stage := Completing)]);
    var s2 := Sys(s.now, WithTask(d, q, s.now), s.procs[p := q.(stage := Advancing)]);
    assert s1.procs[p := q.(stage := Advancing)] == s2.procs;
    Extend(s0, before, s, Create(p, true), s1, interval, alone);
    Extend(s0, before + [Create(p, true)], s1, Complete(p), s2, interval, alone);
  }

  lemma FromCreation(s0: Sys, before: seq<Event>, s: Sys, p: nat, interval: int, alone: bool) returns (es: seq<Event>)
    requires Leads(s0, before, s, interval, alone) && At(s, p, Creating) && interval > 0
    ensures var q := s.procs[p];
      var d := WithTask(s.data, q, s.now).(next := Some(q.now + interval * MINUTE));
      Leads(s0, es, Sys(s.now, d, s.procs - {p}), interval, alone)
  {
    var q := s.procs[p];
    var d := WithTask(s.data, q, s.now);
    var s2 := Sys(s.now, d, s.procs[p := q.(stage := Advancing)]);
    assert s2.procs - {p} == s.procs - {p};
    ToAdvancing(s0, before, s, p, interval, alone);
    es := before + [Create(p, true)] + [Complete(p)];
    var end := Sys(s.now, d.(next := Some(q.now + interval * MINUTE)), s.procs - {p});
    Extend(s0, es, s2, Advance(p, interval), end, interval, alone);
    es := es + [Advance(p, interval)];
  }

  /** An uninterrupted processing of a due template is one of the interleaved ones. */
  lemma ProcessedInSteps(s: Sys, p: nat, interval: int, ok: bool) returns (es: seq<Event>)
    requires s.procs == map[] && s.data.next.Some? && s.data.next.value <= s.now && interval > 0
    ensures Leads(s, es, s.(data := Processed(s.data, s.now, interval, ok)), interval, true)
  {
    var s1 := s.(procs := map[p := Proc(s.data.next.value, s.now, Checking)]);
    Stay(s, interval, true);
    Extend(s, [], s, Begin(p), s1, interval, true);
    var work := WorksThrough(s1, p, interval, ok, true);
    assert s1.procs - {p} == s.procs;
    Join(s, [] + [Begin(p)], s1, work, s.(data := Processed(s.data, s.now, interval, ok)), interval, true);
    es := [] + [Begin(p)] + work;
  }

  // ----- at most one task per slot

  predicate TaskFor(d: Data, slot: int) {
    exists i :: 0 <= i < |d.tasks| && d.tasks[i].slot == slot
  }

  predicate CreatingFor(s: Sys, p: nat, slot: int) {
    At(s, p, Creating) && Slot(s.procs[p].due) == slot
  }

  /** Whoever is about to create a task inserted the run of its slot, alone, and no task exists yet. */
  ghost predicate OncePerSlot(s: Sys) {
    && (forall i :: 0 <= i < |s.data.tasks| ==> s.data.tasks[i].slot in s.data.runs)
    && (forall i, j :: 0 <= i < j < |s.data.tasks| ==> s.data.tasks[i].slot != s.data.tasks[j].slot)
    && (forall p, slot :: CreatingFor(s, p, slot) ==> slot in s.data.runs && !TaskFor(s.data, slot))
    && (forall p, p', slot :: CreatingFor(s, p, slot) && CreatingFor(s, p', slot) ==> p == p')
  }

  lemma CreatingBefore(s: Sys, e: Event, s': Sys, p: nat, slot: int)
    requires Next(s, e, s') && CreatingFor(s', p, slot) && !(e.Insert? && e.p == p)
    ensures CreatingFor(s, p, slot) && !(e.Create? && e.p == p)
  {
  }

  lemma OncePerSlotStep(s: Sys, e: Event, s': Sys)
    requires OncePerSlot(s) && Next(s, e, s')
    ensures OncePerSlot(s')
  {
    forall p, slot | CreatingFor(s', p, slot)
      ensures slot in s'.data.runs && !TaskFor(s'.data, slot)
    {
      if !(e.Insert? && e.p == p) {
        CreatingBefore(s, e, s', p, slot);
        assert e.Create? ==> CreatingFor(s, e.p, Slot(s.procs[e.p].due));
      }
    }
    forall p, p', slot | CreatingFor(s', p, slot) && CreatingFor(s', p', slot)
      ensures p == p'
    {
      if !(e.Insert? && e.p == p) {
        CreatingBefore(s, e, s', p, slot);
      }
      if !(e.Insert? && e.p == p') {
        CreatingBefore(s, e, s', p', slot);
      }
    }
    if e.Create? {
      assert CreatingFor(s, e.p, Slot(s.procs[e.p].due));
    }
  }

  lemma {:induction false} OncePerSlotRun(ss: seq<Sys>, es: seq<Event>, k: nat)
    requires Run(ss, es) && k < |ss|
    ensures OncePerSlot(ss[k])
  {
    if k > 0 {
      OncePerSlotRun(ss, es, k - 1);
      assert Next(ss[k - 1], es[k - 1], ss[k]);
      OncePerSlotStep(ss[k - 1], es[k - 1], ss[k]);
    }
  }

  /** However many processings overlap and wherever they crash, no slot ever has two tasks. */
  lemma AtMostOneTask(ss: seq<Sys>, es: seq<Event>, k: nat, i: nat, j: nat)
    requires Run(ss, es) && k < |ss| && i < |ss[k].data.tasks| && j < |ss[k].data.tasks|
    requires ss[k].data.tasks[i].slot == ss[k].data.tasks[j].slot
    ensures i == j
  {
    OncePerSlotRun(ss, es, k);
  }

  /** The slot has been used up: a run is recorded, nobody is creating its task, and there is none. */
  ghost predicate Spent(s: Sys, slot: int) {
    slot in s.data.runs && !TaskFor(s.data, slot) && forall p :: !CreatingFor(s, p, slot)
  }

  lemma SpentStep(s: Sys, e: Event, s': Sys, slot: int)
    requires Spent(s, slot) && Next(s, e, s')
    ensures Spent(s', slot)
  {
    forall p
      ensures !CreatingFor(s', p, slot)
    {
      if CreatingFor(s', p, slot) && !(e.Insert? && e.p == p) {
        CreatingBefore(s, e, s', p, slot);
      }
    }
    assert e.Create? ==> !CreatingFor(s, e.p, slot);
  }

  lemma {:induction false} SpentForGood(ss: seq<Sys>, es: seq<Event>, k: nat, m: nat, slot: int)
    requires Run(ss, es) && k <= m < |ss| && Spent(ss[k], slot)
    ensures Spent(ss[m], slot)
  {
    if k < m {
      SpentForGood(ss, es, k, m - 1, slot);
      assert Next(ss[m - 1], es[m - 1], ss[m]);
      SpentStep(ss[m - 1], es[m - 1], ss[m], slot);
    }
  }

  /** A slot is never retried: if creating the task failed, or the processing crashed between inserting
      the run and creating the task, the slot stays without a task for ever. */
  lemma NeverRetried(ss: seq<Sys>, es: seq<Event>, k: nat, m: nat, p: nat)
    requires Run(ss, es) && k < m < |ss| && At(ss[k], p, Creating)
    requires es[k] == Create(p, false) || es[k] == Crash(p)
    ensures !TaskFor(ss[m].data, Slot(ss[k].procs[p].due))
  {
    var slot := Slot(ss[k].procs[p].due);
    OncePerSlotRun(ss, es, k);
    assert Next(ss[k], es[k], ss[k + 1]);
    assert CreatingFor(ss[k], p, slot);
    var s' := ss[k + 1];
    forall q
      ensures !CreatingFor(s', q, slot)
    {
      if CreatingFor(s', q, slot) {
        CreatingBefore(ss[k], es[k], s', q, slot);
      }
    }
    SpentForGood(ss, es, k + 1, m, slot);
  }
}
