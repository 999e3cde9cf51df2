/** How far apart the tasks of one scheduled template are: exactly when they keep the interval, and
    what overlapping or slow processings do to it. */
module TriggerSpacing {
  import opened Types
  import opened Triggers

  // ----- spacing, one processing at a time

  ghost predicate OneAtATime(ss: seq<Sys>, es: seq<Event>, interval: int) {
    && Run(ss, es) && interval > 0
    && forall k :: 0 <= k < |es| ==> Fits(ss[k], es[k], interval, true)
  }

  /** At most one processing, of the due time that is still current. */
  ghost predicate SoleProc(s: Sys) {
    && (forall p, p' :: p in s.procs && p' in s.procs ==> p == p')
    && (forall p :: p in s.procs ==>
          && s.data.next == Some(s.procs[p].due) && s.procs[p].due <= s.procs[p].now <= s.now
          && (!s.procs[p].stage.Checking? && !s.procs[p].stage.Inserting? ==> Slot(s.procs[p].due) in s.data.runs))
  }

  /** A task belongs to the slot that is still due, or the next due time is an interval after it. */
  ghost predicate Behind(s: Sys, t: Task, interval: int) {
    && t.scheduled <= t.created <= s.now && s.data.next.Some?
    && (s.data.next.value >= t.scheduled + interval * MINUTE
        || (t.slot == Slot(s.data.next.value) && forall p :: p in s.procs ==> t.scheduled <= s.procs[p].now))
  }

  predicate Apart(t: Task, u: Task, interval: int) {
    && u.scheduled >= t.scheduled + interval * MINUTE
    && u.created >= t.scheduled + interval * MINUTE
  }

  ghost predicate Spaced(s: Sys, interval: int) {
    && SoleProc(s)
    && (forall i :: 0 <= i < |s.data.tasks| ==> Behind(s, s.data.tasks[i], interval))
    && (forall i, j :: 0 <= i < j < |s.data.tasks| ==> Apart(s.data.tasks[i], s.data.tasks[j], interval))
  }

  /** Successive due times never share a slot key. */
  lemma NextSlotIsNew(due: Time, now: Time, interval: int)
    requires interval > 0 && due <= now
    ensures Slot(now + interval * MINUTE) > Slot(due)
  {
  }

  lemma SoleProcStep(s: Sys, e: Event, s': Sys, interval: int)
    requires SoleProc(s) && OncePerSlot(s) && Next(s, e, s') && Fits(s, e, interval, true)
    ensures SoleProc(s')
  {
  }

  lemma BehindStep(s: Sys, e: Event, s': Sys, interval: int, t: Task)
    requires SoleProc(s) && Behind(s, t, interval) && Next(s, e, s') && Fits(s, e, interval, true) && interval > 0
    ensures Behind(s', t, interval)
  {
  }

  /** A new task comes an interval after every earlier one: its own slot has none yet. */
  lemma NewTaskApart(s: Sys, p: nat, interval: int, i: nat)
    requires Spaced(s, interval) && OncePerSlot(s) && At(s, p, Creating) && i < |s.data.tasks|
    ensures Apart(s.data.tasks[i], Task(Slot(s.procs[p].due), s.procs[p].now, s.now), interval)
  {
    assert CreatingFor(s, p, Slot(s.procs[p].due));
    assert Behind(s, s.data.tasks[i], interval);
  }

  lemma SpacedStep(s: Sys, e: Event, s': Sys, interval: int)
    requires Spaced(s, interval) && OncePerSlot(s) && Next(s, e, s') && Fits(s, e, interval, true) && interval > 0
    ensures Spaced(s', interval)
  {
    SoleProcStep(s, e, s', interval);
    var tasks, n := s'.data.tasks, |s.data.tasks|;
    forall i | 0 <= i < |tasks|
      ensures Behind(s', tasks[i], interval)
    {
      if i < n {
        BehindStep(s, e, s', interval, tasks[i]);
      }
    }
    forall i, j | 0 <= i < j < |tasks|
      ensures Apart(tasks[i], tasks[j], interval)
    {
      if j < n {
        assert Apart(s.data.tasks[i], s.data.tasks[j], interval);
      } else {
        NewTaskApart(s, e.p, interval, i);
      }
    }
  }

  lemma {:induction false} SpacedRun(ss: seq<Sys>, es: seq<Event>, k: nat, interval: int)
    requires OneAtATime(ss, es, interval) && k < |ss|
    ensures Spaced(ss[k], interval)
  {
    if k > 0 {
      SpacedRun(ss, es, k - 1, interval);
      OncePerSlotRun(ss, es, k - 1);
      assert Next(ss[k - 1], es[k - 1], ss[k]);
      SpacedStep(ss[k - 1], es[k - 1], ss[k], interval);
    }
  }

  /** With an unchanged interval and one processing at a time, crashes included, the tasks of a
      template are scheduled at least one interval apart, and none is created sooner than an interval
      after the previous one was scheduled. */
  lemma TasksAreSpaced(ss: seq<Sys>, es: seq<Event>, k: nat, interval: int, i: nat, j: nat)
    requires OneAtATime(ss, es, interval) && k < |ss| && i < j < |ss[k].data.tasks|
    ensures ss[k].data.tasks[j].scheduled - ss[k].data.tasks[i].scheduled >= interval * MINUTE
    ensures ss[k].data.tasks[j].created - ss[k].data.tasks[i].scheduled >= interval * MINUTE
  {
    SpacedRun(ss, es, k, interval);
    assert Apart(ss[k].data.tasks[i], ss[k].data.tasks[j], interval);
  }

  /** All recorded slots lie before the due one. */
  ghost predicate AllPast(d: Data) {
    d.next.Some? && forall slot :: slot in d.runs ==> slot < Slot(d.next.value)
  }

  ghost predicate NonePending(d: Data) {
    forall slot :: slot in d.runs ==> d.next.Some? && slot <= Slot(d.next.value)
  }

  lemma AllPastStep(s: Sys, e: Event, s': Sys, interval: int)
    requires SoleProc(s) && OncePerSlot(s) && NonePending(s.data) && interval > 0
    requires Next(s, e, s') && Fits(s, e, interval, true)
    ensures NonePending(s'.data)
    ensures e.Advance? || (AllPast(s.data) && !e.Insert?) ==> AllPast(s'.data)
  {
  }

  lemma {:induction false} NonePendingRun(ss: seq<Sys>, es: seq<Event>, k: nat, interval: int)
    requires OneAtATime(ss, es, interval) && k < |ss|
    ensures NonePending(ss[k].data)
  {
    if k > 0 {
      NonePendingRun(ss, es, k - 1, interval);
      SpacedRun(ss, es, k - 1, interval);
      OncePerSlotRun(ss, es, k - 1);
      assert Next(ss[k - 1], es[k - 1], ss[k]);
      AllPastStep(ss[k - 1], es[k - 1], ss[k], interval);
    }
  }

  lemma {:induction false} AllPastRun(ss: seq<Sys>, es: seq<Event>, a: nat, k: nat, interval: int)
    requires OneAtATime(ss, es, interval) && a < k < |ss| && es[a].Advance?
    requires forall m :: a < m < k ==> !es[m].Insert?
    ensures AllPast(ss[k].data)
  {
    if k > a + 1 {
      AllPastRun(ss, es, a, k - 1, interval);
    }
    NonePendingRun(ss, es, k - 1, interval);
    SpacedRun(ss, es, k - 1, interval);
    OncePerSlotRun(ss, es, k - 1);
    assert Next(ss[k - 1], es[k - 1], ss[k]);
    AllPastStep(ss[k - 1], es[k - 1], ss[k], interval);
  }

  /** Rounding due times to seconds never suppresses a task: once a processing has moved the schedule
      on, the next one to check finds its slot unused. */
  lemma NextSlotIsUnused(ss: seq<Sys>, es: seq<Event>, a: nat, k: nat, p: nat, interval: int)
    requires OneAtATime(ss, es, interval) && a < k < |ss| && es[a].Advance? && At(ss[k], p, Checking)
    requires forall m :: a < m < k ==> !es[m].Insert?
    ensures Slot(ss[k].procs[p].due) !in ss[k].data.runs
  {
    AllPastRun(ss, es, a, k, interval);
    SpacedRun(ss, es, k, interval);
  }

  // ----- exactly when a template keeps its distance

  /** Whatever was created up to now was created and scheduled in the past, in every run. */
  lemma {:induction false} TasksArePast(ss: seq<Sys>, es: seq<Event>, k: nat)
    requires Run(ss, es) && k < |ss|
    ensures forall p :: p in ss[k].procs ==> ss[k].procs[p].due <= ss[k].procs[p].now <= ss[k].now
    ensures forall i :: 0 <= i < |ss[k].data.tasks| ==>
      ss[k].data.tasks[i].scheduled <= ss[k].data.tasks[i].created <= ss[k].now
  {
    if k > 0 {
      TasksArePast(ss, es, k - 1);
      assert Next(ss[k - 1], es[k - 1], ss[k]);
    }
  }

  /** What decides between two processings whether t stays an interval away from the next task: the due
      slot is used up, or the earliest possible processing is late enough. */
  predicate Distant(d: Data, now: Time, t: Task, interval: int) {
    && d.next.Some?
    && (|| Slot(d.next.value) in d.runs
        || d.next.value >= t.scheduled + interval * MINUTE
        || now >= t.scheduled + interval * MINUTE)
  }

  /** The same while a processing may be under way. */
  ghost predicate KeepsDistance(s: Sys, t: Task, n: nat, interval: int) {
    && Distant(s.data, s.now, t, interval) && t.scheduled <= s.now && n <= |s.data.tasks|
    && (forall p, p' :: p in s.procs && p' in s.procs ==> p == p')
    && (forall p :: p in s.procs ==>
          var q := s.procs[p];
          && s.data.next == Some(q.due) && q.due <= q.now <= s.now && t.scheduled <= q.now
          && (q.stage.Creating? ==> Slot(q.due) in s.data.runs)
          && (q.now >= t.scheduled + interval * MINUTE || q.stage.Completing? || q.stage.Advancing?
              || (Slot(q.due) in s.data.runs && !q.stage.Creating?)))
    && (forall j :: n <= j < |s.data.tasks| ==> Apart(t, s.data.tasks[j], interval))
  }

  lemma KeepsDistanceStep(s: Sys, e: Event, s': Sys, t: Task, n: nat, interval: int)
    requires KeepsDistance(s, t, n, interval) && Next(s, e, s') && Fits(s, e, interval, true) && interval > 0
    ensures KeepsDistance(s', t, n, interval)
  {
  }

  lemma {:induction false} KeepsDistanceRun(ss: seq<Sys>, es: seq<Event>, k: nat, t: Task, n: nat, interval: int)
    requires Chain(ss, es, interval, true) && interval > 0 && k < |ss| && KeepsDistance(ss[0], t, n, interval)
    ensures KeepsDistance(ss[k], t, n, interval)
  {
    if k > 0 {
      KeepsDistanceRun(ss, es, k - 1, t, n, interval);
      KeepsDistanceStep(ss[k - 1], es[k - 1], ss[k], t, n, interval);
    }
  }

  /** A state from which every continuation, one processing at a time, stays an interval after all
      existing tasks. */
  ghost predicate StaysApart(s: Sys, interval: int) {
    forall es, end, i, j ::
      Leads(s, es, end, interval, true) && 0 <= i < |s.data.tasks| <= j < |end.data.tasks| ==>
        Apart(s.data.tasks[i], end.data.tasks[j], interval)
  }

  lemma TooClose(s: Sys, interval: int, t: Task) returns (es: seq<Event>, end: Sys)
    requires interval > 0 && s.procs == map[] && s.data.next.Some? && !Distant(s.data, s.now, t, interval)
    ensures Leads(s, es, end, interval, true)
    ensures |end.data.tasks| > |s.data.tasks| && !Apart(t, end.data.tasks[|s.data.tasks|], interval)
  {
    var due := if s.data.next.value > s.now then s.data.next.value else s.now;
    var s1 := s.(now := due);
    Stay(s, interval, true);
    Extend(s, [], s, Tick(due), s1, interval, true);
    var work := ProcessedInSteps(s1, 0, interval, true);
    end := s1.(data := Processed(s1.data, due, interval, true));
    Join(s, [] + [Tick(due)], s1, work, end, interval, true);
    es := [] + [Tick(due)] + work;
  }

  /** Between processings, after whatever overlaps and crashes there were: all further tasks keep an
      interval's distance from all existing ones if and only if the due slot is used up, or the due
      time or the clock is already an interval after every existing task. */
  lemma StaysApartExactly(s: Sys, interval: int)
    requires interval > 0 && s.procs == map[] && s.data.next.Some?
    requires forall i :: 0 <= i < |s.data.tasks| ==> s.data.tasks[i].scheduled <= s.now
    ensures StaysApart(s, interval) <==>
      forall i :: 0 <= i < |s.data.tasks| ==> Distant(s.data, s.now, s.data.tasks[i], interval)
  {
    if i :| 0 <= i < |s.data.tasks| && !Distant(s.data, s.now, s.data.tasks[i], interval) {
      var es, end := TooClose(s, interval, s.data.tasks[i]);
    } else {
      forall es, end, i, j | Leads(s, es, end, interval, true) && 0 <= i < |s.data.tasks| <= j < |end.data.tasks|
        ensures Apart(s.data.tasks[i], end.data.tasks[j], interval)
      {
        var ss :| Chain(ss, es, interval, true) && ss[0] == s && ss[|es|] == end;
        assert KeepsDistance(s, s.data.tasks[i], |s.data.tasks|, interval);
        KeepsDistanceRun(ss, es, |es|, s.data.tasks[i], |s.data.tasks|, interval);
      }
    }
  }

  // ----- what spacing does not promise

  function Fresh(due: Time): Sys {
    Sys(due, Data(Some(due), map[], []), map[])
  }

  /** Overlapping processings can create two tasks less than an interval apart: the one that read the
      clock first but checks for the duplicate last moves the schedule back to its own clock. */
  lemma OverlapBreaksSpacing(due: Time, interval: int) returns (es: seq<Event>, end: Sys)
    requires interval > 0
    ensures Leads(Fresh(due), es, end, interval, false)
    ensures |end.data.tasks| == 2 && end.data.tasks[1].scheduled - end.data.tasks[0].scheduled < interval * MINUTE
  {
    var before, s := MovedBack(due, interval);
    var t := s.data.tasks[0];
    NextSlotIsNew(due, due, interval);
    assert MINUTE <= interval * MINUTE;
    var work;
    work, end := OneMoreTask(s, interval);
    Join(Fresh(due), before, s, work, end, interval, false);
    es := before + work;
  }

  /** Two processings of the same due time; the one with the earlier clock finishes last. */
  lemma MovedBack(due: Time, interval: int) returns (es: seq<Event>, s: Sys)
    requires interval > 0
    ensures Leads(Fresh(due), es, s, interval, false)
    ensures s == Sys(due + SECOND, Data(Some(due + interval * MINUTE), map[Slot(due) := RunCompleted],
                                        [Task(Slot(due), due + SECOND, due + SECOND)]), map[])
  {
    var s0, late := Fresh(due), due + SECOND;
    var before, s3 := BothBegun(due, interval);
    // The second processing runs through, then the first finds the duplicate.
    var done := Data(Some(late + interval * MINUTE), map[Slot(due) := RunCompleted], [Task(Slot(due), late, late)]);
    var s4 := Sys(late, done, map[0 := Proc(due, due, Checking)]);
    var work := WorksThrough(s3, 1, interval, true, false);
    assert s3.procs - {1} == s4.procs;
    assert WorkedThrough(s3.data, s3.procs[1], late, interval, true) == done;
    Join(s0, before, s3, work, s4, interval, false);
    s := Sys(late, done.(next := Some(due + interval * MINUTE)), map[]);
    var rest := WorksThrough(s4, 0, interval, true, false);
    assert s4.procs - {0} == s.procs;
    assert WorkedThrough(s4.data, s4.procs[0], late, interval, true) == s.data;
    Join(s0, before + work, s4, rest, s, interval, false);
    es := before + work + rest;
  }

  lemma BothBegun(due: Time, interval: int) returns (es: seq<Event>, s: Sys)
    ensures Leads(Fresh(due), es, s, interval, false)
    ensures s == Sys(due + SECOND, Fresh(due).data,
                     map[0 := Proc(due, due, Checking), 1 := Proc(due, due + SECOND, Checking)])
  {
    var s0, late := Fresh(due), due + SECOND;
    var s1 := s0.(procs := map[0 := Proc(due, due, Checking)]);
    var s2 := s1.(now := late);
    s := s2.(procs := map[0 := Proc(due, due, Checking), 1 := Proc(due, late, Checking)]);
    Stay(s0, interval, false);
    Extend(s0, [], s0, Begin(0), s1, interval, false);
    Extend(s0, [] + [Begin(0)], s1, Tick(late), s2, interval, false);
    Extend(s0, [] + [Begin(0)] + [Tick(late)], s2, Begin(1), s, interval, false);
    es := [] + [Begin(0)] + [Tick(late)] + [Begin(1)];
  }

  /** The next task, as soon as it is due. */
  lemma OneMoreTask(s: Sys, interval: int) returns (es: seq<Event>, end: Sys)
    requires interval > 0 && s.procs == map[] && s.data.next.Some? && s.now <= s.data.next.value
    requires Slot(s.data.next.value) !in s.data.runs
    ensures Leads(s, es, end, interval, false) && Leads(s, es, end, interval, true)
    ensures var due := s.data.next.value; end.data.tasks == s.data.tasks + [Task(Slot(due), due, due)]
  {
    var due := s.data.next.value;
    var s1 := s.(now := due);
    Stay(s, interval, true);
    Extend(s, [], s, Tick(due), s1, interval, true);
    var work := ProcessedInSteps(s1, 0, interval, true);
    end := s1.(data := Processed(s1.data, due, interval, true));
    Join(s, [] + [Tick(due)], s1, work, end, interval, true);
    es := [] + [Tick(due)] + work;
    AloneOrNot(s, es, end, interval);
  }

  lemma AloneOrNot(s: Sys, es: seq<Event>, s': Sys, interval: int)
    requires Leads(s, es, s', interval, true)
    ensures Leads(s, es, s', interval, false)
  {
    var ss :| Chain(ss, es, interval, true) && ss[0] == s && ss[|es|] == s';
    assert Chain(ss, es, interval, false);
  }

  /** A processing that needs a whole interval between inserting its run and creating the task. */
  lemma SlowCreation(due: Time, interval: int) returns (es: seq<Event>, s: Sys)
    requires interval > 0
    ensures Leads(Fresh(due), es, s, interval, true)
    ensures s == Sys(due + interval * MINUTE, Data(Some(due), map[Slot(due) := Started], []),
                     map[0 := Proc(due, due, Creating)])
  {
    var s0, again := Fresh(due), due + interval * MINUTE;
    var s1 := s0.(procs := map[0 := Proc(due, due, Checking)]);
    var s3 := Sys(due, Data(Some(due), map[Slot(due) := Started], []), map[0 := Proc(due, due, Creating)]);
    s := s3.(now := again);
    Stay(s0, interval, true);
    Extend(s0, [], s0, Begin(0), s1, interval, true);
    ToCreation(s0, [] + [Begin(0)], s1, 0, interval, true);
    assert s1.procs[0 := Proc(due, due, Creating)] == s3.procs;
    assert again >= due;
    es := [] + [Begin(0)] + [Check(0)] + [Insert(0)];
    Extend(s0, es, s3, Tick(again), s, interval, true);
    es := es + [Tick(again)];
  }

  /** Even one at a time only the scheduled times keep the distance: a task whose creation takes a whole
      interval is created at the same moment as the next one. */
  lemma CreationsMayCoincide(due: Time, interval: int) returns (es: seq<Event>, end: Sys)
    requires interval > 0
    ensures Leads(Fresh(due), es, end, interval, true)
    ensures |end.data.tasks| == 2 && end.data.tasks[1].created == end.data.tasks[0].created
  {
    var again, slot := due + interval * MINUTE, Slot(due);
    var before, s4 := SlowCreation(due, interval);
    before := FromCreation(Fresh(due), before, s4, 0, interval, true);
    var s := Sys(again, Data(Some(again), map[slot := RunCompleted], [Task(slot, due, again)]), map[]);
    assert s4.procs - {0} == map[] && s4.data.runs[slot := RunCompleted] == s.data.runs;
    NextSlotIsNew(due, due, interval);
    var work;
    work, end := OneMoreTask(s, interval);
    Join(Fresh(due), before, s, work, end, interval, true);
    es := before + work;
  }
}
