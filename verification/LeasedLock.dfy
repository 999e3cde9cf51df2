/** The scheduler's distributed lock: SETNX with a lease, the task body, then an unconditional DEL,
    by any number of workers that may stop at any moment. */
module LeasedLock {
  import opened Types

  type Name = string
  type Worker = nat  // one scheduling goroutine of one instance

  /** The lock key. The value the program stores is always "locked"; owner only says who set it. */
  datatype Lease = Lease(owner: Worker, expiry: Time)

  /** A worker inside WithLock, from the successful SETNX to the DEL. */
  datatype Body = Body(name: Name, until: Time)

  // ----- the two commands, on the shared keys

  function LeaseEnd(now: Time, interval: Time): Time {
    now + interval + 5
  }

  predicate Live(keys: map<Name, Lease>, now: Time, name: Name) {
    name in keys && now < keys[name].expiry
  }

  class Redis {
    var keys: map<Name, Lease>

    method SetNX(name: Name, p: Worker, now: Time, ttl: Time) returns (ok: bool)
      modifies this
      ensures ok <==> !Live(old(keys), now, name)
      ensures keys == if ok then old(keys)[name := Lease(p, now + ttl)] else old(keys)
    {
      ok := !(name in keys && now < keys[name].expiry);
      if ok {
        keys := keys[name := Lease(p, now + ttl)];
      }
    }

    method Del(name: Name)
      modifies this
      ensures name !in keys
      ensures forall n :: n != name ==> (n in keys <==> n in old(keys))
      ensures forall n :: n in keys ==> keys[n] == old(keys)[n]
    {
      keys := keys - {name};
    }

    /** WithLock up to the task body: what the caller does next, and the state it leaves. */
    method EnterWithLock(name: Name, p: Worker, now: Time, interval: Time, inside: map<Worker, Body>)
      returns (entered: map<Worker, Body>)
      requires p !in inside && interval > 0
      modifies this
      ensures Next(Sys(now, old(keys), inside), Acquire(p, name, interval), Sys(now, keys, entered))
      ensures p in entered <==> !(name in old(keys) && now < old(keys)[name].expiry)
      ensures p in entered ==> keys == old(keys)[name := Lease(p, now + interval + 5)]
    {
      var ok := SetNX(name, p, now, interval + 5);
      entered := if ok then inside[p := Body(name, now + interval + 5)] else inside;
    }
  }

  // ----- timed runs

  datatype Sys = Sys(now: Time, keys: map<Name, Lease>, inside: map<Worker, Body>)

  datatype Event =
    | Tick(to: Time)
    | Acquire(p: Worker, name: Name, interval: Time)
    | Finish(p: Worker)
    | Crash(p: Worker)

  predicate Next(s: Sys, e: Event, s': Sys) {
    match e
    case Tick(to) => s.now <= to && s' == s.(now := to)
    case Acquire(p, name, interval) =>
      p !in s.inside && interval > 0 &&
      if Live(s.keys, s.now, name) then s' == s
      else
        var until := LeaseEnd(s.now, interval);
        s' == s.(keys := s.keys[name := Lease(p, until)], inside := s.inside[p := Body(name, until)])
    case Finish(p) =>
      p in s.inside && s' == s.(keys := s.keys - {s.inside[p].name}, inside := s.inside - {p})
    case Crash(p) =>
      s' == s.(inside := s.inside - {p})
  }

  ghost predicate Run(ss: seq<Sys>, es: seq<Event>) {
    && |ss| == |es| + 1
    && ss[0].keys == map[] && ss[0].inside == map[]
    && forall k :: 0 <= k < |es| ==> Next(ss[k], es[k], ss[k + 1])
  }

  predicate Inside(s: Sys, p: Worker, name: Name) {
    p in s.inside && s.inside[p].name == name
  }

  /** No body of this task has outlived its lease. */
  ghost predicate Timely(s: Sys, name: Name) {
    forall p :: Inside(s, p, name) ==> s.now < s.inside[p].until
  }

  /** Everybody inside owns the key. */
  ghost predicate Owned(s: Sys, name: Name) {
    forall p :: Inside(s, p, name) ==> name in s.keys && s.keys[name] == Lease(p, s.inside[p].until)
  }

  lemma OwnedStep(s: Sys, e: Event, s': Sys, name: Name)
    requires Owned(s, name) && Timely(s, name) && Next(s, e, s')
    ensures Owned(s', name)
  {
  }

  /** As long as no body of the task has outlived its lease, whoever is inside owns the key. */
  lemma {:induction false} OwnedRun(ss: seq<Sys>, es: seq<Event>, k: nat, name: Name)
    requires Run(ss, es) && k < |ss| && forall m :: 0 <= m < k ==> Timely(ss[m], name)
    ensures Owned(ss[k], name)
  {
    if k > 0 {
      OwnedRun(ss, es, k - 1, name);
      OwnedStep(ss[k - 1], es[k - 1], ss[k], name);
    }
  }

  /** Mutual exclusion: over any number of workers, crashes and other tasks, two workers are only ever
      inside the same task if some body of that very task outlived its lease before. */
  lemma OverlapNeedsOverrun(ss: seq<Sys>, es: seq<Event>, k: nat, name: Name, p: Worker, q: Worker)
    requires Run(ss, es) && k < |ss| && p != q && Inside(ss[k], p, name) && Inside(ss[k], q, name)
    ensures exists m, r :: 0 <= m < k && Inside(ss[m], r, name) && ss[m].now >= ss[m].inside[r].until
  {
    if forall m :: 0 <= m < k ==> Timely(ss[m], name) {
      OwnedRun(ss, es, k, name);
    } else {
      var m :| 0 <= m < k && !Timely(ss[m], name);
      var r :| Inside(ss[m], r, name) && ss[m].now >= ss[m].inside[r].until;
    }
  }

  /** Until the first overrun the DEL removes the key its own worker set, never somebody else's. */
  lemma DeletesOwnLock(ss: seq<Sys>, es: seq<Event>, k: nat, p: Worker)
    requires Run(ss, es) && k < |es| && es[k] == Finish(p) && p in ss[k].inside
    requires forall m :: 0 <= m < k ==> Timely(ss[m], ss[k].inside[p].name)
    ensures var name := ss[k].inside[p].name; name in ss[k].keys && ss[k].keys[name].owner == p
  {
    OwnedRun(ss, es, k, ss[k].inside[p].name);
    assert Inside(ss[k], p, ss[k].inside[p].name);
  }

  /** The lease is the exact limit, although it is meant to outlast the body: up to the first overrun
      a second worker can enter while p is inside if and only if p has outlived its lease. */
  lemma EntersExactlyOnOverrun(ss: seq<Sys>, es: seq<Event>, k: nat, name: Name, p: Worker, q: Worker,
                               interval: Time, s': Sys)
    requires Run(ss, es) && k < |ss| && forall m :: 0 <= m < k ==> Timely(ss[m], name)
    requires Inside(ss[k], p, name) && q !in ss[k].inside && interval > 0
    requires Next(ss[k], Acquire(q, name, interval), s')
    ensures Inside(s', q, name) <==> ss[k].now >= ss[k].inside[p].until
  {
    OwnedRun(ss, es, k, name);
  }

  /** After a single overrun the damage spreads: the late DEL removes the key of the worker that
      entered meanwhile, and a third one joins it. Neither of the two has outlived its lease. */
  lemma OneOverrunTwoOverlaps(s0: Sys, name: Name, interval: Time, p: Worker, q: Worker, r: Worker)
    returns (ss: seq<Sys>, es: seq<Event>)
    requires s0.keys == map[] && s0.inside == map[] && interval > 0 && p != q && p != r && q != r
    ensures Run(ss, es) && ss[0] == s0
    ensures var s := ss[|ss| - 1];
      && Inside(s, q, name) && Inside(s, r, name) && !Inside(s, p, name)
      && s.now < s.inside[q].until && s.now < s.inside[r].until
  {
    var late := LeaseEnd(s0.now, interval);
    es := [Acquire(p, name, interval), Tick(late), Acquire(q, name, interval), Finish(p), Acquire(r, name, interval)];
    var until := LeaseEnd(late, interval);
    var s1 := Sys(s0.now, map[name := Lease(p, late)], map[p := Body(name, late)]);
    var s2 := s1.(now := late);
    var s3 := Sys(late, map[name := Lease(q, until)], map[p := Body(name, late), q := Body(name, until)]);
    var s4 := Sys(late, map[], map[q := Body(name, until)]);
    var s5 := Sys(late, map[name := Lease(r, until)], map[q := Body(name, until), r := Body(name, until)]);
    assert Next(s0, es[0], s1) && Next(s1, es[1], s2) && Next(s2, es[2], s3);
    assert Next(s3, es[3], s4) && Next(s4, es[4], s5);
    ss := [s0, s1, s2, s3, s4, s5];
  }

  /** A crash inside the body keeps the task from running, but no longer than the lease: no key
      outlives the longest interval by more than five seconds. */
  lemma {:induction false} LeasesAreBounded(ss: seq<Sys>, es: seq<Event>, k: nat, longest: Time, name: Name)
    requires Run(ss, es) && k < |ss| && name in ss[k].keys
    requires forall m :: 0 <= m < |es| && es[m].Acquire? ==> es[m].interval <= longest
    ensures ss[k].keys[name].expiry <= ss[k].now + longest + 5
  {
    assert Next(ss[k - 1], es[k - 1], ss[k]);
    if name in ss[k - 1].keys {
      LeasesAreBounded(ss, es, k - 1, longest, name);
    }
  }
}
