/** The permission cache under concurrency: lookups, fills, grant changes and invalidations of any
    number of callers in any order, with time passing in between. */
module CacheStaleness {
  import opened Types
  import opened PermissionCache

  /** A caller that missed the cache; result is filled in once it has queried the database. */
  datatype Ask = Ask(k: Key, q: Question, result: Option<bool>, queriedAt: Time)

  datatype Sys = Sys(now: Time, db: Grants, cache: map<Key, Entry>, asks: map<nat, Ask>)

  datatype Event =
    | Tick(to: Time)
    | ChangeGrants(db: Grants)
    | DeleteKey(k: Key)
    | Hit(k: Key, q: Question)
    | Miss(r: nat, k: Key, q: Question)
    | Query(r: nat)
    | Fill(r: nat)

  predicate Cached(s: Sys, k: Key) {
    k in s.cache && s.now < s.cache[k].expiry
  }

  predicate Next(s: Sys, e: Event, s': Sys) {
    match e
    case Tick(to) => s.now <= to && s' == s.(now := to)
    case ChangeGrants(db) => s' == s.(db := db)
    case DeleteKey(k) => s' == s.(cache := s.cache - {k})
    case Hit(k, _) => Cached(s, k) && s' == s
    case Miss(r, k, q) =>
      !Cached(s, k) && r !in s.asks && s' == s.(asks := s.asks[r := Ask(k, q, None, s.now)])
    case Query(r) =>
      r in s.asks && s.asks[r].result.None? &&
      var answer := Answer(s.db, s.asks[r].k, s.asks[r].q);
      s' == s.(asks := s.asks[r := s.asks[r].(result := Some(answer), queriedAt := s.now)])
    case Fill(r) =>
      r in s.asks && s.asks[r].result.Some? &&
      var a := s.asks[r];
      s' == s.(cache := s.cache[a.k := Entry(a.result.value, s.now + TTL)], asks := s.asks - {r})
  }

  /** What a caller is told: by a hit at once, by a miss when its fill is done. */
  function Told(s: Sys, e: Event): Option<bool> {
    match e
    case Hit(k, _) => if k in s.cache then Some(s.cache[k].value) else None
    case Fill(r) => if r in s.asks then s.asks[r].result else None
    case _ => None
  }

  function AskedAbout(s: Sys, e: Event): Option<Key> {
    match e
    case Hit(k, _) => Some(k)
    case Fill(r) => if r in s.asks then Some(s.asks[r].k) else None
    case _ => None
  }

  /** No fill takes longer than delay from its database query to its write to the cache. */
  ghost predicate Run(ss: seq<Sys>, es: seq<Event>, delay: Time) {
    && |ss| == |es| + 1 && ss[0].cache == map[] && ss[0].asks == map[]
    && forall k :: 0 <= k < |es| ==>
      && Next(ss[k], es[k], ss[k + 1])
      && (es[k].Fill? ==> ss[k].now - ss[k].asks[es[k].r].queriedAt <= delay)
  }

  /** value was the database's answer to a question about key k in a state not before since. */
  ghost predicate WasTrue(ss: seq<Sys>, n: nat, k: Key, value: bool, since: Time)
    requires n < |ss|
  {
    exists m :: 0 <= m <= n && since <= ss[m].now && Agrees(value, ss[m].db, k)
  }

  ghost predicate Justified(ss: seq<Sys>, n: nat, delay: Time)
    requires n < |ss|
  {
    && (forall k :: k in ss[n].cache ==>
          WasTrue(ss, n, k, ss[n].cache[k].value, ss[n].cache[k].expiry - TTL - delay))
    && (forall r :: r in ss[n].asks && ss[n].asks[r].result.Some? ==>
          WasTrue(ss, n, ss[n].asks[r].k, ss[n].asks[r].result.value, ss[n].asks[r].queriedAt))
  }

  lemma WasTrueLater(ss: seq<Sys>, n: nat, n': nat, k: Key, value: bool, since: Time, since': Time)
    requires n <= n' < |ss| && since' <= since && WasTrue(ss, n, k, value, since)
    ensures WasTrue(ss, n', k, value, since')
  {
  }

  lemma CacheJustified(ss: seq<Sys>, es: seq<Event>, n: nat, delay: Time, k: Key)
    requires Run(ss, es, delay) && n < |es| && Justified(ss, n, delay) && k in ss[n + 1].cache
    ensures WasTrue(ss, n + 1, k, ss[n + 1].cache[k].value, ss[n + 1].cache[k].expiry - TTL - delay)
  {
    var s, e := ss[n], es[n];
    assert Next(s, e, ss[n + 1]);
    if e.Fill? && s.asks[e.r].k == k {
      WasTrueLater(ss, n, n + 1, k, s.asks[e.r].result.value, s.asks[e.r].queriedAt, s.now - delay);
    } else {
      WasTrueLater(ss, n, n + 1, k, s.cache[k].value, s.cache[k].expiry - TTL - delay, s.cache[k].expiry - TTL - delay);
    }
  }

  lemma AskJustified(ss: seq<Sys>, es: seq<Event>, n: nat, delay: Time, r: nat)
    requires Run(ss, es, delay) && n < |es| && Justified(ss, n, delay)
    requires r in ss[n + 1].asks && ss[n + 1].asks[r].result.Some?
    ensures var a := ss[n + 1].asks[r]; WasTrue(ss, n + 1, a.k, a.result.value, a.queriedAt)
  {
    var s, e, a := ss[n], es[n], ss[n + 1].asks[r];
    assert Next(s, e, ss[n + 1]);
    if e.Query? && e.r == r {
      assert a.result.value == Answer(s.db, a.k, a.q);
      assert Agrees(a.result.value, s.db, a.k);
      assert WasTrue(ss, n, a.k, a.result.value, a.queriedAt);
    }
    WasTrueLater(ss, n, n + 1, a.k, a.result.value, a.queriedAt, a.queriedAt);
  }

  lemma {:induction false} AlwaysJustified(ss: seq<Sys>, es: seq<Event>, n: nat, delay: Time)
    requires Run(ss, es, delay) && n < |ss|
    ensures Justified(ss, n, delay)
  {
    if n > 0 {
      AlwaysJustified(ss, es, n - 1, delay);
      forall k | k in ss[n].cache
        ensures WasTrue(ss, n, k, ss[n].cache[k].value, ss[n].cache[k].expiry - TTL - delay)
      {
        CacheJustified(ss, es, n - 1, delay, k);
      }
      forall r | r in ss[n].asks && ss[n].asks[r].result.Some?
        ensures WasTrue(ss, n, ss[n].asks[r].k, ss[n].asks[r].result.value, ss[n].asks[r].queriedAt)
      {
        AskJustified(ss, es, n - 1, delay, r);
      }
    }
  }

  /** Bounded staleness: whatever runs concurrently, every answer given was the database's own answer,
      to some question about that agent and permission, at a moment at most TTL + delay ago. */
  lemma AnswersAreRecent(ss: seq<Sys>, es: seq<Event>, n: nat, delay: Time)
    requires Run(ss, es, delay) && delay >= 0 && n < |es| && Told(ss[n], es[n]).Some?
    ensures var k := AskedAbout(ss[n], es[n]).value;
      exists m :: 0 <= m <= n && ss[n].now - 60 - delay <= ss[m].now && Agrees(Told(ss[n], es[n]).value, ss[m].db, k)
  {
    var s, e, k := ss[n], es[n], AskedAbout(ss[n], es[n]).value;
    AlwaysJustified(ss, es, n, delay);
    assert Next(s, e, ss[n + 1]);
    if e.Hit? {
      WasTrueLater(ss, n, n, k, s.cache[k].value, s.cache[k].expiry - TTL - delay, s.now - TTL - delay);
    } else {
      WasTrueLater(ss, n, n, k, s.asks[e.r].result.value, s.asks[e.r].queriedAt, s.now - TTL - delay);
    }
  }

  /** When every grant is a wildcard grant, so that no answer depends on the resource, it is the answer
      to the very question asked. */
  lemma WildcardAnswersAreRecent(ss: seq<Sys>, es: seq<Event>, n: nat, delay: Time, q: Question)
    requires Run(ss, es, delay) && delay >= 0 && n < |es| && Told(ss[n], es[n]).Some?
    requires forall m, id :: 0 <= m <= n && id in ss[m].db ==> Wildcard(ss[m].db[id])
    ensures var k := AskedAbout(ss[n], es[n]).value;
      exists m ::
        0 <= m <= n && ss[n].now - 60 - delay <= ss[m].now && Told(ss[n], es[n]).value == Answer(ss[m].db, k, q)
  {
    var k := AskedAbout(ss[n], es[n]).value;
    AnswersAreRecent(ss, es, n, delay);
    var m :| 0 <= m <= n && ss[n].now - 60 - delay <= ss[m].now && Agrees(Told(ss[n], es[n]).value, ss[m].db, k);
    UniformExactly(ss[m].db, k);
    assert Uniform(ss[m].db, k);
  }

  /** The bound needs the time to live: a fill that overlaps a revoke and its invalidation leaves the
      old answer in the cache for a full TTL. */
  lemma RaceLeavesOldAnswer(k: Key, q: Question, id: int)
    returns (ss: seq<Sys>, es: seq<Event>)
    ensures Run(ss, es, 0) && |es| == 7
    ensures es[2] == ChangeGrants(map[]) && es[3] == DeleteKey(k) && es[6] == Hit(k, q)
    ensures ss[6].now == ss[2].now + 59
    ensures Told(ss[6], es[6]) == Some(true) && !Answer(ss[6].db, k, q)
  {
    var db: Grants := map[id := Row(k.agent, k.permission, "*", None)];
    es := [Miss(0, k, q), Query(0), ChangeGrants(map[]), DeleteKey(k), Fill(0), Tick(TTL - 1), Hit(k, q)];
    assert Matches(db[id], k, q);
    assert Answer(db, k, q);
    var cached := map[k := Entry(true, TTL)];
    var s0 := Sys(0, db, map[], map[]);
    var s1 := s0.(asks := map[0 := Ask(k, q, None, 0)]);
    var s2 := s0.(asks := map[0 := Ask(k, q, Some(true), 0)]);
    var s3 := s2.(db := map[]);
    var s5 := Sys(0, map[], cached, map[]);
    var s6 := s5.(now := TTL - 1);
    assert Next(s0, es[0], s1) && Next(s1, es[1], s2) && Next(s2, es[2], s3);
    assert Next(s3, es[3], s3) && Next(s3, es[4], s5) && Next(s5, es[5], s6) && Next(s6, es[6], s6);
    ss := [s0, s1, s2, s3, s3, s5, s6, s6];
  }
}
