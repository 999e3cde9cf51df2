/** Agent permission checks through a cache whose keys hold only the agent and the permission. */
module PermissionCache {
  import opened Types

  const TTL: Time := 60

  /** A row of agent_permissions. */
  datatype Row = Row(agent: Id, permission: string, resourceType: string, resourceId: Option<Id>)

  type Grants = map<int, Row>

  /** What a caller asks: a permission on any resource, or on the one given. */
  datatype Question = OnAny | On(resourceType: string, resourceId: Option<Id>)

  datatype Key = Key(agent: Id, permission: string)

  datatype Entry = Entry(value: bool, expiry: Time)

  // ----- the database answer

  predicate Wildcard(g: Row) {
    g.resourceType == "*" && g.resourceId.None?
  }

  /** The WHERE clauses of HasAgentPermissionAny and HasAgentPermission. */
  predicate Matches(g: Row, k: Key, q: Question) {
    && g.agent == k.agent && g.permission == k.permission
    && match q
       case OnAny => true
       case On(rt, rid) => (g.resourceType == rt && g.resourceId == rid) || Wildcard(g)
  }

  predicate Answer(db: Grants, k: Key, q: Question) {
    exists id :: id in db && Matches(db[id], k, q)
  }

  /** The answer does not depend on the resource asked about. */
  ghost predicate Uniform(db: Grants, k: Key) {
    forall q, q' :: Answer(db, k, q) == Answer(db, k, q')
  }

  /** Exactly the permissions that are not granted at all or granted on everything. */
  lemma UniformExactly(db: Grants, k: Key)
    ensures Uniform(db, k) <==>
      || (forall id :: id in db ==> !(db[id].agent == k.agent && db[id].permission == k.permission))
      || (exists id :: id in db && db[id].agent == k.agent && db[id].permission == k.permission && Wildcard(db[id]))
  {
    if id :| id in db && Matches(db[id], k, OnAny) && Wildcard(db[id]) {
      assert forall q :: Matches(db[id], k, q);
      assert forall q :: Answer(db, k, q);
    } else if id :| id in db && Matches(db[id], k, OnAny) {
      assert Answer(db, k, OnAny) && !Answer(db, k, On("*", None));
    } else {
      assert forall q :: !Answer(db, k, q);
    }
  }

  // ----- one call at a time

  /** Every cached value is the database's answer to some question about its key. */
  ghost predicate Coherent(cache: map<Key, Entry>, db: Grants) {
    forall k :: k in cache ==> Agrees(cache[k].value, db, k)
  }

  ghost predicate Agrees(value: bool, db: Grants, k: Key) {
    exists q :: value == Answer(db, k, q)
  }

  /** Only keys of other agents have to agree with the new rows by themselves. */
  lemma CoherentAfterChange(cache: map<Key, Entry>, db: Grants, cache': map<Key, Entry>, db': Grants, agent: Id)
    requires Coherent(cache, db) && cache'.Keys <= cache.Keys
    requires forall k :: k in cache' ==> cache'[k] == cache[k] && k.agent != agent
    requires forall k: Key, q :: k.agent != agent ==> Answer(db', k, q) == Answer(db, k, q)
    ensures Coherent(cache', db')
  {
  }

  lemma OthersUnaffected(db: Grants, db': Grants, agent: Id, k: Key, q: Question)
    requires k.agent != agent
    requires forall id :: id in db && db[id].agent != agent ==> id in db' && db'[id] == db[id]
    requires forall id :: id in db' && db'[id].agent != agent ==> id in db && db[id] == db'[id]
    ensures Answer(db', k, q) == Answer(db, k, q)
  {
  }

  class PermissionService {
    var db: Grants
    var cache: map<Key, Entry>

    method HasAgentPermission(k: Key, q: Question) returns (r: bool)
      ensures r == Answer(db, k, q)
      ensures r <==> exists id ::
        && id in db && db[id].agent == k.agent && db[id].permission == k.permission
        && (|| q.OnAny? || (db[id].resourceType == q.resourceType && db[id].resourceId == q.resourceId)
            || (db[id].resourceType == "*" && db[id].resourceId == None))
    {
      r := exists id :: id in db && Matches(db[id], k, q);
    }

    /** PermissionCache.HasPermission with the database query as fallback; the value is set later than
        the lookup. */
    method HasPermission(k: Key, q: Question, now: Time, later: Time) returns (r: bool)
      requires Coherent(cache, db)
      modifies this`cache
      ensures Coherent(cache, db) && Agrees(r, db, k)
      ensures Uniform(db, k) ==> r == Answer(db, k, q)
      ensures k in old(cache) && now < old(cache)[k].expiry ==> r == old(cache)[k].value && cache == old(cache)
      ensures !(k in old(cache) && now < old(cache)[k].expiry) ==>
        r == Answer(db, k, q) && cache == old(cache)[k := Entry(r, later + 60)]
    {
      if k in cache && now < cache[k].expiry {
        return cache[k].value;
      }
      r := HasAgentPermission(k, q);
      if r {
        cache := cache[k := Entry(true, later + TTL)];
      } else {
        cache := cache[k := Entry(false, later + TTL)];
      }
    }

    /** Scan the agent's keys and delete them one by one. */
    method Invalidate(agent: Id)
      modifies this`cache
      ensures forall k :: k in cache <==> k in old(cache) && k.agent != agent
      ensures forall k :: k in cache ==> cache[k] == old(cache)[k]
    {
      var found := set k | k in cache && k.agent == agent;
      while found != {}
        invariant forall k :: k in found ==> k.agent == agent
        invariant forall k :: k in cache ==> k in old(cache) && cache[k] == old(cache)[k]
        invariant forall k :: k in old(cache) ==> k in cache || k.agent == agent
        invariant forall k :: k in cache && k.agent == agent ==> k in found
        decreases |found|
      {
        var k :| k in found;
        cache := cache - {k};
        found := found - {k};
      }
    }

    /** Insert and invalidate; a duplicate of a row with a resource id is refused by the unique
        constraint, and nothing changes. id is the generated key of the new row. */
    method Grant(g: Row, id: int) returns (ok: bool)
      requires Coherent(cache, db) && id !in db
      modifies this
      ensures Coherent(cache, db)
      ensures ok <==> g.resourceId.None? || g !in old(db).Values
      ensures db == if ok then old(db)[id := g] else old(db)
      ensures ok ==> forall k :: k in cache ==> k.agent != g.agent
      ensures !ok ==> cache == old(cache)
    {
      if g.resourceId.Some? && g in db.Values {
        return false;
      }
      db := db[id := g];
      Invalidate(g.agent);
      forall k: Key, q | k.agent != g.agent
        ensures Answer(db, k, q) == Answer(old(db), k, q)
      {
        OthersUnaffected(old(db), db, g.agent, k, q);
      }
      CoherentAfterChange(old(cache), old(db), cache, db, g.agent);
      return true;
    }

    method Revoke(id: int) returns (ok: bool)
      requires Coherent(cache, db)
      modifies this
      ensures Coherent(cache, db)
      ensures ok <==> id in old(db)
      ensures db == old(db) - {id}
      ensures ok ==> forall k :: k in cache ==> k.agent != old(db)[id].agent
      ensures !ok ==> cache == old(cache)
    {
      if id !in db {
        return false;
      }
      var agent := db[id].agent;
      db := db - {id};
      Invalidate(agent);
      forall k: Key, q | k.agent != agent
        ensures Answer(db, k, q) == Answer(old(db), k, q)
      {
        OthersUnaffected(old(db), db, agent, k, q);
      }
      CoherentAfterChange(old(cache), old(db), cache, db, agent);
      return true;
    }

    /** Wildcard grants for a role, one after the other; the insert numbered failAt fails. The rows
        inserted before it stay, and the cache is only invalidated at the end. */
    method GrantRolePermissions(agent: Id, permissions: seq<string>, ids: seq<int>, failAt: nat) returns (ok: bool)
      requires |ids| == |permissions| && Coherent(cache, db)
      requires forall i :: 0 <= i < |ids| ==> ids[i] !in db
      requires forall i, j :: 0 <= i < j < |ids| ==> ids[i] != ids[j]
      modifies this
      ensures ok <==> failAt >= |permissions|
      ensures db == WithRole(old(db), agent, permissions, ids, if ok then |permissions| else failAt)
      ensures ok ==> Coherent(cache, db)
      ensures !ok ==> cache == old(cache)
    {
      for i := 0 to |permissions|
        invariant i <= failAt && db == WithRole(old(db), agent, permissions, ids, i) && cache == old(cache)
      {
        if i == failAt {
          return false;
        }
        db := db[ids[i] := Row(agent, permissions[i], "*", None)];
      }
      Invalidate(agent);
      forall k: Key, q | k.agent != agent
        ensures Answer(db, k, q) == Answer(old(db), k, q)
      {
        RoleRows(old(db), agent, permissions, ids, |permissions|);
        OthersUnaffected(old(db), db, agent, k, q);
      }
      CoherentAfterChange(old(cache), old(db), cache, db, agent);
      return true;
    }
  }

  /** The table after the first n inserts of a role grant. */
  function WithRole(db: Grants, agent: Id, permissions: seq<string>, ids: seq<int>, n: nat): Grants
    requires n <= |permissions| == |ids|
  {
    if n == 0 then db
    else WithRole(db, agent, permissions, ids, n - 1)[ids[n - 1] := Row(agent, permissions[n - 1], "*", None)]
  }

  lemma {:induction false} RoleRows(db: Grants, agent: Id, permissions: seq<string>, ids: seq<int>, n: nat)
    requires n <= |permissions| == |ids|
    requires forall i :: 0 <= i < |ids| ==> ids[i] !in db
    requires forall i, j :: 0 <= i < j < |ids| ==> ids[i] != ids[j]
    ensures var db' := WithRole(db, agent, permissions, ids, n);
      && (forall id :: id in db' <==> id in db || id in ids[..n])
      && (forall id :: id in db ==> db'[id] == db[id])
      && (forall i :: 0 <= i < n ==> db'[ids[i]] == Row(agent, permissions[i], "*", None))
  {
    if n > 0 {
      RoleRows(db, agent, permissions, ids, n - 1);
      assert ids[..n] == ids[..n - 1] + [ids[n - 1]];
    }
  }

  /** After a role grant that failed half-way the cache is wrong exactly about the permissions that
      were granted before the failure and are cached as missing. */
  lemma HalfGrantedRole(cache: map<Key, Entry>, db: Grants, agent: Id, permissions: seq<string>, ids: seq<int>, n: nat)
    requires Coherent(cache, db) && n <= |permissions| == |ids|
    requires forall i :: 0 <= i < |ids| ==> ids[i] !in db
    requires forall i, j :: 0 <= i < j < |ids| ==> ids[i] != ids[j]
    ensures Coherent(cache, WithRole(db, agent, permissions, ids, n)) <==>
      forall i :: 0 <= i < n && Key(agent, permissions[i]) in cache ==> cache[Key(agent, permissions[i])].value
  {
    var db' := WithRole(db, agent, permissions, ids, n);
    RoleRows(db, agent, permissions, ids, n);
    forall i, q | 0 <= i < n
      ensures Answer(db', Key(agent, permissions[i]), q)
    {
      assert ids[i] in ids[..n] && Matches(db'[ids[i]], Key(agent, permissions[i]), q);
    }
    forall k | k in cache && (cache[k].value || !(k.agent == agent && k.permission in permissions[..n]))
      ensures Agrees(cache[k].value, db', k)
    {
      var q :| cache[k].value == Answer(db, k, q);
      AnswerAfterRole(db, agent, permissions, ids, n, k, q);
      assert cache[k].value == Answer(db', k, q);
    }
  }

  lemma AnswerAfterRole(db: Grants, agent: Id, permissions: seq<string>, ids: seq<int>, n: nat, k: Key, q: Question)
    requires n <= |permissions| == |ids|
    requires forall i :: 0 <= i < |ids| ==> ids[i] !in db
    requires forall i, j :: 0 <= i < j < |ids| ==> ids[i] != ids[j]
    ensures Answer(WithRole(db, agent, permissions, ids, n), k, q) <==>
      Answer(db, k, q) || (k.agent == agent && k.permission in permissions[..n])
  {
    var db' := WithRole(db, agent, permissions, ids, n);
    RoleRows(db, agent, permissions, ids, n);
    if id :| id in db && Matches(db[id], k, q) {
      assert id in db' && Matches(db'[id], k, q);
    }
    if k.agent == agent && k.permission in permissions[..n] {
      var i :| 0 <= i < n && permissions[i] == k.permission;
      assert ids[i] in ids[..n] && Matches(db'[ids[i]], k, q);
    }
    if id :| id in db' && Matches(db'[id], k, q) && id !in db {
      var i :| 0 <= i < n && ids[i] == id;
      assert permissions[i] in permissions[..n];
    }
  }

  /** For a key whose answer depends on the resource there is a coherent cache that answers wrongly:
      sequential calls are exact for every question if and only if the key is uniform. */
  lemma CacheIsExactFor(db: Grants, k: Key, now: Time)
    ensures Uniform(db, k) <==>
      forall cache: map<Key, Entry>, q :: Coherent(cache, db) && k in cache && now < cache[k].expiry ==>
        cache[k].value == Answer(db, k, q)
  {
    if !Uniform(db, k) {
      var q, q' :| Answer(db, k, q) != Answer(db, k, q');
      var cache := map[k := Entry(Answer(db, k, q), now + 1)];
      assert Agrees(cache[k].value, db, k);
      assert Coherent(cache, db) && cache[k].value != Answer(db, k, q');
    } else {
      forall cache: map<Key, Entry>, q | Coherent(cache, db) && k in cache
        ensures cache[k].value == Answer(db, k, q)
      {
        var q' :| cache[k].value == Answer(db, k, q');
      }
    }
  }
}
