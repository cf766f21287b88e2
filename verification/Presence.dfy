/**
  The presence registry in Redis: one route key per connection and one sorted set of connection ids per
  user, both expiring. A key with deadline e is visible up to e, as in Redis; a score
  of e counts before e only.
*/
module Presence {
  import opened Common

  type ConnId = string

  datatype ConnRoute = ConnRoute(conn: ConnId, user: UserId, partition: int)

  /** `body` is None when the stored value does not decode. */
  datatype StoredRoute = StoredRoute(body: Option<ConnRoute>, expireAt: int)

  /** A sorted set: each member's score is the instant at which its route runs out. */
  datatype UserSet = UserSet(scores: map<ConnId, int>, expireAt: int)

  type Routes = map<ConnId, StoredRoute>
  type Users = map<UserId, UserSet>

  predicate Listed(users: Users, now: int, u: UserId, c: ConnId) {
    u in users && now <= users[u].expireAt && c in users[u].scores && now < users[u].scores[c]
  }

  predicate Routed(routes: Routes, now: int, u: UserId, c: ConnId, r: ConnRoute) {
    c in routes && now <= routes[c].expireAt && routes[c].body == Some(r) && r.user == u && r.conn == c
  }

  /** User u can be reached through route r: listed at `now`, and the route key still there at `later`,
      when it is read. */
  predicate Live(routes: Routes, users: Users, now: int, later: int, u: UserId, r: ConnRoute) {
    Listed(users, now, u, r.conn) && Routed(routes, later, u, r.conn, r)
  }

  /** A connection id is listed for one user only. */
  ghost predicate OneUserPerConnection(users: Users) {
    forall u, v, c :: u in users && v in users && c in users[u].scores && c in users[v].scores ==> u == v
  }

  function Trimmed(us: UserSet, now: int): UserSet {
    us.(scores := map c | c in us.scores && now < us.scores[c] :: us.scores[c])
  }

  /** What ZRANGE returns after the expired members were removed. */
  function Members(users: Users, now: int, u: UserId): set<ConnId> {
    if u in users && now <= users[u].expireAt then Trimmed(users[u], now).scores.Keys else {}
  }

  /** `after` lists no connection that `before` does not, and drops none that is reachable. */
  ghost predicate OnlyStaleDropped(routes: Routes, before: Users, after: Users, now: int, later: int) {
    && (forall u, c :: u in after && c in after[u].scores ==>
          u in before && c in before[u].scores && after[u].scores[c] == before[u].scores[c] && after[u].expireAt == before[u].expireAt)
    && (forall u, r :: Live(routes, before, now, later, u, r) ==> Live(routes, after, now, later, u, r))
  }

  /** ZADD and EXPIRE on the user's set, which starts empty if it had run out. */
  function Enrolled(users: Users, u: UserId, c: ConnId, now: int, connTtl: int, userTtl: int): Users {
    var scores := if u in users && now <= users[u].expireAt then users[u].scores else map[];
    users[u := UserSet(scores[c := now + connTtl], now + userTtl)]
  }

  class PresenceRegistry {
    const connTtl: int
    const userTtl: int
    var routes: Routes
    var users: Users

    constructor (connTtl: int, userTtl: int)
      ensures this.connTtl == connTtl && this.userTtl == userTtl && routes == map[] && users == map[]
    {
      this.connTtl, this.userTtl := connTtl, userTtl;
      routes, users := map[], map[];
    }

    method AddMember(u: UserId, c: ConnId, now: int)
      modifies `users
      ensures users == Enrolled(old(users), u, c, now, connTtl, userTtl)
    {
      var scores := if u in users && now <= users[u].expireAt then users[u].scores else map[];
      users := users[u := UserSet(scores[c := now + connTtl], now + userTtl)];
    }

    /** A registered connection is reachable until its route key or its user's set runs out, whatever was
        there before, and for no other user. The user's other connections stay listed with their own scores,
        under the renewed set expiry; other users keep what they had. */
    method Register(route: ConnRoute, now: int)
      requires 0 < connTtl && 0 < userTtl
      modifies this
      ensures routes == old(routes)[route.conn := StoredRoute(Some(route), now + connTtl)]
      ensures users == Enrolled(old(users), route.user, route.conn, now, connTtl, userTtl)
      ensures forall t, t' :: now <= t <= t' ==>
                (Live(routes, users, t, t', route.user, route) <==> t <= now + userTtl && t < now + connTtl && t' <= now + connTtl)
      ensures forall t, t', v, r: ConnRoute :: r.conn == route.conn && r != route ==> !Live(routes, users, t, t', v, r)
      ensures forall t, t', v, r: ConnRoute :: r.conn != route.conn && v != route.user ==>
                (Live(routes, users, t, t', v, r) <==> Live(old(routes), old(users), t, t', v, r))
      ensures forall t, t', r: ConnRoute :: r.conn != route.conn && now <= t ==>
                (Live(routes, users, t, t', route.user, r)
                 <==> && route.user in old(users) && now <= old(users)[route.user].expireAt && r.conn in old(users)[route.user].scores
                      && t < old(users)[route.user].scores[r.conn] && t <= now + userTtl && Routed(old(routes), t', route.user, r.conn, r))
    {
      routes := routes[route.conn := StoredRoute(Some(route), now + connTtl)];
      AddMember(route.user, route.conn, now);
    }

    /** A heartbeat extends a route key that is still there; it does not bring back one that has run out. Other
        connections are treated as in Register. */
    method Heartbeat(route: ConnRoute, now: int)
      requires 0 < connTtl && 0 < userTtl
      modifies this
      ensures routes == (if route.conn in old(routes) && now <= old(routes)[route.conn].expireAt
                         then old(routes)[route.conn := old(routes)[route.conn].(expireAt := now + connTtl)] else old(routes))
      ensures users == Enrolled(old(users), route.user, route.conn, now, connTtl, userTtl)
      ensures forall t, t' :: now <= t <= t' ==>
                (Live(routes, users, t, t', route.user, route)
                 <==> Routed(old(routes), now, route.user, route.conn, route) && t <= now + userTtl && t < now + connTtl && t' <= now + connTtl)
      ensures forall t, t', v, r: ConnRoute :: r.conn != route.conn && v != route.user ==>
                (Live(routes, users, t, t', v, r) <==> Live(old(routes), old(users), t, t', v, r))
      ensures forall t, t', r: ConnRoute :: r.conn != route.conn && now <= t ==>
                (Live(routes, users, t, t', route.user, r)
                 <==> && route.user in old(users) && now <= old(users)[route.user].expireAt && r.conn in old(users)[route.user].scores
                      && t < old(users)[route.user].scores[r.conn] && t <= now + userTtl && Routed(old(routes), t', route.user, r.conn, r))
    {
      if route.conn in routes && now <= routes[route.conn].expireAt {
        routes := routes[route.conn := routes[route.conn].(expireAt := now + connTtl)];
      }
      AddMember(route.user, route.conn, now);
    }

    /** A removed connection is reachable no more, for anybody. */
    method Remove(c: ConnId, u: UserId)
      modifies this
      ensures forall t, t', v, r: ConnRoute :: r.conn == c ==> !Live(routes, users, t, t', v, r)
      ensures forall t, t', v, r: ConnRoute :: r.conn != c ==> (Live(routes, users, t, t', v, r) <==> Live(old(routes), old(users), t, t', v, r))
    {
      routes := routes - {c};
      if u in users {
        users := users[u := users[u].(scores := users[u].scores - {c})];
      }
    }

    method DistinctPositive(ids: seq<UserId>) returns (unique: seq<UserId>)
      ensures forall u :: u in unique <==> u in ids && 0 < u
      ensures forall i, j :: 0 <= i < j < |unique| ==> unique[i] != unique[j]
    {
      unique := [];
      var seen: set<UserId> := {};
      for i := 0 to |ids|
        invariant forall u :: u in unique <==> u in seen
        invariant forall u :: u in seen <==> u in ids[..i] && 0 < u
        invariant forall i, j :: 0 <= i < j < |unique| ==> unique[i] != unique[j]
      {
        assert ids[..i + 1] == ids[..i] + [ids[i]];
        if 0 < ids[i] && ids[i] !in seen {
          seen := seen + {ids[i]};
          unique := unique + [ids[i]];
        }
      }
      assert ids[..|ids|] == ids;
    }

    /** First pipeline: drop the expired members of each user's set and read what is left. */
    method TrimAndRange(unique: seq<UserId>, now: int, ghost later: int) returns (found: map<UserId, set<ConnId>>)
      requires now <= later
      modifies `users
      ensures OnlyStaleDropped(routes, old(users), users, now, later)
      ensures forall u :: u in found <==> u in unique && Members(old(users), now, u) != {}
      ensures forall u :: u in found ==> found[u] == Members(old(users), now, u)
    {
      found := map[];
      ghost var was := users;
      for i := 0 to |unique|
        invariant OnlyStaleDropped(routes, was, users, now, later)
        invariant forall u :: u in was ==> u in users && users[u].expireAt == was[u].expireAt && Trimmed(users[u], now) == Trimmed(was[u], now)
        invariant users.Keys == was.Keys
        invariant forall u :: u in found <==> u in unique[..i] && Members(was, now, u) != {}
        invariant forall u :: u in found ==> found[u] == Members(was, now, u)
      {
        var u := unique[i];
        assert unique[..i + 1] == unique[..i] + [u];
        if u in users && now <= users[u].expireAt {
          users := users[u := Trimmed(users[u], now)];
          var ids := users[u].scores.Keys;
          assert ids == Members(was, now, u);
          if |ids| > 0 {
            found := found[u := ids];
          }
        }
      }
      assert unique[..|unique|] == unique;
    }

    /** Between the pipelines: one lookup per connection id, whichever user comes first. */
    method Lookups(found: map<UserId, set<ConnId>>) returns (lookups: seq<(UserId, ConnId)>)
      ensures forall l :: l in lookups ==> l.0 in found && l.1 in found[l.0]
      ensures forall u, c :: u in found && c in found[u] ==> LookedUp(lookups, c)
      ensures forall i, j :: 0 <= i < j < |lookups| ==> lookups[i].1 != lookups[j].1
    {
      lookups := [];
      var seen: set<ConnId> := {};
      var todo := found.Keys;
      while todo != {}
        invariant todo <= found.Keys
        invariant forall l :: l in lookups ==> l.0 in found && l.1 in found[l.0] && l.1 in seen
        invariant forall c :: c in seen ==> LookedUp(lookups, c)
        invariant forall u, c :: u in found && u !in todo && c in found[u] ==> c in seen
        invariant forall i, j :: 0 <= i < j < |lookups| ==> lookups[i].1 != lookups[j].1
        decreases todo
      {
        var u := Pick(todo);
        todo := todo - {u};
        var ids := found[u];
        while ids != {}
          invariant ids <= found[u]
          invariant forall l :: l in lookups ==> l.0 in found && l.1 in found[l.0] && l.1 in seen
          invariant forall c :: c in seen ==> LookedUp(lookups, c)
          invariant forall v, c :: v in found && v !in todo && v != u && c in found[v] ==> c in seen
          invariant forall c :: c in found[u] && c !in ids ==> c in seen
          invariant forall i, j :: 0 <= i < j < |lookups| ==> lookups[i].1 != lookups[j].1
          decreases ids
        {
          var c := Pick(ids);
          ids := ids - {c};
          if c !in seen {
            ghost var before := lookups;
            seen := seen + {c};
            lookups := lookups + [(u, c)];
            assert lookups[|before|] == (u, c);
            forall d | LookedUp(before, d) ensures LookedUp(lookups, d) {
              var v :| (v, d) in before;
              assert (v, d) in lookups;
            }
          }
        }
      }
    }

    /** Every returned route is live and belongs to a requested user; given that a connection id is listed
        for one user only, every live route of every requested user is returned. The clean-up on the way
        drops stale entries only. */
    method OnlineConnectionsBatch(ids: seq<UserId>, now: int, later: int) returns (online: map<UserId, seq<ConnRoute>>)
      requires now <= later
      modifies this
      ensures routes == old(routes)
      ensures OnlyStaleDropped(routes, old(users), users, now, later)
      ensures forall u :: u in online ==> u in ids && 0 < u && online[u] != []
      ensures forall u, r :: u in online && r in online[u] ==> Live(routes, old(users), now, later, u, r)
      ensures OneUserPerConnection(old(users)) ==>
                forall u, r :: u in ids && 0 < u && Live(routes, old(users), now, later, u, r) ==> u in online && r in online[u]
    {
      var unique := DistinctPositive(ids);
      ghost var was := users;
      var found := TrimAndRange(unique, now, later);
      var lookups := Lookups(found);
      online := ReadRoutes(lookups, was, now, later);
      if OneUserPerConnection(was) {
        forall u, r | u in ids && 0 < u && Live(routes, was, now, later, u, r) ensures u in online && r in online[u] {
          assert r.conn in Members(was, now, u);
          assert LookedUp(lookups, r.conn);
          var v :| (v, r.conn) in lookups;
          assert r.conn in Members(was, now, v);
          assert Kept(routes, later, (u, r.conn), online);
        }
      }
    }

    /** Second pipeline: read each route key, and drop the members whose key is gone or does not match. */
    method ReadRoutes(lookups: seq<(UserId, ConnId)>, ghost was: Users, ghost now: int, later: int)
      returns (online: map<UserId, seq<ConnRoute>>)
      requires OnlyStaleDropped(routes, was, users, now, later)
      requires forall l :: l in lookups ==> Listed(was, now, l.0, l.1)
      modifies `users
      ensures OnlyStaleDropped(routes, was, users, now, later)
      ensures forall u :: u in online ==> online[u] != [] && exists c :: (u, c) in lookups
      ensures forall u, r :: u in online && r in online[u] ==> Live(routes, was, now, later, u, r)
      ensures forall l :: l in lookups ==> Kept(routes, later, l, online)
    {
      online := map[];
      for i := 0 to |lookups|
        invariant OnlyStaleDropped(routes, was, users, now, later)
        invariant forall u :: u in online ==> online[u] != [] && exists c :: (u, c) in lookups
        invariant forall u, r :: u in online && r in online[u] ==> Live(routes, was, now, later, u, r)
        invariant forall k :: 0 <= k < i ==> Kept(routes, later, lookups[k], online)
      {
        var (u, c) := lookups[i];
        if c !in routes || routes[c].expireAt < later {
          DropMember(u, c, was, now, later);
        } else if routes[c].body.None? || routes[c].body.value.user != u || routes[c].body.value.conn != c {
          DropMember(u, c, was, now, later);
        } else {
          var r := routes[c].body.value;
          ghost var before := online;
          assert (u, c) in lookups && Listed(was, now, u, c);
          online := online[u := (if u in online then online[u] else []) + [r]];
          assert r in online[u];
          forall k | 0 <= k < i ensures Kept(routes, later, lookups[k], online) {
            assert Kept(routes, later, lookups[k], before);
          }
        }
      }
    }

    method DropMember(u: UserId, c: ConnId, ghost was: Users, ghost now: int, ghost later: int)
      requires OnlyStaleDropped(routes, was, users, now, later)
      requires forall r :: !Routed(routes, later, u, c, r)
      modifies `users
      ensures OnlyStaleDropped(routes, was, users, now, later)
    {
      if u in users {
        users := users[u := users[u].(scores := users[u].scores - {c})];
      }
    }
  }

  ghost predicate LookedUp(lookups: seq<(UserId, ConnId)>, c: ConnId) {
    exists v :: (v, c) in lookups
  }

  /** A lookup whose route key matches ended up in the answer. */
  ghost predicate Kept(routes: Routes, later: int, lookup: (UserId, ConnId), online: map<UserId, seq<ConnRoute>>) {
    forall r :: Routed(routes, later, lookup.0, lookup.1, r) ==> lookup.0 in online && r in online[lookup.0]
  }
}
