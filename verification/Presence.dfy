// The presence tracker: internal/presence/presence.go. Instants are in nanoseconds.
module Presence {
  import opened Collections
  import opened Wrappers

  type UserId = string
  type Resource = string

  datatype Info = Info(username: string, lastSeen: int)

  type Active = map<Resource, map<UserId, Info>>

  const TTL := 60 * 1_000_000_000

  /** Seen within the last minute. */
  predicate IsViewing(active: Active, r: Resource, u: UserId, now: int)
  {
    r in active && u in active[r] && now - active[r][u].lastSeen <= TTL
  }

  /** Distinct users of the resource, and their names in the same order. */
  ghost predicate NamesOf(active: Active, r: Resource, users: seq<UserId>, names: seq<string>)
  {
    && |names| == |users|
    && NoDuplicates(users)
    && forall i :: 0 <= i < |users| ==> r in active && users[i] in active[r] && names[i] == active[r][users[i]].username
  }

  function Seen(active: Active, u: UserId, name: string, r: Resource, now: int): Active
  {
    active[r := (if r in active then active[r] else map[])[u := Info(name, now)]]
  }

  function Pruned(users: map<UserId, Info>, now: int): map<UserId, Info>
  {
    map u | u in users && now - users[u].lastSeen <= TTL :: users[u]
  }

  function Cleaned(active: Active, now: int): Active
  {
    map r | r in active && Pruned(active[r], now) != map[] :: Pruned(active[r], now)
  }

  /** Cleaned, except for the resources in `rest`. */
  function Midway(active: Active, rest: set<Resource>, now: int): Active
  {
    map r | r in active && (r in rest || Pruned(active[r], now) != map[]) ::
      if r in rest then active[r] else Pruned(active[r], now)
  }

  lemma CleanEnds(active: Active, now: int)
    ensures Midway(active, active.Keys, now) == active && Midway(active, {}, now) == Cleaned(active, now)
  {
  }

  lemma KeptExactly(active: Active, now: int)
    ensures forall r, u :: r in Cleaned(active, now) && u in Cleaned(active, now)[r] <==>
              r in active && u in active[r] && now - active[r][u].lastSeen <= 60_000_000_000
    ensures forall r, u :: r in Cleaned(active, now) && u in Cleaned(active, now)[r] ==>
              Cleaned(active, now)[r][u] == active[r][u]
  {
    forall r, u | r in active && u in active[r] && now - active[r][u].lastSeen <= 60_000_000_000
      ensures r in Cleaned(active, now) && u in Cleaned(active, now)[r]
    {
      assert u in Pruned(active[r], now);
    }
  }

  lemma DropUpdated(active: Active, r: Resource, users: map<UserId, Info>)
    ensures active[r := users] - {r} == active - {r}
  {
  }

  lemma CleanOne(active: Active, rest: set<Resource>, now: int, r: Resource)
    requires rest <= active.Keys && r in rest
    ensures r in Midway(active, rest, now) && Midway(active, rest, now)[r] == active[r]
    ensures Midway(active, rest - {r}, now) ==
            if Pruned(active[r], now) == map[] then Midway(active, rest, now) - {r}
            else Midway(active, rest, now)[r := Pruned(active[r], now)]
  {
  }

  class Tracker {
    var active: Active

    constructor ()
      ensures active == map[]
    {
      active := map[];
    }

    method Heartbeat(u: UserId, name: string, r: Resource, now: int)
      modifies this
      ensures active == Seen(old(active), u, name, r, now)
      ensures r in active && active[r] == (if r in old(active) then old(active)[r] else map[])[u := Info(name, now)]
      ensures forall q :: q != r ==>
                (q in active <==> q in old(active)) && (q in active ==> active[q] == old(active)[q])
    {
      if r !in active {
        active := active[r := map[]];
      }
      active := active[r := active[r][u := Info(name, now)]];
    }

    /** The names of the viewers, one per viewing user, in any order. */
    method GetActiveViewers(r: Resource, now: int) returns (names: seq<string>)
      ensures exists users: seq<UserId> ::
                && NamesOf(active, r, users, names)
                && forall u :: u in users <==>
                     r in active && u in active[r] && now - active[r][u].lastSeen <= 60_000_000_000
    {
      names := [];
      ghost var users: seq<UserId> := [];
      if r !in active {
        assert NamesOf(active, r, users, names);
        return;
      }
      var rest := active[r].Keys;
      while rest != {}
        invariant rest <= active[r].Keys && NamesOf(active, r, users, names)
        invariant forall u :: u in users <==> u !in rest && IsViewing(active, r, u, now)
        decreases rest
      {
        var u :| u in rest;
        assert u !in users;
        rest := rest - {u};
        if now - active[r][u].lastSeen <= TTL {
          names := names + [active[r][u].username];
          users := users + [u];
        }
      }
    }

    method PruneUsers(r: Resource, now: int)
      requires r in active
      modifies this
      ensures active == old(active)[r := Pruned(old(active)[r], now)]
    {
      var users := active[r];
      var rest := users.Keys;
      while rest != {}
        invariant rest <= old(active)[r].Keys
        invariant users ==
                  map u | u in old(active)[r] && (u in rest || now - old(active)[r][u].lastSeen <= TTL) ::
                    old(active)[r][u]
        invariant active == old(active)
        decreases rest
      {
        var u :| u in rest;
        rest := rest - {u};
        if now - users[u].lastSeen > TTL {
          users := users - {u};
        }
      }
      assert users == Pruned(old(active)[r], now);
      active := active[r := users];
    }

    method Cleanup(now: int)
      modifies this
      ensures active == Cleaned(old(active), now)
      ensures forall r, u :: r in active && u in active[r] <==>
                r in old(active) && u in old(active)[r] && now - old(active)[r][u].lastSeen <= 60_000_000_000
      ensures forall r, u :: r in active && u in active[r] ==> active[r][u] == old(active)[r][u]
      ensures forall r :: r in active ==> active[r] != map[]
    {
      KeptExactly(active, now);
      ghost var orig := active;
      var rest := active.Keys;
      CleanEnds(orig, now);
      while rest != {}
        invariant rest <= orig.Keys && active == Midway(orig, rest, now)
        decreases rest
      {
        var r :| r in rest;
        CleanOne(orig, rest, now, r);
        DropUpdated(active, r, Pruned(active[r], now));
        rest := rest - {r};
        PruneUsers(r, now);
        if |active[r]| == 0 {
          active := active - {r};
        }
      }
    }
  }

  // ----- whole runs -----

  datatype Event = Beat(user: UserId, name: string, resource: Resource, at: int) | Sweep(at: int)

  predicate TimesOrdered(es: seq<Event>)
  {
    forall i, j :: 0 <= i < j < |es| ==> es[i].at <= es[j].at
  }

  /** The tracker's state after a run of heartbeats and cleanups. */
  function After(es: seq<Event>): Active
  {
    if es == [] then map[]
    else
      var before, e := After(es[..|es| - 1]), es[|es| - 1];
      match e
      case Beat(u, name, r, t) => Seen(before, u, name, r, t)
      case Sweep(t) => Cleaned(before, t)
  }

  /** The user's last heartbeat on the resource, straight from the history. */
  function LastBeat(es: seq<Event>, r: Resource, u: UserId): Option<Event>
  {
    if es == [] then None
    else
      var e := es[|es| - 1];
      if e.Beat? && e.user == u && e.resource == r then Some(e) else LastBeat(es[..|es| - 1], r, u)
  }

  ghost predicate TracksBeat(active: Active, last: Option<Event>, r: Resource, u: UserId, now: int)
  {
    if r in active && u in active[r]
    then last.Some? && last.value.Beat? && active[r][u] == Info(last.value.name, last.value.at)
    else last.Some? ==> now - last.value.at > TTL
  }

  lemma {:induction false} StateTracksHistory(es: seq<Event>, r: Resource, u: UserId, now: int)
    requires TimesOrdered(es) && (es != [] ==> es[|es| - 1].at <= now)
    ensures TracksBeat(After(es), LastBeat(es, r, u), r, u, now)
  {
    if es != [] {
      var n := |es| - 1;
      StateTracksHistory(es[..n], r, u, es[n].at);
      if es[n].Sweep? {
        var before: Active := After(es[..n]);
        if r in before && u in before[r] && es[n].at - before[r][u].lastSeen <= TTL {
          assert u in Pruned(before[r], es[n].at);
        }
      }
    }
  }

  /** The viewers of a resource are exactly the users whose last heartbeat on it is at most the
      TTL old, under the name that heartbeat gave: cleanups, whenever they run, change nothing. */
  lemma ViewersAreRecentBeats(es: seq<Event>, r: Resource, u: UserId, now: int)
    requires TimesOrdered(es) && (es != [] ==> es[|es| - 1].at <= now)
    ensures var last := LastBeat(es, r, u);
            IsViewing(After(es), r, u, now) <==> last.Some? && now - last.value.at <= 60_000_000_000
    ensures IsViewing(After(es), r, u, now) ==>
              LastBeat(es, r, u).value.Beat? && After(es)[r][u].username == LastBeat(es, r, u).value.name
  {
    StateTracksHistory(es, r, u, now);
  }
}
