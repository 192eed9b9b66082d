// The TTL cache: internal/cache/cache.go.
module TtlCache {
  import opened Wrappers

  type Key = string

  datatype Entry<V> = Entry(value: V, expires: int)

  type Entries<V> = map<Key, Entry<V>>

  predicate Expired<V>(e: Entry<V>, now: int)
  {
    now > e.expires
  }

  function Lookup<V>(entries: Entries<V>, key: Key, now: int): Option<V>
  {
    if key in entries && !Expired(entries[key], now) then Some(entries[key].value) else None
  }

  function Swept<V>(entries: Entries<V>, now: int): Entries<V>
  {
    map k | k in entries && !Expired(entries[k], now) :: entries[k]
  }

  class Cache<V> {
    const ttl: int
    var entries: Entries<V>

    constructor (ttl: int)
      ensures this.ttl == ttl && entries == map[]
    {
      this.ttl, entries := ttl, map[];
    }

    method Get(key: Key, now: int) returns (r: Option<V>)
      modifies this
      ensures r == if key in old(entries) && now <= old(entries)[key].expires
                   then Some(old(entries)[key].value) else None
      ensures entries ==
              if key in old(entries) && now > old(entries)[key].expires then old(entries) - {key} else old(entries)
    {
      if key !in entries {
        return None;
      }
      var e := entries[key];
      if now > e.expires {
        Delete(key);
        return None;
      }
      return Some(e.value);
    }

    method Set(key: Key, value: V, now: int)
      modifies this
      ensures entries == old(entries)[key := Entry(value, now + ttl)]
    {
      entries := entries[key := Entry(value, now + ttl)];
    }

    method Delete(key: Key)
      modifies this
      ensures entries == old(entries) - {key}
    {
      entries := entries - {key};
    }

    method Clear()
      modifies this
      ensures entries == map[]
    {
      entries := map[];
    }

    method EvictExpired(now: int)
      modifies this
      ensures entries == Swept(old(entries), now)
      ensures forall k :: k in entries <==> k in old(entries) && now <= old(entries)[k].expires
      ensures forall k :: k in entries ==> entries[k] == old(entries)[k]
    {
      var rest := entries.Keys;
      while rest != {}
        invariant rest <= old(entries).Keys
        invariant entries ==
                  map k | k in old(entries) && (k in rest || !Expired(old(entries)[k], now)) :: old(entries)[k]
        decreases rest
      {
        var k :| k in rest;
        rest := rest - {k};
        if now > entries[k].expires {
          entries := entries - {k};
        }
      }
    }
  }

  // ----- interleavings -----

  /** A Get between taking its read lock and returning. */
  datatype GetPc<V> =
    | Holding(key: Key, found: Option<Entry<V>>)  // the entry was read, the clock not yet
    | Stale(key: Key, stale: Entry<V>)            // the entry had expired; Delete is next
    | Answered(key: Key, found: Option<Entry<V>>, answer: Option<V>, at: int)

  /** `entries` is the map; `latest` is what the Sets, Deletes and Clears alone would leave;
      `lost` are the keys whose fresh entry a stale Get deleted since it was set. */
  datatype State<V> = State(
    entries: Entries<V>, latest: Entries<V>, gets: map<nat, GetPc<V>>, lost: set<Key>, now: int)

  datatype Action<V> =
    | Set(setKey: Key, value: V)
    | Delete(deleteKey: Key)
    | Clear
    | Sweep(seen: int)   // the clock is read before the lock is taken
    | Read(get: nat, readKey: Key)
    | Judge(get: nat)
    | DropStale(get: nat)

  predicate Enabled<V>(s: State<V>, a: Action<V>, t: int)
  {
    t >= s.now &&
    match a
    case Read(g, _) => g !in s.gets
    case Judge(g) => g in s.gets && s.gets[g].Holding?
    case DropStale(g) => g in s.gets && s.gets[g].Stale?
    case Sweep(seen) => seen <= t
    case _ => true
  }

  /** One critical section or clock reading, at instant `t`. */
  function Apply<V>(s: State<V>, ttl: int, a: Action<V>, t: int): State<V>
    requires Enabled(s, a, t)
  {
    match a
    case Set(k, v) =>
      State(s.entries[k := Entry(v, t + ttl)], s.latest[k := Entry(v, t + ttl)], s.gets, s.lost - {k}, t)
    case Delete(k) => State(s.entries - {k}, s.latest - {k}, s.gets, s.lost - {k}, t)
    case Clear => State(map[], map[], s.gets, {}, t)
    case Sweep(seen) => s.(entries := Swept(s.entries, seen), now := t)
    case Read(g, k) =>
      s.(gets := s.gets[g := Holding(k, if k in s.entries then Some(s.entries[k]) else None)], now := t)
    case Judge(g) =>
      var pc := s.gets[g];
      s.(gets := s.gets[g := match pc.found
                             case None => Answered(pc.key, None, None, t)
                             case Some(e) => if Expired(e, t) then Stale(pc.key, e)
                                             else Answered(pc.key, pc.found, Some(e.value), t)], now := t)
    case DropStale(g) =>
      var k := s.gets[g].key;
      s.(entries := s.entries - {k},
         lost := if k in s.entries && !Expired(s.entries[k], t) then s.lost + {k} else s.lost,
         gets := s.gets[g := Answered(k, None, None, t)], now := t)
  }

  ghost predicate Next<V(!new)>(s: State<V>, ttl: int, s': State<V>)
  {
    exists a, t :: Enabled(s, a, t) && s' == Apply(s, ttl, a, t)
  }

  ghost predicate StepAt<V(!new)>(tr: seq<State<V>>, ttl: int, i: nat)
    requires i + 1 < |tr|
  {
    Next(tr[i], ttl, tr[i + 1])
  }

  ghost predicate Execution<V(!new)>(tr: seq<State<V>>, ttl: int)
  {
    tr != [] && tr[0].entries == map[] && tr[0].latest == map[] && tr[0].gets == map[] && tr[0].lost == {} &&
    forall i: nat :: i + 1 < |tr| ==> StepAt(tr, ttl, i)
  }

  /** What the map holds is what was last set, and what it misses has expired or was lost. */
  ghost predicate EntriesAreLatest<V>(s: State<V>)
  {
    && (forall k :: k in s.entries ==> k in s.latest && s.entries[k] == s.latest[k])
    && (forall k :: k in s.latest && k !in s.entries ==> Expired(s.latest[k], s.now) || k in s.lost)
    && (forall k :: k in s.lost ==> k !in s.entries)
  }

  /** No answer is expired at the instant it was given. */
  ghost predicate AnswersAreFresh<V>(s: State<V>)
  {
    forall g :: g in s.gets && s.gets[g].Answered? && s.gets[g].answer.Some? ==>
      s.gets[g].found.Some? && s.gets[g].answer.value == s.gets[g].found.value.value &&
      !Expired(s.gets[g].found.value, s.gets[g].at)
  }

  lemma EntriesKept<V(!new)>(s: State<V>, ttl: int, a: Action<V>, t: int)
    requires EntriesAreLatest(s) && Enabled(s, a, t)
    ensures EntriesAreLatest(Apply(s, ttl, a, t))
  {
  }

  lemma AnswersKept<V(!new)>(s: State<V>, ttl: int, a: Action<V>, t: int)
    requires AnswersAreFresh(s) && Enabled(s, a, t)
    ensures AnswersAreFresh(Apply(s, ttl, a, t))
  {
  }

  lemma {:induction false} CacheInvariant<V(!new)>(tr: seq<State<V>>, ttl: int, i: nat)
    requires Execution(tr, ttl) && i < |tr|
    ensures EntriesAreLatest(tr[i]) && AnswersAreFresh(tr[i])
  {
    if i > 0 {
      CacheInvariant(tr, ttl, i - 1);
      assert StepAt(tr, ttl, i - 1);
      var a, t :| Enabled(tr[i - 1], a, t) && tr[i] == Apply(tr[i - 1], ttl, a, t);
      EntriesKept(tr[i - 1], ttl, a, t);
      AnswersKept(tr[i - 1], ttl, a, t);
    }
  }

  // ----- one Get -----

  /** How a Get moves on: what it found decides its answer or the stale entry it drops. */
  predicate GetForward<V(==)>(pc: GetPc<V>, pc': GetPc<V>)
  {
    pc'.key == pc.key &&
    match pc
    case Holding(_, found) =>
      (pc'.Stale? ==> found == Some(pc'.stale)) &&
      (!pc'.Stale? ==> pc'.found == found || (pc'.Answered? && pc'.answer.None?))
    case Stale(_, e) => pc' == pc || (pc'.Answered? && pc'.answer.None?)
    case Answered(_, _, _, _) => pc' == pc
  }

  lemma GetStep<V(!new)>(s: State<V>, ttl: int, s': State<V>, g: nat)
    requires Next(s, ttl, s') && g in s.gets
    ensures g in s'.gets && GetForward(s.gets[g], s'.gets[g])
  {
  }

  lemma {:induction false} GetsGoForward<V(!new)>(tr: seq<State<V>>, ttl: int, i: nat, j: nat, g: nat)
    requires Execution(tr, ttl) && i <= j < |tr| && g in tr[i].gets
    ensures g in tr[j].gets && GetForward(tr[i].gets[g], tr[j].gets[g])
    decreases j
  {
    if i < j {
      GetsGoForward(tr, ttl, i, j - 1, g);
      assert StepAt(tr, ttl, j - 1);
      GetStep(tr[j - 1], ttl, tr[j], g);
    }
  }

  /** Step `i` is the read of the Get `g`, which asks for `k`. */
  predicate ReadsAt<V>(tr: seq<State<V>>, i: nat, g: nat, k: Key)
  {
    i + 1 < |tr| && g !in tr[i].gets && g in tr[i + 1].gets && tr[i + 1].gets[g].key == k
  }

  lemma ReadFinds<V(!new)>(tr: seq<State<V>>, ttl: int, i: nat, g: nat, k: Key)
    requires Execution(tr, ttl) && ReadsAt(tr, i, g, k)
    ensures tr[i + 1].gets[g] == Holding(k, if k in tr[i].entries then Some(tr[i].entries[k]) else None)
    ensures tr[i + 1].latest == tr[i].latest
  {
    assert StepAt(tr, ttl, i);
  }

  /** A Get that reads at one point and answers at a later one: a value it returns was, when it
      read, the one last set, and has not expired when it answers. */
  lemma HitsAreLatestAndFresh<V(!new)>(tr: seq<State<V>>, ttl: int, i: nat, j: nat, g: nat, k: Key)
    requires Execution(tr, ttl) && ReadsAt(tr, i, g, k) && i < j < |tr|
    requires g in tr[j].gets && tr[j].gets[g].Answered? && tr[j].gets[g].answer.Some?
    ensures k in tr[i].latest && tr[j].gets[g].answer == Some(tr[i].latest[k].value)
    ensures tr[j].gets[g].at <= tr[i].latest[k].expires
  {
    CacheInvariant(tr, ttl, i);
    CacheInvariant(tr, ttl, j);
    ReadFinds(tr, ttl, i, g, k);
    GetsGoForward(tr, ttl, i + 1, j, g);
  }

  /** A fresh entry that a Get misses was deleted by another Get that had read its stale
      predecessor; sweeps never lose one. */
  lemma MissesAreExpiredOrLost<V(!new)>(tr: seq<State<V>>, ttl: int, i: nat, k: Key)
    requires Execution(tr, ttl) && i < |tr| && k !in tr[i].lost
    ensures forall t :: t >= tr[i].now ==> Lookup(tr[i].entries, k, t) == Lookup(tr[i].latest, k, t)
  {
    CacheInvariant(tr, ttl, i);
  }

  ghost predicate StaleHasExpired<V>(s: State<V>)
  {
    forall g :: g in s.gets && s.gets[g].Stale? ==> Expired(s.gets[g].stale, s.now)
  }

  lemma {:induction false} StaleStaysExpired<V(!new)>(tr: seq<State<V>>, ttl: int, i: nat)
    requires Execution(tr, ttl) && i < |tr|
    ensures StaleHasExpired(tr[i])
  {
    if i > 0 {
      StaleStaysExpired(tr, ttl, i - 1);
      assert StepAt(tr, ttl, i - 1);
    }
  }

  // ----- losses -----

  ghost predicate IsSet<V(!new)>(s: State<V>, ttl: int, k: Key, s': State<V>)
  {
    exists v, t :: Enabled(s, Action.Set(k, v), t) && s' == Apply(s, ttl, Action.Set(k, v), t)
  }

  /** Step `m` sets `k`. */
  ghost predicate SetsAt<V(!new)>(tr: seq<State<V>>, ttl: int, m: nat, k: Key)
  {
    m + 1 < |tr| && IsSet(tr[m], ttl, k, tr[m + 1])
  }

  lemma OnlySetsReplace<V(!new)>(s: State<V>, ttl: int, k: Key, s': State<V>)
    requires Next(s, ttl, s') && !IsSet(s, ttl, k, s') && k in s'.latest
    ensures k in s.latest && s'.latest[k] == s.latest[k]
  {
    var a, t :| Enabled(s, a, t) && s' == Apply(s, ttl, a, t);
    assert !(a.Set? && a.setKey == k);
  }

  lemma {:induction false} LatestStays<V(!new)>(tr: seq<State<V>>, ttl: int, i: nat, j: nat, k: Key)
    requires Execution(tr, ttl) && i <= j < |tr| && forall m :: i <= m < j ==> !SetsAt(tr, ttl, m, k)
    ensures k in tr[j].latest ==> k in tr[i].latest && tr[j].latest[k] == tr[i].latest[k]
    decreases j
  {
    if i < j && k in tr[j].latest {
      assert StepAt(tr, ttl, j - 1) && !SetsAt(tr, ttl, j - 1, k);
      OnlySetsReplace(tr[j - 1], ttl, k, tr[j]);
      LatestStays(tr, ttl, i, j - 1, k);
    }
  }

  /** The Set that an entry comes from; no other Set of its key has happened since. */
  lemma {:induction false} LatestWasSet<V(!new)>(tr: seq<State<V>>, ttl: int, i: nat, k: Key) returns (m: nat)
    requires Execution(tr, ttl) && i < |tr| && k in tr[i].latest
    ensures m < i && SetsAt(tr, ttl, m, k) && forall n :: m < n < i ==> !SetsAt(tr, ttl, n, k)
    ensures k in tr[m + 1].latest && tr[i].latest[k] == tr[m + 1].latest[k]
    ensures tr[i].latest[k].expires == tr[m + 1].now + ttl
  {
    assert StepAt(tr, ttl, i - 1);
    if SetsAt(tr, ttl, i - 1, k) {
      m := i - 1;
      assert IsSet(tr[m], ttl, k, tr[i]);
    } else {
      OnlySetsReplace(tr[i - 1], ttl, k, tr[i]);
      m := LatestWasSet(tr, ttl, i - 1, k);
    }
  }

  /** No value is returned later than one TTL after it was set: a Get that reads at step `i` returns
      the value of the last Set before it, and answers at most the TTL after that Set. */
  lemma AnswersAreRecent<V(!new)>(tr: seq<State<V>>, ttl: int, i: nat, j: nat, g: nat, k: Key) returns (m: nat)
    requires Execution(tr, ttl) && ReadsAt(tr, i, g, k) && i < j < |tr|
    requires g in tr[j].gets && tr[j].gets[g].Answered? && tr[j].gets[g].answer.Some?
    ensures m < i && SetsAt(tr, ttl, m, k) && forall n :: m < n < i ==> !SetsAt(tr, ttl, n, k)
    ensures k in tr[m + 1].latest && tr[j].gets[g].answer == Some(tr[m + 1].latest[k].value)
    ensures tr[j].gets[g].at - tr[m + 1].now <= ttl
  {
    HitsAreLatestAndFresh(tr, ttl, i, j, g, k);
    m := LatestWasSet(tr, ttl, i, k);
  }

  /** The steps of a Get, with nothing in between, do what the method does. */
  lemma GetInOneGo<V(!new)>(s: State<V>, ttl: int, g: nat, k: Key, t: int) returns (s': State<V>)
    requires g !in s.gets && t >= s.now
    ensures g in s'.gets && s'.gets[g].Answered? && s'.latest == s.latest && s'.lost == s.lost
    ensures s'.gets[g].answer == if k in s.entries && t <= s.entries[k].expires then Some(s.entries[k].value) else None
    ensures s'.entries == if k in s.entries && t > s.entries[k].expires then s.entries - {k} else s.entries
  {
    s' := Apply(s, ttl, Read(g, k), t);
    s' := Apply(s', ttl, Judge(g), t);
    if s'.gets[g].Stale? {
      s' := Apply(s', ttl, DropStale(g), t);
    }
  }

  /** A stale Get loses an entry exactly when the map still holds one of its key that is fresh by
      then; in other words, when the value last set is fresh and was not lost before. */
  lemma LossExactly<V(!new)>(tr: seq<State<V>>, ttl: int, i: nat, g: nat, t: int)
    requires Execution(tr, ttl) && i < |tr| && Enabled(tr[i], DropStale(g), t)
    ensures var s, k, lost := tr[i], tr[i].gets[g].key, Apply(tr[i], ttl, DropStale(g), t).lost;
            && (lost != s.lost <==> k in s.entries && t <= s.entries[k].expires)
            && (lost != s.lost <==> k in s.latest && t <= s.latest[k].expires && k !in s.lost)
            && (lost != s.lost ==> lost == s.lost + {k})
  {
    CacheInvariant(tr, ttl, i);
  }

  /** A Get that reads at step `i` loses a fresh entry at `j` only if the key was set in between. */
  lemma LossNeedsANewerSet<V(!new)>(tr: seq<State<V>>, ttl: int, i: nat, j: nat, g: nat, k: Key, t: int)
    returns (m: nat)
    requires Execution(tr, ttl) && ReadsAt(tr, i, g, k) && i < j < |tr| && Enabled(tr[j], DropStale(g), t)
    requires Apply(tr[j], ttl, DropStale(g), t).lost != tr[j].lost
    ensures i < m < j && SetsAt(tr, ttl, m, k)
  {
    ReadFinds(tr, ttl, i, g, k);
    GetsGoForward(tr, ttl, i + 1, j, g);
    CacheInvariant(tr, ttl, i);
    StaleStaysExpired(tr, ttl, j);
    LossExactly(tr, ttl, j, g, t);
    if forall m :: i + 1 <= m < j ==> !SetsAt(tr, ttl, m, k) {
      LatestStays(tr, ttl, i + 1, j, k);
      assert false;
    }
    m :| i + 1 <= m < j && SetsAt(tr, ttl, m, k);
  }

  lemma {:induction false} ReadHappened<V(!new)>(tr: seq<State<V>>, ttl: int, j: nat, g: nat) returns (i: nat)
    requires Execution(tr, ttl) && j < |tr| && g in tr[j].gets
    ensures i < j && ReadsAt(tr, i, g, tr[j].gets[g].key)
  {
    assert StepAt(tr, ttl, j - 1);
    if g in tr[j - 1].gets {
      i := ReadHappened(tr, ttl, j - 1, g);
      GetStep(tr[j - 1], ttl, tr[j], g);
    } else {
      i := j - 1;
    }
  }

  /** No key is set while a Get of it is between its read and its return. */
  ghost predicate NoSetDuringGet<V(!new)>(tr: seq<State<V>>, ttl: int)
  {
    forall m: nat, k, g ::
      SetsAt(tr, ttl, m, k) && g in tr[m].gets && tr[m].gets[g].key == k ==> tr[m].gets[g].Answered?
  }

  lemma LossNeedsAnOverlap<V(!new)>(tr: seq<State<V>>, ttl: int, j: nat, g: nat, t: int)
    requires Execution(tr, ttl) && NoSetDuringGet(tr, ttl) && j < |tr| && Enabled(tr[j], DropStale(g), t)
    ensures Apply(tr[j], ttl, DropStale(g), t).lost == tr[j].lost
  {
    if Apply(tr[j], ttl, DropStale(g), t).lost != tr[j].lost {
      var i := ReadHappened(tr, ttl, j, g);
      var m := LossNeedsANewerSet(tr, ttl, i, j, g, tr[j].gets[g].key, t);
      GetsGoForward(tr, ttl, i + 1, m, g);
      GetsGoForward(tr, ttl, m, j, g);
      assert false;
    }
  }

  /** When no Set of a key overlaps a Get of it, nothing is ever lost: every key answers as in
      the map without sweeps and stale Gets. */
  lemma {:induction false} NothingLostWithoutOverlap<V(!new)>(tr: seq<State<V>>, ttl: int, i: nat)
    requires Execution(tr, ttl) && NoSetDuringGet(tr, ttl) && i < |tr|
    ensures tr[i].lost == {}
    ensures forall k, t :: t >= tr[i].now ==> Lookup(tr[i].entries, k, t) == Lookup(tr[i].latest, k, t)
  {
    CacheInvariant(tr, ttl, i);
    if i > 0 {
      NothingLostWithoutOverlap(tr, ttl, i - 1);
      assert StepAt(tr, ttl, i - 1);
      var a, t :| Enabled(tr[i - 1], a, t) && tr[i] == Apply(tr[i - 1], ttl, a, t);
      if a.DropStale? {
        LossNeedsAnOverlap(tr, ttl, i - 1, a.get, t);
      }
    }
  }

  lemma Extend<V(!new)>(tr: seq<State<V>>, ttl: int, a: Action<V>, t: int) returns (tr': seq<State<V>>)
    requires Execution(tr, ttl) && Enabled(tr[|tr| - 1], a, t)
    ensures Execution(tr', ttl) && tr'[|tr'| - 1] == Apply(tr[|tr| - 1], ttl, a, t)
  {
    tr' := tr + [Apply(tr[|tr| - 1], ttl, a, t)];
    forall i: nat | i + 1 < |tr'|
      ensures StepAt(tr', ttl, i)
    {
      if i + 1 < |tr| {
        assert StepAt(tr, ttl, i);
      } else {
        assert Next(tr[i], ttl, tr'[i + 1]);
      }
    }
  }

  /** It does happen: an overlapping Set loses its fresh entry to a Get of the expired one. */
  lemma AFreshEntryCanBeLost<V(!new)>(k: Key, v: V) returns (tr: seq<State<V>>)
    ensures Execution(tr, 1)
    ensures var s := tr[|tr| - 1]; Lookup(s.latest, k, s.now) == Some(v) && Lookup(s.entries, k, s.now) == None
  {
    tr := [State(map[], map[], map[], {}, 0)];
    tr := Extend(tr, 1, Set(k, v), 0);
    tr := Extend(tr, 1, Read(0, k), 2);
    tr := Extend(tr, 1, Judge(0), 2);
    tr := Extend(tr, 1, Set(k, v), 2);
    tr := Extend(tr, 1, DropStale(0), 2);
  }
}
