/**
  Session metadata with an owner, a time to live and an LRU bound (sessions.py).

  `min` over a dictionary returns the first least entry in insertion order;
  `born` stamps that order.
 */
module SessionStore {
  import opened Prelude

  type Sid = nat

  datatype Context = Context(owner: Option<string>, contextType: Option<string>, entityId: Option<string>)

  datatype Outcome = Served(context: Context) | OwnershipError | KeyError

  /** `_sessions`, `_seen` and the insertion order of `_seen`. */
  datatype View = View(sessions: map<Sid, Context>, seen: map<Sid, int>, born: map<Sid, nat>, stamp: nat)

  ghost predicate ViewOk(v: View) {
    && v.sessions.Keys == v.seen.Keys == v.born.Keys
    && (forall x :: x in v.born ==> v.born[x] < v.stamp)
    && (forall x, y :: x in v.born && y in v.born && v.born[x] == v.born[y] ==> x == y)
  }

  /** The clock never runs backwards. */
  ghost predicate Clock(v: View, now: int) { forall x :: x in v.seen ==> v.seen[x] <= now }

  predicate Older(v: View, x: Sid, y: Sid)
    requires x in v.seen && y in v.seen && x in v.born && y in v.born
  {
    v.seen[x] < v.seen[y] || (v.seen[x] == v.seen[y] && v.born[x] < v.born[y])
  }

  function Dropped(v: View, drop: set<Sid>): View {
    View(v.sessions - drop, v.seen - drop, v.born - drop, v.stamp)
  }

  function Threshold(ttl: int): int { if ttl > 0 then ttl else 0 }

  function Expired(v: View, now: int, ttl: int): set<Sid> { set x | x in v.seen && now - v.seen[x] > Threshold(ttl) }

  function Purged(v: View, now: int, ttl: int): View { Dropped(v, Expired(v, now, ttl)) }

  ghost predicate IsOldest(v: View, x: Sid)
    requires ViewOk(v)
  {
    x in v.seen && forall y :: y in v.seen && y != x ==> Older(v, x, y)
  }

  lemma OlderTotal(v: View, x: Sid, y: Sid, z: Sid)
    requires ViewOk(v) && x in v.seen && y in v.seen && z in v.seen
    ensures x == y || Older(v, x, y) || Older(v, y, x)
    ensures Older(v, x, y) && Older(v, y, z) ==> Older(v, x, z)
  {
    assert x in v.born && y in v.born && z in v.born;
  }

  lemma {:induction false} LeastOf(v: View, keys: set<Sid>) returns (x: Sid)
    requires ViewOk(v) && keys <= v.seen.Keys && keys != {}
    ensures x in keys && forall y :: y in keys && y != x ==> Older(v, x, y)
    decreases keys
  {
    var first :| first in keys;
    x := first;
    if keys != {first} {
      var rest := LeastOf(v, keys - {first});
      x := if Older(v, rest, first) then rest else first;
      forall y | y in keys && y != x ensures Older(v, x, y) {
        OlderTotal(v, rest, first, y);
        OlderTotal(v, first, rest, y);
      }
    }
  }

  lemma OldestExists(v: View)
    requires ViewOk(v) && v.sessions.Keys != {}
    ensures exists x :: IsOldest(v, x)
  {
    var x := LeastOf(v, v.seen.Keys);
    assert IsOldest(v, x);
  }

  /** The entry `min` stops at: least time, first inserted among equals. */
  predicate IsLeast(seen: map<Sid, int>, born: map<Sid, nat>, x: Sid) {
    x in seen && x in born && forall y :: y in seen && y in born && y != x ==>
      seen[x] < seen[y] || (seen[x] == seen[y] && born[x] < born[y])
  }

  lemma LeastIsOldest(v: View, x: Sid)
    requires ViewOk(v)
    ensures IsLeast(v.seen, v.born, x) <==> IsOldest(v, x)
    ensures IsOldest(v, x) ==> x in v.seen
  {
    assert forall y :: y in v.seen <==> y in v.born;
  }

  lemma InSeenInSessions(v: View, x: Sid)
    requires ViewOk(v)
    ensures IsOldest(v, x) ==> x in v.sessions
  {
  }

  lemma OldestUnique(v: View, x: Sid, y: Sid)
    requires ViewOk(v) && IsOldest(v, x) && IsOldest(v, y)
    ensures x == y
  {
  }

  ghost function Oldest(v: View): (x: Sid)
    requires ViewOk(v) && v.sessions.Keys != {}
    ensures IsOldest(v, x)
  {
    OldestExists(v);
    var x :| IsOldest(v, x);
    x
  }

  lemma DroppedOk(v: View, drop: set<Sid>)
    requires ViewOk(v)
    ensures ViewOk(Dropped(v, drop)) && Dropped(v, drop).sessions.Keys == v.sessions.Keys - drop
    ensures |Dropped(v, drop).sessions| <= |v.sessions|
    ensures forall x :: x in v.sessions && drop == {x} ==> |Dropped(v, drop).sessions| == |v.sessions| - 1
  {
    assert Dropped(v, drop).sessions.Keys == v.sessions.Keys - drop;
    assert |v.sessions.Keys - drop| <= |v.sessions.Keys|;
  }

  lemma DropTwice(v: View, a: set<Sid>, b: set<Sid>)
    ensures Dropped(Dropped(v, a), b) == Dropped(v, a + b)
  {
    var w, u := Dropped(Dropped(v, a), b), Dropped(v, a + b);
    assert w.sessions == u.sessions;
    assert w.seen == u.seen;
    assert w.born == u.born;
  }

  /** _evict_lru_if_needed. */
  ghost function EvictedTo(v: View, max: nat): View
    requires ViewOk(v)
    decreases |v.sessions|
  {
    if |v.sessions| <= max then v
    else
      var x := Oldest(v);
      DroppedOk(v, {x});
      EvictedTo(Dropped(v, {x}), max)
  }

  function Inserted(v: View, sid: Sid, context: Context, now: int): View {
    View(v.sessions[sid := context], v.seen[sid := now], v.born[sid := v.stamp], v.stamp + 1)
  }

  function Touched(v: View, sid: Sid, context: Context, now: int): View {
    v.(sessions := v.sessions[sid := context], seen := v.seen[sid := now])
  }

  predicate Attributable(owner: Option<string>) { owner.Some? && owner.value != "" }

  function Updated(c: Context, contextType: Option<string>, entityId: Option<string>): Context {
    c.(contextType := if contextType.Some? then contextType else c.contextType,
       entityId := if entityId.Some? then entityId else c.entityId)
  }

  /** _get_or_create_local. */
  ghost function GotOrCreated(v: View, max: nat, ttl: int, now: int, sid: Sid, asked: Context): (View, Outcome)
    requires ViewOk(v)
  {
    DroppedOk(v, Expired(v, now, ttl));
    var p := Purged(v, now, ttl);
    if sid !in p.sessions then
      InsertedOk(p, sid, asked, now);
      var e := EvictedTo(Inserted(p, sid, asked, now), max);
      (e, if sid in e.sessions then Served(e.sessions[sid]) else KeyError)
    else if !Attributable(asked.owner) || p.sessions[sid].owner != asked.owner then (p, OwnershipError)
    else
      var context := Updated(p.sessions[sid], asked.contextType, asked.entityId);
      (Touched(p, sid, context, now), Served(context))
  }

  /** _get_local. */
  function Looked(v: View, ttl: int, now: int, sid: Sid): (View, Option<Context>) {
    var p := Purged(v, now, ttl);
    if sid in p.sessions then (Touched(p, sid, p.sessions[sid], now), Some(p.sessions[sid])) else (p, None)
  }

  lemma InsertedOk(v: View, sid: Sid, context: Context, now: int)
    requires ViewOk(v) && sid !in v.sessions
    ensures ViewOk(Inserted(v, sid, context, now))
    ensures |Inserted(v, sid, context, now).sessions| == |v.sessions| + 1
  {
    var v' := Inserted(v, sid, context, now);
    assert v'.sessions.Keys == v.sessions.Keys + {sid} && v'.seen.Keys == v.seen.Keys + {sid} && v'.born.Keys == v.born.Keys + {sid};
  }

  lemma TouchedOk(v: View, sid: Sid, context: Context, now: int)
    requires ViewOk(v) && sid in v.sessions
    ensures ViewOk(Touched(v, sid, context, now))
    ensures |Touched(v, sid, context, now).sessions| == |v.sessions|
  {
    var v' := Touched(v, sid, context, now);
    assert v'.sessions.Keys == v.sessions.Keys && v'.seen.Keys == v.seen.Keys;
  }

  // --- the store as it runs -------------------------------------------------------------

  class Store {
    const ttl: int
    const max: nat
    var sessions: map<Sid, Context>
    var seen: map<Sid, int>
    var born: map<Sid, nat>
    var stamp: nat

    ghost function Now(): View reads this { View(sessions, seen, born, stamp) }

    ghost predicate Valid() reads this { ViewOk(Now()) && |sessions| <= max }

    constructor (ttl: int, max: nat)
      ensures Valid() && this.ttl == ttl && this.max == max && Now() == View(map[], map[], map[], 0)
    {
      this.ttl, this.max := ttl, max;
      sessions, seen, born, stamp := map[], map[], map[], 0;
    }

    method Pop(sid: Sid)
      requires ViewOk(Now())
      modifies this`sessions, this`seen, this`born
      ensures Now() == Dropped(old(Now()), {sid}) && ViewOk(Now())
    {
      DroppedOk(Now(), {sid});
      sessions := sessions - {sid};
      seen := seen - {sid};
      born := born - {sid};
    }

    method PurgeExpired(now: int)
      requires ViewOk(Now())
      modifies this`sessions, this`seen, this`born
      ensures Now() == Purged(old(Now()), now, ttl) && ViewOk(Now()) && |sessions| <= |old(sessions)|
    {
      hide ViewOk, Dropped, Expired;
      ghost var before := Now();
      var expired := Expired(View(sessions, seen, born, stamp), now, ttl);
      var left := expired;
      NothingDropped(before);
      assert expired - left == {};
      while left != {}
        invariant left <= expired
        invariant ViewOk(Now()) && Now() == Dropped(before, expired - left)
        decreases left
      {
        var sid :| sid in left;
        Pop(sid);
        DropTwice(before, expired - left, {sid});
        assert expired - left + {sid} == expired - (left - {sid});
        left := left - {sid};
      }
      assert expired - left == expired;
      DroppedOk(before, expired);
    }

    /** `min(self._seen, key=self._seen.get)`. */
    method PickOldest() returns (oldest: Sid)
      requires ViewOk(Now()) && |sessions| > 0
      ensures IsOldest(Now(), oldest) && oldest == Oldest(Now())
    {
      hide ViewOk, IsOldest, IsLeast;
      LeastIsOldest(Now(), Oldest(Now()));
      oldest :| oldest in seen && IsLeast(seen, born, oldest);
      LeastIsOldest(Now(), oldest);
      OldestUnique(Now(), oldest, Oldest(Now()));
    }

    method EvictLruIfNeeded()
      requires ViewOk(Now())
      modifies this`sessions, this`seen, this`born
      ensures Now() == EvictedTo(old(Now()), max) && ViewOk(Now()) && |sessions| <= max
    {
      hide ViewOk, Dropped, IsOldest;
      while |sessions| > max
        invariant ViewOk(Now()) && EvictedTo(Now(), max) == EvictedTo(old(Now()), max)
        decreases |sessions|
      {
        var oldest := PickOldest();
        InSeenInSessions(Now(), oldest);
        DroppedOk(Now(), {oldest});
        Pop(oldest);
      }
    }

    method GetOrCreate(now: int, sid: Sid, asked: Context) returns (outcome: Outcome)
      requires Valid()
      modifies this`sessions, this`seen, this`born, this`stamp
      ensures Valid()
      ensures (Now(), outcome) == GotOrCreated(old(Now()), max, ttl, now, sid, asked)
    {
      hide ViewOk, Purged;
      PurgeExpired(now);
      if sid !in sessions {
        InsertedOk(Now(), sid, asked, now);
        sessions := sessions[sid := asked];
        seen, born, stamp := seen[sid := now], born[sid := stamp], stamp + 1;
        EvictLruIfNeeded();
        return if sid in sessions then Served(sessions[sid]) else KeyError;
      }
      var existing := sessions[sid];
      if !Attributable(asked.owner) || existing.owner != asked.owner {
        return OwnershipError;
      }
      if asked.contextType.Some? {
        existing := existing.(contextType := asked.contextType);
      }
      if asked.entityId.Some? {
        existing := existing.(entityId := asked.entityId);
      }
      TouchedOk(Now(), sid, existing, now);
      sessions := sessions[sid := existing];
      seen := seen[sid := now];
      outcome := Served(existing);
    }

    method Get(now: int, sid: Sid) returns (context: Option<Context>)
      requires Valid()
      modifies this`sessions, this`seen, this`born
      ensures Valid()
      ensures (Now(), context) == Looked(old(Now()), ttl, now, sid)
    {
      hide ViewOk, Purged;
      PurgeExpired(now);
      if sid in sessions {
        TouchedOk(Now(), sid, sessions[sid], now);
        assert sessions[sid := sessions[sid]] == sessions;
        seen := seen[sid := now];
        context := Some(sessions[sid]);
      } else {
        context := None;
      }
    }
  }

  lemma NothingDropped(v: View)
    ensures Dropped(v, {}) == v
  {
  }

  // --- what the operations mean ------------------------------------------------------------

  predicate AllOlder(v: View, gone: set<Sid>) {
    forall x, y :: x in gone && y in v.seen && y !in gone ==>
      x in v.seen && x in v.born && y in v.born && Older(v, x, y)
  }

  lemma OldestFirst(v: View, x: Sid, more: set<Sid>)
    requires ViewOk(v) && IsOldest(v, x) && AllOlder(Dropped(v, {x}), more)
    ensures AllOlder(v, {x} + more)
  {
    hide ViewOk;
    SameKeys(v);
    var w := Dropped(v, {x});
    forall a, b | a in {x} + more && b in v.seen && b !in {x} + more
      ensures a in v.seen && a in v.born && b in v.born && Older(v, a, b)
    {
      assert b in w.seen;
      if a in more {
        assert Older(w, a, b);
      }
    }
  }

  lemma SameKeys(v: View)
    requires ViewOk(v)
    ensures forall x :: x in v.seen <==> x in v.born
  {
  }

  /** The eviction removes the least recently seen entries, and no more than it must. */
  lemma {:induction false} EvictionIsLru(v: View, max: nat) returns (gone: set<Sid>)
    requires ViewOk(v)
    ensures EvictedTo(v, max) == Dropped(v, gone)
    ensures |EvictedTo(v, max).sessions| == if |v.sessions| <= max then |v.sessions| else max
    ensures AllOlder(v, gone)
    decreases |v.sessions|
  {
    hide ViewOk, Dropped, IsOldest;
    gone := {};
    NothingDropped(v);
    if |v.sessions| > max {
      var x := Oldest(v);
      InSeenInSessions(v, x);
      DroppedOk(v, {x});
      var more := EvictionIsLru(Dropped(v, {x}), max);
      DropTwice(v, {x}, more);
      OldestFirst(v, x, more);
      gone := {x} + more;
    }
  }

  /**
    The lookup after creating a session finds it exactly when the bound is at
    least one; then it returns the context asked for.
   */
  lemma CreatedSurvivesExactlyWhen(v: View, max: nat, ttl: int, now: int, sid: Sid, asked: Context)
    requires ViewOk(v) && Clock(v, now) && sid !in Purged(v, now, ttl).sessions
    ensures GotOrCreated(v, max, ttl, now, sid, asked).1 == if max >= 1 then Served(asked) else KeyError
  {
    hide ViewOk, EvictedTo, Clock, Purged, Inserted;
    DroppedOk(v, Expired(v, now, ttl));
    var p := Purged(v, now, ttl);
    PurgedFacts(v, now, ttl);
    InsertedOk(p, sid, asked, now);
    InsertedEvicted(p, max, now, sid, asked);
  }

  lemma PurgedFacts(v: View, now: int, ttl: int)
    requires ViewOk(v) && Clock(v, now)
    ensures ViewOk(Purged(v, now, ttl)) && Clock(Purged(v, now, ttl), now)
  {
    hide ViewOk;
    DroppedOk(v, Expired(v, now, ttl));
  }

  lemma InsertedEvicted(p: View, max: nat, now: int, sid: Sid, asked: Context)
    requires ViewOk(p) && Clock(p, now) && sid !in p.sessions
    ensures ViewOk(Inserted(p, sid, asked, now))
    ensures var e := EvictedTo(Inserted(p, sid, asked, now), max);
      if max >= 1 then sid in e.sessions && e.sessions[sid] == asked else sid !in e.sessions
  {
    hide ViewOk, AllOlder, EvictedTo, Clock;
    InsertedOk(p, sid, asked, now);
    var i := Inserted(p, sid, asked, now);
    var gone := EvictionIsLru(i, max);
    if max == 0 {
      assert |EvictedTo(i, max).sessions.Keys| == 0;
    } else {
      assert |EvictedTo(i, max).sessions.Keys| > 0;
      var y :| y in EvictedTo(i, max).sessions.Keys;
      if y != sid {
        NewestStays(p, sid, asked, now, gone, y);
      }
    }
  }

  /** The entry just inserted is not evicted while another stays. */
  lemma NewestStays(p: View, sid: Sid, asked: Context, now: int, gone: set<Sid>, y: Sid)
    requires ViewOk(p) && sid !in p.sessions && Clock(p, now) && y in p.sessions && y !in gone
    requires AllOlder(Inserted(p, sid, asked, now), gone)
    ensures sid !in gone
  {
    NewestIsNotOlder(p, sid, asked, now, y);
  }

  lemma NewestIsNotOlder(p: View, sid: Sid, asked: Context, now: int, y: Sid)
    requires ViewOk(p) && sid !in p.sessions && Clock(p, now) && y in p.sessions
    ensures y in Inserted(p, sid, asked, now).seen && y in Inserted(p, sid, asked, now).born
    ensures !Older(Inserted(p, sid, asked, now), sid, y)
  {
  }

  lemma PurgeKeepsContext(v: View, now: int, ttl: int, x: Sid)
    requires ViewOk(v) && x in v.sessions && x !in Expired(v, now, ttl)
    ensures ViewOk(Purged(v, now, ttl))
    ensures x in Purged(v, now, ttl).sessions && Purged(v, now, ttl).sessions[x] == v.sessions[x]
  {
    hide ViewOk, Expired;
    DroppedOk(v, Expired(v, now, ttl));
  }

  lemma InsertKeepsContext(p: View, max: nat, now: int, sid: Sid, asked: Context, x: Sid)
    requires ViewOk(p) && sid !in p.sessions && x in p.sessions
    ensures ViewOk(Inserted(p, sid, asked, now))
    ensures var e := EvictedTo(Inserted(p, sid, asked, now), max); x in e.sessions ==> e.sessions[x] == p.sessions[x]
  {
    hide ViewOk, AllOlder, EvictedTo;
    InsertedOk(p, sid, asked, now);
    var gone := EvictionIsLru(Inserted(p, sid, asked, now), max);
  }

  /** The three ways a request can end, on the purged store. */
  lemma GotCases(v: View, max: nat, ttl: int, now: int, sid: Sid, asked: Context)
    requires ViewOk(v)
    ensures var (v', outcome) := GotOrCreated(v, max, ttl, now, sid, asked); var p := Purged(v, now, ttl);
      && ViewOk(p)
      && (sid !in p.sessions ==> ViewOk(Inserted(p, sid, asked, now)) && v' == EvictedTo(Inserted(p, sid, asked, now), max))
      && (sid in p.sessions && outcome.Served? ==>
            Attributable(asked.owner) && p.sessions[sid].owner == asked.owner && v' == Touched(p, sid, outcome.context, now)
            && outcome.context == Updated(p.sessions[sid], asked.contextType, asked.entityId))
      && (sid in p.sessions && !outcome.Served? ==> v' == p)
  {
    hide ViewOk, EvictedTo, Purged, Inserted, Expired, Attributable, Updated, Touched;
    DroppedOk(v, Expired(v, now, ttl));
    assert Purged(v, now, ttl) == Dropped(v, Expired(v, now, ttl)) by { PurgedIs(v, now, ttl); }
    if sid !in Purged(v, now, ttl).sessions {
      InsertedOk(Purged(v, now, ttl), sid, asked, now);
    }
  }

  lemma PurgedIs(v: View, now: int, ttl: int)
    ensures Purged(v, now, ttl) == Dropped(v, Expired(v, now, ttl))
  {
    hide Dropped, Expired;
  }

  lemma OwnerWhenAsked(v: View, max: nat, ttl: int, now: int, sid: Sid, asked: Context, x: Sid)
    requires ViewOk(v) && x in v.sessions && x !in Expired(v, now, ttl)
    ensures var (v', outcome) := GotOrCreated(v, max, ttl, now, sid, asked);
      && (x in v'.sessions ==> v'.sessions[x].owner == v.sessions[x].owner)
      && (x == sid && outcome.Served? ==> Attributable(asked.owner) && asked.owner == v.sessions[x].owner)
  {
    hide GotOrCreated, ViewOk, EvictedTo, Purged, Inserted, Expired, Attributable;
    GotCases(v, max, ttl, now, sid, asked);
    PurgeKeepsContext(v, now, ttl, x);
    if sid !in Purged(v, now, ttl).sessions {
      InsertKeepsContext(Purged(v, now, ttl), max, now, sid, asked, x);
    }
  }

  lemma OwnerWhenLooked(v: View, ttl: int, now: int, sid: Sid, x: Sid)
    requires ViewOk(v) && x in v.sessions && x !in Expired(v, now, ttl)
    ensures var v' := Looked(v, ttl, now, sid).0; x in v'.sessions && v'.sessions[x].owner == v.sessions[x].owner
  {
    hide ViewOk, Purged, Expired;
    PurgeKeepsContext(v, now, ttl, x);
  }

  /** A session alive at `now` keeps its owner, and only that owner is served. */
  lemma OwnerNeverChanges(v: View, max: nat, ttl: int, now: int, sid: Sid, asked: Context, x: Sid)
    requires ViewOk(v) && x in v.sessions && x !in Expired(v, now, ttl)
    ensures var (v', outcome) := GotOrCreated(v, max, ttl, now, sid, asked);
      && (x in v'.sessions ==> v'.sessions[x].owner == v.sessions[x].owner)
      && (x == sid && outcome.Served? ==> Attributable(asked.owner) && asked.owner == v.sessions[x].owner)
    ensures var v' := Looked(v, ttl, now, sid).0; x in v'.sessions && v'.sessions[x].owner == v.sessions[x].owner
  {
    hide GotOrCreated, Looked, Expired, ViewOk;
    OwnerWhenAsked(v, max, ttl, now, sid, asked, x);
    OwnerWhenLooked(v, ttl, now, sid, x);
  }

  /** A request served at `now` gets its own user's context, and starts the session's time to live again. */
  lemma ServedStaysAlive(v: View, max: nat, ttl: int, now: int, later: int, sid: Sid, asked: Context)
    requires ViewOk(v) && later - now <= Threshold(ttl)
    ensures var (v', outcome) := GotOrCreated(v, max, ttl, now, sid, asked);
      outcome.Served? ==>
        (sid in v'.sessions && sid !in Expired(v', later, ttl)
         && outcome.context == v'.sessions[sid] && outcome.context.owner == asked.owner)
    ensures var (v', found) := Looked(v, ttl, now, sid);
      found.Some? ==> (sid in v'.sessions && sid !in Expired(v', later, ttl) && found.value == v.sessions[sid])
  {
    hide ViewOk, AllOlder, EvictedTo;
    DroppedOk(v, Expired(v, now, ttl));
    var p := Purged(v, now, ttl);
    if sid !in p.sessions {
      InsertedOk(p, sid, asked, now);
      var gone := EvictionIsLru(Inserted(p, sid, asked, now), max);
    }
  }

  /** Last seen no longer ago than the time to live; without one, not before `now`. */
  predicate Alive(v: View, now: int, ttl: int, sid: Sid) {
    sid in v.sessions && sid in v.seen && (now <= v.seen[sid] || now <= v.seen[sid] + ttl)
  }

  lemma PurgedIsAlive(v: View, now: int, ttl: int, x: Sid)
    requires ViewOk(v)
    ensures x in Purged(v, now, ttl).sessions <==> Alive(v, now, ttl, x)
    ensures x in Purged(v, now, ttl).sessions ==> Purged(v, now, ttl).sessions[x] == v.sessions[x]
  {
  }

  /** A lookup finds exactly the sessions still alive, as they were, and forgets the others. */
  lemma FoundExactlyWhen(v: View, ttl: int, now: int, sid: Sid, x: Sid)
    requires ViewOk(v)
    ensures Looked(v, ttl, now, sid).1 == if Alive(v, now, ttl, sid) then Some(v.sessions[sid]) else None
    ensures x in Looked(v, ttl, now, sid).0.sessions <==> Alive(v, now, ttl, x)
    ensures Alive(v, now, ttl, sid) ==> Looked(v, ttl, now, sid).0.seen[sid] == now
  {
    hide ViewOk, Purged, Alive;
    PurgedIsAlive(v, now, ttl, sid);
    PurgedIsAlive(v, now, ttl, x);
  }

  /**
    What a request gets: its own session with what it names replaced and the rest
    kept, an error for anyone else, and a new session when none is alive.
   */
  lemma AnswersExactlyWhen(v: View, max: nat, ttl: int, now: int, sid: Sid, asked: Context)
    requires ViewOk(v) && Clock(v, now)
    ensures var outcome := GotOrCreated(v, max, ttl, now, sid, asked).1;
      if !Alive(v, now, ttl, sid) then outcome == if max >= 1 then Served(asked) else KeyError
      else if asked.owner == None || asked.owner == Some("") || asked.owner != v.sessions[sid].owner then outcome == OwnershipError
      else
        var was := v.sessions[sid];
        && outcome.Served? && outcome.context.owner == was.owner
        && outcome.context.contextType == (match asked.contextType case None => was.contextType case Some(x) => Some(x))
        && outcome.context.entityId == (match asked.entityId case None => was.entityId case Some(x) => Some(x))
  {
    PurgedIsAlive(v, now, ttl, sid);
    hide ViewOk, Purged, Alive, Clock, EvictedTo, Inserted, Expired;
    if sid !in Purged(v, now, ttl).sessions {
      CreatedSurvivesExactlyWhen(v, max, ttl, now, sid, asked);
    }
  }

  // --- the Postgres eviction --------------------------------------------------------------------

  /** `ORDER BY last_seen_at ASC, session_id ASC`. */
  predicate Earlier(rows: map<Sid, int>, x: Sid, y: Sid)
    requires x in rows && y in rows
  {
    rows[x] < rows[y] || (rows[x] == rows[y] && x < y)
  }

  function EarlierThan(rows: map<Sid, int>, y: Sid): set<Sid>
    requires y in rows
  {
    set x | x in rows && Earlier(rows, x, y)
  }

  function LaterThan(rows: map<Sid, int>, y: Sid): set<Sid>
    requires y in rows
  {
    set x | x in rows && Earlier(rows, y, x)
  }

  /** _evict_lru_pg as written: the rows from position `max` of the ascending order are deleted. */
  function KeptByQuery(rows: map<Sid, int>, max: nat): set<Sid> { set y | y in rows && |EarlierThan(rows, y)| < max }

  /** What its docstring says: the `max` most recently seen rows are kept. */
  function KeptByIntent(rows: map<Sid, int>, max: nat): set<Sid> { set y | y in rows && |LaterThan(rows, y)| < max }

  lemma {:induction false} EarliestOf(rows: map<Sid, int>, keys: set<Sid>) returns (x: Sid)
    requires keys <= rows.Keys && keys != {}
    ensures x in keys && forall y :: y in keys && y != x ==> Earlier(rows, x, y)
    decreases keys
  {
    var first :| first in keys;
    x := first;
    if keys != {first} {
      var rest := EarliestOf(rows, keys - {first});
      x := if Earlier(rows, rest, first) then rest else first;
      forall y | y in keys && y != x ensures Earlier(rows, x, y) {
        assert y == first || y == rest || Earlier(rows, rest, y);
      }
    }
  }

  lemma RankSplit(rows: map<Sid, int>, y: Sid)
    requires y in rows
    ensures |EarlierThan(rows, y)| + |LaterThan(rows, y)| + 1 == |rows|
  {
    assert EarlierThan(rows, y) + LaterThan(rows, y) + {y} == rows.Keys;
    assert |EarlierThan(rows, y) + LaterThan(rows, y)| == |EarlierThan(rows, y)| + |LaterThan(rows, y)|;
  }

  /** The query keeps the set its docstring names only while nothing has to go, or nothing may stay. */
  lemma QueryMeetsIntentExactlyWhen(rows: map<Sid, int>, max: nat)
    ensures KeptByQuery(rows, max) == KeptByIntent(rows, max) <==> |rows| <= max || max == 0
  {
    forall y | y in rows ensures |EarlierThan(rows, y)| + |LaterThan(rows, y)| + 1 == |rows| {
      RankSplit(rows, y);
    }
    if |rows| <= max {
      assert KeptByQuery(rows, max) == rows.Keys == KeptByIntent(rows, max);
    } else if max > 0 {
      assert |rows.Keys| > 0;
      var x := EarliestOf(rows, rows.Keys);
      assert EarlierThan(rows, x) == {};
      assert x in KeptByQuery(rows, max) && x !in KeptByIntent(rows, max);
    }
  }

  /** So a session just created, being the latest, is deleted again exactly when the table was full. */
  lemma CreatedRowIsLostExactlyWhen(rows: map<Sid, int>, max: nat, sid: Sid, now: int)
    requires sid !in rows && forall x :: x in rows ==> rows[x] < now
    ensures sid in KeptByQuery(rows[sid := now], max) <==> |rows| < max
  {
    var rows' := rows[sid := now];
    assert EarlierThan(rows', sid) == rows.Keys;
  }
}
