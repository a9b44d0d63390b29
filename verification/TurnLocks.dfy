/**
  One lock per chat session, in a table with LRU eviction (locks.py).

  A turn asks the table for its session's lock, waits for that lock object, runs
  and releases it. Lock objects are identities that are never reused.
 */
module TurnLocks {

  type Sid = nat
  type LockId = nat

  /** `_locks` and `_seen`, and the next unused lock identity. */
  datatype Table = Table(locks: map<Sid, LockId>, seen: map<Sid, int>, nextId: LockId)

  ghost predicate Oldest(seen: map<Sid, int>, sid: Sid) {
    sid in seen && forall x :: x in seen ==> seen[sid] <= seen[x]
  }

  function Evicted(t: Table, sid: Sid): Table {
    t.(locks := map x | x in t.locks && x != sid :: t.locks[x], seen := map x | x in t.seen && x != sid :: t.seen[x])
  }

  predicate MustEvict(max: nat, t: Table, sid: Sid) { sid !in t.locks && |t.locks| >= max }

  /** get_session_lock, with `oldest` the entry `min` picks when it has to evict one. */
  function Got(max: nat, t: Table, sid: Sid, now: int, oldest: Sid): (Table, LockId) {
    if sid in t.locks then (t.(seen := t.seen[sid := now]), t.locks[sid])
    else
      var t1 := if |t.locks| >= max then Evicted(t, oldest) else t;
      (Added(t1, sid, now), t1.nextId)
  }

  ghost predicate TableOk(max: nat, t: Table) {
    && t.locks.Keys == t.seen.Keys
    && |t.locks| <= max
    && (forall x :: x in t.locks ==> t.locks[x] < t.nextId)
    && (forall x, y :: x in t.locks && y in t.locks && t.locks[x] == t.locks[y] ==> x == y)
  }

  lemma EvictedSize(max: nat, t: Table, sid: Sid)
    requires TableOk(max, t) && sid in t.locks
    ensures |Evicted(t, sid).locks| == |t.locks| - 1 && TableOk(max, Evicted(t, sid))
  {
    assert Evicted(t, sid).locks.Keys == t.locks.Keys - {sid};
    assert Evicted(t, sid).seen.Keys == t.seen.Keys - {sid};
  }

  function Added(t: Table, sid: Sid, now: int): Table {
    Table(t.locks[sid := t.nextId], t.seen[sid := now], t.nextId + 1)
  }

  lemma AddedKeepsTable(max: nat, t: Table, sid: Sid, now: int)
    requires TableOk(max, t) && sid !in t.locks && |t.locks| < max
    ensures TableOk(max, Added(t, sid, now))
  {
    var t' := Added(t, sid, now);
    assert t'.locks.Keys == t.locks.Keys + {sid} && t'.seen.Keys == t.seen.Keys + {sid};
    assert |t'.locks.Keys| == |t.locks.Keys| + 1;
  }

  /** The table never outgrows its bound and its two dictionaries keep the same keys. */
  lemma GotKeepsTable(max: nat, t: Table, sid: Sid, now: int, oldest: Sid)
    requires max >= 1 && TableOk(max, t) && (MustEvict(max, t, sid) ==> Oldest(t.seen, oldest))
    ensures TableOk(max, Got(max, t, sid, now, oldest).0)
  {
    if sid in t.locks {
      assert t.seen[sid := now].Keys == t.seen.Keys;
    } else if |t.locks| >= max {
      EvictedSize(max, t, oldest);
      AddedKeepsTable(max, Evicted(t, oldest), sid, now);
    } else {
      AddedKeepsTable(max, t, sid, now);
    }
  }

  /** The module's two dictionaries as they change in place. */
  class SessionLocks {
    const max: nat
    var locks: map<Sid, LockId>
    var seen: map<Sid, int>
    var nextId: LockId

    ghost predicate Valid() reads this { max >= 1 && TableOk(max, View()) }

    ghost function View(): Table reads this { Table(locks, seen, nextId) }

    constructor (max: nat)
      requires max >= 1
      ensures Valid() && this.max == max && View() == Table(map[], map[], 0)
    {
      this.max := max;
      locks, seen, nextId := map[], map[], 0;
    }

    method EvictOldest() returns (ghost oldest: Sid)
      requires Valid() && |locks| >= max
      modifies this`locks, this`seen
      ensures Oldest(old(seen), oldest) && View() == Evicted(old(View()), oldest)
    {
      hide TableOk;
      FullHasOldest(max, View());
      var first :| first in seen && forall x :: x in seen ==> seen[first] <= seen[x];
      oldest := first;
      locks := map x | x in locks && x != first :: locks[x];
      seen := map x | x in seen && x != first :: seen[x];
    }

    method GetSessionLock(sid: Sid, now: int) returns (lock: LockId, ghost oldest: Sid)
      requires Valid()
      modifies this
      ensures Valid()
      ensures MustEvict(max, old(View()), sid) ==> Oldest(old(seen), oldest)
      ensures (View(), lock) == Got(max, old(View()), sid, now, oldest)
    {
      hide TableOk, Evicted, Oldest;
      oldest := sid;
      ghost var before := View();
      if sid in locks {
        lock := locks[sid];
      } else {
        if |locks| >= max {
          oldest := EvictOldest();
        }
        lock := nextId;
        nextId := nextId + 1;
        locks := locks[sid := lock];
      }
      seen := seen[sid := now];
      GotKeepsTable(max, before, sid, now, oldest);
    }
  }

  lemma {:induction false} MinExists(seen: map<Sid, int>, keys: set<Sid>) returns (least: Sid)
    requires keys != {} && keys <= seen.Keys
    ensures least in keys && forall x :: x in keys ==> seen[least] <= seen[x]
    decreases keys
  {
    least :| least in keys;
    if keys != {least} {
      var rest := MinExists(seen, keys - {least});
      if seen[rest] < seen[least] {
        least := rest;
      }
    }
  }

  lemma FullHasOldest(max: nat, t: Table)
    requires TableOk(max, t) && |t.locks| >= max >= 1
    ensures exists x :: Oldest(t.seen, x)
  {
    assert |t.seen.Keys| >= 1;
    var least := MinExists(t.seen, t.seen.Keys);
    assert Oldest(t.seen, least);
  }

  // --- turns ---------------------------------------------------------------------------

  datatype Phase = Waiting | Running | Done

  /** `others`: the sessions requested since this turn asked for its lock. */
  datatype Turn = Turn(sid: Sid, at: int, lock: LockId, phase: Phase, others: set<Sid>)

  datatype State = State(table: Table, turns: seq<Turn>, held: map<LockId, nat>, clock: int)

  datatype Label = Request(sid: Sid, now: int, oldest: Sid) | Acquire(turn: nat) | Timeout(turn: nat) | Release(turn: nat)

  predicate Active(t: Turn) { t.phase != Done }

  ghost predicate Enabled(max: nat, s: State, l: Label) {
    match l
    case Request(sid, now, oldest) =>
      s.clock <= now && (MustEvict(max, s.table, sid) ==> Oldest(s.table.seen, oldest))
    case Acquire(t) => t < |s.turns| && s.turns[t].phase == Waiting && s.turns[t].lock !in s.held
    case Timeout(t) => t < |s.turns| && s.turns[t].phase == Waiting
    case Release(t) => t < |s.turns| && s.turns[t].phase == Running
  }

  function Noted(turns: seq<Turn>, sid: Sid): seq<Turn> {
    seq(|turns|, i requires 0 <= i < |turns| =>
      if Active(turns[i]) && turns[i].sid != sid then turns[i].(others := turns[i].others + {sid}) else turns[i])
  }

  /** The other sessions already stamped `now`: a tie counts as requested since. */
  function Since(seen: map<Sid, int>, sid: Sid, now: int): set<Sid> {
    set x | x in seen && x != sid && seen[x] >= now
  }

  function SetPhase(s: State, t: nat, phase: Phase): State
    requires t < |s.turns|
  {
    s.(turns := s.turns[t := s.turns[t].(phase := phase)])
  }

  function After(max: nat, s: State, l: Label): State
    requires Enabled(max, s, l)
  {
    match l
    case Request(sid, now, oldest) =>
      var (table, lock) := Got(max, s.table, sid, now, oldest);
      State(table, Noted(s.turns, sid) + [Turn(sid, now, lock, Waiting, Since(table.seen, sid, now))], s.held, now)
    case Acquire(t) => SetPhase(s, t, Running).(held := s.held[s.turns[t].lock := t])
    case Timeout(t) => SetPhase(s, t, Done)
    case Release(t) => SetPhase(s, t, Done).(held := map x | x in s.held && x != s.turns[t].lock :: s.held[x])
  }

  /** During every turn in progress fewer than `max` other sessions have been requested. */
  ghost predicate Bounded(max: nat, s: State) {
    forall t :: 0 <= t < |s.turns| && Active(s.turns[t]) ==> |s.turns[t].others| < max
  }

  ghost predicate Run(max: nat, s: State, ls: seq<Label>, s': State)
    decreases |ls|
  {
    if ls == [] then s' == s
    else Enabled(max, s, ls[0]) && Run(max, After(max, s, ls[0]), ls[1..], s')
  }

  ghost predicate BoundedRun(max: nat, s: State, ls: seq<Label>)
    decreases |ls|
  {
    Bounded(max, s) && (ls == [] || (Enabled(max, s, ls[0]) && BoundedRun(max, After(max, s, ls[0]), ls[1..])))
  }

  const EMPTY := State(Table(map[], map[], 0), [], map[], 0)

  ghost predicate TurnOk(s: State, i: nat)
    requires i < |s.turns|
  {
    var t := s.turns[i];
    && (Active(t) ==>
      && t.at <= s.clock
      && t.sid in s.table.locks && s.table.locks[t.sid] == t.lock
      && t.sid in s.table.seen && t.at <= s.table.seen[t.sid]
      && forall x :: x in s.table.seen && x != t.sid && t.at <= s.table.seen[x] ==> x in t.others)
    && (t.phase == Running ==> t.lock in s.held && s.held[t.lock] == i)
  }

  /** A lock is held by a running turn that asked for it. */
  ghost predicate HeldOk(s: State) {
    forall x :: x in s.held ==>
      && s.held[x] < |s.turns| && s.turns[s.held[x]].phase == Running && s.turns[s.held[x]].lock == x
      && x < s.table.nextId
  }

  ghost predicate Inv(max: nat, s: State) {
    && TableOk(max, s.table)
    && HeldOk(s)
    && (forall x :: x in s.table.seen ==> s.table.seen[x] <= s.clock)
    && forall i :: 0 <= i < |s.turns| ==> TurnOk(s, i)
  }

  /** At most one turn of a session runs at a time. */
  ghost predicate Exclusive(s: State) {
    forall i, j :: 0 <= i < j < |s.turns| && s.turns[i].phase == s.turns[j].phase == Running ==>
      s.turns[i].sid != s.turns[j].sid
  }

  /** Evicting the session of a turn in progress takes `max` other sessions requested during it. */
  lemma EvictionNeedsMany(max: nat, s: State, l: Label, i: nat)
    requires max >= 1 && Inv(max, s) && l.Request? && Enabled(max, s, l) && MustEvict(max, s.table, l.sid)
    requires i < |s.turns| && Active(s.turns[i]) && l.oldest == s.turns[i].sid
    ensures |After(max, s, l).turns[i].others| >= max
  {
    var t := s.turns[i];
    assert TurnOk(s, i);
    var rest := s.table.locks.Keys - {t.sid};
    var others := After(max, s, l).turns[i].others;
    assert others == t.others + {l.sid};
    forall x | x in rest ensures x in t.others {
      assert s.table.seen[t.sid] <= s.table.seen[x];
    }
    assert rest + {l.sid} <= others;
    assert |rest| == |s.table.locks.Keys| - 1;
    SubsetSize(rest + {l.sid}, others);
  }

  lemma {:induction false} SubsetSize<T>(a: set<T>, b: set<T>)
    requires a <= b
    ensures |a| <= |b|
  {
    if a != {} {
      var x :| x in a;
      SubsetSize(a - {x}, b - {x});
    }
  }

  /** A request that does not evict turn `i`'s session leaves that turn its lock. */
  lemma OldTurnOk(max: nat, s: State, l: Label, i: nat)
    requires max >= 1 && Inv(max, s) && l.Request? && Enabled(max, s, l) && i < |s.turns|
    requires Active(s.turns[i]) && MustEvict(max, s.table, l.sid) ==> l.oldest != s.turns[i].sid
    ensures TurnOk(After(max, s, l), i)
  {
    assert TurnOk(s, i);
    var s' := After(max, s, l);
    var t, t' := s.turns[i], s'.turns[i];
    if Active(t) {
      forall x | x in s'.table.seen && x != t'.sid && t'.at <= s'.table.seen[x] ensures x in t'.others {
        if x != l.sid {
          assert x in s.table.seen && s'.table.seen[x] == s.table.seen[x];
        }
      }
    }
  }

  lemma NewTurnOk(max: nat, s: State, l: Label)
    requires max >= 1 && Inv(max, s) && l.Request? && Enabled(max, s, l)
    ensures TurnOk(After(max, s, l), |s.turns|)
    ensures forall x :: x in After(max, s, l).table.seen ==> After(max, s, l).table.seen[x] <= l.now
  {
  }

  /** The step evicts the session of turn `i`, which is in progress. */
  ghost predicate Evicts(max: nat, s: State, l: Label, i: nat) {
    i < |s.turns| && Active(s.turns[i]) && l.Request? && MustEvict(max, s.table, l.sid) && l.oldest == s.turns[i].sid
  }

  ghost predicate Clean(max: nat, s: State, l: Label) { forall i :: 0 <= i < |s.turns| ==> !Evicts(max, s, l, i) }

  ghost predicate CleanRun(max: nat, s: State, ls: seq<Label>)
    decreases |ls|
  {
    ls == [] || (Enabled(max, s, ls[0]) && Clean(max, s, ls[0]) && CleanRun(max, After(max, s, ls[0]), ls[1..]))
  }

  lemma HeldStep(max: nat, s: State, l: Label)
    requires max >= 1 && Inv(max, s) && Enabled(max, s, l)
    ensures HeldOk(After(max, s, l))
  {
    hide Since, Oldest;
    if l.Acquire? || l.Release? || l.Timeout? {
      assert TurnOk(s, l.turn);
    }
  }

  lemma RequestKeepsInv(max: nat, s: State, l: Label)
    requires max >= 1 && Inv(max, s) && l.Request? && Enabled(max, s, l) && Clean(max, s, l)
    ensures Inv(max, After(max, s, l))
  {
    var s' := After(max, s, l);
    HeldStep(max, s, l);
    GotKeepsTable(max, s.table, l.sid, l.now, l.oldest);
    NewTurnOk(max, s, l);
    hide TurnOk, TableOk, HeldOk;
    forall i | 0 <= i < |s'.turns| ensures TurnOk(s', i) {
      if i < |s.turns| {
        assert !Evicts(max, s, l, i);
        OldTurnOk(max, s, l, i);
      }
    }
  }

  lemma StepKeepsInv(max: nat, s: State, l: Label)
    requires max >= 1 && Inv(max, s) && Enabled(max, s, l) && Clean(max, s, l)
    ensures Inv(max, After(max, s, l))
  {
    if l.Request? {
      RequestKeepsInv(max, s, l);
    } else {
      var s' := After(max, s, l);
      HeldStep(max, s, l);
      hide HeldOk;
      assert TurnOk(s, l.turn);
      forall i | 0 <= i < |s'.turns| ensures TurnOk(s', i) {
        assert TurnOk(s, i);
      }
    }
  }

  lemma {:induction false} CleanRunKeepsInv(max: nat, s: State, ls: seq<Label>, s': State)
    requires max >= 1 && Inv(max, s) && Run(max, s, ls, s') && CleanRun(max, s, ls)
    ensures Inv(max, s')
    decreases |ls|
  {
    hide Inv, After, Enabled, Clean;
    if ls != [] {
      StepKeepsInv(max, s, ls[0]);
      CleanRunKeepsInv(max, After(max, s, ls[0]), ls[1..], s');
    }
  }

  /** A step that stays within the bound evicts no turn in progress. */
  lemma BoundedIsClean(max: nat, s: State, l: Label)
    requires max >= 1 && Inv(max, s) && Enabled(max, s, l) && Bounded(max, After(max, s, l))
    ensures Clean(max, s, l)
  {
    hide Inv;
    forall i | 0 <= i < |s.turns| ensures !Evicts(max, s, l, i) {
      if Evicts(max, s, l, i) {
        EvictionNeedsMany(max, s, l, i);
      }
    }
  }

  lemma {:induction false} BoundedRunIsClean(max: nat, s: State, ls: seq<Label>)
    requires max >= 1 && Inv(max, s) && BoundedRun(max, s, ls)
    ensures CleanRun(max, s, ls)
    decreases |ls|
  {
    if ls != [] {
      var s1 := After(max, s, ls[0]);
      assert Bounded(max, s1);
      hide Inv, After, Enabled, Clean, Bounded;
      BoundedIsClean(max, s, ls[0]);
      StepKeepsInv(max, s, ls[0]);
      BoundedRunIsClean(max, s1, ls[1..]);
    }
  }

  lemma InvExcludes(max: nat, s: State)
    requires Inv(max, s)
    ensures Exclusive(s)
  {
    forall i, j | 0 <= i < j < |s.turns| && s.turns[i].phase == s.turns[j].phase == Running
      ensures s.turns[i].sid != s.turns[j].sid
    {
      assert TurnOk(s, i) && TurnOk(s, j);
    }
  }

  /**
    Mutual exclusion: in any run in which fewer than `max` other sessions are
    requested during each turn, no session ever has two turns running.
   */
  lemma TurnsExclude(max: nat, ls: seq<Label>, s: State)
    requires max >= 1 && Run(max, EMPTY, ls, s) && BoundedRun(max, EMPTY, ls)
    ensures Exclusive(s)
    ensures s.table.locks.Keys == s.table.seen.Keys && |s.table.locks| <= max
  {
    BoundedRunIsClean(max, EMPTY, ls);
    CleanRunKeepsInv(max, EMPTY, ls, s);
    InvExcludes(max, s);
  }

  // --- which step endangers exclusion ------------------------------------------------------

  /** `s'` is reached from `s` by steps that evict no turn in progress. */
  ghost predicate Leads(max: nat, s: State, ls: seq<Label>, s': State) { Run(max, s, ls, s') && CleanRun(max, s, ls) }

  ghost predicate CanClash(max: nat, s: State) { exists ls, end :: Leads(max, s, ls, end) && !Exclusive(end) }

  lemma Stay(max: nat, s: State)
    ensures Leads(max, s, [], s)
  {
  }

  lemma Step(max: nat, s: State, l: Label, ls: seq<Label>, end: State)
    requires Enabled(max, s, l) && Clean(max, s, l) && Leads(max, After(max, s, l), ls, end)
    ensures Leads(max, s, [l] + ls, end)
  {
    hide After, Enabled, Clean;
    assert ([l] + ls)[1..] == ls;
  }

  /** Turn `i` is in progress, the table has forgotten its session, and of the others only those from `n` on may be. */
  ghost predicate Orphaned(max: nat, s: State, i: nat, n: nat) {
    && i < |s.turns| && Active(s.turns[i]) && s.turns[i].sid !in s.table.locks && s.turns[i].lock < s.table.nextId
    && TableOk(max, s.table) && HeldOk(s)
    && n <= |s.turns| && forall j :: 0 <= j < n && j != i ==> !Active(s.turns[j])
  }

  /** The other turns end one by one. */
  lemma {:induction false} EndOthers(max: nat, s: State, i: nat, n: nat) returns (ls: seq<Label>, end: State)
    requires Orphaned(max, s, i, n)
    ensures Leads(max, s, ls, end) && Orphaned(max, end, i, |end.turns|)
    decreases |s.turns| - n
  {
    if n == |s.turns| {
      ls, end := [], s;
      Stay(max, s);
    } else if n == i || !Active(s.turns[n]) {
      ls, end := EndOthers(max, s, i, n + 1);
    } else {
      var l := if s.turns[n].phase == Waiting then Timeout(n) else Release(n);
      OneMoreEnded(max, s, i, n, l);
      hide After, Enabled, Clean, Leads, Orphaned;
      var more;
      more, end := EndOthers(max, After(max, s, l), i, n + 1);
      Step(max, s, l, more, end);
      ls := [l] + more;
    }
  }

  lemma OneMoreEnded(max: nat, s: State, i: nat, n: nat, l: Label)
    requires Orphaned(max, s, i, n) && n < |s.turns| && n != i && Active(s.turns[n])
    requires l == if s.turns[n].phase == Waiting then Timeout(n) else Release(n)
    ensures Enabled(max, s, l) && Clean(max, s, l)
    ensures |After(max, s, l).turns| == |s.turns| && Orphaned(max, After(max, s, l), i, n + 1)
  {
    hide TableOk;
  }

  lemma OrphanAcquires(max: nat, s: State, i: nat)
    requires Orphaned(max, s, i, |s.turns|) && s.turns[i].phase == Waiting
    ensures Enabled(max, s, Acquire(i)) && Clean(max, s, Acquire(i))
    ensures var s' := After(max, s, Acquire(i)); Orphaned(max, s', i, |s'.turns|) && s'.turns[i].phase == Running
  {
    hide TableOk;
  }

  /** Its session asks again, gets a new lock, and runs. */
  lemma SecondTurnRuns(max: nat, s: State, i: nat) returns (ls: seq<Label>, end: State)
    requires max >= 1 && Orphaned(max, s, i, |s.turns|) && s.turns[i].phase == Running
    ensures Leads(max, s, ls, end) && !Exclusive(end)
  {
    var sid, k := s.turns[i].sid, |s.turns|;
    var oldest := sid;
    if MustEvict(max, s.table, sid) {
      FullHasOldest(max, s.table);
      oldest :| Oldest(s.table.seen, oldest);
    }
    var l := Request(sid, s.clock, oldest);
    assert Clean(max, s, l);
    var s1 := After(max, s, l);
    assert s1.turns[k].lock == s.table.nextId && s1.turns[i].phase == Running && s1.turns[i].sid == sid;
    end := After(max, s1, Acquire(k));
    assert end.turns[i].phase == end.turns[k].phase == Running && end.turns[i].sid == end.turns[k].sid;
    hide After, Enabled, Clean, Leads;
    Stay(max, end);
    Step(max, s1, Acquire(k), [], end);
    Step(max, s, l, [Acquire(k)] + [], end);
    ls := [l] + ([Acquire(k)] + []);
  }

  lemma {:induction false} LeadsConcat(max: nat, s: State, ls: seq<Label>, mid: State, ms: seq<Label>, end: State)
    requires Leads(max, s, ls, mid) && Leads(max, mid, ms, end)
    ensures Leads(max, s, ls + ms, end)
    decreases |ls|
  {
    hide After, Enabled, Clean;
    if ls == [] {
      assert ls + ms == ms;
    } else {
      LeadsConcat(max, After(max, s, ls[0]), ls[1..], mid, ms, end);
      assert (ls + ms)[1..] == ls[1..] + ms;
    }
  }

  /** A turn whose session was evicted can come to run beside a second one. */
  lemma OrphanClashes(max: nat, s: State, i: nat) returns (ls: seq<Label>, end: State)
    requires max >= 1 && Orphaned(max, s, i, 0)
    ensures Leads(max, s, ls, end) && !Exclusive(end)
  {
    hide Leads, Exclusive, After, Enabled, Clean;
    var alone; var more;
    ls, alone := EndOthers(max, s, i, 0);
    if alone.turns[i].phase == Waiting {
      OrphanAcquires(max, alone, i);
      hide Orphaned;
      more, end := SecondTurnRuns(max, After(max, alone, Acquire(i)), i);
      Step(max, alone, Acquire(i), more, end);
      more := [Acquire(i)] + more;
    } else {
      more, end := SecondTurnRuns(max, alone, i);
    }
    LeadsConcat(max, s, ls, alone, more, end);
    ls := ls + more;
  }

  lemma EvictedIsOrphan(max: nat, s: State, l: Label, i: nat)
    requires max >= 1 && Inv(max, s) && Enabled(max, s, l) && Evicts(max, s, l, i)
    ensures Orphaned(max, After(max, s, l), i, 0)
  {
    HeldStep(max, s, l);
    GotKeepsTable(max, s.table, l.sid, l.now, l.oldest);
    OwnLock(max, s, i);
    hide Since, HeldOk, TableOk, Inv, Oldest;
    assert After(max, s, l).table == Added(Evicted(s.table, l.oldest), l.sid, l.now);
  }

  lemma OwnLock(max: nat, s: State, i: nat)
    requires Inv(max, s) && i < |s.turns| && Active(s.turns[i])
    ensures s.turns[i].sid in s.table.locks && s.turns[i].lock < s.table.nextId
  {
    assert TurnOk(s, i);
  }

  /**
    From any state in which the table knows the turns in progress, one step more
    keeps exclusion safe exactly when it evicts no session with a turn in
    progress: after any other step, steps that evict no such session lead to two
    turns of one session running.
   */
  lemma CleanExactlyWhen(max: nat, s: State, l: Label)
    requires max >= 1 && Inv(max, s) && Enabled(max, s, l)
    ensures Clean(max, s, l) <==> !CanClash(max, After(max, s, l))
  {
    if Clean(max, s, l) {
      StepKeepsInv(max, s, l);
      hide Inv, After, Leads, Exclusive;
      NoClash(max, After(max, s, l));
    } else {
      var i :| 0 <= i < |s.turns| && Evicts(max, s, l, i);
      EvictedIsOrphan(max, s, l, i);
      hide Inv, After, Leads, Exclusive, Orphaned;
      var ls, end := OrphanClashes(max, After(max, s, l), i);
    }
  }

  lemma NoClash(max: nat, s: State)
    requires max >= 1 && Inv(max, s)
    ensures !CanClash(max, s)
  {
    hide Inv, Exclusive, Run, CleanRun;
    forall ls, end | Leads(max, s, ls, end) ensures Exclusive(end) {
      CleanRunKeepsInv(max, s, ls, end);
      InvExcludes(max, end);
    }
  }

  /** The same from the start: along any run that evicted no turn in progress so far. */
  lemma EveryStepExactlyWhen(max: nat, ls: seq<Label>, s: State, l: Label)
    requires max >= 1 && Leads(max, EMPTY, ls, s) && Enabled(max, s, l)
    ensures Exclusive(s) && (Clean(max, s, l) <==> !CanClash(max, After(max, s, l)))
  {
    hide Enabled, After, Exclusive, CanClash, Clean;
    CleanRunKeepsInv(max, EMPTY, ls, s);
    InvExcludes(max, s);
    CleanExactlyWhen(max, s, l);
  }

  // --- the bound cannot be relaxed ---------------------------------------------------------

  lemma {:induction false} RunConcat(max: nat, s: State, ls: seq<Label>, mid: State, ms: seq<Label>, end: State)
    requires Run(max, s, ls, mid) && Run(max, mid, ms, end)
    ensures Run(max, s, ls + ms, end)
    decreases |ls|
  {
    if ls == [] {
      assert ls + ms == ms;
    } else {
      RunConcat(max, After(max, s, ls[0]), ls[1..], mid, ms, end);
      assert (ls + ms)[1..] == ls[1..] + ms;
    }
  }

  lemma TwoSteps(max: nat, s: State, a: Label, b: Label)
    requires Enabled(max, s, a) && Enabled(max, After(max, s, a), b)
    ensures Run(max, s, [a, b], After(max, After(max, s, a), b))
  {
    var s1 := After(max, s, a);
    assert [a, b][1..] == [b] && [b][1..] == [];
    assert Run(max, After(max, s1, b), [], After(max, s1, b));
    assert Run(max, s1, [b], After(max, s1, b));
  }

  function Range(lo: nat, hi: nat): (r: set<Sid>)
    ensures forall x :: x in r <==> lo <= x <= hi
  {
    if hi < lo then {} else if hi == 0 then {0} else Range(lo, hi - 1) + {hi}
  }

  lemma OneMoreInRange(lo: nat, hi: nat)
    requires lo <= hi && hi > 0
    ensures |Range(lo, hi)| == |Range(lo, hi - 1)| + 1
  {
    assert Range(lo, hi) == Range(lo, hi - 1) + {hi};
    hide Range;
    assert hi !in Range(lo, hi - 1);
  }

  lemma {:induction false} RangeSize(lo: nat, hi: nat)
    requires lo <= hi + 1
    ensures |Range(lo, hi)| == hi + 1 - lo
  {
    hide Range;
    if hi < lo {
      assert Range(lo, hi) == {};
    } else if hi == 0 {
      assert Range(lo, hi) == {0};
    } else {
      RangeSize(lo, hi - 1);
      OneMoreInRange(lo, hi);
    }
  }

  function Upto(k: nat): set<Sid> { Range(1, k) }

  function Ids(lo: nat, hi: nat): map<Sid, nat> { map x | x in Range(lo, hi) :: x }

  /** Session 0 is running a turn; sessions 1 to `k` have each asked once since and given up. */
  function Filled(k: nat): State {
    State(
      Table(Ids(0, k), Ids(0, k), k + 1),
      seq(k + 1, i requires 0 <= i <= k =>
        if i == 0 then Turn(0, 0, 0, Running, Upto(k)) else Turn(i, i, i, Done, {})),
      map[0 := 0],
      k)
  }

  lemma FilledSize(k: nat)
    ensures |Filled(k).table.locks| == k + 1
  {
    RangeSize(0, k);
    assert Filled(k).table.locks.Keys == Range(0, k);
  }

  lemma Start(max: nat)
    requires max >= 1
    ensures Run(max, EMPTY, [Request(0, 0, 0), Acquire(0)], Filled(0))
  {
    var s1 := After(max, EMPTY, Request(0, 0, 0));
    assert Since(s1.table.seen, 0, 0) == {};
    assert s1.turns == [Turn(0, 0, 0, Waiting, {})];
    TwoSteps(max, EMPTY, Request(0, 0, 0), Acquire(0));
    var s2 := After(max, s1, Acquire(0));
    assert s2.turns == [Turn(0, 0, 0, Running, {})];
    assert Upto(0) == {};
    assert Filled(0).turns == s2.turns;
    assert Filled(0).table.locks == s2.table.locks;
    assert s2 == Filled(0);
  }

  lemma FillMore(max: nat, k: nat)
    requires k + 1 < max
    ensures Run(max, Filled(k), [Request(k + 1, k + 1, 0), Timeout(k + 1)], Filled(k + 1))
  {
    FilledSize(k);
    var s := Filled(k);
    var s1 := After(max, s, Request(k + 1, k + 1, 0));
    assert Upto(k + 1) == Upto(k) + {k + 1};
    assert Since(s1.table.seen, k + 1, k + 1) == {};
    assert s1.turns == Noted(s.turns, k + 1) + [Turn(k + 1, k + 1, k + 1, Waiting, {})];
    TwoSteps(max, s, Request(k + 1, k + 1, 0), Timeout(k + 1));
    var s2 := After(max, s1, Timeout(k + 1));
    assert s2.turns == Filled(k + 1).turns;
    assert s2.table.locks == Filled(k + 1).table.locks && s2.table.seen == Filled(k + 1).table.seen;
    assert s2 == Filled(k + 1);
  }

  lemma {:induction false} Fill(max: nat, k: nat) returns (ls: seq<Label>)
    requires k < max
    ensures Run(max, EMPTY, ls, Filled(k))
  {
    if k == 0 {
      ls := [Request(0, 0, 0), Acquire(0)];
      Start(max);
    } else {
      ls := Fill(max, k - 1);
      FillMore(max, k - 1);
      RunConcat(max, EMPTY, ls, Filled(k - 1), [Request(k, k, 0), Timeout(k)], Filled(k));
      ls := ls + [Request(k, k, 0), Timeout(k)];
    }
  }

  /** What the table and the turns are once session 0 has been evicted. */
  ghost predicate Overflowed(max: nat, s: State) {
    && |s.turns| == max + 1 && s.turns[0] == Turn(0, 0, 0, Running, Upto(max))
    && (forall i :: 0 < i <= max ==> s.turns[i].others == {} && s.turns[i].phase == Done)
    && s.table == Table(Ids(1, max), Ids(1, max), max + 1)
    && s.held == map[0 := 0] && s.clock == max
  }

  lemma OverflowTable(max: nat)
    requires max >= 1
    ensures MustEvict(max, Filled(max - 1).table, max) && Oldest(Filled(max - 1).table.seen, 0)
    ensures Got(max, Filled(max - 1).table, max, max, 0) == (Table(Ids(1, max), Ids(1, max), max + 1), max)
    ensures Since(Ids(1, max), max, max) == {}
  {
    hide Range;
    FilledSize(max - 1);
    ShiftedTable(max);
  }

  lemma ShiftedTable(max: nat)
    requires max >= 1
    ensures Added(Evicted(Filled(max - 1).table, 0), max, max) == Table(Ids(1, max), Ids(1, max), max + 1)
  {
    hide Range;
    var t := Filled(max - 1).table;
    assert Added(Evicted(t, 0), max, max).locks == Ids(1, max);
    assert Added(Evicted(t, 0), max, max).seen == Ids(1, max);
  }

  /** A full table: one session more evicts session 0, although its turn is running. */
  lemma Overflow(max: nat) returns (s: State)
    requires max >= 1
    ensures Run(max, Filled(max - 1), [Request(max, max, 0), Timeout(max)], s) && Overflowed(max, s)
  {
    hide Got, MustEvict, Oldest;
    OverflowTable(max);
    var s0 := Filled(max - 1);
    var l := Request(max, max, 0);
    var s1 := After(max, s0, l);
    assert Upto(max) == Upto(max - 1) + {max};
    assert s1.turns == Noted(s0.turns, max) + [Turn(max, max, max, Waiting, {})];
    TwoSteps(max, s0, l, Timeout(max));
    s := After(max, s1, Timeout(max));
  }

  lemma SecondTable(max: nat, t: Table)
    requires max >= 1 && t == Table(Ids(1, max), Ids(1, max), max + 1)
    ensures MustEvict(max, t, 0) && Oldest(t.seen, 1)
    ensures Got(max, t, 0, max + 1, 1).1 == max + 1
    ensures Since(Got(max, t, 0, max + 1, 1).0.seen, 0, max + 1) == {}
  {
    RangeSize(1, max);
    assert t.locks.Keys == Upto(max);
  }

  lemma SecondTurn(max: nat, s: State) returns (end: State)
    requires max >= 1 && Overflowed(max, s)
    ensures Run(max, s, [Request(0, max + 1, 1), Acquire(max + 1)], end) && !Exclusive(end)
    ensures forall i :: 0 <= i < |end.turns| ==> |end.turns[i].others| <= max
  {
    hide Got, MustEvict, Oldest, Since, Ids, Upto;
    SecondTable(max, s.table);
    UptoSize(max);
    var l := Request(0, max + 1, 1);
    var s1 := After(max, s, l);
    assert s1.turns == Noted(s.turns, 0) + [Turn(0, max + 1, max + 1, Waiting, {})];
    TwoSteps(max, s, l, Acquire(max + 1));
    end := After(max, s1, Acquire(max + 1));
    assert end.turns[0].phase == end.turns[max + 1].phase == Running;
    forall i | 0 <= i < |end.turns| ensures |end.turns[i].others| <= max {
      if 0 < i <= max {
        assert end.turns[i].others == {};
      }
    }
  }

  lemma UptoSize(max: nat)
    ensures |Upto(max)| == max
  {
    RangeSize(1, max);
  }

  /**
    With exactly `max` other sessions requested during a turn, its session can
    run a second turn beside it, whatever the size of the table.
   */
  lemma BoundIsSharp(max: nat) returns (ls: seq<Label>, end: State)
    requires max >= 1
    ensures Run(max, EMPTY, ls, end) && !Exclusive(end)
    ensures forall i :: 0 <= i < |end.turns| ==> |end.turns[i].others| <= max
  {
    hide Overflowed, Exclusive;
    ls := Fill(max, max - 1);
    var s := Overflow(max);
    RunConcat(max, EMPTY, ls, Filled(max - 1), [Request(max, max, 0), Timeout(max)], s);
    ls := ls + [Request(max, max, 0), Timeout(max)];
    end := SecondTurn(max, s);
    RunConcat(max, EMPTY, ls, s, [Request(0, max + 1, 1), Acquire(max + 1)], end);
    ls := ls + [Request(0, max + 1, 1), Acquire(max + 1)];
  }
}
