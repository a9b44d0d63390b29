/**
  Wall-clock arithmetic in an explicit time zone (overdue.ts).

  A zone is its offset from UTC, in milliseconds, as a function of the instant;
  the Intl formatter that the code asks for it is not part of this model.
 */
module ZoneTime {
  import opened Calendar

  const DAY_MS := 86_400_000
  const HOUR_MS := 3_600_000
  const MINUTE_MS := 60_000

  type Zone = int -> int

  datatype WallClock = WallClock(year: int, month: int, day: int, hour: int, minute: int, second: int)

  datatype DateRange = DateRange(start: int, end: int)

  /** The wall clock fields of a UTC-like millisecond count; milliseconds are dropped. */
  function WallOf(local: int): WallClock {
    var c := CivilOf(local / DAY_MS);
    var r := local % DAY_MS;
    WallClock(c.year, c.month, c.day, r / HOUR_MS, r % HOUR_MS / MINUTE_MS, r % MINUTE_MS / 1000)
  }

  /** `Date.UTC` of the fields. */
  function DateUtc(w: WallClock, ms: int): int {
    DateUtcDay(w.year, w.month, w.day) * DAY_MS + w.hour * HOUR_MS + w.minute * MINUTE_MS + w.second * 1000 + ms
  }

  function WallClockIn(instant: int, zone: Zone): WallClock { WallOf(instant + zone(instant)) }

  function ZoneOffsetMs(instant: int, zone: Zone): int {
    DateUtc(WallClockIn(instant, zone), instant % 1000) - instant
  }

  function WallClockToInstant(wall: WallClock, ms: int, zone: Zone): int {
    var guess := DateUtc(wall, ms);
    var firstOffset := ZoneOffsetMs(guess, zone);
    var candidate := guess - firstOffset;
    var secondOffset := ZoneOffsetMs(candidate, zone);
    if secondOffset == firstOffset then candidate else guess - secondOffset
  }

  function DayRangeInZone(now: int, zone: Zone): DateRange {
    var wall := WallClockIn(now, zone);
    DateRange(
      WallClockToInstant(wall.(hour := 0, minute := 0, second := 0), 0, zone),
      WallClockToInstant(wall.(hour := 23, minute := 59, second := 59), 999, zone))
  }

  function WeekRangeInZone(now: int, zone: Zone): DateRange {
    var wall := WallClockIn(now, zone);
    var weekday := Weekday(DateUtcDay(wall.year, wall.month, wall.day));
    var daysFromMonday := if weekday == 0 then 6 else weekday - 1;
    var monday := CivilOf(DateUtcDay(wall.year, wall.month, wall.day - daysFromMonday));
    var sunday := CivilOf(DateUtcDay(wall.year, wall.month, wall.day - daysFromMonday + 6));
    DateRange(
      WallClockToInstant(WallClock(monday.year, monday.month, monday.day, 0, 0, 0), 0, zone),
      WallClockToInstant(WallClock(sunday.year, sunday.month, sunday.day, 23, 59, 59), 999, zone))
  }

  // --- the fields and the count are inverse -------------------------------------------

  /** The first day of year 100; `Date.UTC` reads the years 0 to 99 as 1900 to 1999. */
  const YEAR_100: int := YearStart(100)

  lemma AfterYear100(day: int)
    requires YEAR_100 <= day
    ensures CivilOf(day).year >= 100
  {
    YearOfFacts(day);
    YearLength(YearOf(day));
    if YearOf(day) < 100 {
      YearsIncrease(YearOf(day) + 1, 100);
    }
  }

  lemma DateUtcOfDay(day: int, back: int)
    requires YEAR_100 <= day
    ensures var c := CivilOf(day); DateUtcDay(c.year, c.month, c.day + back) == day + back
  {
    hide CivilOf, YearStart, MonthStart;
    AfterYear100(day);
    CivilOfFacts(day);
    MakeDayInRange(CivilOf(day).year, CivilOf(day).month, CivilOf(day).day + back);
  }

  lemma MinutesApart(x: int, k: int)
    ensures (x + k * MINUTE_MS) % MINUTE_MS == x % MINUTE_MS
  {
  }

  lemma SecondsApart(x: int, k: int)
    ensures (x + k * 1000) % 1000 == x % 1000
  {
  }

  lemma TimeOfDay(r: int)
    requires 0 <= r < DAY_MS
    ensures r == r / HOUR_MS * HOUR_MS + r % HOUR_MS / MINUTE_MS * MINUTE_MS + r % MINUTE_MS / 1000 * 1000 + r % 1000
  {
    MinutesApart(r - r / HOUR_MS * HOUR_MS, 60 * (r / HOUR_MS));
    SecondsApart(r - r / MINUTE_MS * MINUTE_MS, 60 * (r / MINUTE_MS));
  }

  lemma DaySplit(local: int)
    ensures local == local / DAY_MS * DAY_MS + local % DAY_MS && 0 <= local % DAY_MS < DAY_MS
    ensures local % DAY_MS % 1000 == local % 1000
  {
    assert local % DAY_MS == local - 86_400 * (local / DAY_MS) * 1000;
  }

  lemma WallRoundTrip(local: int)
    requires YEAR_100 <= local / DAY_MS
    ensures DateUtc(WallOf(local), local % 1000) == local
  {
    hide CivilOf, DateUtcDay, YearStart;
    DateUtcOfDay(local / DAY_MS, 0);
    DaySplit(local);
    TimeOfDay(local % DAY_MS);
  }

  /** Whole-second offsets of less than a day, as every zone has. */
  ghost predicate ZoneOk(zone: Zone) {
    forall t :: zone(t) % 1000 == 0 && -DAY_MS < zone(t) < DAY_MS
  }

  /** The detour through the formatted fields recovers the offset itself. */
  lemma ZoneOffsetRecovers(instant: int, zone: Zone)
    requires ZoneOk(zone) && (YEAR_100 + 1) * DAY_MS <= instant
    ensures ZoneOffsetMs(instant, zone) == zone(instant)
  {
    hide WallOf, DateUtc, YearStart;
    var local := instant + zone(instant);
    assert local % 1000 == instant % 1000;
    WallRoundTrip(local);
  }

  // --- inverting wall time ----------------------------------------------------------------

  /** The zone changes its offset at most once between `lo` and `hi`. */
  ghost predicate OneChange(zone: Zone, lo: int, hi: int, at: int, before: int, after: int) {
    forall t :: lo <= t <= hi ==> zone(t) == if t < at then before else after
  }

  /**
    One refinement is enough: around at most one change of offset, the result
    shows the wanted wall time exactly when some instant does.
   */
  lemma WallClockInverts(wall: WallClock, ms: int, zone: Zone, lo: int, hi: int, at: int, before: int, after: int)
    requires ZoneOk(zone) && OneChange(zone, lo, hi, at, before, after) && (YEAR_100 + 1) * DAY_MS <= lo
    requires lo <= DateUtc(wall, ms) <= hi
    requires lo <= DateUtc(wall, ms) - before <= hi && lo <= DateUtc(wall, ms) - after <= hi
    ensures var r := WallClockToInstant(wall, ms, zone);
      r + zone(r) == DateUtc(wall, ms) <==> exists t :: lo <= t <= hi && t + zone(t) == DateUtc(wall, ms)
  {
    hide DateUtc, ZoneOffsetMs, YearStart;
    var guess := DateUtc(wall, ms);
    ZoneOffsetRecovers(guess, zone);
    ZoneOffsetRecovers(guess - zone(guess), zone);
    var r := WallClockToInstant(wall, ms, zone);
    assert lo <= r <= hi;
  }

  lemma TimeFields(hour: int, minute: int, second: int, ms: int)
    requires 0 <= hour <= 23 && 0 <= minute <= 59 && 0 <= second <= 59 && 0 <= ms <= 999
    ensures var r := hour * HOUR_MS + minute * MINUTE_MS + second * 1000 + ms;
      && 0 <= r < DAY_MS && r / HOUR_MS == hour && r % HOUR_MS / MINUTE_MS == minute && r % MINUTE_MS / 1000 == second && r % 1000 == ms
  {
    var r := hour * HOUR_MS + minute * MINUTE_MS + second * 1000 + ms;
    assert r % HOUR_MS == minute * MINUTE_MS + second * 1000 + ms;
    assert r % MINUTE_MS == second * 1000 + ms;
  }

  lemma DayAndRest(day: int, rest: int)
    requires 0 <= rest < DAY_MS
    ensures (day * DAY_MS + rest) / DAY_MS == day && (day * DAY_MS + rest) % DAY_MS == rest
    ensures (day * DAY_MS + rest) % 1000 == rest % 1000
  {
    assert (day * DAY_MS + rest) % 1000 == (86_400 * day * 1000 + rest) % 1000;
  }

  /**
    For any zone whatever: the result is the guess less the offset read at the
    once-corrected guess, and shows the wanted wall time exactly when the zone has
    that same offset there.
   */
  lemma WallShownExactlyWhen(wall: WallClock, ms: int, zone: Zone)
    requires ZoneOk(zone) && (YEAR_100 + 2) * DAY_MS <= DateUtc(wall, ms)
    ensures var guess := DateUtc(wall, ms);
      var read := zone(guess - zone(guess));
      var r := WallClockToInstant(wall, ms, zone);
      r == guess - read && (r + zone(r) == guess <==> zone(guess - read) == read)
  {
    hide DateUtc, ZoneOffsetMs, YearStart;
    var guess := DateUtc(wall, ms);
    ZoneOffsetRecovers(guess, zone);
    ZoneOffsetRecovers(guess - zone(guess), zone);
  }

  /** The fields that come back are the fields asked for. */
  lemma ShowsThatWall(wall: WallClock, ms: int, zone: Zone, r: int)
    requires YEAR_100 <= DateUtcDay(wall.year, wall.month, wall.day) && !(0 <= wall.year <= 99)
    requires Valid(Civil(wall.year, wall.month, wall.day))
    requires 0 <= wall.hour <= 23 && 0 <= wall.minute <= 59 && 0 <= wall.second <= 59 && 0 <= ms <= 999
    requires r + zone(r) == DateUtc(wall, ms)
    ensures WallClockIn(r, zone) == wall && (r + zone(r)) % 1000 == ms
  {
    hide CivilOf, YearStart, MonthStart;
    var day := DateUtcDay(wall.year, wall.month, wall.day);
    MakeDayInRange(wall.year, wall.month, wall.day);
    CivilOfDayNumber(Civil(wall.year, wall.month, wall.day));
    var rest := wall.hour * HOUR_MS + wall.minute * MINUTE_MS + wall.second * 1000 + ms;
    TimeFields(wall.hour, wall.minute, wall.second, ms);
    DayAndRest(day, rest);
    assert r + zone(r) == day * DAY_MS + rest;
  }

  lemma EpochWall()
    ensures DateUtc(WallClock(1970, 1, 1, 0, 0, 0), 0) == 0
    ensures YEAR_100 == -683_003
  {
    MakeDayInRange(1970, 1, 1);
  }

  ghost predicate Twice(zone: Zone) {
    forall t :: zone(t) == if t <= -3 * HOUR_MS then 3 * HOUR_MS else if t <= -2 * HOUR_MS then HOUR_MS else 2 * HOUR_MS
  }

  lemma TwiceOk(zone: Zone)
    requires Twice(zone)
    ensures ZoneOk(zone)
  {
    assert HOUR_MS % 1000 == 0 && 2 * HOUR_MS % 1000 == 0 && 3 * HOUR_MS % 1000 == 0;
  }

  /** With a second change nearby one refinement can miss a wall time that exists. */
  lemma TwoChangesDefeatIt(zone: Zone, wall: WallClock)
    requires wall == WallClock(1970, 1, 1, 0, 0, 0) && Twice(zone)
    ensures ZoneOk(zone)
    ensures -3 * HOUR_MS + zone(-3 * HOUR_MS) == DateUtc(wall, 0)
    ensures var r := WallClockToInstant(wall, 0, zone); r + zone(r) != DateUtc(wall, 0)
  {
    hide ZoneOffsetMs, DateUtc, YearStart, ZoneOk;
    TwiceOk(zone);
    EpochWall();
    ZoneOffsetRecovers(0, zone);
    ZoneOffsetRecovers(-2 * HOUR_MS, zone);
  }

  // --- days and weeks at a fixed offset -----------------------------------------------------

  ghost predicate Fixed(zone: Zone, offset: int) { forall t :: zone(t) == offset }

  /** Late enough for every date the ranges touch. */
  predicate Recent(now: int) { (YEAR_100 + 10) * DAY_MS <= now }

  lemma FixedInverts(wall: WallClock, ms: int, zone: Zone, offset: int)
    requires ZoneOk(zone) && Fixed(zone, offset) && (YEAR_100 + 2) * DAY_MS <= DateUtc(wall, ms)
    ensures WallClockToInstant(wall, ms, zone) == DateUtc(wall, ms) - offset
  {
    hide DateUtc, ZoneOffsetMs, YearStart;
    ZoneOffsetRecovers(DateUtc(wall, ms), zone);
    ZoneOffsetRecovers(DateUtc(wall, ms) - offset, zone);
  }

  /** The wall-clock day that contains `now`. */
  function DayAt(now: int, offset: int): int { (now + offset) / DAY_MS }

  lemma RecentDay(now: int, offset: int)
    requires Recent(now) && -DAY_MS < offset < DAY_MS
    ensures DayAt(now, offset) >= YEAR_100 + 9
  {
    hide YearStart;
    assert (now + offset) / DAY_MS >= ((YEAR_100 + 9) * DAY_MS) / DAY_MS;
  }

  lemma DayRangeIsTheDay(now: int, zone: Zone, offset: int)
    requires ZoneOk(zone) && Fixed(zone, offset) && Recent(now)
    ensures DayRangeInZone(now, zone).start == DayAt(now, offset) * DAY_MS - offset
    ensures DayRangeInZone(now, zone).end == DayRangeInZone(now, zone).start + DAY_MS - 1
  {
    hide CivilOf, YearStart, DateUtcDay, WallClockToInstant;
    assert zone(now) == offset;
    RecentDay(now, offset);
    DateUtcOfDay(DayAt(now, offset), 0);
    var wall := WallClockIn(now, zone);
    FixedInverts(wall.(hour := 0, minute := 0, second := 0), 0, zone, offset);
    FixedInverts(wall.(hour := 23, minute := 59, second := 59), 999, zone, offset);
  }

  /** From midnight of the Monday on or before `now` to the last millisecond of the Sunday. */
  lemma WeekRangeIsTheWeek(now: int, zone: Zone, offset: int)
    requires ZoneOk(zone) && Fixed(zone, offset) && Recent(now)
    ensures DayOfWeek(CivilOf(MondayOf(DayAt(now, offset)))) == 1
    ensures MondayOf(DayAt(now, offset)) <= DayAt(now, offset) <= MondayOf(DayAt(now, offset)) + 6
    ensures WeekRangeInZone(now, zone).start == MondayOf(DayAt(now, offset)) * DAY_MS - offset
    ensures WeekRangeInZone(now, zone).end == WeekRangeInZone(now, zone).start + 7 * DAY_MS - 1
  {
    hide CivilOf, YearStart, DateUtcDay, WallClockToInstant, DayOfWeek;
    assert zone(now) == offset;
    var day := DayAt(now, offset);
    MondayIsMonday(day);
    var back := DaysFromMonday(day);
    RecentDay(now, offset);
    DateUtcOfDay(day, 0);
    DateUtcOfDay(day, -back);
    DateUtcOfDay(day, -back + 6);
    DateUtcOfDay(day - back, 0);
    DateUtcOfDay(day - back + 6, 0);
    var monday, sunday := CivilOf(day - back), CivilOf(day - back + 6);
    FixedInverts(WallClock(monday.year, monday.month, monday.day, 0, 0, 0), 0, zone, offset);
    FixedInverts(WallClock(sunday.year, sunday.month, sunday.day, 23, 59, 59), 999, zone, offset);
  }

  ghost predicate Contains(r: DateRange, t: int) { r.start <= t <= r.end }

  /** Days tile time: each contains its `now`, all its instants share it, and the next begins at once. */
  lemma DaysTile(now: int, other: int, zone: Zone, offset: int)
    requires ZoneOk(zone) && Fixed(zone, offset) && Recent(now) && Recent(other)
    ensures Contains(DayRangeInZone(now, zone), now)
    ensures Contains(DayRangeInZone(now, zone), other) <==> DayRangeInZone(other, zone) == DayRangeInZone(now, zone)
    ensures DayRangeInZone(DayRangeInZone(now, zone).end + 1, zone).start == DayRangeInZone(now, zone).end + 1
  {
    hide DayRangeInZone, YearStart;
    DayRangeIsTheDay(now, zone, offset);
    DayRangeIsTheDay(other, zone, offset);
    DayRangeIsTheDay(DayRangeInZone(now, zone).end + 1, zone, offset);
  }

  lemma DayAtSplit(t: int, offset: int, day: int)
    ensures DayAt(t, offset) == day <==> day * DAY_MS <= t + offset < (day + 1) * DAY_MS
  {
  }

  lemma WeekArithmetic(now: int, other: int, offset: int, monday: int)
    requires monday == MondayOf(DayAt(now, offset))
    ensures Weekday(monday) == 1 && DayAt(monday * DAY_MS - offset, offset) == monday
    ensures monday * DAY_MS - offset <= now < (monday + 7) * DAY_MS - offset
    ensures monday * DAY_MS - offset <= other < (monday + 7) * DAY_MS - offset <==> MondayOf(DayAt(other, offset)) == monday
    ensures MondayOf(DayAt((monday + 7) * DAY_MS - offset, offset)) == monday + 7
  {
    hide MondayOf, DayAt, Weekday;
    MondayFacts(DayAt(now, offset));
    MondayFacts(DayAt(other, offset));
    DayAtSplit(now, offset, DayAt(now, offset));
    DayAtSplit(other, offset, DayAt(other, offset));
    DayAtSplit(monday * DAY_MS - offset, offset, monday);
    DayAtSplit((monday + 7) * DAY_MS - offset, offset, monday + 7);
    NextMonday(monday);
    if monday <= DayAt(other, offset) <= monday + 6 {
      MondayUnique(DayAt(other, offset), monday);
    }
  }

  lemma NextMonday(monday: int)
    requires Weekday(monday) == 1
    ensures MondayOf(monday + 7) == monday + 7
  {
  }

  /** Weeks tile time and start on a Monday. */
  lemma WeeksTile(now: int, other: int, zone: Zone, offset: int)
    requires ZoneOk(zone) && Fixed(zone, offset) && Recent(now) && Recent(other)
    ensures Contains(WeekRangeInZone(now, zone), now)
    ensures DayOfWeek(CivilOf(DayAt(WeekRangeInZone(now, zone).start, offset))) == 1
    ensures Contains(WeekRangeInZone(now, zone), other) <==> WeekRangeInZone(other, zone) == WeekRangeInZone(now, zone)
    ensures WeekRangeInZone(WeekRangeInZone(now, zone).end + 1, zone).start == WeekRangeInZone(now, zone).end + 1
  {
    hide WeekRangeInZone, YearStart, MondayOf, DayAt, Weekday, DayOfWeek, CivilOf;
    var monday := MondayOf(DayAt(now, offset));
    WeekArithmetic(now, other, offset, monday);
    WeekRangeIsTheWeek(now, zone, offset);
    WeekRangeIsTheWeek(other, zone, offset);
    WeekRangeIsTheWeek((monday + 7) * DAY_MS - offset, zone, offset);
  }
}
