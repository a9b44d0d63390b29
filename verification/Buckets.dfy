/** Time buckets in Bogota wall time (analytics.shared.ts); instants are milliseconds since the epoch. */
module Buckets {
  import opened Calendar
  import Text

  const DAY_MS := 86_400_000
  const NOON_MS := 43_200_000
  const BOGOTA_LAG_MS := 18_000_000
  const MAX_RANGE_DAYS := 1096
  const GUARD := 4000

  datatype Granularity = Day | Week | Month

  /** A bucket key; its printed form has four digits for the year, two for the rest. */
  datatype Key = DateKey(date: Civil) | MonthKey(year: int, month: int)

  /** bogotaDate, as a day number. */
  function BogotaDay(instant: int): int { (instant - BOGOTA_LAG_MS) / DAY_MS }

  /** dayBoundary of a day. */
  function DayStart(day: int): int { day * DAY_MS + BOGOTA_LAG_MS }

  function DayEnd(day: int): int { day * DAY_MS + BOGOTA_LAG_MS + DAY_MS - 1 }

  function KeyOfDay(day: int, g: Granularity): Key {
    match g
    case Day => DateKey(CivilOf(day))
    case Week => DateKey(CivilOf(MondayOf(day)))
    case Month => MonthKey(CivilOf(day).year, CivilOf(day).month)
  }

  function BucketKey(instant: int, g: Granularity): Key { KeyOfDay(BogotaDay(instant), g) }

  /** A day in Bogota begins at 05:00 UTC and ends a millisecond before the next. */
  lemma DayBoundaries(day: int, instant: int)
    ensures BogotaDay(instant) == day <==> DayStart(day) <= instant <= DayEnd(day)
    ensures DayStart(day) == (24 * day + 5) * 3_600_000 && DayEnd(day) + 1 == DayStart(day + 1)
  {
  }

  /** What a key names: its own day, the Monday at most six days back, or the day's month. */
  lemma KeysName(day: int, g: Granularity)
    ensures var k := KeyOfDay(day, g);
      match g
      case Day => k.DateKey? && Valid(k.date) && DayNumber(k.date) == day
      case Week =>
        k.DateKey? && Valid(k.date) && DayOfWeek(k.date) == 1 && DayNumber(k.date) <= day <= DayNumber(k.date) + 6
      case Month =>
        k.MonthKey? && 1 <= k.month <= 12
        && DayNumber(Civil(k.year, k.month, 1)) <= day < DayNumber(Civil(k.year, k.month, 1)) + DaysInMonth(k.year, k.month)
  {
    hide CivilOf, DayOfWeek, MondayOf, YearStart, MonthStart;
    CivilOfFacts(day);
    CivilOfFacts(MondayOf(day));
    MondayIsMonday(day);
  }

  // --- resolveFilters ----------------------------------------------------------------

  /** `Math.round` of a quotient: halves go up. */
  function RoundDiv(n: int, d: int): int
    requires d > 0
  {
    (2 * n + d) / (2 * d)
  }

  predicate Accepted(fromDay: int, toDay: int) {
    var from, to := DayStart(fromDay), DayEnd(toDay);
    from <= to && RoundDiv(to - from, DAY_MS) <= MAX_RANGE_DAYS
  }

  /** The accepted ranges are exactly those of 1 to 1096 calendar days. */
  lemma AcceptedSpans(fromDay: int, toDay: int)
    ensures Accepted(fromDay, toDay) <==> 1 <= toDay - fromDay + 1 <= 1096
  {
    var n := toDay - fromDay + 1;
    assert DayEnd(toDay) - DayStart(fromDay) == n * DAY_MS - 1;
    assert (2 * (n * DAY_MS - 1) + DAY_MS) / (2 * DAY_MS) == n;
  }

  // --- printed keys ----------------------------------------------------------------------

  function Two(n: int): string
    requires 0 <= n <= 99
  {
    [Text.Digit(n / 10), Text.Digit(n % 10)]
  }

  /** The year prints as four digits. */
  predicate FourDigits(k: Key) {
    0 <= YearOfKey(k) <= 9999 && 1 <= MonthOfKey(k) <= 12 && (k.DateKey? ==> 1 <= k.date.day <= 31)
  }

  /** `toISOString().slice(0, 10)` or its first seven characters, for years 0 to 9999. */
  function Printed(k: Key): string
    requires FourDigits(k)
  {
    var month := Two(YearOfKey(k) / 100) + Two(YearOfKey(k) % 100) + "-" + Two(MonthOfKey(k));
    if k.DateKey? then month + "-" + Two(k.date.day) else month
  }

  lemma DecimalOfFour(n: nat)
    requires 1000 <= n <= 9999
    ensures Text.Decimal(n) == Two(n / 100) + Two(n % 100)
  {
    assert Text.Decimal(n) == Text.Decimal(n / 10) + [Text.Digit(n % 10)];
    assert Text.Decimal(n / 10) == Text.Decimal(n / 10 / 10) + [Text.Digit(n / 10 % 10)];
    assert n / 10 / 10 == n / 100 && n / 10 % 10 == n % 100 / 10 && n % 10 == n % 100 % 10;
    assert Text.Decimal(n / 100) == Text.Decimal(n / 100 / 10) + [Text.Digit(n / 100 % 10)];
  }

  function YearOfKey(k: Key): int { match k case DateKey(c) => c.year case MonthKey(y, _) => y }

  function MonthOfKey(k: Key): int { match k case DateKey(c) => c.month case MonthKey(_, m) => m }

  lemma TwoInjective(m: int, n: int)
    requires 0 <= m <= 99 && 0 <= n <= 99 && Two(m) == Two(n)
    ensures m == n
  {
    assert Two(m)[0] == Two(n)[0] && Two(m)[1] == Two(n)[1];
    assert m == 10 * (m / 10) + m % 10 && n == 10 * (n / 10) + n % 10;
  }

  /** Distinct keys print differently, so a map from printed keys is a map from keys. */
  lemma PrintedInjective(k: Key, l: Key)
    requires FourDigits(k)
    requires FourDigits(l)
    requires Printed(k) == Printed(l)
    ensures k == l
  {
    hide Two;
    var p, q := Printed(k), Printed(l);
    TwoLengths(k);
    TwoLengths(l);
    assert Two(YearOfKey(k) / 100) == p[..2] == q[..2] == Two(YearOfKey(l) / 100);
    assert Two(YearOfKey(k) % 100) == p[2..4] == q[2..4] == Two(YearOfKey(l) % 100);
    assert Two(MonthOfKey(k)) == p[5..7] == q[5..7] == Two(MonthOfKey(l));
    TwoInjective(YearOfKey(k) / 100, YearOfKey(l) / 100);
    TwoInjective(YearOfKey(k) % 100, YearOfKey(l) % 100);
    TwoInjective(MonthOfKey(k), MonthOfKey(l));
    if k.DateKey? && l.DateKey? {
      assert Two(k.date.day) == p[8..10] == q[8..10] == Two(l.date.day);
      TwoInjective(k.date.day, l.date.day);
    }
  }

  lemma TwoLengths(k: Key)
    requires FourDigits(k)
    ensures |Two(YearOfKey(k) / 100)| == |Two(YearOfKey(k) % 100)| == |Two(MonthOfKey(k))| == 2
    ensures k.DateKey? ==> |Two(k.date.day)| == 2
    ensures |Printed(k)| == if k.DateKey? then 10 else 7
  {
  }

  // --- order of keys -------------------------------------------------------------------

  function Rank(k: Key): int {
    match k
    case DateKey(c) => DayNumber(c)
    case MonthKey(y, m) => 12 * y + m
  }

  ghost predicate Increasing(keys: seq<Key>) {
    forall i, j :: 0 <= i < j < |keys| ==> Rank(keys[i]) < Rank(keys[j])
  }

  lemma MonthsMonotone(m: int, n: int)
    requires m <= n
    ensures 12 * CivilOf(m).year + CivilOf(m).month <= 12 * CivilOf(n).year + CivilOf(n).month
  {
    if m < n {
      CivilOfMonotone(m, n);
    }
  }

  /** Later days never have an earlier key, and equal ranks mean equal keys. */
  lemma KeysMonotone(m: int, n: int, g: Granularity)
    requires m <= n
    ensures Rank(KeyOfDay(m, g)) <= Rank(KeyOfDay(n, g))
    ensures Rank(KeyOfDay(m, g)) == Rank(KeyOfDay(n, g)) <==> KeyOfDay(m, g) == KeyOfDay(n, g)
  {
    hide CivilOf, DayNumber, MondayOf;
    match g
    case Day =>
      CivilOfFacts(m);
      CivilOfFacts(n);
    case Week =>
      MondayMonotone(m, n);
      CivilOfFacts(MondayOf(m));
      CivilOfFacts(MondayOf(n));
    case Month =>
      CivilOfFacts(m);
      CivilOfFacts(n);
      MonthsMonotone(m, n);
  }

  /** The keys of the first `n` days from day `a`, each once. */
  function DayKeys(a: int, n: nat, g: Granularity): seq<Key> {
    if n == 0 then []
    else
      var before := DayKeys(a, n - 1, g);
      var key := KeyOfDay(a + n - 1, g);
      if before != [] && before[|before| - 1] == key then before else before + [key]
  }

  lemma {:induction false} DayKeysFacts(a: int, n: nat, g: Granularity)
    ensures Increasing(DayKeys(a, n, g))
    ensures n > 0 ==> DayKeys(a, n, g) != [] && DayKeys(a, n, g)[|DayKeys(a, n, g)| - 1] == KeyOfDay(a + n - 1, g)
    ensures forall d :: a <= d < a + n ==> KeyOfDay(d, g) in DayKeys(a, n, g)
    ensures forall k :: k in DayKeys(a, n, g) ==> exists d :: a <= d < a + n && k == KeyOfDay(d, g)
  {
    hide KeyOfDay;
    if n > 0 {
      DayKeysFacts(a, n - 1, g);
      var before := DayKeys(a, n - 1, g);
      if n > 1 {
        KeysMonotone(a + n - 2, a + n - 1, g);
      }
      var key := KeyOfDay(a + n - 1, g);
      forall k | k in DayKeys(a, n, g) ensures exists d :: a <= d < a + n && k == KeyOfDay(d, g) {
        if k !in before {
          assert k == key;
        }
      }
    }
  }

  lemma DayKeysLast(a: int, n: nat, g: Granularity)
    requires n > 0
    ensures DayKeys(a, n, g) != [] && DayKeys(a, n, g)[|DayKeys(a, n, g)| - 1] == KeyOfDay(a + n - 1, g)
  {
    hide KeyOfDay;
  }

  lemma SameKeyBetween(m: int, d: int, n: int, g: Granularity)
    requires m <= d <= n && KeyOfDay(m, g) == KeyOfDay(n, g)
    ensures KeyOfDay(d, g) == KeyOfDay(n, g)
  {
    hide KeyOfDay, Rank;
    KeysMonotone(m, d, g);
    KeysMonotone(d, n, g);
  }

  /** Days that share the last day's key add nothing. */
  lemma {:induction false} DayKeysStop(a: int, n: nat, m: nat, g: Granularity)
    requires 0 < n <= m && KeyOfDay(a + n - 1, g) == KeyOfDay(a + m - 1, g)
    ensures DayKeys(a, m, g) == DayKeys(a, n, g)
    decreases m
  {
    hide KeyOfDay;
    if n < m {
      SameKeyBetween(a + n - 1, a + m - 2, a + m - 1, g);
      DayKeysStop(a, n, m - 1, g);
      DayKeysLast(a, m - 1, g);
    }
  }

  // --- bucketsBetween ---------------------------------------------------------------------

  ghost predicate Reaches(a: int, b: int, g: Granularity) {
    exists d :: a <= d < a + 4000 && KeyOfDay(d, g) == KeyOfDay(b, g)
  }

  /** The first `n` days are all the loop visits: it stopped on `b`'s key, or never met it. */
  ghost predicate Visited(a: int, b: int, n: nat, g: Granularity) {
    && 0 < n <= GUARD
    && (forall d :: a <= d < a + n - 1 ==> KeyOfDay(d, g) != KeyOfDay(b, g))
    && (KeyOfDay(a + n - 1, g) == KeyOfDay(b, g) || n == GUARD)
  }

  lemma VisitedKeys(a: int, b: int, n: nat, g: Granularity)
    requires Visited(a, b, n, g)
    ensures Increasing(DayKeys(a, n, g)) && DayKeys(a, n, g) != []
    ensures DayKeys(a, n, g)[|DayKeys(a, n, g)| - 1] == KeyOfDay(b, g) <==> Reaches(a, b, g)
    ensures a <= b < a + GUARD ==> DayKeys(a, n, g) == DayKeys(a, b - a + 1, g)
  {
    hide KeyOfDay, Rank;
    DayKeysFacts(a, n, g);
    if a <= b < a + GUARD {
      assert n <= b - a + 1;
      DayKeysStop(a, n, b - a + 1, g);
    }
  }

  lemma NoonIsThatDay(day: int)
    ensures BogotaDay(day * DAY_MS + NOON_MS + BOGOTA_LAG_MS) == day
  {
  }

  /**
    For any two instants: the keys come out strictly increasing, and the loop
    ends on the key of `to` exactly when some day before the guard has that key.
   */
  method BucketsBetween(from: int, to: int, g: Granularity) returns (keys: seq<Key>)
    ensures Increasing(keys) && keys != []
    ensures keys[|keys| - 1] == BucketKey(to, g) <==> Reaches(BogotaDay(from), BogotaDay(to), g)
    ensures BogotaDay(from) <= BogotaDay(to) < BogotaDay(from) + GUARD ==>
      keys == DayKeys(BogotaDay(from), BogotaDay(to) - BogotaDay(from) + 1, g)
  {
    hide KeyOfDay, Rank, BogotaDay, Increasing, Reaches;
    ghost var a, b := BogotaDay(from), BogotaDay(to);
    keys := [];
    var cursor := BogotaDay(from) * DAY_MS + NOON_MS;
    var last := BucketKey(to, g);
    var guard := 0;
    while guard < GUARD
      invariant 0 <= guard <= GUARD
      invariant cursor == (a + guard) * DAY_MS + NOON_MS
      invariant keys == DayKeys(a, guard, g)
      invariant forall d :: a <= d < a + guard ==> KeyOfDay(d, g) != last
      decreases GUARD - guard
    {
      NoonIsThatDay(a + guard);
      var key := BucketKey(cursor + BOGOTA_LAG_MS, g);
      if keys == [] || keys[|keys| - 1] != key {
        keys := keys + [key];
      }
      assert keys == DayKeys(a, guard + 1, g);
      if key == last {
        VisitedKeys(a, b, guard + 1, g);
        return;
      }
      cursor := cursor + DAY_MS;
      guard := guard + 1;
    }
    VisitedKeys(a, b, GUARD, g);
  }

  /** For an accepted range the guard is out of reach and every instant finds its bucket. */
  lemma AcceptedRangeCovered(fromDay: int, toDay: int, g: Granularity, instant: int)
    requires Accepted(fromDay, toDay) && DayStart(fromDay) <= instant <= DayEnd(toDay)
    ensures BogotaDay(DayStart(fromDay)) == fromDay <= BogotaDay(DayEnd(toDay)) == toDay < fromDay + GUARD
    ensures Reaches(fromDay, toDay, g)
    ensures BucketKey(instant, g) in DayKeys(fromDay, toDay - fromDay + 1, g)
  {
    hide KeyOfDay;
    AcceptedSpans(fromDay, toDay);
    DayBoundaries(fromDay, DayStart(fromDay));
    DayBoundaries(toDay, DayEnd(toDay));
    DayKeysFacts(fromDay, toDay - fromDay + 1, g);
    var d := BogotaDay(instant);
    assert fromDay <= d <= toDay;
    assert KeyOfDay(d, g) in DayKeys(fromDay, toDay - fromDay + 1, g);
  }
}
