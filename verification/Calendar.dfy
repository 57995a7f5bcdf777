/**
 Calendar buckets in a zone with a fixed offset from UTC
 (packages/core/src/retention.ts). Days are counted from 1 January 1970, and the
 civil calendar is the proleptic Gregorian one that the platform's date
 formatting uses.
 */
module Calendar {
  const DAY := 86_400_000

  // -------------------------------------------------------------------------
  // The civil calendar
  // -------------------------------------------------------------------------

  predicate Leap(y: int) {
    y % 4 == 0 && (y % 100 != 0 || y % 400 == 0)
  }

  /** Months are counted through the years: 12 * year + month, January being 0. */
  const EPOCH := 12 * 1970

  function MonthDays(month: int): (n: int)
    ensures 28 <= n <= 31
  {
    if month % 12 == 1 then (if Leap(month / 12) then 29 else 28)
    else if month % 12 in {3, 5, 8, 10} then 30
    else 31
  }

  /** The first day of a month. */
  function MonthStart(month: int): int
    decreases if month >= EPOCH then month - EPOCH else EPOCH - month
  {
    if month > EPOCH then MonthStart(month - 1) + MonthDays(month - 1)
    else if month < EPOCH then MonthStart(month + 1) - MonthDays(month)
    else 0
  }

  lemma MonthLength(month: int)
    ensures MonthStart(month + 1) == MonthStart(month) + MonthDays(month)
  {
  }

  /** The first day of a year. */
  function YearStart(y: int): int {
    MonthStart(12 * y)
  }

  lemma MonthInYear(y: int, m: nat)
    requires m < 12
    ensures MonthStart(12 * y + m + 1) - MonthStart(12 * y + m) ==
            if m == 1 then (if Leap(y) then 29 else 28) else if m in {3, 5, 8, 10} then 30 else 31
  {
    assert (12 * y + m) % 12 == m && (12 * y + m) / 12 == y;
    MonthLength(12 * y + m);
  }

  /** Days of a common year before its month `m`. */
  function DaysBefore(m: nat): nat
    requires m <= 12
  {
    if m == 0 then 0 else DaysBefore(m - 1) + if m == 2 then 28 else if m in {4, 6, 9, 11} then 30 else 31
  }

  lemma {:induction false} DaysIntoYear(y: int, m: nat)
    requires m <= 12
    ensures MonthStart(12 * y + m) == YearStart(y) + DaysBefore(m) + if m >= 2 && Leap(y) then 1 else 0
  {
    if m > 0 {
      DaysIntoYear(y, m - 1);
      MonthInYear(y, m - 1);
    }
  }

  lemma YearLength(y: int)
    ensures YearStart(y + 1) == YearStart(y) + if Leap(y) then 366 else 365
  {
    DaysIntoYear(y, 12);
    assert DaysBefore(6) == 181 && DaysBefore(12) == 365;
    assert 12 * (y + 1) == 12 * y + 12;
  }

  /** Leap days before a year. */
  function LeapsBefore(y: int): int {
    (y - 1) / 4 - (y - 1) / 100 + (y - 1) / 400
  }

  lemma NextMultiple(y: int)
    ensures y / 4 - (y - 1) / 4 == if y % 4 == 0 then 1 else 0
    ensures y / 100 - (y - 1) / 100 == if y % 100 == 0 then 1 else 0
    ensures y / 400 - (y - 1) / 400 == if y % 400 == 0 then 1 else 0
  {
  }

  lemma MultiplesNest(y: int)
    ensures y % 100 == 0 ==> y % 4 == 0
    ensures y % 400 == 0 ==> y % 100 == 0
  {
    assert y % 100 == 0 ==> y == 4 * (25 * (y / 100));
    assert y % 400 == 0 ==> y == 100 * (4 * (y / 400));
  }

  lemma NextLeap(y: int)
    ensures LeapsBefore(y + 1) == LeapsBefore(y) + if Leap(y) then 1 else 0
  {
    NextMultiple(y);
    MultiplesNest(y);
  }

  /** The closed form of the start of a year. */
  lemma {:induction false} YearStartIs(y: int)
    requires y <= 1970
    ensures YearStart(y) == 365 * (y - 1970) + LeapsBefore(y) - 477
    decreases 1970 - y
  {
    if y < 1970 {
      YearStartIs(y + 1);
      YearLength(y);
      NextLeap(y);
    }
  }

  /** The month a day falls in. */
  function MonthOf(d: int): (month: int)
    ensures MonthStart(month) <= d < MonthStart(month + 1)
  {
    if d >= 0 then MonthAfter(EPOCH, d) else MonthBefore(EPOCH, d)
  }

  function MonthAfter(month: int, d: int): (found: int)
    requires MonthStart(month) <= d
    ensures MonthStart(found) <= d < MonthStart(found + 1)
    decreases d - MonthStart(month)
  {
    MonthLength(month);
    if d < MonthStart(month + 1) then month else MonthAfter(month + 1, d)
  }

  function MonthBefore(month: int, d: int): (found: int)
    requires d < MonthStart(month)
    ensures MonthStart(found) <= d < MonthStart(found + 1)
    decreases MonthStart(month) - d
  {
    MonthLength(month - 1);
    if MonthStart(month - 1) <= d then month - 1 else MonthBefore(month - 1, d)
  }

  function YearOf(d: int): int {
    MonthOf(d) / 12
  }

  function DayInMonth(d: int): (n: int)
    ensures 1 <= n <= 31
  {
    MonthLength(MonthOf(d));
    d - MonthStart(MonthOf(d)) + 1
  }

  lemma {:induction false} MonthsGrow(a: int, b: int)
    requires a < b
    ensures MonthStart(a) < MonthStart(b)
    decreases b - a
  {
    MonthLength(b - 1);
    if a < b - 1 {
      MonthsGrow(a, b - 1);
    }
  }

  lemma MonthUnique(d: int, month: int)
    requires MonthStart(month) <= d < MonthStart(month + 1)
    ensures MonthOf(d) == month
  {
    if MonthOf(d) + 1 < month {
      MonthsGrow(MonthOf(d) + 1, month);
    }
    if month + 1 < MonthOf(d) {
      MonthsGrow(month + 1, MonthOf(d));
    }
  }

  lemma MonthsFollowDays(d: int, e: int)
    requires d <= e
    ensures MonthOf(d) <= MonthOf(e) && YearOf(d) <= YearOf(e)
  {
    if MonthOf(e) + 1 < MonthOf(d) {
      MonthsGrow(MonthOf(e) + 1, MonthOf(d));
    }
  }

  lemma YearHolds(d: int)
    ensures YearStart(YearOf(d)) <= d < YearStart(YearOf(d) + 1)
  {
    var month, y := MonthOf(d), YearOf(d);
    if 12 * y < month { MonthsGrow(12 * y, month); }
    if month + 1 < 12 * (y + 1) { MonthsGrow(month + 1, 12 * (y + 1)); }
  }

  /** Monday is 0. */
  function Weekday(d: int): (w: int)
    ensures 0 <= w < 7
  {
    (d + 3) % 7
  }

  // -------------------------------------------------------------------------
  // The platform's date arithmetic
  // -------------------------------------------------------------------------

  /** The day an instant falls on in a zone `off` milliseconds ahead of UTC. */
  function LocalDay(ts: int, off: int): int {
    (ts + off) / DAY
  }

  /** JavaScript's `%`: the remainder takes the sign of the dividend. */
  function Rem(a: int, b: nat): int
    requires b > 0
  {
    if a >= 0 then a % b else -((-a) % b)
  }

  /** `Date.UTC` reads the years 0 to 99 as 1900 to 1999. */
  function FullYear(y: int): int {
    if 0 <= y <= 99 then 1900 + y else y
  }

  /** `Date.UTC(year, month, day)`, with months counted from 0 and out-of-range parts carried over. */
  function DateUTC(year: int, month: int, day: int): int {
    (MonthStart(12 * FullYear(year) + month) + day - 1) * DAY
  }

  // -------------------------------------------------------------------------
  // ISO weeks
  // -------------------------------------------------------------------------

  /** The Thursday of the Monday-to-Sunday week a day falls in. */
  function Thursday(d: int): (t: int)
    ensures Weekday(t) == 3 && d - 3 <= t <= d + 3
  {
    d - Weekday(d) + 3
  }

  /** Section 2.2.10 of ISO 8601:2004: a week belongs to the year of its Thursday. */
  function IsoYear(d: int): int {
    YearOf(Thursday(d))
  }

  /** The week's Thursday is the year's first, second, ... one. */
  function IsoWeek(d: int): int {
    1 + (Thursday(d) - YearStart(IsoYear(d))) / 7
  }

  datatype YearWeek = YearWeek(year: int, week: int)

  /** The Monday on or before 4 January, from the weekday of another instant. */
  function FirstMonday(isoDow: int, ms: int, jan4Ms: int): int {
    var delta := (jan4Ms - ms) / DAY;
    var jan4Dow := Rem(isoDow - 1 + Rem(Rem(delta, 7) + 7, 7), 7) + 1;
    jan4Ms - (jan4Dow - 1) * DAY
  }

  /** The year and the unclamped week that `bucketKeyOf` computes. */
  function WeekOf(d: int): YearWeek {
    WeekAt(Weekday(d) + 1, DateUTC(YearOf(d), MonthOf(d) % 12, DayInMonth(d)))
  }

  function WeekAt(isoDow: int, ms: int): YearWeek {
    var thursdayMs := ms + (4 - isoDow) * DAY;
    var tYear := YearOf(thursdayMs / DAY);
    var mondayWeek1 := FirstMonday(isoDow, ms, DateUTC(tYear, 0, 4));
    YearWeek(tYear, WeeksFrom(thursdayMs - 3 * DAY, mondayWeek1))
  }

  function WeeksFrom(ms: int, mondayMs: int): int {
    1 + (ms - mondayMs) / (7 * DAY)
  }

  /**
   From Monday 4 January of the year 100 on, `Date.UTC` takes the day's year, and
   the year of its week's Thursday, at their word.
   */
  predicate AsWritten(d: int) {
    d >= -683_000
  }

  lemma PartsRebuild(d: int)
    requires YearOf(d) >= 100
    ensures DateUTC(YearOf(d), MonthOf(d) % 12, DayInMonth(d)) == d * DAY
  {
    var month := MonthOf(d);
    assert 12 * YearOf(d) + month % 12 == month;
  }

  lemma RemShift(w: nat, delta: int)
    requires w < 7
    ensures Rem(w + Rem(Rem(delta, 7) + 7, 7), 7) == (w + delta) % 7
  {
    var r := Rem(delta, 7);
    assert (r + 7) % 7 == delta % 7;
    assert (w + delta % 7) % 7 == (w + delta) % 7;
  }

  lemma FirstMondayWith(w: nat, ms: int, jan4Ms: int, delta: int)
    requires w < 7 && (jan4Ms - ms) / DAY == delta
    ensures FirstMonday(w + 1, ms, jan4Ms) == jan4Ms - ((w + delta) % 7) * DAY
  {
    RemShift(w, delta);
  }

  lemma WeekdayShift(d: int, e: int)
    ensures (Weekday(d) + (e - d)) % 7 == Weekday(e)
  {
    var q := (d + 3) / 7;
    assert Weekday(d) + (e - d) == (e + 3) - 7 * q;
  }

  lemma DaysInMs(a: int, b: int)
    ensures (a * DAY - b * DAY) / DAY == a - b && (a * DAY) / (7 * DAY) == a / 7
  {
  }

  lemma FirstMondayIsMonday(d: int, jan4: int)
    ensures FirstMonday(Weekday(d) + 1, d * DAY, jan4 * DAY) == (jan4 - Weekday(jan4)) * DAY
  {
    DaysInMs(jan4, d);
    FirstMondayWith(Weekday(d), d * DAY, jan4 * DAY, jan4 - d);
    WeekdayShift(d, jan4);
  }

  /** Counting weeks from the Monday on or before 4 January counts Thursdays. */
  lemma ThursdaysAreCounted(t: int, start: int)
    requires Weekday(t) == 3
    ensures var monday := start + 3 - Weekday(start + 3); (t - 3 - monday) / 7 == (t - start) / 7
  {
    assert (t - start) % 7 == 6 - Weekday(start + 3);
  }

  lemma YearReached(y: int, d: int)
    ensures YearStart(y) <= d <==> y <= YearOf(d)
  {
    if YearStart(y) <= d {
      MonthReached(12 * y, d);
    } else if 12 * y < MonthOf(d) {
      MonthsGrow(12 * y, MonthOf(d));
    }
  }

  lemma StartOf100(y: int)
    requires y == 100
    ensures YearStart(y) == -683_003
  {
    YearStartIs(y);
    assert LeapsBefore(y) == 24;
  }

  lemma From100(d: int, y: int)
    requires y == 100
    ensures d >= -683_003 <==> YearOf(d) >= y
  {
    StartOf100(y);
    YearReached(y, d);
  }

  lemma FirstThursdayOf100(d: int)
    ensures AsWritten(d) <==> d >= -683_003 && Thursday(d) >= -683_003
  {
  }

  lemma AsWrittenMeans(d: int)
    ensures AsWritten(d) <==> YearOf(d) >= 100 && IsoYear(d) >= 100
  {
    From100(d, 100);
    From100(Thursday(d), 100);
    FirstThursdayOf100(d);
  }

  /** The weekly bucket is the ISO week: it never needs the clamp to 1..53. */
  lemma WeekIsIsoWeek(d: int)
    requires AsWritten(d)
    ensures WeekOf(d) == YearWeek(IsoYear(d), IsoWeek(d)) && 1 <= IsoWeek(d) <= 53
  {
    AsWrittenMeans(d);
    PartsRebuild(d);
    IsoWeekInYear(d);
    WeekFromDays(d, IsoYear(d), IsoWeek(d));
  }

  lemma IsoWeekInYear(d: int)
    ensures 1 <= IsoWeek(d) <= 53
  {
    YearHolds(Thursday(d));
    YearLength(IsoYear(d));
  }

  lemma WeekFromDays(d: int, tYear: int, week: int)
    requires tYear == IsoYear(d) >= 100 && week == IsoWeek(d)
    ensures WeekAt(Weekday(d) + 1, d * DAY) == YearWeek(tYear, week)
  {
    var jan4 := YearStart(tYear) + 3;
    Jan4(tYear);
    FirstMondayIsMonday(d, jan4);
    ThursdaysAreCounted(Thursday(d), YearStart(tYear));
    WeekAtIs(Weekday(d) + 1, d * DAY, Thursday(d), tYear, jan4 - Weekday(jan4));
  }

  lemma WeekAtIs(isoDow: int, ms: int, t: int, tYear: int, monday: int)
    requires ms + (4 - isoDow) * DAY == t * DAY && YearOf(t) == tYear
    requires FirstMonday(isoDow, ms, DateUTC(tYear, 0, 4)) == monday * DAY
    ensures WeekAt(isoDow, ms) == YearWeek(tYear, 1 + (t - 3 - monday) / 7)
  {
    DaysInMs(t, 0);
    WeeksFromDays(t, monday);
    var thursdayMs := ms + (4 - isoDow) * DAY;
    assert thursdayMs / DAY == t;
    assert WeekAt(isoDow, ms) == YearWeek(tYear, WeeksFrom(thursdayMs - 3 * DAY, monday * DAY));
  }

  lemma WeeksFromDays(t: int, monday: int)
    ensures WeeksFrom(t * DAY - 3 * DAY, monday * DAY) == 1 + (t - 3 - monday) / 7
  {
    DaysInMs(t - 3 - monday, 0);
    assert t * DAY - 3 * DAY - monday * DAY == (t - 3 - monday) * DAY;
  }

  lemma Jan4(y: int)
    requires y >= 100
    ensures DateUTC(y, 0, 4) == (YearStart(y) + 3) * DAY
  {
  }

  lemma WeekAtYear(isoDow: int, ms: int, t: int)
    requires ms + (4 - isoDow) * DAY == t * DAY
    ensures WeekAt(isoDow, ms).year == YearOf(t)
  {
    DaysInMs(t, 0);
  }

  /** A date in the years 0 to 99 is moved to the twentieth century. */
  lemma EarlyYearsMove(d: int)
    requires 0 <= YearOf(d) <= 99
    ensures WeekOf(d).year >= 1899 && IsoYear(d) <= 100
  {
    var month := 12 * FullYear(YearOf(d)) + MonthOf(d) % 12;
    var moved := MonthStart(month) + DayInMonth(d) - 1;
    var t := moved + 3 - Weekday(d);
    assert DateUTC(YearOf(d), MonthOf(d) % 12, DayInMonth(d)) == moved * DAY;
    WeekAtYear(Weekday(d) + 1, moved * DAY, t);
    assert WeekOf(d).year == YearOf(t);
    MonthReached(month, moved);
    assert YearOf(moved) >= 1900;
    YearNearby(moved, t);
    YearNearby(d, Thursday(d));
  }

  lemma YearNearby(d: int, e: int)
    requires d - 3 <= e <= d + 3
    ensures YearOf(d) - 1 <= YearOf(e) <= YearOf(d) + 1
  {
    MonthLength(MonthOf(d) - 1);
    MonthLength(MonthOf(d) + 1);
    if MonthOf(d) + 2 < MonthOf(e) { MonthsGrow(MonthOf(d) + 2, MonthOf(e)); }
    if MonthOf(e) + 1 < MonthOf(d) - 1 { MonthsGrow(MonthOf(e) + 1, MonthOf(d) - 1); }
  }

  lemma MonthReached(month: int, d: int)
    requires MonthStart(month) <= d
    ensures month <= MonthOf(d)
  {
    if MonthOf(d) + 1 < month { MonthsGrow(MonthOf(d) + 1, month); }
  }

  /** The first days of year 100 whose Thursday is in year 99 get no week of that year. */
  lemma YearHundredMoves(d: int, y: int, z: int)
    requires YearOf(d) >= 100 && IsoYear(d) == y && FullYear(y) == z > y + 1
    ensures WeekOf(d).week < 1
  {
    PartsRebuild(d);
    var jan4 := YearStart(z) + 3;
    assert DateUTC(y, 0, 4) == jan4 * DAY;
    FirstMondayIsMonday(d, jan4);
    WeekAtIs(Weekday(d) + 1, d * DAY, Thursday(d), y, jan4 - Weekday(jan4));
    YearsBefore(Thursday(d), z);
  }

  lemma YearsBefore(t: int, z: int)
    requires YearOf(t) + 1 < z
    ensures t + 28 <= YearStart(z)
  {
    YearHolds(t);
    MonthsGrow(12 * (YearOf(t) + 1), 12 * z - 1);
    MonthLength(12 * z - 1);
  }

  /** For dates the platform prints with a plain year, the ISO week comes out exactly from year 100 on. */
  lemma WeekExact(d: int)
    requires YearOf(d) >= 1
    ensures WeekOf(d) == YearWeek(IsoYear(d), IsoWeek(d)) <==> YearOf(d) >= 100 && IsoYear(d) >= 100
  {
    AsWrittenMeans(d);
    if AsWritten(d) {
      WeekIsIsoWeek(d);
    } else if YearOf(d) <= 99 {
      EarlyYearsMove(d);
    } else {
      YearNearby(d, Thursday(d));
      YearHundredMoves(d, 99, 1999);
      IsoWeekInYear(d);
    }
  }
}
