/**
 The keys of calendar buckets and the rolling window of recent ones
 (packages/core/src/retention.ts, `bucketKeyOf` and `recentBucketKeys`).
 */
module Buckets {
  import opened Text
  import opened Calendar

  datatype Unit = Daily | Weekly | Monthly | Yearly

  function Clamp(week: int): nat {
    if week < 1 then 1 else if week > 53 then 53 else week
  }

  /** The key of a local day. */
  function KeyOfDay(unit: Unit, d: int): string {
    match unit
    case Daily => DateText(YearOf(d), MonthOf(d) % 12 + 1, DayInMonth(d))
    case Monthly => Number(YearOf(d)) + "-" + Pad(MonthOf(d) % 12 + 1)
    case Yearly => Number(YearOf(d))
    case Weekly => Number(WeekOf(d).year) + "-W" + Pad(Clamp(WeekOf(d).week))
  }

  function BucketKey(unit: Unit, ts: int, off: int): string {
    KeyOfDay(unit, LocalDay(ts, off))
  }

  /** The buckets of a unit, numbered in time order. */
  function Bucket(unit: Unit, d: int): int {
    match unit
    case Daily => d
    case Weekly => (d + 3) / 7
    case Monthly => MonthOf(d)
    case Yearly => YearOf(d)
  }

  // -------------------------------------------------------------------------
  // Buckets follow the days
  // -------------------------------------------------------------------------

  lemma BucketsFollowDays(unit: Unit, d: int, e: int)
    requires d <= e
    ensures Bucket(unit, d) <= Bucket(unit, e)
  {
    MonthsFollowDays(d, e);
  }

  // -------------------------------------------------------------------------
  // Keys name buckets
  // -------------------------------------------------------------------------

  lemma YearKeys(a: nat, x: string, b: nat, y: string)
    requires Number(a) + ['-'] + x == Number(b) + ['-'] + y
    ensures a == b && x == y
  {
    CutUnique(Decimal(a), x, Decimal(b), y, '-');
    DecimalInjective(a, b);
  }

  lemma PaddedKeys(a: nat, x: string, b: nat, y: string)
    requires Pad(a) + ['-'] + x == Pad(b) + ['-'] + y
    ensures a == b && x == y
  {
    CutUnique(Pad(a), x, Pad(b), y, '-');
    PadInjective(a, b);
  }

  function MonthDayText(month: nat, day: nat): string {
    Pad(month) + ['-'] + Pad(day)
  }

  function DateText(year: int, month: nat, day: nat): string {
    Number(year) + ['-'] + MonthDayText(month, day)
  }

  lemma DateTextsDiffer(a: nat, m: nat, i: nat, b: nat, n: nat, j: nat)
    requires DateText(a, m, i) == DateText(b, n, j)
    ensures a == b && m == n && i == j
  {
    YearKeys(a, MonthDayText(m, i), b, MonthDayText(n, j));
    PaddedKeys(m, Pad(i), n, Pad(j));
    PadInjective(i, j);
  }

  lemma DailyKeysDiffer(a: int, b: int)
    requires YearOf(a) >= 0 && YearOf(b) >= 0 && KeyOfDay(Daily, a) == KeyOfDay(Daily, b)
    ensures a == b
  {
    DateTextsDiffer(YearOf(a), MonthOf(a) % 12 + 1, DayInMonth(a), YearOf(b), MonthOf(b) % 12 + 1, DayInMonth(b));
    SameMonth(a, b);
  }

  lemma SameMonth(a: int, b: int)
    requires YearOf(a) == YearOf(b) && MonthOf(a) % 12 == MonthOf(b) % 12
    ensures MonthOf(a) == MonthOf(b)
    ensures DayInMonth(a) == DayInMonth(b) ==> a == b
  {
    assert 12 * YearOf(a) + MonthOf(a) % 12 == MonthOf(a);
    assert 12 * YearOf(b) + MonthOf(b) % 12 == MonthOf(b);
  }

  lemma MonthlyKeysDiffer(a: int, b: int)
    requires YearOf(a) >= 0 && YearOf(b) >= 0 && KeyOfDay(Monthly, a) == KeyOfDay(Monthly, b)
    ensures MonthOf(a) == MonthOf(b)
  {
    YearKeys(YearOf(a), Pad(MonthOf(a) % 12 + 1), YearOf(b), Pad(MonthOf(b) % 12 + 1));
    PadInjective(MonthOf(a) % 12 + 1, MonthOf(b) % 12 + 1);
    SameMonth(a, b);
  }

  lemma WeekKeys(a: nat, m: nat, b: nat, n: nat)
    requires Number(a) + "-W" + Pad(m) == Number(b) + "-W" + Pad(n)
    ensures a == b && m == n
  {
    var x, y := "W" + Pad(m), "W" + Pad(n);
    assert Number(a) + "-W" + Pad(m) == Number(a) + ['-'] + x;
    assert Number(b) + "-W" + Pad(n) == Number(b) + ['-'] + y;
    YearKeys(a, x, b, y);
    assert Pad(m) == x[1..] && Pad(n) == y[1..];
    PadInjective(m, n);
  }

  lemma SameIsoWeek(a: int, b: int)
    requires IsoYear(a) == IsoYear(b) && IsoWeek(a) == IsoWeek(b)
    ensures Bucket(Weekly, a) == Bucket(Weekly, b)
  {
    SameThursday(YearStart(IsoYear(a)), Thursday(a), Thursday(b));
    ThursdayOfWeek(a);
    ThursdayOfWeek(b);
  }

  lemma SameThursday(start: int, a: int, b: int)
    requires Weekday(a) == Weekday(b) && (a - start) / 7 == (b - start) / 7
    ensures a == b
  {
    var k := (a + 3) / 7 - (b + 3) / 7;
    assert a - b == 7 * k && -7 < a - b < 7;
  }

  lemma ThursdayOfWeek(d: int)
    ensures Thursday(d) == 7 * Bucket(Weekly, d)
  {
  }

  /** Two days share a key exactly when they share a day, a Monday-to-Sunday week, a month or a year. */
  lemma KeysNameBuckets(unit: Unit, a: int, b: int)
    requires AsWritten(a) && AsWritten(b)
    ensures KeyOfDay(unit, a) == KeyOfDay(unit, b) <==> Bucket(unit, a) == Bucket(unit, b)
  {
    AsWrittenMeans(a);
    AsWrittenMeans(b);
    if Bucket(unit, a) == Bucket(unit, b) {
      if unit.Weekly? {
        ThursdayOfWeek(a);
        ThursdayOfWeek(b);
        WeekIsIsoWeek(a);
        WeekIsIsoWeek(b);
      }
    }
    if KeyOfDay(unit, a) == KeyOfDay(unit, b) {
      match unit
      case Daily => DailyKeysDiffer(a, b);
      case Monthly => MonthlyKeysDiffer(a, b);
      case Yearly => DecimalInjective(YearOf(a), YearOf(b));
      case Weekly =>
        WeekIsIsoWeek(a);
        WeekIsIsoWeek(b);
        WeekKeys(IsoYear(a), IsoWeek(a), IsoYear(b), IsoWeek(b));
        SameIsoWeek(a, b);
    }
  }

  // -------------------------------------------------------------------------
  // The rolling window
  // -------------------------------------------------------------------------

  /** The instant `recentBucketKeys` steps back to: `Date.UTC` of the local date's parts. */
  function StepBack(unit: Unit, k: nat, today: int): int {
    var yy, month, dd := YearOf(today), MonthOf(today) % 12, DayInMonth(today);
    match unit
    case Daily => DateUTC(yy, month, dd - k)
    case Weekly => DateUTC(yy, month, dd - 7 * k)
    case Monthly => DateUTC(yy, month - k, 1)
    case Yearly => DateUTC(yy - k, 0, 1)
  }

  /** The instant is a midnight in UTC, but its key is read in the local zone. */
  function WindowKey(unit: Unit, k: nat, now: int, off: int): string {
    BucketKey(unit, StepBack(unit, k, LocalDay(now, off)), off)
  }

  function Window(unit: Unit, count: nat, now: int, off: int): set<string> {
    set k: nat | k < count :: WindowKey(unit, k, now, off)
  }

  method RecentBucketKeys(unit: Unit, count: int, now: int, off: int) returns (keys: set<string>)
    ensures keys == Window(unit, if count < 0 then 0 else count, now, off)
  {
    keys := {};
    var k := 0;
    while k < count
      invariant 0 <= k && (count >= 0 ==> k <= count) && (count < 0 ==> k == 0)
      invariant keys == Window(unit, k, now, off)
    {
      WindowGrows(unit, k, now, off);
      keys := keys + {WindowKey(unit, k, now, off)};
      k := k + 1;
    }
  }

  lemma WindowGrows(unit: Unit, k: nat, now: int, off: int)
    ensures Window(unit, k + 1, now, off) == Window(unit, k, now, off) + {WindowKey(unit, k, now, off)}
  {
  }

  /** The first day of the bucket, or the day, that is `k` steps back from a day. */
  function DayBack(unit: Unit, k: nat, today: int): int {
    match unit
    case Daily => today - k
    case Weekly => today - 7 * k
    case Monthly => MonthStart(MonthOf(today) - k)
    case Yearly => YearStart(YearOf(today) - k)
  }

  /** The local day a step back is read as. */
  function ReadBack(unit: Unit, k: nat, today: int, off: int): int {
    DayBack(unit, k, today) - if off >= 0 then 0 else 1
  }

  /** How many buckets too early the window ends: midnight in UTC is the day before in a zone behind it. */
  function Shift(unit: Unit, today: int, off: int): nat {
    if off >= 0 || (unit.Weekly? && Weekday(today) != 0) then 0 else 1
  }

  /** No date involved reaches the years that `Date.UTC` reads as 1900 to 1999. */
  predicate InRange(unit: Unit, count: nat, today: int) {
    AsWritten(today) && (count > 0 ==> AsWritten(DayBack(unit, count - 1, today) - 1))
  }

  predicate Zone(off: int) {
    -DAY < off < DAY
  }

  lemma MonthBack(month: int, k: nat)
    ensures MonthOf(MonthStart(month - k)) == month - k && MonthOf(MonthStart(month - k) - 1) == month - k - 1
  {
    MonthLength(month - k);
    MonthLength(month - k - 1);
    MonthUnique(MonthStart(month - k), month - k);
    MonthUnique(MonthStart(month - k) - 1, month - k - 1);
  }

  /** Stepping back lands `k` buckets earlier, and one more where the zone shifts it. */
  lemma DayBackBucket(unit: Unit, k: nat, today: int, off: int)
    ensures Bucket(unit, ReadBack(unit, k, today, off)) == Bucket(unit, today) - k - Shift(unit, today, off)
  {
    if unit.Weekly? {
      WeeklyBack(k, today, off);
    } else if unit.Monthly? {
      MonthlyBack(k, today, off);
    } else if unit.Yearly? {
      YearlyBack(k, today, off);
    }
  }

  lemma YearlyBack(k: nat, today: int, off: int)
    ensures YearOf(ReadBack(Yearly, k, today, off)) == YearOf(today) - k - Shift(Yearly, today, off)
  {
    var y := YearOf(today) - k;
    YearBack(y);
    assert ReadBack(Yearly, k, today, off) == YearStart(y) - if off >= 0 then 0 else 1;
  }

  lemma YearBack(y: int)
    ensures YearOf(YearStart(y)) == y && YearOf(YearStart(y) - 1) == y - 1
  {
    MonthBack(12 * y, 0);
    assert (12 * y) / 12 == y && (12 * y - 1) / 12 == y - 1;
  }

  lemma MonthlyBack(k: nat, today: int, off: int)
    ensures MonthOf(ReadBack(Monthly, k, today, off)) == MonthOf(today) - k - Shift(Monthly, today, off)
  {
    var month := MonthOf(today);
    MonthBack(month, k);
    assert ReadBack(Monthly, k, today, off) == MonthStart(month - k) - if off >= 0 then 0 else 1;
  }

  lemma WeeklyBack(k: nat, today: int, off: int)
    ensures (ReadBack(Weekly, k, today, off) + 3) / 7 == (today + 3) / 7 - k - Shift(Weekly, today, off)
  {
    var q, w := (today + 3) / 7, Weekday(today);
    assert today + 3 == 7 * q + w;
    DivBySeven(q - k, w);
    DivBySeven(q - k - 1, 6);
    if w > 0 { DivBySeven(q - k, w - 1); }
  }

  lemma DivBySeven(q: int, r: int)
    requires 0 <= r < 7
    ensures (7 * q + r) / 7 == q
  {
  }

  lemma DaysEarlier(today: int, days: nat)
    requires YearOf(today) >= 100
    ensures DateUTC(YearOf(today), MonthOf(today) % 12, DayInMonth(today) - days) == (today - days) * DAY
  {
    PartsRebuild(today);
  }

  lemma MonthsEarlier(today: int, k: nat)
    requires YearOf(today) >= 100
    ensures DateUTC(YearOf(today), MonthOf(today) % 12 - k, 1) == MonthStart(MonthOf(today) - k) * DAY
  {
    assert 12 * YearOf(today) + MonthOf(today) % 12 == MonthOf(today);
  }

  lemma StepBackIsDayBack(unit: Unit, k: nat, today: int)
    requires AsWritten(today) && AsWritten(DayBack(unit, k, today) - 1)
    ensures StepBack(unit, k, today) == DayBack(unit, k, today) * DAY
  {
    AsWrittenMeans(today);
    match unit
    case Daily => DaysEarlier(today, k);
    case Weekly => DaysEarlier(today, 7 * k);
    case Monthly => MonthsEarlier(today, k);
    case Yearly => YearsEarlier(YearOf(today) - k);
  }

  lemma YearsEarlier(y: int)
    requires AsWritten(YearStart(y) - 1)
    ensures DateUTC(y, 0, 1) == YearStart(y) * DAY
  {
    YearBack(y);
    AsWrittenMeans(YearStart(y) - 1);
  }

  lemma MidnightRead(day: int, off: int)
    requires Zone(off)
    ensures LocalDay(day * DAY, off) == day - if off >= 0 then 0 else 1
  {
    var days := if off >= 0 then day else day - 1;
    var rest := day * DAY + off - days * DAY;
    assert 0 <= rest < DAY && (days * DAY + rest) / DAY == days;
  }

  lemma WindowKeyDay(unit: Unit, k: nat, now: int, off: int)
    requires Zone(off) && AsWritten(LocalDay(now, off)) && AsWritten(DayBack(unit, k, LocalDay(now, off)) - 1)
    ensures var read := ReadBack(unit, k, LocalDay(now, off), off);
            WindowKey(unit, k, now, off) == KeyOfDay(unit, read) && AsWritten(read)
  {
    var today := LocalDay(now, off);
    StepBackIsDayBack(unit, k, today);
    MidnightRead(DayBack(unit, k, today), off);
  }

  /** The k-th key of the window is the key of the bucket k steps back, or k + 1 where the window is shifted. */
  lemma WindowKeyIs(unit: Unit, k: nat, count: nat, now: int, off: int, d: int)
    requires Zone(off) && k < count && InRange(unit, count, LocalDay(now, off)) && AsWritten(d)
    ensures var today := LocalDay(now, off);
            WindowKey(unit, k, now, off) == KeyOfDay(unit, d) <==> Bucket(unit, d) == Bucket(unit, today) - k - Shift(unit, today, off)
  {
    var today := LocalDay(now, off);
    DaysBackOrdered(unit, k, count - 1, today);
    WindowKeyDay(unit, k, now, off);
    DayBackBucket(unit, k, today, off);
    KeysNameBuckets(unit, ReadBack(unit, k, today, off), d);
  }

  lemma DaysBackOrdered(unit: Unit, j: nat, k: nat, today: int)
    requires j <= k
    ensures DayBack(unit, k, today) <= DayBack(unit, j, today)
  {
    if j < k {
      MonthsGrow(MonthOf(today) - k, MonthOf(today) - j);
      MonthsGrow(12 * (YearOf(today) - k), 12 * (YearOf(today) - j));
    }
  }

  /** A day's key is in the window exactly when its bucket is one of `count` consecutive ones. */
  lemma WindowIs(unit: Unit, count: nat, now: int, off: int, d: int)
    requires Zone(off) && InRange(unit, count, LocalDay(now, off)) && AsWritten(d)
    ensures var today := LocalDay(now, off);
            var last := Bucket(unit, today) - Shift(unit, today, off);
            KeyOfDay(unit, d) in Window(unit, count, now, off) <==> last - count < Bucket(unit, d) <= last
  {
    var today := LocalDay(now, off);
    var last := Bucket(unit, today) - Shift(unit, today, off);
    if last - count < Bucket(unit, d) <= last {
      var k: nat := last - Bucket(unit, d);
      WindowKeyIs(unit, k, count, now, off, d);
    }
    if KeyOfDay(unit, d) in Window(unit, count, now, off) {
      var k: nat :| k < count && WindowKey(unit, k, now, off) == KeyOfDay(unit, d);
      WindowKeyIs(unit, k, count, now, off, d);
    }
  }

  /** The key one step further back is a new one. */
  lemma NextKeyIsNew(unit: Unit, k: nat, now: int, off: int)
    requires Zone(off) && InRange(unit, k + 1, LocalDay(now, off)) && InRange(unit, k, LocalDay(now, off))
    ensures WindowKey(unit, k, now, off) !in Window(unit, k, now, off)
  {
    var today := LocalDay(now, off);
    WindowKeyDay(unit, k, now, off);
    DayBackBucket(unit, k, today, off);
    WindowIs(unit, k, now, off, ReadBack(unit, k, today, off));
  }

  lemma ShorterInRange(unit: Unit, k: nat, today: int)
    requires InRange(unit, k + 1, today)
    ensures InRange(unit, k, today)
  {
    if k > 0 {
      DaysBackOrdered(unit, k - 1, k, today);
    }
  }

  /** The keys of a window never collapse. */
  lemma {:induction false} WindowSize(unit: Unit, count: nat, now: int, off: int)
    requires Zone(off) && InRange(unit, count, LocalDay(now, off))
    ensures |Window(unit, count, now, off)| == count
  {
    if count > 0 {
      var k := count - 1;
      ShorterInRange(unit, k, LocalDay(now, off));
      WindowSize(unit, k, now, off);
      NextKeyIsNew(unit, k, now, off);
      WindowGrows(unit, k, now, off);
      assert Window(unit, count, now, off) == Window(unit, k, now, off) + {WindowKey(unit, k, now, off)};
    }
  }

  /** The window ends at the current bucket exactly when it is not shifted. */
  lemma CurrentBucketInWindow(unit: Unit, count: nat, now: int, off: int)
    requires Zone(off) && count > 0 && InRange(unit, count, LocalDay(now, off))
    ensures BucketKey(unit, now, off) in Window(unit, count, now, off) <==>
            off >= 0 || (unit.Weekly? && Weekday(LocalDay(now, off)) != 0)
  {
    WindowIs(unit, count, now, off, LocalDay(now, off));
  }
}
