/**
 When a retention policy keeps the newest snapshot
 (packages/core/src/retention.ts): always with a keep-last rule, and otherwise
 exactly when the rules leave no gap between what they cover and now.
 */
module RetentionNewest {
  import opened Wrappers
  import opened Calendar
  import opened Buckets
  import opened RetentionPolicy

  // -------------------------------------------------------------------------
  // What the rules cover
  // -------------------------------------------------------------------------

  /** An instant is inside the age window or one of the calendar buckets of a rule. */
  predicate CoveredBy(x: int, rule: Rule, c: Clock) {
    match rule
    case KeepLast(_) => false
    case KeepAge(maxAge) => maxAge.Some? && x >= c.now - maxAge.value
    case KeepCalendar(unit, count) => count > 0 && BucketKey(unit, x, c.off) in Window(unit, count, c.now, c.off)
  }

  predicate Covered(x: int, rules: seq<Rule>, c: Clock) {
    exists i :: 0 <= i < |rules| && CoveredBy(x, rules[i], c)
  }

  /** Among the admitted instants up to now, everything later than a covered one is covered. */
  ghost predicate NoGap(rules: seq<Rule>, c: Clock, admitted: int -> bool) {
    forall x, y :: admitted(x) && admitted(y) && x <= y <= c.now && Covered(x, rules, c) ==> Covered(y, rules, c)
  }

  /** No eligible snapshot is guarded, and all were captured at admitted instants. */
  predicate Unguarded(rows: seq<Snapshot>, c: Clock, admitted: int -> bool) {
    forall s :: s in rows && Eligible(s, c.now) ==> !Guarded(s) && admitted(s.time.ms)
  }

  ghost predicate KeepsNewest(rules: seq<Rule>, c: Clock, admitted: int -> bool) {
    forall rows, n :: SameIdSameSnapshot(rows) && Unguarded(rows, c, admitted) && Newest(n, rows, c.now)
                      ==> Kept(n.id, rows, Policy(true, rules), c)
  }

  // -------------------------------------------------------------------------
  // Every policy
  // -------------------------------------------------------------------------

  lemma ChosenIsCovered(s: Snapshot, rows: seq<Snapshot>, rules: seq<Rule>, c: Clock)
    requires Eligible(s, c.now) && !Guarded(s) && Chosen(s, rows, rules, c)
    ensures LastCount(rules) > 0 || Covered(s.time.ms, rules, c)
  {
    if i :| 0 <= i < |rules| && WithinAge(s, rules[i], c.now) {
      assert CoveredBy(s.time.ms, rules[i], c);
    } else if i :| 0 <= i < |rules| && Represents(s, rows, rules[i], c) {
      assert CoveredBy(s.time.ms, rules[i], c);
    }
  }

  lemma {:induction false} NoneLater(n: Snapshot, rows: seq<Snapshot>, now: int)
    requires forall t :: t in rows && Eligible(t, now) ==> !Later(t, n)
    ensures LaterCount(n, rows, now) == 0
  {
    if rows != [] {
      NoneLater(n, rows[..|rows| - 1], now);
    }
  }

  lemma CoveredNewestIsChosen(n: Snapshot, rows: seq<Snapshot>, rules: seq<Rule>, c: Clock)
    requires Newest(n, rows, c.now)
    requires LastCount(rules) > 0 || Covered(n.time.ms, rules, c)
    ensures Chosen(n, rows, rules, c)
  {
    if i :| 0 <= i < |rules| && CoveredBy(n.time.ms, rules[i], c) {
      assert rules[i].KeepAge? ==> WithinAge(n, rules[i], c.now);
      assert rules[i].KeepCalendar? ==> Represents(n, rows, rules[i], c);
    } else {
      NoneLater(n, rows, c.now);
      assert LastKept(n, rows, rules, c.now);
    }
  }

  lemma GaplessKeepsNewest(rows: seq<Snapshot>, policy: Policy, c: Clock, n: Snapshot, admitted: int -> bool)
    requires SameIdSameSnapshot(rows) && policy.enabled && Newest(n, rows, c.now) && Unguarded(rows, c, admitted)
    requires LastCount(policy.rules) > 0 || NoGap(policy.rules, c, admitted)
    ensures Kept(n.id, rows, policy, c)
  {
    if NothingChosen(rows, policy.rules, c) {
      assert NewestId(n.id, rows, c.now);
    } else {
      var t :| t in rows && Eligible(t, c.now) && ChosenId(t.id, rows, policy.rules, c);
      var s :| s in rows && s.id == t.id && Chosen(s, rows, policy.rules, c);
      assert s == t;
      ChosenIsCovered(t, rows, policy.rules, c);
      LaterOrder(n, t);
      assert t.time.ms <= n.time.ms;
      CoveredNewestIsChosen(n, rows, policy.rules, c);
      assert ChosenId(n.id, rows, policy.rules, c);
    }
  }

  function Capture(id: string, ms: int): Snapshot {
    Snapshot(id, Finite(ms), None, false, false, true)
  }

  /** An older capture and a newer one. */
  function Pair(x: int, y: int): seq<Snapshot> {
    [Capture("a", x), Capture("b", y)]
  }

  lemma PairIsOrdered(x: int, y: int, c: Clock, admitted: int -> bool)
    requires x <= y <= c.now && admitted(x) && admitted(y)
    ensures var rows := Pair(x, y);
            && SameIdSameSnapshot(rows) && Newest(rows[1], rows, c.now) && Unguarded(rows, c, admitted)
            && !Later(rows[0], rows[0]) && Later(rows[1], rows[0]) && forall s :: s in rows ==> s == rows[0] || s == rows[1]
  {
    var rows := Pair(x, y);
    LaterOrder(rows[1], rows[0]);
    LaterOrder(rows[1], rows[1]);
    LaterOrder(rows[0], rows[0]);
    assert TextLess("a", "b");
  }

  /** A gap costs the newest of two snapshots: the older one is covered, and so kept. */
  lemma GapLosesNewest(rules: seq<Rule>, c: Clock, x: int, y: int)
    requires LastCount(rules) <= 0 && x <= y <= c.now && Covered(x, rules, c) && !Covered(y, rules, c)
    ensures var rows := Pair(x, y);
            && SameIdSameSnapshot(rows) && Newest(rows[1], rows, c.now)
            && Kept(rows[0].id, rows, Policy(true, rules), c) && !Kept(rows[1].id, rows, Policy(true, rules), c)
  {
    var rows := Pair(x, y);
    PairIsOrdered(x, y, c, i => true);
    OlderIsChosen(rows[0], rows[1], rules, c);
    assert rows[0] in rows && ChosenId(rows[0].id, rows, rules, c);
    if ChosenId(rows[1].id, rows, rules, c) {
      ChosenIsCovered(rows[1], rows, rules, c);
    }
  }

  lemma OlderIsChosen(t: Snapshot, n: Snapshot, rules: seq<Rule>, c: Clock)
    requires Eligible(t, c.now) && Eligible(n, c.now) && !Later(t, t)
    requires Covered(t.time.ms, rules, c) && !Covered(n.time.ms, rules, c)
    ensures Chosen(t, [t, n], rules, c)
  {
    var i :| 0 <= i < |rules| && CoveredBy(t.time.ms, rules[i], c);
    assert !CoveredBy(n.time.ms, rules[i], c);
    if rules[i].KeepAge? {
      assert WithinAge(t, rules[i], c.now);
    } else {
      OlderRepresents(t, n, rules[i], c);
    }
  }

  lemma OlderRepresents(t: Snapshot, n: Snapshot, rule: Rule, c: Clock)
    requires Eligible(t, c.now) && Eligible(n, c.now) && !Later(t, t)
    requires rule.KeepCalendar? && CoveredBy(t.time.ms, rule, c) && !CoveredBy(n.time.ms, rule, c)
    ensures Represents(t, [t, n], rule, c)
  {
    assert KeyOf(n, rule.unit, c.off) != KeyOf(t, rule.unit, c.off);
    assert forall s :: s in [t, n] ==> s == t || s == n;
  }

  /**
   Every policy, every clock and zone: the newest snapshot of every unguarded list
   is kept exactly when there is a keep-last rule or the rules leave no gap. The
   condition is about the policy and the clock alone.
   */
  lemma KeepsNewestExactly(rules: seq<Rule>, c: Clock, admitted: int -> bool)
    ensures KeepsNewest(rules, c, admitted) <==> LastCount(rules) > 0 || NoGap(rules, c, admitted)
  {
    if LastCount(rules) > 0 || NoGap(rules, c, admitted) {
      forall rows, n | SameIdSameSnapshot(rows) && Unguarded(rows, c, admitted) && Newest(n, rows, c.now)
        ensures Kept(n.id, rows, Policy(true, rules), c)
      {
        GaplessKeepsNewest(rows, Policy(true, rules), c, n, admitted);
      }
    } else {
      var x, y :| admitted(x) && admitted(y) && x <= y <= c.now && Covered(x, rules, c) && !Covered(y, rules, c);
      GapLosesNewest(rules, c, x, y);
      PairIsOrdered(x, y, c, admitted);
    }
  }

  // -------------------------------------------------------------------------
  // Windows that are not shifted
  // -------------------------------------------------------------------------

  /** The instants whose local date the platform reads as written. */
  function Dated(off: int): int -> bool {
    x => AsWritten(LocalDay(x, off))
  }

  predicate RuleInRange(rule: Rule, c: Clock) {
    rule.KeepCalendar? && rule.count > 0 ==> InRange(rule.unit, rule.count, LocalDay(c.now, c.off))
  }

  predicate InReach(rules: seq<Rule>, c: Clock) {
    Zone(c.off) && forall i :: 0 <= i < |rules| ==> RuleInRange(rules[i], c)
  }

  predicate Shifted(rule: Rule, c: Clock) {
    rule.KeepCalendar? && rule.count > 0 && Shift(rule.unit, LocalDay(c.now, c.off), c.off) > 0
  }

  lemma DaysFollowTime(a: int, b: int, off: int)
    requires a <= b
    ensures LocalDay(a, off) <= LocalDay(b, off)
  {
  }

  /** A date is covered by a calendar rule when its bucket is one of the rule's last ones. */
  predicate DayCovered(d: int, rule: Rule, today: int, off: int) {
    && rule.KeepCalendar? && rule.count > 0
    && var last := Bucket(rule.unit, today) - Shift(rule.unit, today, off);
       last - rule.count < Bucket(rule.unit, d) <= last
  }

  predicate SomeDayCovered(d: int, rules: seq<Rule>, today: int, off: int) {
    exists i :: 0 <= i < |rules| && DayCovered(d, rules[i], today, off)
  }

  lemma CoveredDays(x: int, rule: Rule, c: Clock)
    requires Zone(c.off) && RuleInRange(rule, c) && rule.KeepCalendar? && AsWritten(LocalDay(x, c.off))
    ensures CoveredBy(x, rule, c) <==> DayCovered(LocalDay(x, c.off), rule, LocalDay(c.now, c.off), c.off)
  {
    if rule.count > 0 {
      WindowIs(rule.unit, rule.count, c.now, c.off, LocalDay(x, c.off));
    }
  }

  lemma UnshiftedStays(x: int, y: int, rule: Rule, c: Clock)
    requires Zone(c.off) && RuleInRange(rule, c) && !Shifted(rule, c)
    requires AsWritten(LocalDay(x, c.off)) && AsWritten(LocalDay(y, c.off))
    requires x <= y <= c.now && CoveredBy(x, rule, c)
    ensures CoveredBy(y, rule, c)
  {
    if rule.KeepCalendar? {
      CoveredDays(x, rule, c);
      CoveredDays(y, rule, c);
      DaysFollowTime(x, y, c.off);
      DaysFollowTime(y, c.now, c.off);
      BucketsFollowDays(rule.unit, LocalDay(x, c.off), LocalDay(y, c.off));
      BucketsFollowDays(rule.unit, LocalDay(y, c.off), LocalDay(c.now, c.off));
    }
  }

  lemma UnshiftedHasNoGap(rules: seq<Rule>, c: Clock)
    requires InReach(rules, c) && forall i :: 0 <= i < |rules| ==> !Shifted(rules[i], c)
    ensures NoGap(rules, c, Dated(c.off))
  {
    var admitted := Dated(c.off);
    forall x, y | admitted(x) && admitted(y) && x <= y <= c.now && Covered(x, rules, c)
      ensures Covered(y, rules, c)
    {
      var i :| 0 <= i < |rules| && CoveredBy(x, rules[i], c);
      UnshiftedStays(x, y, rules[i], c);
    }
  }

  /**
   Where no calendar window is shifted, as in every zone at or ahead of UTC, and no
   eligible snapshot is guarded, every enabled policy keeps the newest eligible one.
   */
  lemma NewestIsKept(rows: seq<Snapshot>, policy: Policy, c: Clock, n: Snapshot)
    requires SameIdSameSnapshot(rows) && policy.enabled && Newest(n, rows, c.now)
    requires InReach(policy.rules, c) && Unguarded(rows, c, Dated(c.off))
    requires c.off >= 0 || forall i :: 0 <= i < |policy.rules| ==> !Shifted(policy.rules[i], c)
    ensures Kept(n.id, rows, policy, c)
  {
    UnshiftedHasNoGap(policy.rules, c);
    GaplessKeepsNewest(rows, policy, c, n, Dated(c.off));
  }

  lemma DayStart(d: int, off: int)
    ensures LocalDay(d * DAY - off, off) == d
  {
  }

  lemma EarlierDay(d: int, e: int, now: int, off: int)
    requires d <= e <= LocalDay(now, off)
    ensures d * DAY - off <= e * DAY - off <= now
  {
  }

  predicate CalendarOnly(rules: seq<Rule>) {
    forall i :: 0 <= i < |rules| ==> rules[i].KeepCalendar?
  }

  lemma {:induction false} NoKeepLast(rules: seq<Rule>)
    requires CalendarOnly(rules)
    ensures LastCount(rules) == 0
  {
    if rules != [] {
      NoKeepLast(rules[1..]);
    }
  }

  lemma DayIsCovered(rules: seq<Rule>, c: Clock, x: int, d: int, today: int)
    requires InReach(rules, c) && CalendarOnly(rules) && AsWritten(d)
    requires d == LocalDay(x, c.off) && today == LocalDay(c.now, c.off)
    ensures Covered(x, rules, c) <==> SomeDayCovered(d, rules, today, c.off)
  {
    if i :| 0 <= i < |rules| && CoveredBy(x, rules[i], c) {
      CoveredDays(x, rules[i], c);
      assert DayCovered(d, rules[i], today, c.off);
    }
    if i :| 0 <= i < |rules| && DayCovered(d, rules[i], today, c.off) {
      CoveredDays(x, rules[i], c);
      assert CoveredBy(x, rules[i], c);
    }
  }

  /** A date that is covered before one that is not. */
  predicate DayGap(rules: seq<Rule>, today: int, off: int, d: int, e: int) {
    AsWritten(d) && d <= e <= today && SomeDayCovered(d, rules, today, off) && !SomeDayCovered(e, rules, today, off)
  }

  /** With calendar rules alone, there is a gap exactly when there is one between dates. */
  lemma GapBetweenDays(rules: seq<Rule>, c: Clock, today: int, d: int, e: int)
    requires InReach(rules, c) && CalendarOnly(rules) && today == LocalDay(c.now, c.off)
    requires DayGap(rules, today, c.off, d, e)
    ensures !NoGap(rules, c, Dated(c.off))
  {
    var x, y := d * DAY - c.off, e * DAY - c.off;
    DayStart(d, c.off);
    DayStart(e, c.off);
    EarlierDay(d, e, c.now, c.off);
    DayIsCovered(rules, c, x, d, today);
    DayIsCovered(rules, c, y, e, today);
    AdmittedDay(c.off, x, d);
    AdmittedDay(c.off, y, e);
    GapIsGap(rules, c, Dated(c.off), x, y);
  }

  lemma AdmittedDay(off: int, x: int, d: int)
    requires d == LocalDay(x, off)
    ensures Dated(off)(x) <==> AsWritten(d)
  {
  }

  lemma GapIsGap(rules: seq<Rule>, c: Clock, admitted: int -> bool, x: int, y: int)
    requires admitted(x) && admitted(y) && x <= y <= c.now && Covered(x, rules, c) && !Covered(y, rules, c)
    ensures !NoGap(rules, c, admitted)
  {
  }

  lemma NoGapBetweenDays(rules: seq<Rule>, c: Clock)
    requires InReach(rules, c) && CalendarOnly(rules)
    requires forall d, e :: !DayGap(rules, LocalDay(c.now, c.off), c.off, d, e)
    ensures NoGap(rules, c, Dated(c.off))
  {
    var admitted := Dated(c.off);
    forall x, y | admitted(x) && admitted(y) && x <= y <= c.now && Covered(x, rules, c)
      ensures Covered(y, rules, c)
    {
      DayIsCovered(rules, c, x, LocalDay(x, c.off), LocalDay(c.now, c.off));
      DayIsCovered(rules, c, y, LocalDay(y, c.off), LocalDay(c.now, c.off));
      DaysFollowTime(x, y, c.off);
      DaysFollowTime(y, c.now, c.off);
      assert !DayGap(rules, LocalDay(c.now, c.off), c.off, LocalDay(x, c.off), LocalDay(y, c.off));
    }
  }

  /** One calendar rule alone keeps the newest exactly when its window is not shifted. */
  lemma OneRuleKeepsNewest(unit: Unit, count: nat, c: Clock)
    requires count > 0 && InReach([KeepCalendar(unit, count)], c)
    ensures KeepsNewest([KeepCalendar(unit, count)], c, Dated(c.off)) <==>
            c.off >= 0 || (unit.Weekly? && Weekday(LocalDay(c.now, c.off)) != 0)
  {
    var rules := [KeepCalendar(unit, count)];
    NoKeepLast(rules);
    KeepsNewestExactly(rules, c, Dated(c.off));
    assert RuleInRange(rules[0], c);
    if Shifted(rules[0], c) {
      ShiftedHasGap(unit, count, c, LocalDay(c.now, c.off));
    } else {
      UnshiftedHasNoGap(rules, c);
    }
  }

  lemma ShiftedHasGap(unit: Unit, count: nat, c: Clock, today: int)
    requires count > 0 && Zone(c.off) && today == LocalDay(c.now, c.off)
    requires InRange(unit, count, today) && Shift(unit, today, c.off) > 0
    ensures !NoGap([KeepCalendar(unit, count)], c, Dated(c.off))
  {
    var rules, read := [KeepCalendar(unit, count)], ReadBack(unit, 0, today, c.off);
    ShiftedDay(unit, count, today, c.off);
    assert DayCovered(read, rules[0], today, c.off);
    assert DayGap(rules, today, c.off, read, today);
    GapBetweenDays(rules, c, today, read, today);
  }

  /** A shifted window holds the day before its own bucket and not today. */
  lemma ShiftedDay(unit: Unit, count: nat, today: int, off: int)
    requires count > 0 && InRange(unit, count, today) && Shift(unit, today, off) > 0
    ensures var read := ReadBack(unit, 0, today, off);
            && AsWritten(read) && read < today
            && Bucket(unit, read) == Bucket(unit, today) - 1
  {
    var read := ReadBack(unit, 0, today, off);
    DayBackBucket(unit, 0, today, off);
    if read >= today {
      BucketsFollowDays(unit, today, read);
    }
    DaysBackOrdered(unit, 0, count - 1, today);
  }

  // -------------------------------------------------------------------------
  // The Smart preset behind UTC
  // -------------------------------------------------------------------------

  /** The preset expanded into rules; a count of 0 leaves its rule out. */
  function SmartRetentionRules(daily: int, weekly: int, monthly: int, yearly: int): seq<Rule> {
    (if daily > 0 then [KeepCalendar(Daily, daily)] else []) +
    (if weekly > 0 then [KeepCalendar(Weekly, weekly)] else []) +
    (if monthly > 0 then [KeepCalendar(Monthly, monthly)] else []) +
    if yearly > 0 then [KeepCalendar(Yearly, yearly)] else []
  }

  function Min(a: int, b: int): int {
    if a <= b then a else b
  }

  /** The first day of the recent days and weeks. */
  function RecentFrom(daily: int, weekly: int, today: int): int {
    Min(today - daily, today - Weekday(today) - 7 * (weekly - 1))
  }

  /**
   Today is not a Monday, the recent days and weeks reach back to the first of the
   month, and with the months before it they reach back to the first of the year.
   */
  predicate SmartReachesBack(daily: int, weekly: int, monthly: int, today: int) {
    && Weekday(today) != 0
    && RecentFrom(daily, weekly, today) <= MonthStart(MonthOf(today))
    && Min(RecentFrom(daily, weekly, today), MonthStart(MonthOf(today) - monthly)) <= YearStart(YearOf(today))
  }

  /** What the four rules cover behind UTC, day by day. */
  predicate SmartCovers(daily: int, weekly: int, monthly: int, yearly: int, today: int, d: int) {
    || today - daily <= d < today
    || (Weekday(today) != 0 && today - Weekday(today) - 7 * (weekly - 1) <= d < today - Weekday(today) + 7)
    || (Weekday(today) == 0 && today - 7 * weekly <= d < today)
    || MonthOf(today) - monthly <= MonthOf(d) < MonthOf(today)
    || YearOf(today) - yearly <= YearOf(d) < YearOf(today)
  }

  lemma WeekWindow(weekly: int, today: int, off: int, d: int)
    requires weekly > 0 && off < 0
    ensures DayCovered(d, KeepCalendar(Weekly, weekly), today, off) <==>
            if Weekday(today) != 0 then today - Weekday(today) - 7 * (weekly - 1) <= d < today - Weekday(today) + 7
            else today - 7 * weekly <= d < today
  {
    var q := (today + 3) / 7;
    assert today + 3 == 7 * q + Weekday(today);
    var p := (d + 3) / 7;
    assert d + 3 == 7 * p + Weekday(d);
  }

  lemma FourRules(rules: seq<Rule>, today: int, off: int, d: int)
    requires |rules| == 4
    ensures SomeDayCovered(d, rules, today, off) <==>
            || DayCovered(d, rules[0], today, off) || DayCovered(d, rules[1], today, off)
            || DayCovered(d, rules[2], today, off) || DayCovered(d, rules[3], today, off)
  {
    if i :| 0 <= i < 4 && DayCovered(d, rules[i], today, off) {
      assert i == 0 || i == 1 || i == 2 || i == 3;
    }
  }

  lemma SmartRules(daily: int, weekly: int, monthly: int, yearly: int)
    requires daily > 0 && weekly > 0 && monthly > 0 && yearly > 0
    ensures SmartRetentionRules(daily, weekly, monthly, yearly) ==
            [KeepCalendar(Daily, daily), KeepCalendar(Weekly, weekly), KeepCalendar(Monthly, monthly), KeepCalendar(Yearly, yearly)]
  {
  }

  lemma SmartCoverage(daily: int, weekly: int, monthly: int, yearly: int, today: int, off: int, d: int)
    requires daily > 0 && weekly > 0 && monthly > 0 && yearly > 0 && off < 0
    ensures SomeDayCovered(d, SmartRetentionRules(daily, weekly, monthly, yearly), today, off) <==>
            SmartCovers(daily, weekly, monthly, yearly, today, d)
  {
    SmartRules(daily, weekly, monthly, yearly);
    FourRules(SmartRetentionRules(daily, weekly, monthly, yearly), today, off, d);
    WeekWindow(weekly, today, off, d);
  }

  /** The preset's gaps, on dates alone. */
  predicate SmartGap(daily: int, weekly: int, monthly: int, yearly: int, today: int, d: int, e: int) {
    && AsWritten(d) && d <= e <= today
    && SmartCovers(daily, weekly, monthly, yearly, today, d) && !SmartCovers(daily, weekly, monthly, yearly, today, e)
  }

  lemma MonthBefore(e: int, month: int)
    ensures MonthOf(e) < month <==> e < MonthStart(month)
  {
    if MonthOf(e) < month && MonthOf(e) + 1 < month {
      MonthsGrow(MonthOf(e) + 1, month);
    }
    if month < MonthOf(e) {
      MonthsGrow(month, MonthOf(e));
    }
  }

  lemma YearBefore(e: int, y: int)
    ensures YearOf(e) < y <==> e < YearStart(y)
  {
    MonthBefore(e, 12 * y);
  }

  lemma SmartReachesAll(daily: int, weekly: int, monthly: int, yearly: int, today: int, d: int, e: int)
    requires daily > 0 && weekly > 0 && monthly > 0 && yearly > 0
    requires SmartReachesBack(daily, weekly, monthly, today)
    ensures !SmartGap(daily, weekly, monthly, yearly, today, d, e)
  {
    var start := RecentFrom(daily, weekly, today);
    MonthBefore(e, MonthOf(today));
    MonthBefore(e, MonthOf(today) - monthly);
    MonthBefore(d, MonthOf(today) - monthly);
    YearBefore(e, YearOf(today));
    if d <= e {
      MonthsFollowDays(d, e);
    }
  }

  lemma SmartGapOnMonday(daily: int, weekly: int, monthly: int, yearly: int, today: int)
    requires daily > 0 && Weekday(today) == 0 && AsWritten(today - 1)
    ensures SmartGap(daily, weekly, monthly, yearly, today, today - 1, today)
  {
  }

  lemma SmartGapInMonth(daily: int, weekly: int, monthly: int, yearly: int, today: int)
    requires daily > 0 && weekly > 0 && monthly > 0
    requires Weekday(today) != 0 && RecentFrom(daily, weekly, today) > MonthStart(MonthOf(today)) && AsWritten(MonthStart(MonthOf(today)) - 1)
    ensures var first := MonthStart(MonthOf(today)); SmartGap(daily, weekly, monthly, yearly, today, first - 1, first)
  {
    var first := MonthStart(MonthOf(today));
    MonthBack(MonthOf(today), 0);
  }

  lemma SmartGapInYear(daily: int, weekly: int, monthly: int, yearly: int, today: int)
    requires daily > 0 && weekly > 0 && monthly > 0 && yearly > 0
    requires Weekday(today) != 0 && AsWritten(YearStart(YearOf(today)) - 1)
    requires RecentFrom(daily, weekly, today) > YearStart(YearOf(today))
    requires MonthStart(MonthOf(today) - monthly) > YearStart(YearOf(today))
    ensures var first := YearStart(YearOf(today)); SmartGap(daily, weekly, monthly, yearly, today, first - 1, first)
  {
    var first := YearStart(YearOf(today));
    YearBack(YearOf(today));
    MonthBefore(first, MonthOf(today) - monthly);
    YearBefore(today, YearOf(today));
  }

  /**
   Behind UTC the Smart preset keeps the newest snapshot of every unguarded set
   exactly when today is not a Monday and the days, weeks and months it covers
   reach back without a gap to the first of the month and of the year.
   */
  lemma SmartPresetKeepsNewest(daily: int, weekly: int, monthly: int, yearly: int, c: Clock)
    requires daily > 0 && weekly > 0 && monthly > 0 && yearly > 0 && c.off < 0
    requires InReach(SmartRetentionRules(daily, weekly, monthly, yearly), c)
    ensures KeepsNewest(SmartRetentionRules(daily, weekly, monthly, yearly), c, Dated(c.off)) <==>
            SmartReachesBack(daily, weekly, monthly, LocalDay(c.now, c.off))
  {
    var rules, today := SmartRetentionRules(daily, weekly, monthly, yearly), LocalDay(c.now, c.off);
    SmartRules(daily, weekly, monthly, yearly);
    NoKeepLast(rules);
    KeepsNewestExactly(rules, c, Dated(c.off));
    forall d, e
      ensures DayGap(rules, today, c.off, d, e) <==> SmartGap(daily, weekly, monthly, yearly, today, d, e)
    {
      SmartCoverage(daily, weekly, monthly, yearly, today, c.off, d);
      SmartCoverage(daily, weekly, monthly, yearly, today, c.off, e);
    }
    if SmartReachesBack(daily, weekly, monthly, today) {
      forall d, e
        ensures !DayGap(rules, today, c.off, d, e)
      {
        SmartReachesAll(daily, weekly, monthly, yearly, today, d, e);
      }
      NoGapBetweenDays(rules, c);
    } else {
      var d, e := SmartGapExists(daily, weekly, monthly, yearly, c);
      assert DayGap(rules, today, c.off, d, e);
      GapBetweenDays(rules, c, today, d, e);
    }
  }

  lemma SmartGapExists(daily: int, weekly: int, monthly: int, yearly: int, c: Clock) returns (d: int, e: int)
    requires daily > 0 && weekly > 0 && monthly > 0 && yearly > 0
    requires InReach(SmartRetentionRules(daily, weekly, monthly, yearly), c)
    requires !SmartReachesBack(daily, weekly, monthly, LocalDay(c.now, c.off))
    ensures SmartGap(daily, weekly, monthly, yearly, LocalDay(c.now, c.off), d, e)
  {
    var rules, today := SmartRetentionRules(daily, weekly, monthly, yearly), LocalDay(c.now, c.off);
    SmartRules(daily, weekly, monthly, yearly);
    assert RuleInRange(rules[0], c) && RuleInRange(rules[2], c) && RuleInRange(rules[3], c);
    DaysBackOrdered(Monthly, 0, monthly - 1, today);
    DaysBackOrdered(Yearly, 0, yearly - 1, today);
    var month, year := MonthStart(MonthOf(today)), YearStart(YearOf(today));
    if Weekday(today) == 0 {
      SmartGapOnMonday(daily, weekly, monthly, yearly, today);
      d, e := today - 1, today;
    } else if RecentFrom(daily, weekly, today) > month {
      SmartGapInMonth(daily, weekly, monthly, yearly, today);
      d, e := month - 1, month;
    } else {
      SmartGapInYear(daily, weekly, monthly, yearly, today);
      d, e := year - 1, year;
    }
  }

  /** With the default counts: today is not a Monday, and four weeks reach back to the first of the month. */
  lemma SmartDefaultsKeepNewest(c: Clock)
    requires c.off < 0 && InReach(SmartRetentionRules(7, 4, 12, 2), c)
    ensures KeepsNewest(SmartRetentionRules(7, 4, 12, 2), c, Dated(c.off)) <==>
            var today := LocalDay(c.now, c.off);
            Weekday(today) != 0 && today - Weekday(today) - 21 <= MonthStart(MonthOf(today))
  {
    SmartPresetKeepsNewest(7, 4, 12, 2, c);
    DefaultsReachBack(LocalDay(c.now, c.off));
  }

  lemma DefaultsReachBack(today: int)
    ensures SmartReachesBack(7, 4, 12, today) <==>
            Weekday(today) != 0 && today - Weekday(today) - 21 <= MonthStart(MonthOf(today))
  {
    assert RecentFrom(7, 4, today) == today - Weekday(today) - 21;
    MonthsGrow(MonthOf(today) - 12, 12 * YearOf(today));
  }
}
