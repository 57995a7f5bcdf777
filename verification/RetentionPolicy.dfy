/**
 What a retention policy keeps, as a statement about the rows it is given, in any
 order (packages/core/src/retention.ts). An id may come in several rows; it is
 kept or deleted as a whole. The evaluator that computes it is in `Retention`.
 */
module RetentionPolicy {
  import opened Wrappers
  import opened Buckets

  /** Capture times may be unreadable: only finite ones are compared with a window. */
  datatype Time = NegInf | Finite(ms: int) | PosInf

  datatype Snapshot = Snapshot(
    id: string, time: Time, size: Option<nat>, pinned: bool, rollback: bool, successful: bool)

  datatype Rule =
    | KeepLast(count: int)
    | KeepAge(maxAge: Option<int>)   // None when the age is not finite
    | KeepCalendar(unit: Unit, count: int)

  datatype Policy = Policy(enabled: bool, rules: seq<Rule>)

  datatype Clock = Clock(now: int, off: int)

  // -------------------------------------------------------------------------
  // The order of snapshots
  // -------------------------------------------------------------------------

  /** JavaScript's `<` on strings. */
  predicate TextLess(a: string, b: string) {
    b != "" && (a == "" || a[0] < b[0] || (a[0] == b[0] && TextLess(a[1..], b[1..])))
  }

  predicate TimeLess(a: Time, b: Time) {
    match a
    case NegInf => !b.NegInf?
    case Finite(x) => b.PosInf? || (b.Finite? && x < b.ms)
    case PosInf => false
  }

  /** By time, and by id among snapshots of the same time. */
  predicate Later(a: Snapshot, b: Snapshot) {
    TimeLess(b.time, a.time) || (a.time == b.time && TextLess(b.id, a.id))
  }

  lemma {:induction false} TextOrder(a: string, b: string)
    ensures !(TextLess(a, b) && TextLess(b, a)) && (a == b <==> !TextLess(a, b) && !TextLess(b, a))
  {
    if a != "" && b != "" {
      TextOrder(a[1..], b[1..]);
    }
  }

  lemma {:induction false} TextTransitive(a: string, b: string, c: string)
    requires TextLess(a, b) && TextLess(b, c)
    ensures TextLess(a, c)
  {
    if a != "" && a[0] == b[0] == c[0] {
      TextTransitive(a[1..], b[1..], c[1..]);
    }
  }

  lemma LaterOrder(a: Snapshot, b: Snapshot)
    ensures !(Later(a, b) && Later(b, a)) && (a.id != b.id ==> Later(a, b) || Later(b, a))
  {
    TextOrder(a.id, b.id);
  }

  lemma LaterTransitive(a: Snapshot, b: Snapshot, c: Snapshot)
    requires Later(a, b) && Later(b, c)
    ensures Later(a, c)
  {
    if a.time == b.time == c.time {
      TextTransitive(c.id, b.id, a.id);
    }
  }

  // -------------------------------------------------------------------------
  // What is kept
  // -------------------------------------------------------------------------

  predicate Guarded(s: Snapshot) {
    s.pinned || s.rollback
  }

  predicate Future(s: Snapshot, now: int) {
    !s.time.Finite? || s.time.ms > now
  }

  /** A successful capture with a real time that is not in the future. */
  predicate Eligible(s: Snapshot, now: int) {
    s.successful && !Future(s, now)
  }

  predicate WithinAge(s: Snapshot, rule: Rule, now: int) {
    rule.KeepAge? && rule.maxAge.Some? && s.time.Finite? && s.time.ms >= now - rule.maxAge.value
  }

  predicate AgeKept(s: Snapshot, rules: seq<Rule>, now: int) {
    exists i :: 0 <= i < |rules| && WithinAge(s, rules[i], now)
  }

  /** Only the first rule of its kind is looked at; 0 when there is none. */
  function LastCount(rules: seq<Rule>): int {
    if rules == [] then 0 else if rules[0].KeepLast? then rules[0].count else LastCount(rules[1..])
  }

  /** Eligible rows newer than a snapshot; a repeated row counts every time. */
  function LaterCount(s: Snapshot, rows: seq<Snapshot>, now: int): nat {
    if rows == [] then 0
    else
      var n := |rows| - 1;
      LaterCount(s, rows[..n], now) + if Eligible(rows[n], now) && Later(rows[n], s) then 1 else 0
  }

  /** Fewer than `count` eligible rows are newer. */
  predicate LastKept(s: Snapshot, rows: seq<Snapshot>, rules: seq<Rule>, now: int) {
    Eligible(s, now) && LastCount(rules) > 0 && LaterCount(s, rows, now) < LastCount(rules)
  }

  function KeyOf(s: Snapshot, unit: Unit, off: int): string
    requires s.time.Finite?
  {
    BucketKey(unit, s.time.ms, off)
  }

  /** The newest eligible snapshot of a bucket in the rule's window. */
  predicate Represents(s: Snapshot, rows: seq<Snapshot>, rule: Rule, c: Clock) {
    && rule.KeepCalendar? && rule.count > 0 && Eligible(s, c.now)
    && KeyOf(s, rule.unit, c.off) in Window(rule.unit, rule.count, c.now, c.off)
    && forall t :: t in rows && Eligible(t, c.now) && KeyOf(t, rule.unit, c.off) == KeyOf(s, rule.unit, c.off) ==> !Later(t, s)
  }

  predicate CalendarKept(s: Snapshot, rows: seq<Snapshot>, rules: seq<Rule>, c: Clock) {
    exists i :: 0 <= i < |rules| && Represents(s, rows, rules[i], c)
  }

  /** Kept by a guard, a clock anomaly or a rule. */
  predicate Chosen(s: Snapshot, rows: seq<Snapshot>, rules: seq<Rule>, c: Clock) {
    || Guarded(s) || Future(s, c.now)
    || AgeKept(s, rules, c.now) || LastKept(s, rows, rules, c.now) || CalendarKept(s, rows, rules, c)
  }

  predicate ChosenId(id: string, rows: seq<Snapshot>, rules: seq<Rule>, c: Clock) {
    exists s :: s in rows && s.id == id && Chosen(s, rows, rules, c)
  }

  predicate Newest(s: Snapshot, rows: seq<Snapshot>, now: int) {
    s in rows && Eligible(s, now) && forall t :: t in rows && Eligible(t, now) ==> !Later(t, s)
  }

  predicate NewestId(id: string, rows: seq<Snapshot>, now: int) {
    exists s :: s in rows && s.id == id && Newest(s, rows, now)
  }

  predicate NothingChosen(rows: seq<Snapshot>, rules: seq<Rule>, c: Clock) {
    forall t :: t in rows && Eligible(t, c.now) ==> !ChosenId(t.id, rows, rules, c)
  }

  /** Kept because no eligible snapshot would be. */
  predicate GuaranteedId(id: string, rows: seq<Snapshot>, rules: seq<Rule>, c: Clock) {
    NothingChosen(rows, rules, c) && NewestId(id, rows, c.now)
  }

  predicate Kept(id: string, rows: seq<Snapshot>, policy: Policy, c: Clock) {
    !policy.enabled || ChosenId(id, rows, policy.rules, c) || GuaranteedId(id, rows, policy.rules, c)
  }

  /** The rows of `part` whose id is kept among all rows. */
  function KeptRows(part: seq<Snapshot>, rows: seq<Snapshot>, policy: Policy, c: Clock): seq<Snapshot> {
    if part == [] then []
    else
      var n := |part| - 1;
      KeptRows(part[..n], rows, policy, c) + if Kept(part[n].id, rows, policy, c) then [part[n]] else []
  }

  function Survivors(rows: seq<Snapshot>, policy: Policy, c: Clock): seq<Snapshot> {
    KeptRows(rows, rows, policy, c)
  }

  /** Rows of the same id tell the same. */
  predicate SameIdSameSnapshot(rows: seq<Snapshot>) {
    forall s, t :: s in rows && t in rows && s.id == t.id ==> s == t
  }

  // -------------------------------------------------------------------------
  // Laws for every calendar
  // -------------------------------------------------------------------------

  lemma {:induction false} KeptRowsAre(part: seq<Snapshot>, rows: seq<Snapshot>, policy: Policy, c: Clock, s: Snapshot)
    ensures s in KeptRows(part, rows, policy, c) <==> s in part && Kept(s.id, rows, policy, c)
  {
    if part != [] {
      var n := |part| - 1;
      assert part == part[..n] + [part[n]];
      KeptRowsAre(part[..n], rows, policy, c, s);
    }
  }

  lemma {:induction false} FewerAreLater(s: Snapshot, part: seq<Snapshot>, rows: seq<Snapshot>, policy: Policy, c: Clock)
    ensures LaterCount(s, KeptRows(part, rows, policy, c), c.now) <= LaterCount(s, part, c.now)
  {
    if part != [] {
      var n := |part| - 1;
      FewerAreLater(s, part[..n], rows, policy, c);
      OneMoreRow(s, KeptRows(part[..n], rows, policy, c), part[n], c.now);
      assert KeptRows(part[..n], rows, policy, c) + [] == KeptRows(part[..n], rows, policy, c);
    }
  }

  lemma OneMoreRow(s: Snapshot, rows: seq<Snapshot>, more: Snapshot, now: int)
    ensures LaterCount(s, rows + [more], now) == LaterCount(s, rows, now) + if Eligible(more, now) && Later(more, s) then 1 else 0
  {
    assert (rows + [more])[..|rows|] == rows;
  }

  lemma {:induction false} AllKept(part: seq<Snapshot>, rows: seq<Snapshot>, policy: Policy, c: Clock)
    requires forall s :: s in part ==> Kept(s.id, rows, policy, c)
    ensures KeptRows(part, rows, policy, c) == part
  {
    if part != [] {
      var n := |part| - 1;
      AllKept(part[..n], rows, policy, c);
      assert part == part[..n] + [part[n]];
    }
  }

  lemma StillChosen(s: Snapshot, rows: seq<Snapshot>, policy: Policy, c: Clock)
    requires Chosen(s, rows, policy.rules, c)
    ensures Chosen(s, Survivors(rows, policy, c), policy.rules, c)
  {
    var kept := Survivors(rows, policy, c);
    FewerAreLater(s, rows, rows, policy, c);
    if i :| 0 <= i < |policy.rules| && Represents(s, rows, policy.rules[i], c) {
      forall t | t in kept
        ensures t in rows
      {
        KeptRowsAre(rows, rows, policy, c, t);
      }
      assert Represents(s, kept, policy.rules[i], c);
    }
  }

  lemma StillKept(id: string, rows: seq<Snapshot>, policy: Policy, c: Clock)
    requires policy.enabled && Kept(id, rows, policy, c)
    ensures Kept(id, Survivors(rows, policy, c), policy, c)
  {
    var kept := Survivors(rows, policy, c);
    if ChosenId(id, rows, policy.rules, c) {
      var s :| s in rows && s.id == id && Chosen(s, rows, policy.rules, c);
      KeptRowsAre(rows, rows, policy, c, s);
      StillChosen(s, rows, policy, c);
      assert ChosenId(id, kept, policy.rules, c);
    } else {
      GuaranteeStays(id, rows, policy, c);
    }
  }

  lemma GuaranteeStays(id: string, rows: seq<Snapshot>, policy: Policy, c: Clock)
    requires policy.enabled && GuaranteedId(id, rows, policy.rules, c)
    ensures Kept(id, Survivors(rows, policy, c), policy, c)
  {
    var kept := Survivors(rows, policy, c);
    var n :| n in rows && n.id == id && Newest(n, rows, c.now);
    KeptRowsAre(rows, rows, policy, c, n);
    forall t | t in kept
      ensures t in rows && Kept(t.id, rows, policy, c)
    {
      KeptRowsAre(rows, rows, policy, c, t);
    }
    assert Newest(n, kept, c.now);
    if !ChosenId(id, kept, policy.rules, c) {
      forall t | t in kept && Eligible(t, c.now)
        ensures t.id == id
      {
        var m :| m in rows && m.id == t.id && Newest(m, rows, c.now);
        LaterOrder(m, n);
      }
      assert NothingChosen(kept, policy.rules, c);
    }
  }

  /** Evaluating the survivors again with the same clock and policy deletes nothing. */
  lemma EvaluationIsIdempotent(rows: seq<Snapshot>, policy: Policy, c: Clock)
    ensures var kept := Survivors(rows, policy, c); Survivors(kept, policy, c) == kept
  {
    var kept := Survivors(rows, policy, c);
    forall s | s in kept
      ensures Kept(s.id, kept, policy, c)
    {
      KeptRowsAre(rows, rows, policy, c, s);
      if policy.enabled {
        StillKept(s.id, rows, policy, c);
      }
    }
    AllKept(kept, kept, policy, c);
  }

  lemma {:induction false} NewestExists(rows: seq<Snapshot>, now: int, s: Snapshot)
    requires s in rows && Eligible(s, now)
    ensures exists n :: Newest(n, rows, now)
  {
    var n := |rows| - 1;
    var before, last := rows[..n], rows[n];
    assert rows == before + [last];
    if t :| t in before && Eligible(t, now) {
      NewestExists(before, now, t);
      var m :| Newest(m, before, now);
      NewestOfMore(before, last, now, m);
    } else {
      LaterOrder(last, last);
      assert Newest(last, rows, now);
    }
  }

  lemma NewestOfMore(before: seq<Snapshot>, last: Snapshot, now: int, m: Snapshot)
    requires Newest(m, before, now)
    ensures exists n :: Newest(n, before + [last], now)
  {
    var rows := before + [last];
    if Eligible(last, now) && Later(last, m) {
      forall t | t in rows && Eligible(t, now)
        ensures !Later(t, last)
      {
        LaterOrder(last, last);
        if Later(t, last) && t in before {
          LaterTransitive(t, last, m);
        }
      }
      assert Newest(last, rows, now);
    } else {
      assert Newest(m, rows, now);
    }
  }

  /** Where an eligible snapshot exists, one is kept. */
  lemma OneEligibleIsKept(rows: seq<Snapshot>, policy: Policy, c: Clock, s: Snapshot)
    requires s in rows && Eligible(s, c.now)
    ensures exists t :: t in Survivors(rows, policy, c) && Eligible(t, c.now)
  {
    var t := s;
    if policy.enabled {
      if NothingChosen(rows, policy.rules, c) {
        NewestExists(rows, c.now, s);
        t :| Newest(t, rows, c.now);
      } else {
        t :| t in rows && Eligible(t, c.now) && ChosenId(t.id, rows, policy.rules, c);
      }
    }
    assert Kept(t.id, rows, policy, c);
    KeptRowsAre(rows, rows, policy, c, t);
  }

  // -------------------------------------------------------------------------
  // Keep-last counts rows
  // -------------------------------------------------------------------------

  /** A snapshot's rows, repeated. */
  function Repeated(s: Snapshot, n: nat): seq<Snapshot> {
    seq(n, _ => s)
  }

  lemma {:induction false} RepeatedCount(older: Snapshot, s: Snapshot, n: nat, now: int)
    requires Eligible(s, now) && Later(s, older)
    ensures LaterCount(older, [older] + Repeated(s, n), now) == n
  {
    var rows := [older] + Repeated(s, n);
    LaterOrder(older, older);
    if n > 0 {
      RepeatedCount(older, s, n - 1, now);
      assert rows[..n] == [older] + Repeated(s, n - 1) && rows[n] == s;
    } else {
      assert rows[..0] == [] && LaterCount(older, [], now) == 0;
    }
  }

  /**
   A snapshot that is reported again takes its place in the quota every time: of
   two snapshots, "keep the last `count`" keeps the older one exactly when the
   newer one comes in fewer than `count` rows.
   */
  lemma RepeatsUseUpTheQuota(older: Snapshot, newer: Snapshot, n: nat, count: nat, c: Clock)
    requires Eligible(older, c.now) && Eligible(newer, c.now) && Later(newer, older) && older.id != newer.id
    requires !Guarded(older) && n > 0 && count > 0
    ensures Kept(older.id, [older] + Repeated(newer, n), Policy(true, [KeepLast(count)]), c) <==> n < count
  {
    var rows, rules := [older] + Repeated(newer, n), [KeepLast(count)];
    RepeatedCount(older, newer, n, c.now);
    assert rows[0] == older && rows[1] == newer;
    assert forall s :: s in rows ==> s == older || s == newer;
    LaterOrder(newer, older);
    assert LaterCount(older, rows, c.now) == n;
    assert ChosenId(older.id, rows, rules, c) <==> Chosen(older, rows, rules, c);
    assert !Newest(older, rows, c.now);
  }
}
