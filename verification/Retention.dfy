/**
 The evaluator of a retention policy (packages/core/src/retention.ts,
 `evaluateRetention` and `summarize`), proved to keep what `RetentionPolicy`
 says, for every list of rows.
 */
module Retention {
  import opened Wrappers
  import opened Buckets
  import opened RetentionPolicy

  datatype Decision = Decision(keep: bool, guard: bool)

  datatype Evaluation = Evaluation(
    decisions: map<string, Decision>, keptCount: int, deleteCount: nat,
    reclaimableBytes: nat, unknownSizeCount: nat, guardCount: nat, keptByGuarantee: nat)

  // -------------------------------------------------------------------------
  // Ascending order
  // -------------------------------------------------------------------------

  predicate Ascending(q: seq<Snapshot>) {
    forall j, k :: 0 <= j < k < |q| ==> !Later(q[j], q[k])
  }

  function Insert(s: Snapshot, q: seq<Snapshot>): seq<Snapshot> {
    if q == [] then [s]
    else if !Later(s, q[0]) then [s] + q
    else [q[0]] + Insert(s, q[1..])
  }

  /** A stable sort: rows of the same time and id keep their order. */
  function Sorted(q: seq<Snapshot>): seq<Snapshot> {
    if q == [] then [] else Insert(q[0], Sorted(q[1..]))
  }

  lemma LaterTotal(a: Snapshot, b: Snapshot)
    ensures Later(a, b) || Later(b, a) || (a.time == b.time && a.id == b.id)
  {
    TextOrder(a.id, b.id);
  }

  lemma LaterThrough(a: Snapshot, b: Snapshot, c: Snapshot)
    requires Later(a, b) && !Later(c, b)
    ensures Later(a, c)
  {
    LaterTotal(b, c);
    if Later(b, c) {
      LaterTransitive(a, b, c);
    }
  }

  lemma {:induction false} InsertAdds(s: Snapshot, q: seq<Snapshot>)
    ensures multiset(Insert(s, q)) == multiset(q) + multiset{s}
  {
    if q != [] && Later(s, q[0]) {
      assert q == [q[0]] + q[1..];
      InsertAdds(s, q[1..]);
    }
  }

  lemma {:induction false} InsertAscends(s: Snapshot, q: seq<Snapshot>)
    requires Ascending(q)
    ensures Ascending(Insert(s, q))
  {
    if q != [] {
      if !Later(s, q[0]) {
        forall k | 0 <= k < |q|
          ensures !Later(s, q[k])
        {
          if k > 0 && Later(s, q[k]) { LaterThrough(s, q[k], q[0]); }
        }
      } else {
        InsertAscends(s, q[1..]);
        InsertAdds(s, q[1..]);
        LaterOrder(s, q[0]);
        var rest := Insert(s, q[1..]);
        forall k | 0 <= k < |rest|
          ensures !Later(q[0], rest[k])
        {
          assert rest[k] in multiset(rest);
          if rest[k] != s {
            var j :| 0 <= j < |q[1..]| && q[1..][j] == rest[k];
          }
        }
      }
    }
  }

  lemma {:induction false} SortKeeps(q: seq<Snapshot>)
    ensures Ascending(Sorted(q)) && multiset(Sorted(q)) == multiset(q)
  {
    if q != [] {
      assert q == [q[0]] + q[1..];
      SortKeeps(q[1..]);
      InsertAscends(q[0], Sorted(q[1..]));
      InsertAdds(q[0], Sorted(q[1..]));
    }
  }

  // -------------------------------------------------------------------------
  // The order of the rows does not matter
  // -------------------------------------------------------------------------

  function CountRows(rows: seq<Snapshot>, test: Snapshot -> bool): nat {
    if rows == [] then 0 else CountRows(rows[..|rows| - 1], test) + if test(rows[|rows| - 1]) then 1 else 0
  }

  lemma {:induction false} CountConcat(a: seq<Snapshot>, b: seq<Snapshot>, test: Snapshot -> bool)
    ensures CountRows(a + b, test) == CountRows(a, test) + CountRows(b, test)
  {
    if b == [] {
      assert a + b == a;
    } else {
      var n := |b| - 1;
      assert (a + b)[..|a + b| - 1] == a + b[..n];
      CountConcat(a, b[..n], test);
    }
  }

  /** One row taken out of the middle. */
  lemma CountWithout(x: seq<Snapshot>, s: Snapshot, y: seq<Snapshot>, test: Snapshot -> bool)
    ensures CountRows(x + [s] + y, test) == CountRows(x + y, test) + if test(s) then 1 else 0
  {
    CountConcat(x, y, test);
    CountConcat(x + [s], y, test);
    assert (x + [s])[..|x|] == x;
  }

  lemma RowsWithout(x: seq<Snapshot>, s: Snapshot, y: seq<Snapshot>)
    ensures multiset(x + y) == multiset(x + [s] + y) - multiset{s}
  {
    assert multiset(x + [s] + y) == multiset(x + y) + multiset{s};
  }

  lemma SameWithout(a: seq<Snapshot>, b: seq<Snapshot>, k: nat)
    requires multiset(a) == multiset(b) && a != [] && k < |b| && b[k] == a[|a| - 1]
    ensures multiset(a[..|a| - 1]) == multiset(b[..k] + b[k + 1..])
  {
    var n := |a| - 1;
    assert a == a[..n] + [a[n]] + [];
    RowsWithout(a[..n], a[n], []);
    assert a[..n] + [] == a[..n];
    assert b == b[..k] + [b[k]] + b[k + 1..];
    RowsWithout(b[..k], b[k], b[k + 1..]);
  }

  lemma {:induction false} CountPermutes(a: seq<Snapshot>, b: seq<Snapshot>, test: Snapshot -> bool)
    requires multiset(a) == multiset(b)
    ensures CountRows(a, test) == CountRows(b, test)
  {
    if a == [] {
      assert |multiset(b)| == 0;
    } else {
      var n := |a| - 1;
      assert a[n] in multiset(b);
      var k :| 0 <= k < |b| && b[k] == a[n];
      SameWithout(a, b, k);
      CountPermutes(a[..n], b[..k] + b[k + 1..], test);
      CountWithout(b[..k], b[k], b[k + 1..], test);
      assert b == b[..k] + [b[k]] + b[k + 1..];
    }
  }

  lemma {:induction false} LaterIsCount(s: Snapshot, rows: seq<Snapshot>, now: int, test: Snapshot -> bool)
    requires forall t :: test(t) <==> Eligible(t, now) && Later(t, s)
    ensures LaterCount(s, rows, now) == CountRows(rows, test)
  {
    if rows != [] {
      LaterIsCount(s, rows[..|rows| - 1], now, test);
    }
  }

  predicate SameRows(a: seq<Snapshot>, b: seq<Snapshot>) {
    multiset(a) == multiset(b)
  }

  lemma SameMembers(a: seq<Snapshot>, b: seq<Snapshot>)
    requires SameRows(a, b)
    ensures forall s :: s in a <==> s in b
  {
    forall s
      ensures s in a <==> s in b
    {
      assert s in multiset(a) <==> s in multiset(b);
    }
  }

  lemma SameChosen(s: Snapshot, a: seq<Snapshot>, b: seq<Snapshot>, rules: seq<Rule>, c: Clock)
    requires SameRows(a, b)
    ensures LaterCount(s, a, c.now) == LaterCount(s, b, c.now)
    ensures Chosen(s, a, rules, c) <==> Chosen(s, b, rules, c)
  {
    SameMembers(a, b);
    var test := (t: Snapshot) => Eligible(t, c.now) && Later(t, s);
    LaterIsCount(s, a, c.now, test);
    LaterIsCount(s, b, c.now, test);
    CountPermutes(a, b, test);
    SameRepresents(s, a, b, rules, c);
  }

  lemma SameRepresents(s: Snapshot, a: seq<Snapshot>, b: seq<Snapshot>, rules: seq<Rule>, c: Clock)
    requires forall t :: t in a <==> t in b
    ensures CalendarKept(s, a, rules, c) <==> CalendarKept(s, b, rules, c)
  {
    if i :| 0 <= i < |rules| && Represents(s, a, rules[i], c) {
      assert Represents(s, b, rules[i], c);
    }
    if i :| 0 <= i < |rules| && Represents(s, b, rules[i], c) {
      assert Represents(s, a, rules[i], c);
    }
  }

  lemma SameKept(a: seq<Snapshot>, b: seq<Snapshot>, policy: Policy, c: Clock)
    requires SameRows(a, b)
    ensures forall id :: Kept(id, a, policy, c) <==> Kept(id, b, policy, c)
    ensures NothingChosen(a, policy.rules, c) <==> NothingChosen(b, policy.rules, c)
  {
    SameMembers(a, b);
    forall s
      ensures Chosen(s, a, policy.rules, c) <==> Chosen(s, b, policy.rules, c)
    {
      SameChosen(s, a, b, policy.rules, c);
    }
    forall id
      ensures ChosenId(id, a, policy.rules, c) <==> ChosenId(id, b, policy.rules, c)
    {
    }
    forall s
      ensures Newest(s, a, c.now) <==> Newest(s, b, c.now)
    {
    }
  }

  // -------------------------------------------------------------------------
  // Sets of ids
  // -------------------------------------------------------------------------

  function IdsWhere(rows: seq<Snapshot>, test: Snapshot -> bool): set<string> {
    set s | s in rows && test(s) :: s.id
  }

  function AllIds(rows: seq<Snapshot>): set<string> {
    set s | s in rows :: s.id
  }

  /** The same ids, collected row by row. */
  function IdsUpTo(rows: seq<Snapshot>, test: Snapshot -> bool): set<string> {
    if rows == [] then {}
    else
      var n := |rows| - 1;
      IdsUpTo(rows[..n], test) + if test(rows[n]) then {rows[n].id} else {}
  }

  lemma {:induction false} IdsCollected(rows: seq<Snapshot>, test: Snapshot -> bool, same: Snapshot -> bool)
    requires forall s :: test(s) <==> same(s)
    ensures IdsUpTo(rows[..|rows|], test) == IdsWhere(rows, same)
  {
    assert rows[..|rows|] == rows;
    if rows != [] {
      var n := |rows| - 1;
      IdsCollected(rows[..n], test, same);
      assert rows[..n][..n] == rows[..n];
      NextId(rows, n, same);
    }
  }

  lemma NextId(rows: seq<Snapshot>, i: nat, test: Snapshot -> bool)
    requires i < |rows|
    ensures IdsWhere(rows[..i + 1], test) == IdsWhere(rows[..i], test) + if test(rows[i]) then {rows[i].id} else {}
  {
    assert rows[..i + 1] == rows[..i] + [rows[i]];
  }

  lemma IdsUnion(rows: seq<Snapshot>, p: Snapshot -> bool, q: Snapshot -> bool, both: Snapshot -> bool)
    requires forall s :: s in rows ==> (both(s) <==> p(s) || q(s))
    ensures IdsWhere(rows, both) == IdsWhere(rows, p) + IdsWhere(rows, q)
  {
  }

  // -------------------------------------------------------------------------
  // The phases
  // -------------------------------------------------------------------------

  predicate HeldIn(decisions: map<string, Decision>, kept: set<string>) {
    decisions.Keys == kept && forall id :: id in kept ==> decisions[id] == Decision(true, true)
  }

  lemma HeldMore(decisions: map<string, Decision>, kept: set<string>, id: string)
    requires HeldIn(decisions, kept)
    ensures HeldIn(decisions[id := Decision(true, true)], kept + {id})
  {
  }

  /** Guards run first: holds and rollback artifacts override every rule. */
  method KeepGuarded(q: seq<Snapshot>) returns (decisions: map<string, Decision>, kept: set<string>, guardCount: nat)
    ensures kept == IdsWhere(q, s => Guarded(s)) && HeldIn(decisions, kept)
    ensures guardCount == CountRows(q, s => Guarded(s))
  {
    decisions, kept, guardCount := map[], {}, 0;
    ghost var test := (s: Snapshot) => Guarded(s);
    for i := 0 to |q|
      invariant kept == IdsUpTo(q[..i], test) && HeldIn(decisions, kept)
      invariant guardCount == CountRows(q[..i], test)
    {
      assert q[..i + 1][..i] == q[..i];
      if q[i].pinned || q[i].rollback {
        decisions := decisions[q[i].id := Decision(true, true)];
        kept := kept + {q[i].id};
        guardCount := guardCount + 1;
      }
    }
    assert q[..|q|] == q;
    IdsCollected(q, test, s => Guarded(s));
    SameTest(q, test, s => Guarded(s));
  }

  lemma {:induction false} SameTest(q: seq<Snapshot>, p: Snapshot -> bool, r: Snapshot -> bool)
    requires forall s :: p(s) <==> r(s)
    ensures CountRows(q, p) == CountRows(q, r)
  {
    if q != [] {
      SameTest(q[..|q| - 1], p, r);
    }
  }

  /** Then clock anomalies: a future or unreadable time is never a reason to delete. */
  method KeepAnomalies(q: seq<Snapshot>, now: int, decisions0: map<string, Decision>, kept0: set<string>)
    returns (decisions: map<string, Decision>, kept: set<string>, found: nat)
    requires HeldIn(decisions0, kept0)
    ensures kept == kept0 + IdsWhere(q, s => Future(s, now)) && HeldIn(decisions, kept)
    ensures found == |kept - kept0|
  {
    decisions, kept, found := decisions0, kept0, 0;
    ghost var test := (s: Snapshot) => Future(s, now);
    for i := 0 to |q|
      invariant HeldIn(decisions, kept) && |kept| == |kept0| + found
      invariant Adds(kept, kept0, IdsUpTo(q[..i], test))
    {
      var s := q[i];
      assert q[..i + 1][..i] == q[..i];
      HeldMore(decisions, kept, s.id);
      if s.id !in decisions && (!s.time.Finite? || s.time.ms > now) {
        decisions := decisions[s.id := Decision(true, true)];
        kept := kept + {s.id};
        found := found + 1;
      }
    }
    IdsCollected(q, test, s => Future(s, now));
    Added(kept, kept0, IdsWhere(q, s => Future(s, now)));
  }

  ghost predicate Adds(kept: set<string>, kept0: set<string>, ids: set<string>) {
    forall id :: id in kept <==> id in kept0 || id in ids
  }

  lemma Added(kept: set<string>, kept0: set<string>, ids: set<string>)
    requires Adds(kept, kept0, ids)
    ensures kept == kept0 + ids && |kept| == |kept0| + |kept - kept0|
  {
    assert kept == kept0 + (kept - kept0);
  }

  /** Some rule of a list applies when one of the earlier ones or the last one does. */
  lemma PrefixHits(applies: Rule -> bool, less: seq<Rule>, last: Rule, more: seq<Rule>)
    requires more == less + [last]
    ensures (exists k :: 0 <= k < |more| && applies(more[k])) <==> (exists k :: 0 <= k < |less| && applies(less[k])) || applies(last)
  {
    if k :| 0 <= k < |more| && applies(more[k]) {
      assert k < |less| ==> applies(less[k]);
    }
    if k :| 0 <= k < |less| && applies(less[k]) {
      assert applies(more[k]);
    }
    assert more[|less|] == last;
  }

  lemma AgeRules(s: Snapshot, rules: seq<Rule>, i: nat, now: int)
    requires i < |rules|
    ensures AgeKept(s, rules[..i + 1], now) <==> AgeKept(s, rules[..i], now) || WithinAge(s, rules[i], now)
  {
    PrefixHits(r => WithinAge(s, r, now), rules[..i], rules[i], rules[..i + 1]);
  }

  method KeepByAge(q: seq<Snapshot>, rules: seq<Rule>, now: int, kept0: set<string>) returns (kept: set<string>)
    ensures kept == kept0 + IdsWhere(q, s => AgeKept(s, rules, now))
  {
    kept := kept0;
    for i := 0 to |rules|
      invariant kept == kept0 + IdsWhere(q, s => AgeKept(s, rules[..i], now))
    {
      ghost var before := kept;
      if rules[i].KeepAge? && rules[i].maxAge.Some? {
        kept := KeepWithin(q, rules[i], now, kept);
      }
      MoreAgeRules(q, rules, i, now);
      assert kept == before + IdsWhere(q, s => WithinAge(s, rules[i], now));
    }
    assert rules[..|rules|] == rules;
  }

  lemma MoreAgeRules(q: seq<Snapshot>, rules: seq<Rule>, i: nat, now: int)
    requires i < |rules|
    ensures IdsWhere(q, s => AgeKept(s, rules[..i + 1], now)) ==
            IdsWhere(q, s => AgeKept(s, rules[..i], now)) + IdsWhere(q, s => WithinAge(s, rules[i], now))
  {
    forall s { AgeRules(s, rules, i, now); }
    IdsUnion(q, s => AgeKept(s, rules[..i], now), s => WithinAge(s, rules[i], now), s => AgeKept(s, rules[..i + 1], now));
  }

  method KeepWithin(q: seq<Snapshot>, rule: Rule, now: int, kept0: set<string>) returns (kept: set<string>)
    requires rule.KeepAge? && rule.maxAge.Some?
    ensures kept == kept0 + IdsWhere(q, s => WithinAge(s, rule, now))
  {
    kept := kept0;
    var cutoff := now - rule.maxAge.value;
    ghost var test := (s: Snapshot) => WithinAge(s, rule, now);
    for i := 0 to |q|
      invariant kept == kept0 + IdsUpTo(q[..i], test)
    {
      assert q[..i + 1][..i] == q[..i];
      if q[i].id !in kept && q[i].time.Finite? && q[i].time.ms >= cutoff {
        kept := kept + {q[i].id};
      }
    }
    IdsCollected(q, test, s => WithinAge(s, rule, now));
  }

  // -------------------------------------------------------------------------
  // Keep-last
  // -------------------------------------------------------------------------

  /** `snapshots.filter(...)`: the eligible ones, in order. */
  function Eligibles(q: seq<Snapshot>, now: int): seq<Snapshot> {
    if q == [] then []
    else Eligibles(q[..|q| - 1], now) + if Eligible(q[|q| - 1], now) then [q[|q| - 1]] else []
  }

  lemma {:induction false} EligiblesAscend(q: seq<Snapshot>, now: int)
    requires Ascending(q)
    ensures Ascending(Eligibles(q, now))
    ensures forall s :: s in Eligibles(q, now) <==> s in q && Eligible(s, now)
  {
    if q != [] {
      var n := |q| - 1;
      assert q == q[..n] + [q[n]];
      EligiblesAscend(q[..n], now);
      forall s | s in q[..n]
        ensures !Later(s, q[n])
      {
        var j :| 0 <= j < n && q[j] == s;
      }
    }
  }

  lemma {:induction false} EligiblesCount(s: Snapshot, q: seq<Snapshot>, now: int)
    ensures LaterCount(s, Eligibles(q, now), now) == LaterCount(s, q, now)
  {
    if q != [] {
      var n := |q| - 1;
      EligiblesCount(s, q[..n], now);
      OneMoreRow(s, Eligibles(q[..n], now), q[n], now);
      assert Eligibles(q[..n], now) + [] == Eligibles(q[..n], now);
    }
  }

  /** Where only the rows behind position `m` can be newer, the count is what is behind it, or less. */
  lemma {:induction false} BehindPosition(s: Snapshot, e: seq<Snapshot>, m: int, now: int)
    requires -1 <= m < |e| && forall k :: 0 <= k < |e| ==> Eligible(e[k], now)
    requires forall k :: 0 <= k <= m ==> !Later(e[k], s)
    ensures LaterCount(s, e, now) <= |e| - 1 - m
    ensures (forall k :: m < k < |e| ==> Later(e[k], s)) ==> LaterCount(s, e, now) == |e| - 1 - m
  {
    if m == |e| - 1 {
      NoneBehind(s, e, now);
    } else {
      BehindPosition(s, e[..|e| - 1], m, now);
    }
  }

  lemma {:induction false} NoneBehind(s: Snapshot, e: seq<Snapshot>, now: int)
    requires forall k :: 0 <= k < |e| ==> !Later(e[k], s)
    ensures LaterCount(s, e, now) == 0
  {
    if e != [] {
      NoneBehind(s, e[..|e| - 1], now);
    }
  }

  /** The last position a snapshot's equals take in ascending order. */
  function LastEqual(s: Snapshot, e: seq<Snapshot>, j: nat): (m: nat)
    requires Ascending(e) && j < |e| && e[j] == s
    ensures j <= m < |e| && e[m].id == s.id && !Later(e[m], s)
    ensures forall k :: m < k < |e| ==> Later(e[k], s)
    ensures forall k :: 0 <= k <= m ==> !Later(e[k], s)
  {
    LaterOrder(s, s);
    LastFrom(s, e, j)
  }

  function LastFrom(s: Snapshot, e: seq<Snapshot>, m: nat): (last: nat)
    requires Ascending(e) && m < |e| && e[m].id == s.id && e[m].time == s.time
    ensures m <= last < |e| && e[last].id == s.id && !Later(e[last], s)
    ensures forall k :: last < k < |e| ==> Later(e[k], s)
    ensures forall k :: 0 <= k <= last ==> !Later(e[k], s)
    decreases |e| - m
  {
    LaterOrder(s, s);
    if m + 1 < |e| && e[m + 1].id == s.id && e[m + 1].time == s.time then LastFrom(s, e, m + 1)
    else
      EndsHere(s, e, m);
      m
  }

  lemma EndsHere(s: Snapshot, e: seq<Snapshot>, m: nat)
    requires Ascending(e) && m < |e| && e[m].id == s.id && e[m].time == s.time
    requires m + 1 < |e| ==> e[m + 1].id != s.id || e[m + 1].time != s.time
    ensures forall k :: m < k < |e| ==> Later(e[k], s)
    ensures forall k :: 0 <= k < m ==> !Later(e[k], s)
  {
    forall k | m < k < |e|
      ensures Later(e[k], s)
    {
      LaterTotal(e[m + 1], s);
      assert !Later(e[m], e[m + 1]);
      assert Later(e[m + 1], s);
      if k > m + 1 {
        LaterTotal(e[k], e[m + 1]);
        if Later(e[k], e[m + 1]) { LaterTransitive(e[k], e[m + 1], s); }
      }
    }
  }

  lemma SliceRowIsLast(q: seq<Snapshot>, rules: seq<Rule>, now: int, m: nat)
    requires Ascending(q) && m < |Eligibles(q, now)| && |Eligibles(q, now)| - m <= LastCount(rules)
    ensures var s := Eligibles(q, now)[m]; s in q && LastKept(s, q, rules, now)
  {
    var e := Eligibles(q, now);
    EligiblesAscend(q, now);
    assert e[m] in e;
    LaterOrder(e[m], e[m]);
    BehindPosition(e[m], e, m, now);
    EligiblesCount(e[m], q, now);
  }

  lemma LastIsInSlice(q: seq<Snapshot>, rules: seq<Rule>, now: int, s: Snapshot) returns (m: nat)
    requires Ascending(q) && s in q && LastKept(s, q, rules, now)
    ensures m < |Eligibles(q, now)| && |Eligibles(q, now)| - m <= LastCount(rules) && Eligibles(q, now)[m].id == s.id
  {
    var e := Eligibles(q, now);
    EligiblesAscend(q, now);
    var j :| 0 <= j < |e| && e[j] == s;
    m := LastEqual(s, e, j);
    BehindPosition(s, e, m, now);
    EligiblesCount(s, q, now);
  }

  /** The last `count` eligible rows hold the ids of the snapshots with fewer than `count` newer rows. */
  lemma SliceIsLast(q: seq<Snapshot>, rules: seq<Rule>, now: int, from: nat)
    requires Ascending(q) && LastCount(rules) > 0
    requires var e := Eligibles(q, now); from == if |e| > LastCount(rules) then |e| - LastCount(rules) else 0
    ensures AllIds(Eligibles(q, now)[from..]) == IdsWhere(q, s => LastKept(s, q, rules, now))
  {
    var e := Eligibles(q, now);
    var slice := e[from..];
    forall k | 0 <= k < |slice|
      ensures slice[k] in q && LastKept(slice[k], q, rules, now)
    {
      SliceRowIsLast(q, rules, now, from + k);
    }
    forall s | s in q && LastKept(s, q, rules, now)
      ensures s.id in AllIds(slice)
    {
      var m := LastIsInSlice(q, rules, now, s);
      assert slice[m - from] == e[m];
    }
  }

  method KeepLastN(q: seq<Snapshot>, rules: seq<Rule>, now: int, kept0: set<string>) returns (kept: set<string>)
    requires Ascending(q)
    ensures kept == kept0 + IdsWhere(q, s => LastKept(s, q, rules, now))
  {
    kept := kept0;
    var count := LastCount(rules);
    if count > 0 {
      var successful := Eligibles(q, now);
      var from := if |successful| > count then |successful| - count else 0;
      for i := from to |successful|
        invariant kept == kept0 + AllIds(successful[from..i])
      {
        assert successful[from..i + 1] == successful[from..i] + [successful[i]];
        if successful[i].id !in kept {
          kept := kept + {successful[i].id};
        }
      }
      assert successful[from..|successful|] == successful[from..];
      SliceIsLast(q, rules, now, from);
    }
  }

  // -------------------------------------------------------------------------
  // Calendar rules
  // -------------------------------------------------------------------------

  /** The bucket each row competes for, if any. */
  function BucketKeys(q: seq<Snapshot>, unit: Unit, c: Clock): (keys: seq<Option<string>>)
    ensures |keys| == |q|
    ensures forall j :: 0 <= j < |q| ==> keys[j] == if Eligible(q[j], c.now) then Some(KeyOf(q[j], unit, c.off)) else None
  {
    seq(|q|, j requires 0 <= j < |q| => if Eligible(q[j], c.now) then Some(KeyOf(q[j], unit, c.off)) else None)
  }

  /** Position `j` is the last of its bucket among the first `n`. */
  predicate LastOf(keys: seq<Option<string>>, n: nat, j: nat, bucket: string)
    requires n <= |keys|
  {
    j < n && keys[j] == Some(bucket) && forall k :: j < k < n ==> keys[k] != Some(bucket)
  }

  predicate Tracks(keys: seq<Option<string>>, n: nat, at: map<string, nat>, window: set<string>)
    requires n <= |keys|
  {
    && (forall b :: b in at ==> b in window && LastOf(keys, n, at[b], b))
    && (forall k :: 0 <= k < n && keys[k].Some? && keys[k].value in window ==> keys[k].value in at)
  }

  /** The map holds, for every bucket met so far in the window, its last row. */
  predicate Represented(q: seq<Snapshot>, keys: seq<Option<string>>, n: nat, perBucket: map<string, Snapshot>, at: map<string, nat>, window: set<string>)
    requires n <= |q| == |keys|
  {
    && perBucket.Keys == at.Keys && Tracks(keys, n, at, window)
    && forall b :: b in at ==> at[b] < n && perBucket[b] == q[at[b]]
  }

  method NewestPerBucket(q: seq<Snapshot>, unit: Unit, window: set<string>, c: Clock)
    returns (perBucket: map<string, Snapshot>, ghost at: map<string, nat>)
    requires Ascending(q)
    ensures Represented(q, BucketKeys(q, unit, c), |q|, perBucket, at, window)
  {
    ghost var keys := BucketKeys(q, unit, c);
    perBucket, at := map[], map[];
    for i := 0 to |q|
      invariant Represented(q, keys, i, perBucket, at, window)
    {
      NoEarlier(q, keys, c.now, i, at, window);
      NextRepresented(q, keys, i, perBucket, at, window);
      if Eligible(q[i], c.now) {
        var key := KeyOf(q[i], unit, c.off);
        if key in window && (key !in perBucket || q[i].time.ms >= perBucket[key].time.ms) {
          perBucket, at := perBucket[key := q[i]], at[key := i];
        }
      }
    }
  }

  lemma NextRepresented(q: seq<Snapshot>, keys: seq<Option<string>>, i: nat, perBucket: map<string, Snapshot>, at: map<string, nat>, window: set<string>)
    requires i < |q| == |keys| && Represented(q, keys, i, perBucket, at, window)
    ensures keys[i].None? || keys[i].value !in window ==> Represented(q, keys, i + 1, perBucket, at, window)
    ensures keys[i].Some? && keys[i].value in window ==>
            Represented(q, keys, i + 1, perBucket[keys[i].value := q[i]], at[keys[i].value := i], window)
  {
    TracksOn(keys, i, at, window);
  }

  lemma NoEarlier(q: seq<Snapshot>, keys: seq<Option<string>>, now: int, i: nat, at: map<string, nat>, window: set<string>)
    requires Ascending(q) && i < |q| == |keys| && Tracks(keys, i, at, window)
    requires forall j :: 0 <= j < |q| ==> (keys[j].Some? <==> Eligible(q[j], now))
    ensures forall b :: b in at ==>
              at[b] < i && Eligible(q[at[b]], now) && (Eligible(q[i], now) ==> q[i].time.ms >= q[at[b]].time.ms)
  {
    forall b | b in at
      ensures at[b] < i && keys[at[b]].Some? && !Later(q[at[b]], q[i])
    {
      assert LastOf(keys, i, at[b], b);
    }
  }

  /** The next row takes over its own bucket and no other. */
  lemma TracksOn(keys: seq<Option<string>>, i: nat, at: map<string, nat>, window: set<string>)
    requires i < |keys| && Tracks(keys, i, at, window)
    ensures keys[i].None? || keys[i].value !in window ==> Tracks(keys, i + 1, at, window)
    ensures keys[i].Some? && keys[i].value in window ==> Tracks(keys, i + 1, at[keys[i].value := i], window)
  {
  }

  /** Being the last row of a bucket in ascending order is having no later snapshot there. */
  lemma LastRepresents(q: seq<Snapshot>, j: nat, rule: Rule, c: Clock)
    requires Ascending(q) && j < |q| && rule.KeepCalendar? && rule.count > 0 && Eligible(q[j], c.now)
    requires KeyOf(q[j], rule.unit, c.off) in Window(rule.unit, rule.count, c.now, c.off)
    requires LastOf(BucketKeys(q, rule.unit, c), |q|, j, KeyOf(q[j], rule.unit, c.off))
    ensures Represents(q[j], q, rule, c)
  {
    var key, keys := KeyOf(q[j], rule.unit, c.off), BucketKeys(q, rule.unit, c);
    forall t | t in q && Eligible(t, c.now) && KeyOf(t, rule.unit, c.off) == key
      ensures !Later(t, q[j])
    {
      var k :| 0 <= k < |q| && q[k] == t;
      assert keys[k] == Some(key);
      LaterOrder(t, t);
    }
  }

  /** A snapshot that represents its bucket has the id of the bucket's last row. */
  lemma RepresentsLast(q: seq<Snapshot>, i: nat, j: nat, rule: Rule, c: Clock)
    requires Ascending(q) && i < |q| && j < |q| && Represents(q[i], q, rule, c)
    requires LastOf(BucketKeys(q, rule.unit, c), |q|, j, KeyOf(q[i], rule.unit, c.off))
    ensures q[i].id == q[j].id
  {
    var key, keys := KeyOf(q[i], rule.unit, c.off), BucketKeys(q, rule.unit, c);
    assert keys[i] == Some(key) && keys[j] == Some(key);
    assert q[j] in q && !Later(q[j], q[i]);
    assert i <= j;
    LaterTotal(q[i], q[j]);
  }

  function RepIds(perBucket: map<string, Snapshot>): set<string> {
    set b | b in perBucket :: perBucket[b].id
  }

  lemma BucketRowRepresents(q: seq<Snapshot>, rule: Rule, c: Clock, perBucket: map<string, Snapshot>, at: map<string, nat>, b: string)
    requires Ascending(q) && rule.KeepCalendar? && rule.count > 0 && b in perBucket
    requires Represented(q, BucketKeys(q, rule.unit, c), |q|, perBucket, at, Window(rule.unit, rule.count, c.now, c.off))
    ensures perBucket[b] in q && Represents(perBucket[b], q, rule, c)
  {
    assert LastOf(BucketKeys(q, rule.unit, c), |q|, at[b], b);
    LastRepresents(q, at[b], rule, c);
  }

  lemma RepresentativeIsHeld(q: seq<Snapshot>, rule: Rule, c: Clock, perBucket: map<string, Snapshot>, at: map<string, nat>, i: nat)
    requires Ascending(q) && i < |q| && Represents(q[i], q, rule, c)
    requires Represented(q, BucketKeys(q, rule.unit, c), |q|, perBucket, at, Window(rule.unit, rule.count, c.now, c.off))
    ensures q[i].id in RepIds(perBucket)
  {
    var keys, b := BucketKeys(q, rule.unit, c), KeyOf(q[i], rule.unit, c.off);
    assert keys[i] == Some(b);
    assert LastOf(keys, |q|, at[b], b);
    RepresentsLast(q, i, at[b], rule, c);
    assert perBucket[b].id in RepIds(perBucket);
  }

  lemma BucketIds(q: seq<Snapshot>, rule: Rule, c: Clock, perBucket: map<string, Snapshot>, at: map<string, nat>)
    requires Ascending(q) && rule.KeepCalendar? && rule.count > 0
    requires Represented(q, BucketKeys(q, rule.unit, c), |q|, perBucket, at, Window(rule.unit, rule.count, c.now, c.off))
    ensures RepIds(perBucket) == IdsWhere(q, s => Represents(s, q, rule, c))
  {
    forall b | b in perBucket
      ensures perBucket[b] in q && Represents(perBucket[b], q, rule, c)
    {
      BucketRowRepresents(q, rule, c, perBucket, at, b);
    }
    forall s | s in q && Represents(s, q, rule, c)
      ensures s.id in RepIds(perBucket)
    {
      var i :| 0 <= i < |q| && q[i] == s;
      RepresentativeIsHeld(q, rule, c, perBucket, at, i);
    }
  }

  method KeepRule(q: seq<Snapshot>, rule: Rule, c: Clock, kept0: set<string>) returns (kept: set<string>)
    requires Ascending(q)
    ensures kept == kept0 + IdsWhere(q, s => Represents(s, q, rule, c))
  {
    kept := kept0;
    if rule.KeepCalendar? && rule.count > 0 {
      var window := RecentBucketKeys(rule.unit, rule.count, c.now, c.off);
      var perBucket, at := NewestPerBucket(q, rule.unit, window, c);
      BucketIds(q, rule, c, perBucket, at);
      kept := KeepRepresentatives(perBucket, kept);
    }
  }

  method KeepRepresentatives(perBucket: map<string, Snapshot>, kept0: set<string>) returns (kept: set<string>)
    ensures kept == kept0 + RepIds(perBucket)
  {
    kept := kept0;
    var pending := perBucket.Keys;
    while pending != {}
      invariant pending <= perBucket.Keys
      invariant kept == kept0 + set b | b in perBucket && b !in pending :: perBucket[b].id
    {
      var bucket :| bucket in pending;
      if perBucket[bucket].id !in kept {
        kept := kept + {perBucket[bucket].id};
      }
      pending := pending - {bucket};
    }
  }

  lemma CalendarRules(s: Snapshot, rows: seq<Snapshot>, rules: seq<Rule>, i: nat, c: Clock)
    requires i < |rules|
    ensures CalendarKept(s, rows, rules[..i + 1], c) <==> CalendarKept(s, rows, rules[..i], c) || Represents(s, rows, rules[i], c)
  {
    PrefixHits(r => Represents(s, rows, r, c), rules[..i], rules[i], rules[..i + 1]);
  }

  lemma MoreCalendarRules(q: seq<Snapshot>, rules: seq<Rule>, i: nat, c: Clock)
    requires i < |rules|
    ensures IdsWhere(q, s => CalendarKept(s, q, rules[..i + 1], c)) ==
            IdsWhere(q, s => CalendarKept(s, q, rules[..i], c)) + IdsWhere(q, s => Represents(s, q, rules[i], c))
  {
    forall s
      ensures CalendarKept(s, q, rules[..i + 1], c) <==> CalendarKept(s, q, rules[..i], c) || Represents(s, q, rules[i], c)
    {
      CalendarRules(s, q, rules, i, c);
    }
    IdsUnion(q, s => CalendarKept(s, q, rules[..i], c), s => Represents(s, q, rules[i], c), s => CalendarKept(s, q, rules[..i + 1], c));
  }

  method KeepByCalendar(q: seq<Snapshot>, rules: seq<Rule>, c: Clock, kept0: set<string>) returns (kept: set<string>)
    requires Ascending(q)
    ensures kept == kept0 + IdsWhere(q, s => CalendarKept(s, q, rules, c))
  {
    kept := kept0;
    for i := 0 to |rules|
      invariant kept == kept0 + IdsWhere(q, s => CalendarKept(s, q, rules[..i], c))
    {
      MoreCalendarRules(q, rules, i, c);
      kept := KeepRule(q, rules[i], c, kept);
    }
    assert rules[..|rules|] == rules;
  }

  // -------------------------------------------------------------------------
  // The last eligible snapshot
  // -------------------------------------------------------------------------

  predicate NoneKept(q: seq<Snapshot>, now: int, kept: set<string>) {
    forall t :: t in q && Eligible(t, now) ==> t.id !in kept
  }

  method KeepAtLeastOne(q: seq<Snapshot>, now: int, kept0: set<string>) returns (kept: set<string>, keptByGuarantee: nat)
    requires Ascending(q)
    ensures kept == kept0 + if NoneKept(q, now, kept0) then IdsWhere(q, s => Newest(s, q, now)) else {}
    ensures keptByGuarantee == if NoneKept(q, now, kept0) && exists t :: t in q && Eligible(t, now) then 1 else 0
  {
    kept, keptByGuarantee := kept0, 0;
    var successful := Eligibles(q, now);
    SomeKept(q, now, kept);
    if |successful| == 0 {
      assert IdsWhere(q, s => Newest(s, q, now)) == {};
      return;
    }
    if !(exists s :: s in successful && s.id in kept) {
      var newest := successful[|successful| - 1];
      NewestIsLast(q, now);
      kept := kept + {newest.id};
      keptByGuarantee := 1;
    }
  }

  lemma SomeKept(q: seq<Snapshot>, now: int, kept: set<string>)
    requires Ascending(q)
    ensures NoneKept(q, now, kept) <==> !exists s :: s in Eligibles(q, now) && s.id in kept
    ensures Eligibles(q, now) == [] <==> !exists t :: t in q && Eligible(t, now)
  {
    EligiblesAscend(q, now);
    var e := Eligibles(q, now);
    if e != [] {
      assert e[0] in e;
    }
  }

  lemma LastIsNewest(q: seq<Snapshot>, now: int)
    requires Ascending(q) && Eligibles(q, now) != []
    ensures var e := Eligibles(q, now); Newest(e[|e| - 1], q, now)
  {
    EligiblesAscend(q, now);
    var e := Eligibles(q, now);
    var last := e[|e| - 1];
    assert last in e;
    LaterOrder(last, last);
    forall t | t in q && Eligible(t, now)
      ensures !Later(t, last)
    {
      var j :| 0 <= j < |e| && e[j] == t;
    }
  }

  lemma NewestIsLast(q: seq<Snapshot>, now: int)
    requires Ascending(q) && Eligibles(q, now) != []
    ensures var e := Eligibles(q, now); IdsWhere(q, s => Newest(s, q, now)) == {e[|e| - 1].id}
  {
    var e := Eligibles(q, now);
    var last := e[|e| - 1];
    LastIsNewest(q, now);
    forall s | s in q && Newest(s, q, now)
      ensures s.id == last.id
    {
      LaterTotal(s, last);
    }
  }

  // -------------------------------------------------------------------------
  // Decisions and totals
  // -------------------------------------------------------------------------

  method Decide(q: seq<Snapshot>, decisions0: map<string, Decision>, kept: set<string>) returns (decisions: map<string, Decision>)
    requires decisions0.Keys <= AllIds(q)
    ensures decisions.Keys == AllIds(q)
    ensures forall id :: id in decisions ==> decisions[id] == if id in decisions0 then decisions0[id] else Decision(id in kept, false)
  {
    decisions := decisions0;
    for i := 0 to |q|
      invariant decisions.Keys == decisions0.Keys + AllIds(q[..i])
      invariant forall id :: id in decisions ==> decisions[id] == if id in decisions0 then decisions0[id] else Decision(id in kept, false)
    {
      assert q[..i + 1] == q[..i] + [q[i]];
      if q[i].id !in decisions {
        decisions := decisions[q[i].id := Decision(q[i].id in kept, false)];
      }
    }
    assert q[..|q|] == q;
  }

  /** The row that `byId` holds for an id: the last one. */
  function LatestOf(q: seq<Snapshot>): (m: map<string, Snapshot>)
    ensures m.Keys == AllIds(q)
  {
    if q == [] then map[]
    else
      var n := |q| - 1;
      assert q == q[..n] + [q[n]];
      LatestOf(q[..n])[q[n].id := q[n]]
  }

  function SizeOf(size: Option<nat>): nat {
    if size.Some? then size.value else 0
  }

  ghost function TotalSize(ids: set<string>, byId: map<string, Snapshot>): nat
    requires ids <= byId.Keys
  {
    if ids == {} then 0 else var id :| id in ids; SizeOf(byId[id].size) + TotalSize(ids - {id}, byId)
  }

  lemma {:induction false} TotalSizeWith(ids: set<string>, byId: map<string, Snapshot>, id: string)
    requires ids <= byId.Keys && id in ids
    ensures TotalSize(ids, byId) == SizeOf(byId[id].size) + TotalSize(ids - {id}, byId)
  {
    var first :| first in ids && TotalSize(ids, byId) == SizeOf(byId[first].size) + TotalSize(ids - {first}, byId);
    if first != id {
      TotalSizeWith(ids - {first}, byId, id);
      TotalSizeWith(ids - {id}, byId, first);
      assert ids - {first} - {id} == ids - {id} - {first};
    }
  }

  function Unsized(ids: set<string>, byId: map<string, Snapshot>): set<string>
    requires ids <= byId.Keys
  {
    set id | id in ids && byId[id].size.None?
  }

  function DeletedIds(decisions: map<string, Decision>): set<string> {
    set id | id in decisions && !decisions[id].keep
  }

  method Summarize(q: seq<Snapshot>, decisions: map<string, Decision>, guardCount: nat, keptByGuarantee: nat) returns (r: Evaluation)
    requires decisions.Keys == AllIds(q)
    ensures var deleted := DeletedIds(decisions);
            && r.decisions == decisions && r.guardCount == guardCount && r.keptByGuarantee == keptByGuarantee
            && r.deleteCount == |deleted| && r.keptCount == |decisions.Keys - deleted|
            && r.reclaimableBytes == TotalSize(deleted, LatestOf(q)) && r.unknownSizeCount == |Unsized(deleted, LatestOf(q))|
  {
    var byId := LatestOf(q);
    ghost var deleted := DeletedIds(decisions);
    var counts := Counts(0, 0, 0);
    var pending := decisions.Keys;
    assert deleted - pending == {};
    while pending != {}
      invariant pending <= decisions.Keys
      invariant Totals(deleted - pending, byId, counts)
    {
      var id :| id in pending;
      ghost var rest := pending - {id};
      NextTotals(deleted, pending, rest, id, byId, counts);
      if !decisions[id].keep {
        counts := CountDeletion(counts, byId[id].size);
      }
      pending := pending - {id};
    }
    assert deleted - {} == deleted;
    assert decisions.Keys == deleted + (decisions.Keys - deleted);
    r := Evaluation(decisions, |decisions| - counts.deleted, counts.deleted, counts.bytes, counts.unknown, guardCount, keptByGuarantee);
  }

  datatype Counts = Counts(deleted: nat, bytes: nat, unknown: nat)

  /** One deletion: a size that is not known is counted apart and never guessed. */
  function CountDeletion(c: Counts, size: Option<nat>): Counts {
    if size.Some? then Counts(c.deleted + 1, c.bytes + size.value, c.unknown)
    else Counts(c.deleted + 1, c.bytes, c.unknown + 1)
  }

  ghost predicate Totals(ids: set<string>, byId: map<string, Snapshot>, c: Counts)
    requires ids <= byId.Keys
  {
    c.deleted == |ids| && c.bytes == TotalSize(ids, byId) && c.unknown == |Unsized(ids, byId)|
  }

  lemma OneMoreUnsized(before: set<string>, id: string, byId: map<string, Snapshot>)
    requires before <= byId.Keys && id in byId && id !in before
    ensures |Unsized(before + {id}, byId)| == |Unsized(before, byId)| + if byId[id].size.None? then 1 else 0
  {
    assert Unsized(before + {id}, byId) == if byId[id].size.None? then Unsized(before, byId) + {id} else Unsized(before, byId);
  }

  lemma OneMoreDeleted(before: set<string>, id: string, byId: map<string, Snapshot>, c: Counts)
    requires before <= byId.Keys && id in byId && id !in before && Totals(before, byId, c)
    ensures Totals(before + {id}, byId, CountDeletion(c, byId[id].size))
  {
    assert before + {id} - {id} == before;
    TotalSizeWith(before + {id}, byId, id);
    OneMoreUnsized(before, id, byId);
  }

  lemma NextTotals(deleted: set<string>, pending: set<string>, rest: set<string>, id: string, byId: map<string, Snapshot>, c: Counts)
    requires deleted <= byId.Keys && id in pending && id in byId && rest == pending - {id}
    requires Totals(deleted - pending, byId, c)
    ensures Totals(deleted - rest, byId, if id in deleted then CountDeletion(c, byId[id].size) else c)
  {
    if id in deleted {
      OneMoreDeleted(deleted - pending, id, byId, c);
      assert deleted - rest == (deleted - pending) + {id};
    } else {
      assert deleted - rest == deleted - pending;
    }
  }

  // -------------------------------------------------------------------------
  // The evaluation
  // -------------------------------------------------------------------------

  /** Kept by a guard or for a clock anomaly; the disabled policy stops before the second. */
  predicate HeldBack(s: Snapshot, policy: Policy, now: int) {
    Guarded(s) || (policy.enabled && Future(s, now))
  }

  function HeldIds(rows: seq<Snapshot>, policy: Policy, now: int): set<string> {
    set s | s in rows && HeldBack(s, policy, now) :: s.id
  }

  function GuardedIds(rows: seq<Snapshot>): set<string> {
    set s | s in rows && Guarded(s) :: s.id
  }

  function Deleted(rows: seq<Snapshot>, policy: Policy, c: Clock): set<string> {
    set s | s in rows && !Kept(s.id, rows, policy, c) :: s.id
  }

  /** One decision for every id: kept or not, and whether as a safety override. */
  predicate Decided(decisions: map<string, Decision>, rows: seq<Snapshot>, policy: Policy, c: Clock) {
    && decisions.Keys == AllIds(rows)
    && forall id :: id in decisions ==> decisions[id] == Decision(Kept(id, rows, policy, c), id in HeldIds(rows, policy, c.now))
  }

  lemma SortedIds(rows: seq<Snapshot>)
    ensures AllIds(Sorted(rows)) == AllIds(rows)
  {
    SortKeeps(rows);
    SameMembers(Sorted(rows), rows);
  }

  method EvaluateRetention(rows: seq<Snapshot>, policy: Policy, c: Clock) returns (r: Evaluation)
    ensures Decided(r.decisions, rows, policy, c)
    ensures r.deleteCount == |Deleted(rows, policy, c)| && r.keptCount == |AllIds(rows) - Deleted(rows, policy, c)|
    ensures Deleted(rows, policy, c) <= LatestOf(Sorted(rows)).Keys
    ensures r.reclaimableBytes == TotalSize(Deleted(rows, policy, c), LatestOf(Sorted(rows)))
    ensures r.unknownSizeCount == |Unsized(Deleted(rows, policy, c), LatestOf(Sorted(rows)))|
    ensures r.guardCount == CountRows(rows, s => Guarded(s)) + |HeldIds(rows, policy, c.now) - GuardedIds(rows)|
    ensures r.keptByGuarantee ==
            if policy.enabled && NothingChosen(rows, policy.rules, c) && exists t :: t in rows && Eligible(t, c.now) then 1 else 0
  {
    var q := Sorted(rows);
    SortKeeps(rows);
    SortedIds(rows);
    var decisions, guardCount, keptByGuarantee := Evaluate(q, policy, c);
    SameDecided(q, rows, policy, c, decisions);
    CountPermutes(q, rows, s => Guarded(s));
    r := Summarize(q, decisions, guardCount, keptByGuarantee);
  }

  /** The evaluation of the sorted rows, up to the totals. */
  method Evaluate(q: seq<Snapshot>, policy: Policy, c: Clock)
    returns (decisions: map<string, Decision>, guardCount: nat, keptByGuarantee: nat)
    requires Ascending(q)
    ensures Decided(decisions, q, policy, c)
    ensures guardCount == CountRows(q, s => Guarded(s)) + |HeldIds(q, policy, c.now) - GuardedIds(q)|
    ensures keptByGuarantee ==
            if policy.enabled && NothingChosen(q, policy.rules, c) && exists t :: t in q && Eligible(t, c.now) then 1 else 0
  {
    var kept;
    decisions, kept, guardCount := KeepGuarded(q);
    HeldInPhases(q, policy, c.now);
    if !policy.enabled {
      decisions := Decide(q, decisions, AllIds(q));
      keptByGuarantee := 0;
      return;
    }
    var found;
    decisions, kept, found := KeepAnomalies(q, c.now, decisions, kept);
    guardCount := guardCount + found;
    var final;
    final, keptByGuarantee := ApplyRules(q, policy, c, kept);
    decisions := Decide(q, decisions, final);
  }

  /** Age, keep-last and calendar rules, then the guarantee. */
  method ApplyRules(q: seq<Snapshot>, policy: Policy, c: Clock, kept: set<string>) returns (final: set<string>, keptByGuarantee: nat)
    requires Ascending(q) && policy.enabled
    requires kept == IdsWhere(q, s => Guarded(s)) + IdsWhere(q, s => Future(s, c.now))
    ensures forall id :: id in final <==> Kept(id, q, policy, c)
    ensures forall id :: id in HeldIds(q, policy, c.now) ==> Kept(id, q, policy, c)
    ensures keptByGuarantee == if NothingChosen(q, policy.rules, c) && exists t :: t in q && Eligible(t, c.now) then 1 else 0
  {
    var byAge := KeepByAge(q, policy.rules, c.now, kept);
    var byLast := KeepLastN(q, policy.rules, c.now, byAge);
    var byCalendar := KeepByCalendar(q, policy.rules, c, byLast);
    ChosenIds(q, policy.rules, c, byCalendar);
    final, keptByGuarantee := KeepAtLeastOne(q, c.now, byCalendar);
    KeptIds(q, policy, c, byCalendar, final);
  }

  lemma HeldInPhases(q: seq<Snapshot>, policy: Policy, now: int)
    ensures GuardedIds(q) == IdsWhere(q, s => Guarded(s)) <= AllIds(q)
    ensures HeldIds(q, policy, now) ==
            if policy.enabled then IdsWhere(q, s => Guarded(s)) + IdsWhere(q, s => Future(s, now)) else GuardedIds(q)
    ensures HeldIds(q, policy, now) <= AllIds(q)
  {
  }

  lemma ChosenIds(q: seq<Snapshot>, rules: seq<Rule>, c: Clock, kept: set<string>)
    requires kept == IdsWhere(q, s => Guarded(s)) + IdsWhere(q, s => Future(s, c.now)) + IdsWhere(q, s => AgeKept(s, rules, c.now))
                     + IdsWhere(q, s => LastKept(s, q, rules, c.now)) + IdsWhere(q, s => CalendarKept(s, q, rules, c))
    ensures kept == IdsWhere(q, s => Chosen(s, q, rules, c))
    ensures forall id :: id in kept <==> ChosenId(id, q, rules, c)
    ensures NoneKept(q, c.now, kept) <==> NothingChosen(q, rules, c)
  {
    IdsUnion(q, s => Guarded(s), s => Future(s, c.now), s => Guarded(s) || Future(s, c.now));
    IdsUnion(q, s => Guarded(s) || Future(s, c.now), s => AgeKept(s, rules, c.now),
             s => Guarded(s) || Future(s, c.now) || AgeKept(s, rules, c.now));
    IdsUnion(q, s => Guarded(s) || Future(s, c.now) || AgeKept(s, rules, c.now), s => LastKept(s, q, rules, c.now),
             s => Guarded(s) || Future(s, c.now) || AgeKept(s, rules, c.now) || LastKept(s, q, rules, c.now));
    IdsUnion(q, s => Guarded(s) || Future(s, c.now) || AgeKept(s, rules, c.now) || LastKept(s, q, rules, c.now),
             s => CalendarKept(s, q, rules, c), s => Chosen(s, q, rules, c));
    ChosenIdIs(q, rules, c);
  }

  lemma ChosenIdIs(q: seq<Snapshot>, rules: seq<Rule>, c: Clock)
    ensures forall id :: id in IdsWhere(q, s => Chosen(s, q, rules, c)) <==> ChosenId(id, q, rules, c)
  {
  }

  lemma KeptIds(q: seq<Snapshot>, policy: Policy, c: Clock, chosen: set<string>, final: set<string>)
    requires policy.enabled
    requires forall id :: id in chosen <==> ChosenId(id, q, policy.rules, c)
    requires final == chosen + if NoneKept(q, c.now, chosen) then IdsWhere(q, s => Newest(s, q, c.now)) else {}
    ensures forall id :: id in final <==> Kept(id, q, policy, c)
    ensures NoneKept(q, c.now, chosen) <==> NothingChosen(q, policy.rules, c)
    ensures forall id :: id in HeldIds(q, policy, c.now) ==> Kept(id, q, policy, c)
  {
    forall id
      ensures id in IdsWhere(q, s => Newest(s, q, c.now)) <==> NewestId(id, q, c.now)
    {
    }
    forall id | id in HeldIds(q, policy, c.now)
      ensures ChosenId(id, q, policy.rules, c)
    {
    }
  }

  lemma SameDecided(q: seq<Snapshot>, rows: seq<Snapshot>, policy: Policy, c: Clock, decisions: map<string, Decision>)
    requires SameRows(q, rows) && Decided(decisions, q, policy, c)
    ensures Decided(decisions, rows, policy, c) && DeletedIds(decisions) == Deleted(rows, policy, c)
    ensures HeldIds(q, policy, c.now) == HeldIds(rows, policy, c.now) && GuardedIds(q) == GuardedIds(rows)
    ensures NothingChosen(q, policy.rules, c) <==> NothingChosen(rows, policy.rules, c)
    ensures (exists t :: t in q && Eligible(t, c.now)) <==> (exists t :: t in rows && Eligible(t, c.now))
  {
    SameMembers(q, rows);
    SameKept(q, rows, policy, c);
  }
}
