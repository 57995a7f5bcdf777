/**
 Where the bisync protocol stops resyncing, and exactly which of its guards the
 safety claim rests on: each guard is shown necessary by a history without it.
 */
module BisyncLimits {
  import opened Wrappers
  import opened Text
  import opened BisyncBaseline
  import opened BisyncRun
  import opened BisyncSafety

  lemma FirstLaunch(d: Dir, u: Universe, control: Option<Control>, max: nat, env: RunEnv)
    requires Starts(env)
    ensures var launches := Run(d, u, control, max, env).launches;
            |launches| >= 1 && launches[0] == Launch(Prepared(d, u, control, env.archiveOk), u, PlannedResync(d, u, control), true)
  {
    LoopLaunches(Prepared(d, u, control, env.archiveOk), u, PlannedResync(d, u, control), env.attempts, 1, max);
  }

  /** The loop starts with the planned command, and a clean first exit ends it. */
  lemma LoopLaunches(dir: Dir, u: Universe, resync: bool, script: seq<Attempt>, attempt: nat, max: nat)
    requires script != [] && script[0].preHookOk
    ensures var end := Attempts(dir, u, resync, script, attempt, max);
            && |end.launches| >= 1
            && end.launches[0] == Launch(dir, u, resync, attempt == 1)
            && (Succeeded(script[0].first) && !script[0].first.corrupted && script[0].postHookOk ==>
                  end.dir == script[0].first.after && end.result == Some(script[0].first))
  {
    var a := script[0];
    if a.first.Exited? && !Recovers(a.first) {
      assert Attempts(dir, u, resync, script, attempt, max) ==
             Settle(a.first, [Launch(dir, u, resync, attempt == 1)], u, resync, script, attempt, max);
    }
  }

  // -------------------------------------------------------------------------
  // Convergence
  // -------------------------------------------------------------------------

  /** rclone leaves the marker files as it finds them. */
  ghost predicate KeepsMarkers(dir: Dir, script: seq<Attempt>)
    decreases |script|
  {
    script != [] ==>
      var a := script[0];
      && SameMarkers(dir, a.first.after)
      && (Recovers(a.first) ==> SameMarkers(map[], a.second.after))
      && KeepsMarkers(if Recovers(a.first) then a.second.after else a.first.after, script[1..])
  }

  /** The run succeeds, at whatever attempt, with a ready pair, and the disk plays along. */
  ghost predicate GoodRun(d: Dir, u: Universe, max: nat, env: RunEnv) {
    && env.archiveOk && env.writeOk && KeepsMarkers(Prepared(d, u, None, true), env.attempts)
    && var end := Run(d, u, None, max, env);
    && end.result.Some? && Succeeded(end.result.value) && Ready(end.dir.Keys)
  }

  /** The loop goes on to another attempt after this process. */
  predicate GoesOn(r: Rclone, postHookOk: bool, attempt: nat, max: nat) {
    r.Exited? && !(r.code == 0 && !postHookOk) && !Succeeded(r) && Retryable(r) && attempt < max
  }

  /** An attempt that was made met a corrupted baseline. */
  predicate Recovered(script: seq<Attempt>, attempt: nat, max: nat)
    decreases |script|
  {
    && script != [] && script[0].preHookOk
    && (Recovers(script[0].first)
        || (GoesOn(script[0].first, script[0].postHookOk, attempt, max) && Recovered(script[1..], attempt + 1, max)))
  }

  lemma SameMarkersRead(d: Dir, e: Dir)
    requires SameMarkers(d, e)
    ensures ReadAcknowledged(d) == ReadAcknowledged(e)
  {
    assert FINGERPRINT in [FINGERPRINT, LEGACY, RESYNC_REQUIRED] && LEGACY in [FINGERPRINT, LEGACY, RESYNC_REQUIRED];
  }

  /** The loop loses the fingerprint exactly when an attempt recovered: the archive takes it along. */
  lemma {:induction false} LoopFingerprint(dir: Dir, u: Universe, resync: bool, script: seq<Attempt>, attempt: nat, max: nat)
    requires KeepsMarkers(dir, script)
    requires Attempts(dir, u, resync, script, attempt, max).result.Some?
    ensures ReadAcknowledged(Attempts(dir, u, resync, script, attempt, max).dir) ==
            if Recovered(script, attempt, max) then None else ReadAcknowledged(dir)
    decreases |script|
  {
    var a := script[0];
    var t := Try(dir, u, resync, a, attempt == 1);
    var r := t.last.value;
    if Recovers(a.first) {
      SameMarkersRead(map[], a.second.after);
    } else {
      SameMarkersRead(dir, a.first.after);
    }
    if GoesOn(r, a.postHookOk, attempt, max) {
      LoopFingerprint(r.after, u, t.resync, script[1..], attempt + 1, max);
    }
  }

  /**
   After a good run the next one is a resync exactly when the filters had not
   changed, so that nothing was acknowledged, and the fingerprint went with an
   archived directory: of a recovery, or of a baseline that was not ready.
   */
  lemma NextResync(d: Dir, u: Universe, max: nat, env: RunEnv)
    requires Checked(u) && GoodRun(d, u, max, env)
    ensures var e := Run(d, u, None, max, env).dir;
            && Ready(e.Keys)
            && (PlannedResync(e, u, None) <==>
                !FilterChanged(d, u) && (Recovered(env.attempts, 1, max) || Archives(d, u, None)))
  {
    var prepared, resync := Prepared(d, u, None, true), PlannedResync(d, u, None);
    var end := Attempts(prepared, u, resync, env.attempts, 1, max);
    var e := Run(d, u, None, max, env).dir;
    LoopFingerprint(prepared, u, resync, env.attempts, 1, max);
    AcknowledgedReads(end.dir, u, FilterChanged(d, u), end.result.value, env);
    assert FilterChanged(d, u) ==> ReadAcknowledged(e) == Some(Fingerprint(u));
    assert !FilterChanged(d, u) ==> ReadAcknowledged(e) == ReadAcknowledged(end.dir);
  }

  /** What the acknowledgement leaves to be read. */
  lemma AcknowledgedReads(d: Dir, u: Universe, changed: bool, r: Rclone, env: RunEnv)
    requires env.writeOk && Succeeded(r) && Ready(Acknowledged(d, u, changed, r, env).Keys)
    ensures var e := Acknowledged(d, u, changed, r, env);
            ReadAcknowledged(e) == if changed then Some(Fingerprint(u)) else ReadAcknowledged(d)
  {
    MarkersApart();
    SameListings(d, Acknowledged(d, u, changed, r, env));
  }

  /** The workdir before run `i`. */
  ghost function Before(d: Dir, u: Universe, max: nat, envs: seq<RunEnv>, i: nat): Dir
    requires i <= |envs|
  {
    if i == 0 then d else Run(Before(d, u, max, envs, i - 1), u, None, max, envs[i - 1]).dir
  }

  ghost predicate GoodRuns(d: Dir, u: Universe, max: nat, envs: seq<RunEnv>) {
    forall i :: 0 <= i < |envs| ==> GoodRun(Before(d, u, max, envs, i), u, max, envs[i])
  }

  ghost predicate Resyncs(d: Dir, u: Universe, max: nat, envs: seq<RunEnv>, i: nat)
    requires i < |envs|
  {
    PlannedResync(Before(d, u, max, envs, i), u, None)
  }

  /** Run `i` recovered from a corrupted baseline while its filters were the acknowledged ones. */
  ghost predicate LosesFingerprint(d: Dir, u: Universe, max: nat, envs: seq<RunEnv>, i: nat)
    requires i < |envs|
  {
    Recovered(envs[i].attempts, 1, max) && !FilterChanged(Before(d, u, max, envs, i), u)
  }

  /**
   From any workdir, with a fixed filter universe and runs that succeed at whatever
   attempt: from the third run on, a run is a resync exactly when the one before it
   recovered from a corrupted baseline with its filters unchanged.
   */
  lemma ResyncsExactly(d: Dir, u: Universe, max: nat, envs: seq<RunEnv>, i: nat)
    requires Checked(u) && GoodRuns(d, u, max, envs) && 2 <= i < |envs|
    ensures Resyncs(d, u, max, envs, i) <==> LosesFingerprint(d, u, max, envs, i - 1)
  {
    var before := Before(d, u, max, envs, i - 1);
    NextResync(Before(d, u, max, envs, i - 2), u, max, envs[i - 2]);
    NextResync(before, u, max, envs[i - 1]);
    assert before == Run(Before(d, u, max, envs, i - 2), u, None, max, envs[i - 2]).dir;
    assert !FilterChanged(before, u) ==> !Archives(before, u, None);
  }

  /** The second run is one when the first lost the fingerprint that way, or archived it for want of a ready pair. */
  lemma SecondResync(d: Dir, u: Universe, max: nat, envs: seq<RunEnv>)
    requires Checked(u) && |envs| >= 2 && GoodRuns(d, u, max, envs)
    ensures Resyncs(d, u, max, envs, 1) <==>
            LosesFingerprint(d, u, max, envs, 0)
            || (!FilterChanged(d, u) && !Ready(d.Keys) && (Present(d.Keys) || HasError(d.Keys)))
  {
    assert Before(d, u, max, envs, 0) == d;
    NextResync(d, u, max, envs[0]);
    assert Before(d, u, max, envs, 1) == Run(d, u, None, max, envs[0]).dir;
  }

  /** While no run recovers, only the first two can be resyncs. */
  lemma Converges(d: Dir, u: Universe, max: nat, envs: seq<RunEnv>)
    requires Checked(u) && GoodRuns(d, u, max, envs)
    requires forall i :: 1 <= i < |envs| - 1 ==> !Recovered(envs[i].attempts, 1, max)
    ensures forall i :: 2 <= i < |envs| ==> !Resyncs(d, u, max, envs, i)
  {
    forall i | 2 <= i < |envs|
      ensures !Resyncs(d, u, max, envs, i)
    {
      ResyncsExactly(d, u, max, envs, i);
    }
  }

  ghost predicate Settled(d: Dir, u: Universe) {
    Ready(d.Keys) && !FilterChanged(d, u)
  }

  /** Beside an acknowledged, ready pair every run is a resync exactly when the one before it lost the fingerprint. */
  lemma SettledResyncs(d: Dir, u: Universe, max: nat, envs: seq<RunEnv>, i: nat)
    requires Checked(u) && Settled(d, u) && GoodRuns(d, u, max, envs) && i < |envs|
    ensures Resyncs(d, u, max, envs, i) <==> i > 0 && LosesFingerprint(d, u, max, envs, i - 1)
  {
    assert Before(d, u, max, envs, 0) == d;
    if i == 1 {
      SecondResync(d, u, max, envs);
    } else if i >= 2 {
      ResyncsExactly(d, u, max, envs, i);
    }
  }

  /** A recovery costs one resync: after it the fingerprint is acknowledged again, whether or not that run recovers too. */
  lemma OneResyncEach(d: Dir, u: Universe, max: nat, envs: seq<RunEnv>, i: nat)
    requires Checked(u) && GoodRuns(d, u, max, envs) && 2 <= i < |envs| - 1
    requires Resyncs(d, u, max, envs, i)
    ensures !Resyncs(d, u, max, envs, i + 1)
  {
    ResyncsExactly(d, u, max, envs, i + 1);
    ResyncOfReady(Before(d, u, max, envs, i - 1), u, max, envs[i - 1], Before(d, u, max, envs, i));
  }

  lemma ResyncOfReady(d: Dir, u: Universe, max: nat, env: RunEnv, e: Dir)
    requires Checked(u) && GoodRun(d, u, max, env) && e == Run(d, u, None, max, env).dir
    ensures PlannedResync(e, u, None) ==> FilterChanged(e, u)
  {
    NextResync(d, u, max, env);
  }

  // -------------------------------------------------------------------------
  // An empty universe is never compared
  // -------------------------------------------------------------------------

  /**
   A run without filters is compared with nothing and reuses the pair, whatever
   fingerprint is recorded or missing. That is sound exactly when the run the
   pair was built by filtered nothing either.
   */
  lemma EmptyUniverseExact(d: Dir, last: Universe, u: Universe, control: Option<Control>, max: nat, env: RunEnv)
    requires WellFormed(last) && PairsMatch(d, Fingerprint(last)) && Ready(d.Keys)
    requires WellFormed(u) && !Checked(u) && Automatic(control) && Starts(env)
    ensures var launches := Run(d, u, control, max, env).launches;
            && |launches| >= 1
            && !launches[0].resync
            && (SafeLaunch(launches[0]) <==> FilterText(last) == "")
  {
    FirstLaunch(d, u, control, max, env);
    UncheckedFingerprint(u);
    SafeOnPairs(d, last, u);
  }

  /** A pair built under one universe is safe for another exactly when their filters agree. */
  lemma SafeOnPairs(d: Dir, last: Universe, u: Universe)
    requires WellFormed(last) && WellFormed(u) && PairsMatch(d, Fingerprint(last)) && Ready(d.Keys)
    ensures SafeLaunch(Launch(d, u, false, true)) <==> FilterText(last) == FilterText(u)
  {
    var s :| Paired(d.Keys, s);
    assert HalfMatches(d, s + PATH1, Fingerprint(last));
    FingerprintFixesFilter(d[s + PATH1].built, last);
    forall t | Paired(d.Keys, t)
      ensures BuiltUnder(d, t + PATH1, FilterText(last)) && BuiltUnder(d, t + PATH2, FilterText(last))
    {
      assert HalfMatches(d, t + PATH1, Fingerprint(last)) && HalfMatches(d, t + PATH2, Fingerprint(last));
      FingerprintFixesFilter(d[t + PATH1].built, last);
      FingerprintFixesFilter(d[t + PATH2].built, last);
    }
  }

  lemma SafeTogether(a: seq<Launch>, b: seq<Launch>)
    ensures AllSafe(a + b) <==> AllSafe(a) && AllSafe(b)
  {
    assert forall i :: 0 <= i < |a| ==> (a + b)[i] == a[i];
    assert forall i :: 0 <= i < |b| ==> (a + b)[|a| + i] == b[i];
  }

  /**
   Over every history with and without filters: it is safe exactly when no run
   without filters reuses the pair of a run that had some.
   */
  lemma {:induction false} HistorySafeExactly(d: Dir, last: Universe, events: seq<Event>)
    requires Known(d, Some(last)) && LegalHistory(d, events)
    ensures AllSafe(History(d, events).launches) <==> EmptyFollowsEmpty(d, Some(last), events)
    decreases |events|
  {
    if events != [] {
      var e, rest := events[0], events[1..];
      SafeTogether(Step(d, e).launches, History(Step(d, e).dir, rest).launches);
      if Reuses(d, e) && !KnownEmpty(d, Some(last)) {
        EmptyUniverseExact(d, last, e.universe, e.control, e.max, e.env);
      } else {
        match e {
          case RunEvent(u, control, max, env) => RunSafe(d, Some(last), u, control, max, env);
          case LossEvent(after) => LossKeeps(d, Some(last), after);
        }
        HistorySafeExactly(Step(d, e).dir, NextLast(Some(last), e).value, rest);
      }
    }
  }

  /** A clean run without filters that writes its pair anew. */
  function OffRun(d: Dir, v: Universe, stem: string): RunEnv {
    var r := Exited(Fresh(d, v, stem), 0, false, false, false);
    RunEnv(true, true, [Attempt(true, r, true, r, true)], true, true)
  }

  lemma OffRunLeaves(d: Dir, v: Universe, stem: string, control: Option<Control>, max: nat)
    requires Ready(d.Keys) && !Checked(v) && Automatic(control)
    ensures Run(d, v, control, max, OffRun(d, v, stem)).dir == Fresh(d, v, stem)
  {
    LoopLaunches(d, v, false, OffRun(d, v, stem).attempts, 1, max);
  }

  /**
   Filters switched off and on again, from every workdir with a ready pair and an
   acknowledged fingerprint: both runs are in contract and nothing fails, the
   second finds its fingerprint unchanged and reuses listings built without filters.
   */
  lemma OffAndOn(d: Dir, u: Universe, v: Universe, stem: string, control: Option<Control>, max: nat, env: RunEnv)
    requires Ready(d.Keys) && FINGERPRINT in d && d[FINGERPRINT] == Recorded(Fingerprint(u))
    requires WellFormed(u) && Checked(u) && WellFormed(v) && !Checked(v)
    requires Automatic(control) && Starts(env)
    ensures LegalEvent(d, RunEvent(v, control, max, OffRun(d, v, stem)))
    ensures var e := Run(d, v, control, max, OffRun(d, v, stem)).dir;
            var launches := Run(e, u, control, max, env).launches;
            && !FilterChanged(e, u) && PairsMatch(e, Fingerprint(v))
            && |launches| >= 1 && !launches[0].resync
            && (SafeLaunch(launches[0]) <==> FilterText(u) == "")
  {
    assert OffRun(d, v, stem).attempts[1..] == [];
    FreshPair(d, v, stem);
    OffRunLeaves(d, v, stem, control, max);
    UncheckedFingerprint(v);
    StaleReuse(Fresh(d, v, stem), u, v, control, max, env);
  }

  /** Where the recorded fingerprint is that of `u`, a ready pair built under `w` is reused for `u`. */
  lemma StaleReuse(e: Dir, u: Universe, w: Universe, control: Option<Control>, max: nat, env: RunEnv)
    requires Ready(e.Keys) && PairsMatch(e, Fingerprint(w)) && FINGERPRINT in e && e[FINGERPRINT] == Recorded(Fingerprint(u))
    requires WellFormed(u) && Checked(u) && WellFormed(w) && Automatic(control) && Starts(env)
    ensures var launches := Run(e, u, control, max, env).launches;
            && !FilterChanged(e, u) && |launches| >= 1 && !launches[0].resync
            && (SafeLaunch(launches[0]) <==> FilterText(w) == FilterText(u))
  {
    FirstLaunch(e, u, control, max, env);
    SafeOnPairs(e, w, u);
  }

  /** A pair written anew, beside the markers that were there. */
  function Fresh(d: Dir, w: Universe, stem: string): Dir {
    (map n | n in d && Marker(n) :: d[n])[stem + PATH1 := Listing(w)][stem + PATH2 := Listing(w)]
  }

  lemma SuffixEnds(stem: string, suffix: string)
    ensures EndsWith(stem + suffix, suffix)
  {
  }

  /** The only name in it that is no marker and ends like a listing, an error or a write in flight is the pair. */
  lemma FreshNames(d: Dir, w: Universe, stem: string, s: string)
    ensures var names := Fresh(d, w, stem).Keys;
            && (s + PATH1 in names ==> s == stem) && (s + PATH2 in names ==> s == stem)
            && s + ERROR !in names && s + PATH1_NEW !in names && s + PATH2_NEW !in names
  {
    MarkerIsNoListing();
    SuffixEnds(stem, PATH1);
    SuffixEnds(stem, PATH2);
    SuffixesApart(stem + PATH1);
    SuffixesApart(stem + PATH2);
    FreshName(d, w, stem, s, PATH1);
    FreshName(d, w, stem, s, PATH2);
    FreshName(d, w, stem, s, ERROR);
    FreshName(d, w, stem, s, PATH1_NEW);
    FreshName(d, w, stem, s, PATH2_NEW);
    StemOf(stem + PATH1, PATH1);
    StemOf(stem + PATH2, PATH2);
  }

  lemma FreshName(d: Dir, w: Universe, stem: string, s: string, suffix: string)
    requires !Marker(s + suffix)
    ensures EndsWith(s + suffix, suffix)
    ensures s + suffix in Fresh(d, w, stem) <==> s + suffix == stem + PATH1 || s + suffix == stem + PATH2
  {
  }

  /** It is ready, built under `w`, and in contract for rclone on any workdir with the same markers. */
  lemma FreshPair(d: Dir, w: Universe, stem: string)
    requires WellFormed(w)
    ensures var after := Fresh(d, w, stem);
            && Ready(after.Keys) && PairsMatch(after, Fingerprint(w)) && RcloneMayLeave(d, after, w)
            && forall n :: Marker(n) ==> (n in after <==> n in d) && (n in d ==> after[n] == d[n])
  {
    var after := Fresh(d, w, stem);
    forall s
      ensures (Paired(after.Keys, s) ==> s == stem) && !InFlight(after.Keys, s) && s + ERROR !in after.Keys
    {
      FreshNames(d, w, stem, s);
    }
    FreshMarkers(d, w, stem);
    assert Paired(after.Keys, stem);
    assert after[stem + PATH1] == Listing(w) && after[stem + PATH2] == Listing(w);
  }

  lemma FreshMarkers(d: Dir, w: Universe, stem: string)
    ensures var after := Fresh(d, w, stem);
            forall n :: Marker(n) ==> (n in after <==> n in d) && (n in d ==> after[n] == d[n])
    ensures SameMarkers(d, Fresh(d, w, stem))
  {
    MarkerIsNoListing();
    assert PATH1 in [PATH1, PATH2, PATH1_NEW, PATH2_NEW, ERROR] && PATH2 in [PATH1, PATH2, PATH1_NEW, PATH2_NEW, ERROR];
    assert !Marker(stem + PATH1) && !Marker(stem + PATH2);
  }

  // -------------------------------------------------------------------------
  // An adopted legacy hash is never rewritten
  // -------------------------------------------------------------------------

  ghost predicate LegacyWorkdir(d: Dir, rules: seq<string>) {
    && FINGERPRINT !in d && LEGACY in d && d[LEGACY] == Recorded(Sha256(Join(rules, '\n')))
    && Ready(d.Keys)
  }

  lemma {:induction false} MarkersStay(dir: Dir, u: Universe, script: seq<Attempt>, attempt: nat, max: nat)
    requires LegalAttempts(dir, u, script)
    requires forall i :: 0 <= i < |script| ==> !Recovers(script[i].first)
    ensures var e := Attempts(dir, u, false, script, attempt, max).dir;
            ReadAcknowledged(e) == ReadAcknowledged(dir)
    decreases |script|
  {
    assert FINGERPRINT in [FINGERPRINT, LEGACY, RESYNC_REQUIRED] && LEGACY in [FINGERPRINT, LEGACY, RESYNC_REQUIRED];
    if script != [] {
      MarkersStay(script[0].first.after, u, script[1..], attempt + 1, max);
    }
  }

  /**
   While only a legacy hash is recorded, no change of patterns is ever seen: the
   run is not a resync, whatever it filters, and the hash is still the legacy
   one afterwards. The reused pair is right exactly when the patterns did not move.
   */
  lemma LegacyHashExact(d: Dir, u: Universe, v: Universe, control: Option<Control>, max: nat, env: RunEnv)
    requires u.rules.Some? && LegacyWorkdir(d, u.rules.value) && u.rules == v.rules
    requires WellFormed(u) && WellFormed(v) && RulesOf(u) + u.patterns != []
    requires forall s :: Paired(d.Keys, s) ==> d[s + PATH1] == Listing(v) && d[s + PATH2] == Listing(v)
    requires Automatic(control) && Starts(env) && LegalAttempts(d, u, env.attempts)
    requires forall i :: 0 <= i < |env.attempts| ==> !Recovers(env.attempts[i].first)
    ensures var end := Run(d, u, control, max, env);
            && |end.launches| >= 1 && !end.launches[0].resync
            && (SafeLaunch(end.launches[0]) <==> Join(u.patterns, '\n') == Join(v.patterns, '\n'))
            && ReadAcknowledged(end.dir) == Some(Sha256(Join(u.rules.value, '\n')))
  {
    FirstLaunch(d, u, control, max, env);
    MarkersStay(d, u, env.attempts, 1, max);
    FilterTextByHalves(u);
    FilterTextByHalves(v);
    var s :| Paired(d.Keys, s);
    SameTextSamePatterns(u, v);
    if Join(u.patterns, '\n') == Join(v.patterns, '\n') {
      assert FilterText(u) == FilterText(v);
    } else {
      assert !BuiltUnder(d, s + PATH1, FilterText(u));
    }
  }

  /** With the same rules, the filter files agree exactly when the patterns do. */
  lemma SameTextSamePatterns(u: Universe, v: Universe)
    requires WellFormed(u) && WellFormed(v) && RulesOf(u) == RulesOf(v)
    ensures FilterText(u) == FilterText(v) <==> Join(u.patterns, '\n') == Join(v.patterns, '\n')
  {
    FilterTextByHalves(u);
    FilterTextByHalves(v);
    var r, p, q := Join(RulesOf(u), '\n'), Join(u.patterns, '\n'), Join(v.patterns, '\n');
    if FilterText(u) == FilterText(v) {
      if r == "" {
        assert FilterText(u) == p + "\n" || p == "";
        assert FilterText(v) == q + "\n" || q == "";
        if p != "" && q != "" {
          assert (p + "\n")[..|p|] == p && (q + "\n")[..|q|] == q;
        }
      } else if p != "" && q != "" {
        assert (r + "\n" + p + "\n")[|r| + 1..|r| + 1 + |p|] == p;
        assert (r + "\n" + q + "\n")[|r| + 1..|r| + 1 + |q|] == q;
      }
    }
  }

  // -------------------------------------------------------------------------
  // A fingerprint that outlives its listings
  // -------------------------------------------------------------------------

  /** rclone was killed after it had written its pair anew. */
  function KilledRun(d: Dir, w: Universe, stem: string, archiveOk: bool): RunEnv {
    var r := Exited(Fresh(d, w, stem), 7, false, false, false);
    RunEnv(archiveOk, true, [Attempt(true, r, true, r, true)], true, true)
  }

  /** A failed run acknowledges nothing: the old fingerprint stands beside the new pair. */
  lemma KilledRunLeaves(d: Dir, u: Universe, w: Universe, stem: string, control: Option<Control>, archiveOk: bool, max: nat)
    requires FINGERPRINT in d && d[FINGERPRINT] == Recorded(Fingerprint(u)) && WellFormed(w)
    requires Archives(d, w, control) ==> !archiveOk
    ensures var e := Run(d, w, control, max, KilledRun(d, w, stem, archiveOk)).dir;
            && Ready(e.Keys) && PairsMatch(e, Fingerprint(w))
            && FINGERPRINT in e && e[FINGERPRINT] == Recorded(Fingerprint(u))
  {
    var env, resync := KilledRun(d, w, stem, archiveOk), PlannedResync(d, w, control);
    var after, r := Fresh(d, w, stem), env.attempts[0].first;
    assert Attempts(d, w, resync, env.attempts, 1, max) ==
           Settle(r, [Launch(d, w, resync, true)], w, resync, env.attempts, 1, max);
    var e := Run(d, w, control, max, env).dir;
    assert e == Acknowledged(after, w, FilterChanged(d, w), r, env);
    FreshPair(d, w, stem);
    MarkersApart();
    SameListings(after, e);
    SamePairs(after, e, Fingerprint(w));
  }

  lemma SamePairs(d: Dir, e: Dir, f: Digest)
    requires forall n :: !Marker(n) ==> (n in d <==> n in e) && (n in d ==> d[n] == e[n])
    requires PairsMatch(d, f)
    ensures PairsMatch(e, f)
  {
    SameListings(d, e);
    forall s | Paired(e.Keys, s)
      ensures HalfMatches(e, s + PATH1, f) && HalfMatches(e, s + PATH2, f)
    {
      assert HalfMatches(d, s + PATH1, f) && HalfMatches(d, s + PATH2, f);
    }
  }

  lemma KilledRunIsLegal(d: Dir, w: Universe, stem: string, archiveOk: bool)
    requires WellFormed(w)
    ensures LegalAttempts(d, w, KilledRun(d, w, stem, archiveOk).attempts)
  {
    assert KilledRun(d, w, stem, archiveOk).attempts[1..] == [];
    FreshPair(d, w, stem);
  }

  /**
   The filters move from `u` to `w` and back, from any workdir with the fingerprint
   of `u`, ready or not, and whether or not `w` filters anything. When the archive
   of the first run fails, the second one reuses listings built under `w`, safely
   exactly when both filter the same; nothing else is out of contract.
   */
  lemma FailedArchiveBreaks(d: Dir, u: Universe, w: Universe, stem: string, first: Option<Control>, second: Option<Control>, max: nat, env: RunEnv)
    requires FINGERPRINT in d && d[FINGERPRINT] == Recorded(Fingerprint(u))
    requires WellFormed(u) && Checked(u) && WellFormed(w) && Automatic(second) && Starts(env)
    ensures LegalAttempts(Prepared(d, w, first, false), w, KilledRun(d, w, stem, false).attempts)
    ensures var e := Run(d, w, first, max, KilledRun(d, w, stem, false)).dir;
            var launches := Run(e, u, second, max, env).launches;
            |launches| >= 1 && !launches[0].resync && (SafeLaunch(launches[0]) <==> FilterText(w) == FilterText(u))
  {
    KilledRunIsLegal(d, w, stem, false);
    KilledRunLeaves(d, u, w, stem, first, false, max);
    StaleReuse(Run(d, w, first, max, KilledRun(d, w, stem, false)).dir, u, w, second, max, env);
  }

  /**
   The same with every archive working, when the listings were lost and the
   fingerprint was not: there is nothing to archive, so the fingerprint stays. Both
   runs are in contract; only the loss before them is not.
   */
  lemma LostListingsBreak(d: Dir, u: Universe, w: Universe, stem: string, first: Option<Control>, second: Option<Control>, max: nat, env: RunEnv)
    requires FINGERPRINT in d && d[FINGERPRINT] == Recorded(Fingerprint(u)) && !Present(d.Keys) && !HasError(d.Keys)
    requires WellFormed(u) && Checked(u) && WellFormed(w) && Automatic(second) && Starts(env)
    ensures LegalEvent(d, RunEvent(w, first, max, KilledRun(d, w, stem, true)))
    ensures var e := Run(d, w, first, max, KilledRun(d, w, stem, true)).dir;
            var launches := Run(e, u, second, max, env).launches;
            |launches| >= 1 && !launches[0].resync && (SafeLaunch(launches[0]) <==> FilterText(w) == FilterText(u))
  {
    KilledRunIsLegal(d, w, stem, true);
    KilledRunLeaves(d, u, w, stem, first, true, max);
    StaleReuse(Run(d, w, first, max, KilledRun(d, w, stem, true)).dir, u, w, second, max, env);
  }

  /** Deleting the listings of a good workdir by hand is such a loss. */
  lemma DeletedListings(d: Dir, u: Universe)
    requires FINGERPRINT in d && d[FINGERPRINT] == Recorded(Fingerprint(u))
    ensures var left := map n | n in d && Marker(n) :: d[n];
            && left.Keys <= d.Keys && (forall n :: n in left ==> left[n] == d[n])
            && FINGERPRINT in left && left[FINGERPRINT] == d[FINGERPRINT] && !Present(left.Keys) && !HasError(left.Keys)
  {
    MarkersApart();
    MarkerIsNoListing();
    assert PATH1 in [PATH1, PATH2, PATH1_NEW, PATH2_NEW, ERROR] && ERROR in [PATH1, PATH2, PATH1_NEW, PATH2_NEW, ERROR];
    var left := map n | n in d && Marker(n) :: d[n];
    assert forall s :: !Marker(s + PATH1) && !Marker(s + ERROR);
  }

  // -------------------------------------------------------------------------
  // The pending marker
  // -------------------------------------------------------------------------

  /** No decision of a run reads the marker. */
  lemma PendingMarkerIsNotRead(d: Dir, u: Universe, control: Option<Control>)
    ensures var e := d - {RESYNC_REQUIRED};
            && PlannedResync(e, u, control) == PlannedResync(d, u, control)
            && (Archives(e, u, control) <==> Archives(d, u, control))
  {
    MarkersApart();
    SameListings(d, d - {RESYNC_REQUIRED});
  }

  /** A clean run whose removal of the marker fails. */
  function UnremovedRun(d: Dir, u: Universe, stem: string): RunEnv {
    var r := Exited(Fresh(d, u, stem), 0, false, false, false);
    RunEnv(true, true, [Attempt(true, r, true, r, true)], true, false)
  }

  /** A marker that could not be removed stays beside the acknowledged fingerprint, and the next run is no resync. */
  lemma PendingMarkerForcesNothing(d: Dir, u: Universe, stem: string, max: nat)
    requires RESYNC_REQUIRED in d && !Present(d.Keys) && !HasError(d.Keys)
    requires WellFormed(u) && FilterChanged(d, u)
    ensures LegalEvent(d, RunEvent(u, None, max, UnremovedRun(d, u, stem)))
    ensures var e := Run(d, u, None, max, UnremovedRun(d, u, stem)).dir;
            RESYNC_REQUIRED in e && e[RESYNC_REQUIRED] == d[RESYNC_REQUIRED] && !PlannedResync(e, u, None)
  {
    var env, after := UnremovedRun(d, u, stem), Fresh(d, u, stem);
    assert env.attempts[1..] == [];
    FreshPair(d, u, stem);
    LoopLaunches(d, u, true, env.attempts, 1, max);
    var e := Run(d, u, None, max, env).dir;
    assert e == after[FINGERPRINT := Recorded(Fingerprint(u))];
    MarkersApart();
    SameListings(after, e);
  }

  // -------------------------------------------------------------------------
  // A retry does not look at the pair again
  // -------------------------------------------------------------------------

  ghost predicate AllReady(launches: seq<Launch>) {
    forall i :: 0 <= i < |launches| && !launches[i].resync ==> Ready(launches[i].dir.Keys)
  }

  /** Without retries every launch without `--resync` meets a ready pair, whatever is in the workdir. */
  lemma NoRetryAlwaysReady(d: Dir, u: Universe, control: Option<Control>, env: RunEnv)
    ensures AllReady(Run(d, u, control, MaxAttempts(0), env).launches)
  {
    var launches := Run(d, u, control, 1, env).launches;
    var prepared, planned := Prepared(d, u, control, env.archiveOk), PlannedResync(d, u, control);
    SingleAttempt(prepared, u, planned, env.attempts);
    var single := Attempts(prepared, u, planned, env.attempts, 1, 1).launches;
    assert launches == if env.preflightOk then single else [];
  }

  predicate PlannedOrResync(launches: seq<Launch>, dir: Dir, resync: bool) {
    forall i :: 0 <= i < |launches| ==> launches[i].resync || (launches[i].dir == dir && !resync)
  }

  lemma SingleAttempt(dir: Dir, u: Universe, resync: bool, script: seq<Attempt>)
    ensures PlannedOrResync(Attempts(dir, u, resync, script, 1, 1).launches, dir, resync)
  {
    if script != [] && script[0].preHookOk {
      var a := script[0];
      var launch := [Launch(dir, u, resync, true)];
      if a.first.Exited? && !Recovers(a.first) {
        assert Settle(a.first, launch, u, resync, script, 1, 1).launches == launch;
      }
      if Recovers(a.first) && a.second.Exited? {
        var again := launch + [Launch(map[], u, true, false)];
        assert Settle(a.second, again, u, true, script, 1, 1).launches == again;
      }
    }
  }

  function TimedOutMidWrite(d: Dir, stem: string): RunEnv {
    var after := d[stem + PATH1_NEW := Other];
    var r := Exited(after, 143, true, false, false);
    RunEnv(true, true, [Attempt(true, r, true, r, true), Attempt(true, r, true, r, true)], true, true)
  }

  /**
   With even one retry allowed, a timeout in the middle of a listing write is
   followed by a launch without `--resync` on a pair that is not ready.
   */
  lemma RetryMeetsUnreadyPair(d: Dir, u: Universe, maxRetries: int, stem: string)
    requires maxRetries >= 1
    requires Inv(d) && Ready(d.Keys) && FINGERPRINT in d && d[FINGERPRINT] == Recorded(Fingerprint(u))
    requires WellFormed(u) && Checked(u) && Paired(d.Keys, stem)
    ensures LegalEvent(d, RunEvent(u, None, MaxAttempts(maxRetries), TimedOutMidWrite(d, stem)))
    ensures !AllReady(Run(d, u, None, MaxAttempts(maxRetries), TimedOutMidWrite(d, stem)).launches)
  {
    MarkerIsNoListing();
    var env := TimedOutMidWrite(d, stem);
    var after := env.attempts[0].first.after;
    assert PATH1_NEW in [PATH1, PATH2, PATH1_NEW, PATH2_NEW, ERROR];
    assert !Marker(stem + PATH1_NEW);
    NewIsNoListing(stem);
    assert Paired(after.Keys, stem) && InFlight(after.Keys, stem);
    assert RcloneMayLeave(d, after, u) && RcloneMayLeave(after, after, u) by {
      forall s | Paired(after.Keys, s)
        ensures Paired(d.Keys, s) && after[s + PATH1] == d[s + PATH1] && after[s + PATH2] == d[s + PATH2]
      {
      }
    }
    assert env.attempts[1..][1..] == [] && env.attempts[1..][0] == env.attempts[1];
    assert LegalAttempts(after, u, env.attempts[1..]);
    var max := MaxAttempts(maxRetries);
    var launches := Run(d, u, None, max, env).launches;
    LoopLaunches(after, u, false, env.attempts[1..], 2, max);
    assert Attempts(d, u, false, env.attempts, 1, max) ==
           Settle(env.attempts[0].first, [Launch(d, u, false, true)], u, false, env.attempts, 1, max);
    assert launches == [Launch(d, u, false, true)] + Attempts(after, u, false, env.attempts[1..], 2, max).launches;
    assert launches[1] == Launch(after, u, false, false);
  }

  lemma NewIsNoListing(stem: string)
    ensures forall s :: s + PATH1 != stem + PATH1_NEW && s + PATH2 != stem + PATH1_NEW
  {
    forall s
      ensures s + PATH1 != stem + PATH1_NEW && s + PATH2 != stem + PATH1_NEW
    {
      assert (s + PATH1)[|s + PATH1| - 1] == 't' && (s + PATH2)[|s + PATH2| - 1] == 't';
      assert (stem + PATH1_NEW)[|stem + PATH1_NEW| - 1] == 'w';
    }
  }
}
