/**
 What every history of bisync runs keeps: rclone is never started without
 `--resync` on listings that were built under other filters.
 */
module BisyncSafety {
  import opened Wrappers
  import opened BisyncBaseline
  import opened BisyncRun

  // -------------------------------------------------------------------------
  // The claim
  // -------------------------------------------------------------------------

  ghost predicate BuiltUnder(d: Dir, name: string, text: string) {
    name in d && d[name].Listing? && FilterText(d[name].built) == text
  }

  /** Every listing of every pair was built under the filters of this launch. */
  ghost predicate SameFilters(l: Launch) {
    forall s :: Paired(l.dir.Keys, s) ==>
                  BuiltUnder(l.dir, s + PATH1, FilterText(l.universe)) && BuiltUnder(l.dir, s + PATH2, FilterText(l.universe))
  }

  ghost predicate SafeLaunch(l: Launch) {
    !l.resync ==> SameFilters(l) && (l.first ==> Ready(l.dir.Keys))
  }

  ghost predicate AllSafe(launches: seq<Launch>) {
    forall i :: 0 <= i < |launches| ==> SafeLaunch(launches[i])
  }

  // -------------------------------------------------------------------------
  // The contracts of the environment
  // -------------------------------------------------------------------------

  /** A fingerprint is never left behind without a pair or an error marker. */
  ghost predicate Evidenced(d: Dir) {
    FINGERPRINT in d ==> Present(d.Keys) || HasError(d.Keys)
  }

  ghost predicate SameMarkers(before: Dir, after: Dir) {
    forall m :: m in [FINGERPRINT, LEGACY, RESYNC_REQUIRED] ==>
                  (m in after <==> m in before) && (m in after ==> after[m] == before[m])
  }

  /** Half a pair is either written in this run or was already half of that pair. */
  ghost predicate HalfFrom(before: Dir, after: Dir, stem: string, suffix: string, u: Universe) {
    stem + suffix in after &&
    (after[stem + suffix] == Listing(u)
     || (Paired(before.Keys, stem) && stem + suffix in before && after[stem + suffix] == before[stem + suffix]))
  }

  ghost predicate PairsFrom(before: Dir, after: Dir, u: Universe) {
    forall s :: Paired(after.Keys, s) ==> HalfFrom(before, after, s, PATH1, u) && HalfFrom(before, after, s, PATH2, u)
  }

  /** rclone, started on `before` with the filters of `u`, may leave `after`. */
  ghost predicate RcloneMayLeave(before: Dir, after: Dir, u: Universe) {
    SameMarkers(before, after) && PairsFrom(before, after, u) && Evidenced(after)
  }

  ghost predicate LegalAttempts(dir: Dir, u: Universe, script: seq<Attempt>)
    decreases |script|
  {
    script != [] ==>
      var a := script[0];
      && RcloneMayLeave(dir, a.first.after, u)
      && (Recovers(a.first) ==> RcloneMayLeave(map[], a.second.after, u))
      && LegalAttempts(if Recovers(a.first) then a.second.after else a.first.after, u, script[1..])
  }

  /** Between runs files may be lost, but nothing is written. */
  ghost predicate OnlyLoses(before: Dir, after: Dir) {
    after.Keys <= before.Keys && (forall n :: n in after ==> after[n] == before[n]) && Evidenced(after)
  }

  datatype Event =
    | RunEvent(universe: Universe, control: Option<Control>, max: nat, env: RunEnv)
    | LossEvent(after: Dir)

  /** An archive that is tried for changed filters, or without filters to compare, works. */
  ghost predicate LegalEvent(d: Dir, e: Event) {
    match e
    case RunEvent(u, control, _, env) =>
      && WellFormed(u)
      && (Archives(d, u, control) && (FilterChanged(d, u) || !Checked(u)) ==> env.archiveOk)
      && LegalAttempts(Prepared(d, u, control, env.archiveOk), u, env.attempts)
    case LossEvent(after) => OnlyLoses(d, after)
  }

  ghost function Step(d: Dir, e: Event): LoopEnd {
    match e
    case RunEvent(u, control, max, env) => Run(d, u, control, max, env)
    case LossEvent(after) => LoopEnd(after, [], None)
  }

  ghost predicate LegalHistory(d: Dir, events: seq<Event>)
    decreases |events|
  {
    events != [] ==> LegalEvent(d, events[0]) && LegalHistory(Step(d, events[0]).dir, events[1..])
  }

  /** All rclone launches of a history, and the workdir it ends in. */
  ghost function History(d: Dir, events: seq<Event>): LoopEnd
    decreases |events|
  {
    if events == [] then LoopEnd(d, [], None)
    else
      var step := Step(d, events[0]);
      var rest := History(step.dir, events[1..]);
      LoopEnd(rest.dir, step.launches + rest.launches, None)
  }

  // -------------------------------------------------------------------------
  // Runs without filters
  // -------------------------------------------------------------------------

  predicate Automatic(control: Option<Control>) {
    !ResyncRequested(control)
  }

  /** A run that gets as far as starting rclone. */
  predicate Starts(env: RunEnv) {
    env.preflightOk && env.attempts != [] && env.attempts[0].preHookOk
  }

  /** The filters of the last run that started rclone. */
  function NextLast(last: Option<Universe>, e: Event): Option<Universe> {
    if e.RunEvent? && Starts(e.env) then Some(e.universe) else last
  }

  /** What can be told before a run: the last run filtered nothing, or that is what was acknowledged. */
  predicate KnownEmpty(d: Dir, last: Option<Universe>) {
    || (last.Some? && FilterText(last.value) == "")
    || (FINGERPRINT in d && d[FINGERPRINT] == Recorded(Sha256(['\0'])))
  }

  /** A run without filters compares nothing and starts rclone on the pair it finds. */
  ghost predicate Reuses(d: Dir, e: Event) {
    e.RunEvent? && !Checked(e.universe) && Ready(d.Keys) && Automatic(e.control) && Starts(e.env)
  }

  /** Every run that reuses a pair without filters follows one that filtered nothing either. */
  ghost predicate EmptyFollowsEmpty(d: Dir, last: Option<Universe>, events: seq<Event>)
    decreases |events|
  {
    events != [] ==>
      && (Reuses(d, events[0]) ==> KnownEmpty(d, last))
      && EmptyFollowsEmpty(Step(d, events[0]).dir, NextLast(last, events[0]), events[1..])
  }

  // -------------------------------------------------------------------------
  // The invariant
  // -------------------------------------------------------------------------

  ghost predicate HalfMatches(d: Dir, name: string, f: Digest) {
    name in d && d[name].Listing? && WellFormed(d[name].built) && Fingerprint(d[name].built) == f
  }

  ghost predicate PairsMatch(d: Dir, f: Digest) {
    forall s :: Paired(d.Keys, s) ==> HalfMatches(d, s + PATH1, f) && HalfMatches(d, s + PATH2, f)
  }

  /** The recorded fingerprint is the one every pair was built under; no legacy hash. */
  ghost predicate Inv(d: Dir) {
    && LEGACY !in d
    && Evidenced(d)
    && (FINGERPRINT in d ==> d[FINGERPRINT].Recorded? && '\0' in d[FINGERPRINT].digest.preimage && PairsMatch(d, d[FINGERPRINT].digest))
  }

  /** Inside a run: the pairs already carry the filters of the run. */
  ghost predicate RunInv(d: Dir, u: Universe) {
    && LEGACY !in d
    && Evidenced(d)
    && (FINGERPRINT in d ==> d[FINGERPRINT] == Recorded(Fingerprint(u)))
    && PairsMatch(d, Fingerprint(u))
  }

  /** The invariant, and the filters of the pairs where a run is known to have started on them. */
  ghost predicate Known(d: Dir, last: Option<Universe>) {
    Inv(d) && (last.Some? ==> WellFormed(last.value) && RunInv(d, last.value))
  }

  /** With no legacy hash, "unchanged" means the recorded fingerprint is this one. */
  lemma UnchangedMeansRecorded(d: Dir, u: Universe)
    requires Inv(d) && WellFormed(u) && Checked(u) && !FilterChanged(d, u)
    ensures FINGERPRINT in d && d[FINGERPRINT] == Recorded(Fingerprint(u))
  {
    JoinAvoids(RulesOf(u), '\n', '\0');
  }

  lemma UncheckedFingerprint(u: Universe)
    requires !Checked(u)
    ensures Fingerprint(u) == Sha256(['\0']) && FilterText(u) == ""
  {
    assert "" + ['\0'] + "" == ['\0'];
  }

  lemma PreparedKeeps(d: Dir, last: Option<Universe>, u: Universe, control: Option<Control>, archiveOk: bool)
    requires Known(d, last) && WellFormed(u)
    requires Archives(d, u, control) && (FilterChanged(d, u) || !Checked(u)) ==> archiveOk
    requires !Checked(u) && Ready(d.Keys) && Automatic(control) ==> KnownEmpty(d, last)
    ensures RunInv(Prepared(d, u, control, archiveOk), u)
  {
    if Checked(u) {
      if !FilterChanged(d, u) {
        UnchangedMeansRecorded(d, u);
      }
    } else {
      UncheckedFingerprint(u);
      if last.Some? {
        EmptyFilterFingerprint(last.value);
      }
    }
  }

  /** A run that never starts rclone leaves the pairs as they were, or none. */
  lemma UnstartedKeeps(d: Dir, last: Option<Universe>, u: Universe, control: Option<Control>, max: nat, env: RunEnv)
    requires Known(d, last) && !Starts(env)
    ensures var end := Run(d, u, control, max, env); Known(end.dir, last) && end.launches == []
  {
  }

  lemma RcloneKeeps(before: Dir, after: Dir, u: Universe)
    requires WellFormed(u) && RunInv(before, u) && RcloneMayLeave(before, after, u)
    ensures RunInv(after, u)
  {
    assert FINGERPRINT in [FINGERPRINT, LEGACY, RESYNC_REQUIRED] && LEGACY in [FINGERPRINT, LEGACY, RESYNC_REQUIRED];
    forall s | Paired(after.Keys, s)
      ensures HalfMatches(after, s + PATH1, Fingerprint(u)) && HalfMatches(after, s + PATH2, Fingerprint(u))
    {
      assert HalfFrom(before, after, s, PATH1, u) && HalfFrom(before, after, s, PATH2, u);
    }
  }

  lemma EmptyKeeps(u: Universe)
    ensures RunInv(map[], u)
  {
  }

  lemma MatchingIsSame(d: Dir, u: Universe, resync: bool, first: bool)
    requires WellFormed(u) && PairsMatch(d, Fingerprint(u))
    ensures SameFilters(Launch(d, u, resync, first))
  {
    forall s | Paired(d.Keys, s)
      ensures BuiltUnder(d, s + PATH1, FilterText(u)) && BuiltUnder(d, s + PATH2, FilterText(u))
    {
      assert HalfMatches(d, s + PATH1, Fingerprint(u)) && HalfMatches(d, s + PATH2, Fingerprint(u));
      FingerprintFixesFilter(d[s + PATH1].built, u);
      FingerprintFixesFilter(d[s + PATH2].built, u);
    }
  }

  lemma {:induction false} AttemptsSafe(dir: Dir, u: Universe, resync: bool, script: seq<Attempt>, attempt: nat, max: nat)
    requires WellFormed(u) && RunInv(dir, u) && LegalAttempts(dir, u, script)
    requires attempt >= 1 && (attempt == 1 && !resync ==> Ready(dir.Keys))
    ensures var end := Attempts(dir, u, resync, script, attempt, max);
            RunInv(end.dir, u) && AllSafe(end.launches)
    decreases |script|, 1
  {
    MatchingIsSame(dir, u, resync, attempt == 1);
    if script != [] && script[0].preHookOk {
      var a := script[0];
      var launch := [Launch(dir, u, resync, attempt == 1)];
      RcloneKeeps(dir, a.first.after, u);
      if a.first.Exited? && Recovers(a.first) {
        EmptyKeeps(u);
        RcloneKeeps(map[], a.second.after, u);
        if a.archiveOk && a.second.Exited? {
          SettleSafe(a.second, launch + [Launch(map[], u, true, false)], u, true, script, attempt, max);
        }
      } else if a.first.Exited? {
        SettleSafe(a.first, launch, u, resync, script, attempt, max);
      }
    }
  }

  lemma {:induction false} SettleSafe(r: Rclone, launches: seq<Launch>, u: Universe, resync: bool, script: seq<Attempt>, attempt: nat, max: nat)
    requires script != [] && r.Exited? && attempt >= 1
    requires WellFormed(u) && AllSafe(launches) && RunInv(r.after, u) && LegalAttempts(r.after, u, script[1..])
    ensures var end := Settle(r, launches, u, resync, script, attempt, max);
            RunInv(end.dir, u) && AllSafe(end.launches)
    decreases |script|, 0
  {
    AttemptsSafe(r.after, u, resync, script[1..], attempt + 1, max);
  }

  predicate Marker(name: string) {
    name in [FINGERPRINT, LEGACY, RESYNC_REQUIRED]
  }

  lemma MarkerIsNoListing()
    ensures forall stem, h :: h in [PATH1, PATH2, PATH1_NEW, PATH2_NEW, ERROR] ==> !Marker(stem + h)
  {
    assert FINGERPRINT[|FINGERPRINT| - 3] == 'i' && LEGACY[|LEGACY| - 3] == 'a' && RESYNC_REQUIRED[|RESYNC_REQUIRED| - 3] == 'r';
    forall stem, h | h in [PATH1, PATH2, PATH1_NEW, PATH2_NEW, ERROR]
      ensures !Marker(stem + h)
    {
      assert (stem + h)[|stem + h| - 1] == h[|h| - 1] && (stem + h)[|stem + h| - 2] == h[|h| - 2] && (stem + h)[|stem + h| - 3] == h[|h| - 3];
    }
  }

  /** Workdirs that agree outside the marker files have the same listings. */
  lemma SameListings(d: Dir, e: Dir)
    requires forall n :: !Marker(n) ==> (n in d <==> n in e) && (n in d ==> d[n] == e[n])
    ensures forall s :: Paired(d.Keys, s) <==> Paired(e.Keys, s)
    ensures forall s :: InFlight(d.Keys, s) <==> InFlight(e.Keys, s)
    ensures forall s :: s + PATH1 in d ==> s + PATH1 in e && d[s + PATH1] == e[s + PATH1]
    ensures forall s :: s + PATH2 in d ==> s + PATH2 in e && d[s + PATH2] == e[s + PATH2]
    ensures HasError(d.Keys) <==> HasError(e.Keys)
    ensures Present(d.Keys) <==> Present(e.Keys)
    ensures Ready(d.Keys) <==> Ready(e.Keys)
  {
    MarkerIsNoListing();
    forall s, h | h in [PATH1, PATH2, PATH1_NEW, PATH2_NEW, ERROR]
      ensures s + h in d <==> s + h in e
      ensures s + h in d ==> d[s + h] == e[s + h]
    {
      assert !Marker(s + h);
    }
    assert PATH1 in [PATH1, PATH2, PATH1_NEW, PATH2_NEW, ERROR] && PATH2 in [PATH1, PATH2, PATH1_NEW, PATH2_NEW, ERROR];
    assert PATH1_NEW in [PATH1, PATH2, PATH1_NEW, PATH2_NEW, ERROR] && PATH2_NEW in [PATH1, PATH2, PATH1_NEW, PATH2_NEW, ERROR];
    assert ERROR in [PATH1, PATH2, PATH1_NEW, PATH2_NEW, ERROR];
    if s :| s + ERROR in d.Keys { assert s + ERROR in e.Keys; }
    if s :| s + ERROR in e.Keys { assert s + ERROR in d.Keys; }
    if s :| Paired(d.Keys, s) { assert Paired(e.Keys, s); }
    if s :| Paired(e.Keys, s) { assert Paired(d.Keys, s); }
  }

  lemma MarkersApart()
    ensures FINGERPRINT != LEGACY && FINGERPRINT != RESYNC_REQUIRED && LEGACY != RESYNC_REQUIRED
    ensures Marker(FINGERPRINT) && Marker(LEGACY) && Marker(RESYNC_REQUIRED)
  {
    assert |FINGERPRINT| != |LEGACY| && |FINGERPRINT| != |RESYNC_REQUIRED| && |LEGACY| != |RESYNC_REQUIRED|;
  }

  lemma AcknowledgedKeeps(d: Dir, u: Universe, filterChanged: bool, r: Rclone, env: RunEnv)
    requires WellFormed(u) && RunInv(d, u)
    ensures RunInv(Acknowledged(d, u, filterChanged, r, env), u)
  {
    MarkersApart();
    var e := Acknowledged(d, u, filterChanged, r, env);
    SameListings(d, e);
    forall s | Paired(e.Keys, s)
      ensures HalfMatches(e, s + PATH1, Fingerprint(u)) && HalfMatches(e, s + PATH2, Fingerprint(u))
    {
      assert HalfMatches(d, s + PATH1, Fingerprint(u)) && HalfMatches(d, s + PATH2, Fingerprint(u));
    }
  }

  lemma RunInvIsInv(d: Dir, u: Universe)
    requires RunInv(d, u)
    ensures Inv(d)
  {
  }

  lemma RunSafe(d: Dir, last: Option<Universe>, u: Universe, control: Option<Control>, max: nat, env: RunEnv)
    requires var e := RunEvent(u, control, max, env);
             Known(d, last) && LegalEvent(d, e) && (Reuses(d, e) ==> KnownEmpty(d, last))
    ensures var end := Run(d, u, control, max, env);
            Known(end.dir, NextLast(last, RunEvent(u, control, max, env))) && AllSafe(end.launches)
  {
    if Starts(env) {
      var prepared, resync := Prepared(d, u, control, env.archiveOk), PlannedResync(d, u, control);
      PreparedKeeps(d, last, u, control, env.archiveOk);
      AttemptsSafe(prepared, u, resync, env.attempts, 1, max);
      var end := Attempts(prepared, u, resync, env.attempts, 1, max);
      RunInvIsInv(end.dir, u);
      if end.result.Some? {
        AcknowledgedKeeps(end.dir, u, FilterChanged(d, u), end.result.value, env);
        RunInvIsInv(Acknowledged(end.dir, u, FilterChanged(d, u), end.result.value, env), u);
      }
    } else {
      UnstartedKeeps(d, last, u, control, max, env);
    }
  }

  lemma LossKeeps(d: Dir, last: Option<Universe>, after: Dir)
    requires Known(d, last) && OnlyLoses(d, after)
    ensures Known(after, last)
  {
    if FINGERPRINT in after {
      PairsLeft(d, after, d[FINGERPRINT].digest);
    }
    if last.Some? {
      PairsLeft(d, after, Fingerprint(last.value));
    }
  }

  lemma PairsLeft(d: Dir, after: Dir, f: Digest)
    requires PairsMatch(d, f) && OnlyLoses(d, after)
    ensures PairsMatch(after, f)
  {
    forall s | Paired(after.Keys, s)
      ensures HalfMatches(after, s + PATH1, f) && HalfMatches(after, s + PATH2, f)
    {
      assert Paired(d.Keys, s);
      assert HalfMatches(d, s + PATH1, f) && HalfMatches(d, s + PATH2, f);
    }
  }

  /**
   Over every history of runs, interventions, failures, timeouts, corruption
   recoveries, crashes and lost files: no launch without `--resync` meets a
   pair built under other filters, and the first one of a run meets a ready pair.
   */
  lemma {:induction false} HistorySafe(d: Dir, last: Option<Universe>, events: seq<Event>)
    requires Known(d, last) && LegalHistory(d, events) && EmptyFollowsEmpty(d, last, events)
    ensures AllSafe(History(d, events).launches)
    ensures Inv(History(d, events).dir)
    decreases |events|
  {
    if events != [] {
      match events[0] {
        case RunEvent(u, control, max, env) => RunSafe(d, last, u, control, max, env);
        case LossEvent(after) => LossKeeps(d, last, after);
      }
      HistorySafe(Step(d, events[0]).dir, NextLast(last, events[0]), events[1..]);
    }
  }

  /** A new workdir satisfies the invariant, whatever ran before. */
  lemma FreshWorkdir(last: Option<Universe>)
    requires last.Some? ==> WellFormed(last.value)
    ensures Known(map[], last)
  {
  }

  /** While every universe has filters to compare, nothing has to be known about the run before. */
  lemma {:induction false} CheckedFollows(d: Dir, last: Option<Universe>, events: seq<Event>)
    requires forall i :: 0 <= i < |events| && events[i].RunEvent? ==> Checked(events[i].universe)
    ensures EmptyFollowsEmpty(d, last, events)
    decreases |events|
  {
    if events != [] {
      assert forall i :: 0 <= i < |events[1..]| ==> events[1..][i] == events[i + 1];
      CheckedFollows(Step(d, events[0]).dir, NextLast(last, events[0]), events[1..]);
    }
  }
}
