/**
 One non-dry bisync run of a `sync` folder and histories of such runs
 (the sync path of `executeAssignment`, packages/daemon/src/executor.ts).
 rclone, the disk and the operator are an environment that answers anything
 the stated contracts allow.
 */
module BisyncRun {
  import opened Wrappers
  import opened BisyncBaseline

  // -------------------------------------------------------------------------
  // The pure decisions
  // -------------------------------------------------------------------------

  datatype Mode = Normal | Initialize | Seed | Resync
  datatype Side = Remote | Local
  datatype Control = Control(mode: Mode, authority: Option<Side>)
  datatype ResyncMode = Path1 | Path2
  datatype ResyncPlan = ResyncPlan(resync: bool, resyncMode: Option<ResyncMode>)

  function BisyncResyncPlan(baselineReady: bool, filterChanged: bool, control: Option<Control>): ResyncPlan {
    if control.Some? && control.value.mode != Normal then
      ResyncPlan(true, Some(if control.value.authority == Some(Local) then Path2 else Path1))
    else if !baselineReady then ResyncPlan(true, Some(Path1))
    else if filterChanged then ResyncPlan(true, Some(Path1))
    else ResyncPlan(false, None)
  }

  predicate ShouldAcknowledgeFilter(filterChanged: bool, runSucceeded: bool, baselineEstablished: bool) {
    filterChanged && runSucceeded && baselineEstablished
  }

  predicate ResyncRequested(control: Option<Control>) {
    control.Some? && control.value.mode != Normal
  }

  predicate FilterChanged(d: Dir, u: Universe) {
    Checked(u) && ReconcileFingerprint(ReadAcknowledged(d), Fingerprint(u), LegacyFingerprint(u)).changed
  }

  function MaxAttempts(maxRetries: int): nat {
    (if maxRetries < 0 then 0 else maxRetries) + 1
  }

  // -------------------------------------------------------------------------
  // What the environment answers
  // -------------------------------------------------------------------------

  /** One rclone process: the workdir it leaves and how it ended. */
  datatype Rclone =
    | Threw(after: Dir)
    | Exited(after: Dir, code: int, timedOut: bool, aborted: bool, corrupted: bool)

  /** One pass of the retry loop; `second` is only used by a corruption recovery. */
  datatype Attempt = Attempt(preHookOk: bool, first: Rclone, archiveOk: bool, second: Rclone, postHookOk: bool)

  /** A script shorter than the attempts made stands for a daemon that died there. */
  datatype RunEnv = RunEnv(archiveOk: bool, preflightOk: bool, attempts: seq<Attempt>, writeOk: bool, removeOk: bool)

  predicate Recovers(r: Rclone) {
    r.Exited? && !r.aborted && r.corrupted
  }

  predicate Succeeded(r: Rclone) {
    r.Exited? && (r.code == 0 || r.code == 9) && !r.timedOut && !r.aborted
  }

  /** Exit 5, exit 1 (for bisync) and timeouts are retried; an abort never is. */
  predicate Retryable(r: Rclone) {
    r.Exited? && !r.aborted && (r.code == 5 || r.code == 1 || r.timedOut)
  }

  // -------------------------------------------------------------------------
  // The run as a function of the workdir and the environment
  // -------------------------------------------------------------------------

  /** One invocation of rclone: the workdir it finds, its filters, and `--resync`. */
  datatype Launch = Launch(dir: Dir, universe: Universe, resync: bool, first: bool)

  /** `result` is None when the run reported failure before the post-run checks. */
  datatype LoopEnd = LoopEnd(dir: Dir, launches: seq<Launch>, result: Option<Rclone>)

  /** One attempt: `last` is None when it ended the run. */
  datatype Tried = Tried(dir: Dir, launches: seq<Launch>, last: Option<Rclone>, resync: bool)

  function Try(dir: Dir, u: Universe, resync: bool, a: Attempt, first: bool): (t: Tried)
    ensures t.last.Some? ==> t.last.value.Exited? && t.last.value.after == t.dir
  {
    var launch := [Launch(dir, u, resync, first)];
    if a.first.Threw? then Tried(a.first.after, launch, None, resync)
    else if !Recovers(a.first) then Tried(a.first.after, launch, Some(a.first), resync)
    else if !a.archiveOk then Tried(a.first.after, launch, None, resync)
    else Tried(a.second.after, launch + [Launch(map[], u, true, false)], if a.second.Threw? then None else Some(a.second), true)
  }

  function Attempts(dir: Dir, u: Universe, resync: bool, script: seq<Attempt>, attempt: nat, max: nat): LoopEnd
    decreases |script|, 1
  {
    if script == [] || !script[0].preHookOk then LoopEnd(dir, [], None)
    else
      var t := Try(dir, u, resync, script[0], attempt == 1);
      if t.last.None? then LoopEnd(t.dir, t.launches, None)
      else Settle(t.last.value, t.launches, u, t.resync, script, attempt, max)
  }

  /** What follows one finished rclone process inside the loop. */
  function Settle(r: Rclone, launches: seq<Launch>, u: Universe, resync: bool, script: seq<Attempt>, attempt: nat, max: nat): LoopEnd
    requires script != [] && r.Exited?
    decreases |script|, 0
  {
    if r.code == 0 && !script[0].postHookOk then LoopEnd(r.after, launches, None)
    else if Succeeded(r) || !Retryable(r) || attempt >= max then LoopEnd(r.after, launches, Some(r))
    else Prefixed(launches, Attempts(r.after, u, resync, script[1..], attempt + 1, max))
  }

  function Prefixed(launches: seq<Launch>, end: LoopEnd): LoopEnd {
    end.(launches := launches + end.launches)
  }

  lemma PrefixedTwice(a: seq<Launch>, b: seq<Launch>, end: LoopEnd)
    ensures Prefixed(a, Prefixed(b, end)) == Prefixed(a + b, end)
    ensures Prefixed([], end) == end && Prefixed(a, LoopEnd(end.dir, [], end.result)) == LoopEnd(end.dir, a, end.result)
  {
    assert a + (b + end.launches) == (a + b) + end.launches;
    assert [] + end.launches == end.launches && a + [] == a;
  }

  /** The run tries to move the old workdir aside. */
  ghost predicate Archives(d: Dir, u: Universe, control: Option<Control>) {
    (ResyncRequested(control) || !Ready(d.Keys) || FilterChanged(d, u)) && (Present(d.Keys) || HasError(d.Keys))
  }

  /** The workdir and the `--resync` flag the retry loop starts from. */
  ghost function Prepared(d: Dir, u: Universe, control: Option<Control>, archiveOk: bool): Dir {
    if Archives(d, u, control) && archiveOk then map[] else d
  }

  ghost function PlannedResync(d: Dir, u: Universe, control: Option<Control>): bool {
    BisyncResyncPlan(Ready(d.Keys), FilterChanged(d, u), control).resync
  }

  /** Acknowledge the universe, or leave a marker saying which one is outstanding. */
  ghost function Acknowledged(d: Dir, u: Universe, filterChanged: bool, r: Rclone, env: RunEnv): Dir {
    if ShouldAcknowledgeFilter(filterChanged, Succeeded(r), Ready(d.Keys)) then
      var written := if env.writeOk then d[FINGERPRINT := Recorded(Fingerprint(u))] else d;
      if env.removeOk then written - {RESYNC_REQUIRED} else written
    else if filterChanged && env.writeOk then d[RESYNC_REQUIRED := Recorded(Fingerprint(u))]
    else d
  }

  ghost function Run(d: Dir, u: Universe, control: Option<Control>, max: nat, env: RunEnv): LoopEnd {
    var prepared := Prepared(d, u, control, env.archiveOk);
    if !env.preflightOk then LoopEnd(prepared, [], None)
    else
      var end := Attempts(prepared, u, PlannedResync(d, u, control), env.attempts, 1, max);
      if end.result.None? then end
      else end.(dir := Acknowledged(end.dir, u, FilterChanged(d, u), end.result.value, env))
  }

  // -------------------------------------------------------------------------
  // The run as the executor performs it
  // -------------------------------------------------------------------------

  class Workdir {
    var files: Dir

    /** The entries of the directory; reading one back never fails here. */
    function Entries(): (r: Entries)
      reads this
      ensures r.Keys == files.Keys && Readable(r) == files.Keys
    {
      map n | n in files :: Some(0)
    }

    method Inspect() returns (r: Inspection)
      ensures r.present == Present(files.Keys) && r.error == HasError(files.Keys) && r.ready == Ready(files.Keys)
    {
      r := InspectBisyncBaseline(Entries());
      if s :| Paired(files.Keys, s) {
        assert s in r.stems;
      }
      if r.present {
        var s :| s in r.stems;
        assert Paired(files.Keys, s);
      }
    }

    method RunSync(u: Universe, control: Option<Control>, maxRetries: int, env: RunEnv) returns (launches: seq<Launch>, result: Option<Rclone>)
      modifies this
      ensures LoopEnd(files, launches, result) == Run(old(files), u, control, MaxAttempts(maxRetries), env)
    {
      var inspection := Inspect();
      var filterResync := FilterChanged(files, u);
      if (ResyncRequested(control) || !inspection.ready || filterResync) && (inspection.present || inspection.error) {
        if env.archiveOk { files := map[]; }
      }
      var resync := BisyncResyncPlan(inspection.ready, filterResync, control).resync;
      launches, result := [], None;
      if !env.preflightOk { return; }

      var max := MaxAttempts(maxRetries);
      launches, result := RetryLoop(u, resync, env.attempts, max);
      if result.None? { return; }

      var after := Inspect();
      if ShouldAcknowledgeFilter(filterResync, Succeeded(result.value), after.ready) {
        if env.writeOk { files := files[FINGERPRINT := Recorded(Fingerprint(u))]; }
        if env.removeOk { files := files - {RESYNC_REQUIRED}; }
      } else if filterResync && env.writeOk {
        files := files[RESYNC_REQUIRED := Recorded(Fingerprint(u))];
      }
    }

    /** `--resync` is pushed onto the command by a recovery and stays there. */
    method RetryLoop(u: Universe, planned: bool, attempts: seq<Attempt>, max: nat) returns (launches: seq<Launch>, result: Option<Rclone>)
      modifies this
      ensures LoopEnd(files, launches, result) == Attempts(old(files), u, planned, attempts, 1, max)
    {
      var resync, attempt, script := planned, 1, attempts;
      launches, result := [], None;
      ghost var all := Attempts(files, u, planned, attempts, 1, max);
      PrefixedTwice([], [], all);
      while true
        invariant attempt >= 1
        invariant all == Prefixed(launches, Attempts(files, u, resync, script, attempt, max))
        decreases |script|
      {
        ghost var before, earlier := files, launches;
        if script == [] || !script[0].preHookOk {
          PrefixedTwice(earlier, [], LoopEnd(files, [], None));
          return;
        }
        var mine, last, pushed := TryOnce(u, resync, script[0], attempt == 1);
        assert Tried(files, mine, last, pushed) == Try(before, u, resync, script[0], attempt == 1);
        launches, resync := launches + mine, pushed;
        if last.None? { return; }
        var r := last.value;
        assert all == Prefixed(earlier, Settle(r, mine, u, resync, script, attempt, max));
        if r.code == 0 && !script[0].postHookOk { return; }
        if Succeeded(r) || !Retryable(r) || attempt >= max {
          result := last;
          return;
        }
        attempt, script := attempt + 1, script[1..];
        PrefixedTwice(earlier, mine, Attempts(files, u, resync, script, attempt, max));
      }
    }

    /** One pass of the loop up to the verdict, with the recovery of a corrupted baseline inside it. */
    method TryOnce(u: Universe, resync: bool, a: Attempt, first: bool) returns (launches: seq<Launch>, last: Option<Rclone>, pushed: bool)
      modifies this
      ensures Tried(files, launches, last, pushed) == Try(old(files), u, resync, a, first)
    {
      launches, last, pushed := [Launch(files, u, resync, first)], None, resync;
      files := a.first.after;
      if a.first.Threw? { return; }
      var r := a.first;
      if Recovers(r) {
        if !a.archiveOk { return; }
        files := map[];
        pushed := true;
        launches := launches + [Launch(files, u, pushed, false)];
        r := a.second;
        files := r.after;
        if r.Threw? { return; }
      }
      last := Some(r);
    }
  }
}
