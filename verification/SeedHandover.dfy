/**
 The handover of a seed job from source to target: recording the archive facts
 frees the lease. One server process handles each request without a pause between
 its read and its write, so requests take effect one at a time. What the
 compare-and-set of the writers adds when a second process writes the same
 database is at the end.
 */
module SeedHandover {
  import opened Wrappers
  import opened SeedJob
  import opened SeedProtocol

  // -------------------------------------------------------------------------
  // Requests handled one at a time
  // -------------------------------------------------------------------------

  datatype Action = Handle(request: Request, now: int) | Reaper(now: int)

  function Act(j: Job, a: Action): Job {
    match a
    case Handle(r, now) => if Check(j, r).Proceed? then Commit(j, j, r, now) else j
    case Reaper(now) => Reap(j, now)
  }

  function ActAll(j: Job, actions: seq<Action>): Job
    decreases |actions|
  {
    if actions == [] then j else ActAll(Act(j, actions[0]), actions[1..])
  }

  /** A request whose write lands before anything else happens is one action. */
  lemma HandledAtOnce(j: Job, r: Request, now: int)
    ensures Exec(System(j, []), [Arrive(r), Land(0, now)]) == System(Act(j, Handle(r, now)), [])
  {
    var s := Step(System(j, []), Arrive(r));
    assert [Arrive(r), Land(0, now)][1..] == [Land(0, now)] && [Land(0, now)][1..] == [];
    assert Exec(System(j, []), [Arrive(r), Land(0, now)]) == Exec(s, [Land(0, now)]) == Exec(Step(s, Land(0, now)), []);
    if Check(j, r).Proceed? {
      assert s.pending == [Pending(j, r)];
    }
  }

  predicate PartyActions(actions: seq<Action>) {
    forall i :: 0 <= i < |actions| && actions[i].Handle? ==> PartyLed(actions[i].request)
  }

  /** Once a digest is recorded the source holds no lease. */
  ghost predicate HandedOver(j: Job) {
    && Coherent(j) && TargetGuarded(j)
    && (j.facts.sha256.Some? && j.leaseOwner.Some? ==> RoleFor(j, j.leaseOwner.value) == Some(Target))
  }

  lemma ActKeepsHandover(j: Job, a: Action)
    requires HandedOver(j) && (a.Handle? ==> PartyLed(a.request))
    ensures HandedOver(Act(j, a)) && Follows(j, Act(j, a))
  {
    match a {
      case Handle(r, now) =>
        if Check(j, r).Proceed? {
          WriteKeeps(j, j, r, now);
          PartyWriteKeeps(j, j, r, now);
        }
      case Reaper(now) => ReapKeeps(j, now);
    }
  }

  /** One at a time, the source never holds the lease again after its facts are recorded. */
  lemma {:induction false} SourceStaysOut(j: Job, actions: seq<Action>)
    requires HandedOver(j) && PartyActions(actions)
    ensures HandedOver(ActAll(j, actions)) && Follows(j, ActAll(j, actions))
    decreases |actions|
  {
    if actions != [] {
      ActKeepsHandover(j, actions[0]);
      forall i | 0 <= i < |actions[1..]| && actions[1..][i].Handle?
        ensures PartyLed(actions[1..][i].request)
      {
        assert actions[1..][i] == actions[i + 1];
      }
      SourceStaysOut(Act(j, actions[0]), actions[1..]);
    }
  }

  // -------------------------------------------------------------------------
  // The protocol followed through
  // -------------------------------------------------------------------------

  const SourcePhases: seq<WorkPhase> := [Preflight, MeasuringSource, ArchivingSource, UploadingArchive]
  const TargetPhases: seq<WorkPhase> :=
    [DownloadingArchive, VerifyingArchive, ExtractingTarget, VerifyingTarget, Publishing, BaselineValidation]

  /** A report of one phase, and the sweeps that run before the next thing happens. */
  datatype Leg = Leg(time: int, sweeps: seq<int>)

  function Sweeps(times: seq<int>): seq<Action> {
    if times == [] then [] else [Reaper(times[0])] + Sweeps(times[1..])
  }

  /** A device reports its phases one after the other. */
  function Reports(host: string, phases: seq<WorkPhase>, legs: seq<Leg>): seq<Action>
    requires |phases| == |legs|
  {
    if phases == [] then []
    else
      [Handle(Progress(Device(host), phases[0], None, None), legs[0].time)] + Sweeps(legs[0].sweeps)
      + Reports(host, phases[1..], legs[1..])
  }

  predicate AllBefore(times: seq<int>, end: int) {
    forall t :: t in times ==> t < end
  }

  /** No sweep finds the lease of the report before it lapsed. */
  predicate Timely(legs: seq<Leg>) {
    forall i :: 0 <= i < |legs| ==> AllBefore(legs[i].sweeps, legs[i].time + LEASE_MS)
  }

  lemma {:induction false} ActAllConcat(j: Job, a: seq<Action>, b: seq<Action>)
    ensures ActAll(j, a + b) == ActAll(ActAll(j, a), b)
    decreases |a|
  {
    if a == [] {
      assert a + b == b;
    } else {
      assert (a + b)[1..] == a[1..] + b && (a + b)[0] == a[0];
      ActAllConcat(Act(j, a[0]), a[1..], b);
    }
  }

  lemma {:induction false} SweepsPass(j: Job, times: seq<int>)
    requires forall t :: t in times ==> Reap(j, t) == j
    ensures ActAll(j, Sweeps(times)) == j
    decreases |times|
  {
    if times != [] {
      assert Sweeps(times)[1..] == Sweeps(times[1..]) && times[0] in times;
      SweepsPass(j, times[1..]);
    }
  }

  lemma SweepsWithinLease(j: Job, times: seq<int>)
    requires j.leaseExpiresAt.Some? && AllBefore(times, j.leaseExpiresAt.value)
    ensures ActAll(j, Sweeps(times)) == j
  {
    SweepsPass(j, times);
  }

  /** What a row is after its holder's report. */
  function Reported(j: Job, host: string, phase: WorkPhase, time: int): Job {
    j.(phase := phase, status := Running, leaseOwner := Some(host), leaseExpiresAt := Some(time + LEASE_MS), updatedAt := time)
  }

  /** The next phases of a party's own half, in order, are all accepted, and the party ends up with the lease. */
  lemma {:induction false} Advances(j: Job, host: string, phases: seq<WorkPhase>, legs: seq<Leg>)
    requires |phases| == |legs| && phases != [] && Timely(legs)
    requires RoleFor(j, host).Some? && !j.status.Ended? && Claimable(j, host, legs[0].time)
    requires RoleFor(j, host) == Some(Source) ==> j.facts.sha256.None?
    requires RoleFor(j, host) == Some(Target) ==> FactsComplete(j.facts)
    requires CanTransition(j.phase, phases[0])
    requires forall i :: 0 <= i < |phases| ==> Some(PhaseRole(phases[i])) == RoleFor(j, host)
    requires forall i :: 0 <= i < |phases| ==> PhaseIndex(phases[i]) == PhaseIndex(phases[0]) + i
    ensures ActAll(j, Reports(host, phases, legs)) == Reported(j, host, phases[|phases| - 1], legs[|legs| - 1].time)
    decreases |phases|
  {
    var next, rest := Reported(j, host, phases[0], legs[0].time), Reports(host, phases[1..], legs[1..]);
    OneLeg(j, host, phases[0], legs[0], rest);
    if |phases| > 1 {
      assert PhaseIndex(phases[1]) == PhaseIndex(phases[0]) + 1;
      assert Timely(legs[1..]);
      Advances(next, host, phases[1..], legs[1..]);
    } else {
      assert rest == [];
    }
  }

  lemma OneLeg(j: Job, host: string, phase: WorkPhase, leg: Leg, rest: seq<Action>)
    requires RoleFor(j, host) == Some(PhaseRole(phase)) && !j.status.Ended? && Claimable(j, host, leg.time)
    requires RoleFor(j, host) == Some(Source) ==> j.facts.sha256.None?
    requires RoleFor(j, host) == Some(Target) ==> FactsComplete(j.facts)
    requires CanTransition(j.phase, phase) && AllBefore(leg.sweeps, leg.time + LEASE_MS)
    ensures ActAll(j, [Handle(Progress(Device(host), phase, None, None), leg.time)] + Sweeps(leg.sweeps) + rest) ==
            ActAll(Reported(j, host, phase, leg.time), rest)
  {
    var report := Handle(Progress(Device(host), phase, None, None), leg.time);
    var next := Reported(j, host, phase, leg.time);
    assert Act(j, report) == next;
    assert [report] + Sweeps(leg.sweeps) + rest == [report] + (Sweeps(leg.sweeps) + rest);
    FirstAct(j, report, Sweeps(leg.sweeps) + rest);
    ActAllConcat(next, Sweeps(leg.sweeps), rest);
    SweepsWithinLease(next, leg.sweeps);
  }

  lemma FirstAct(j: Job, a: Action, rest: seq<Action>)
    ensures ActAll(j, [a] + rest) == ActAll(Act(j, a), rest)
  {
    assert ([a] + rest)[1..] == rest;
  }

  /** The source's phases, the record of its facts, and the sweeps until the target starts. */
  function SourceHalf(source: string, facts: Facts, legs: seq<Leg>, handover: Leg): seq<Action>
    requires |legs| == |SourcePhases|
  {
    Reports(source, SourcePhases, legs) + ([Handle(Archive(Device(source), true, facts), handover.time)] + Sweeps(handover.sweeps))
  }

  function TargetHalf(target: string, legs: seq<Leg>, done: int): seq<Action>
    requires |legs| == |TargetPhases|
  {
    Reports(target, TargetPhases, legs) + [Handle(Complete(Device(target), Success), done)]
  }

  lemma SourceFollows(j: Job, source: string, facts: Facts, legs: seq<Leg>, handover: Leg)
    requires RoleFor(j, source) == Some(Source) && j.status.Planned? && j.phase.Preflight?
    requires j.leaseOwner.None? && j.facts.sha256.None?
    requires |legs| == |SourcePhases| && Timely(legs) && handover.time < legs[3].time + LEASE_MS
    requires AllBefore(handover.sweeps, handover.time + HANDOVER_GRACE_MS)
    ensures ActAll(j, SourceHalf(source, facts, legs, handover)) ==
            j.(phase := UploadingArchive, status := Running, facts := facts, leaseOwner := None, leaseExpiresAt := None,
               updatedAt := handover.time)
  {
    var archive := Handle(Archive(Device(source), true, facts), handover.time);
    Advances(j, source, SourcePhases, legs);
    var uploading := Reported(j, source, UploadingArchive, legs[3].time);
    var handed := Act(uploading, archive);
    ActAllConcat(j, Reports(source, SourcePhases, legs), [archive] + Sweeps(handover.sweeps));
    FirstAct(uploading, archive, Sweeps(handover.sweeps));
    SweepsPass(handed, handover.sweeps);
  }

  lemma TargetFollows(j: Job, target: string, legs: seq<Leg>, done: int)
    requires RoleFor(j, target) == Some(Target) && j.status.Running? && j.phase.UploadingArchive?
    requires j.leaseOwner.None? && FactsComplete(j.facts)
    requires |legs| == |TargetPhases| && Timely(legs) && done < legs[5].time + LEASE_MS
    ensures var end := ActAll(j, TargetHalf(target, legs, done));
            end.phase.Completed? && end.status.Ended? && end.facts == j.facts && end.leaseOwner.None?
  {
    var complete := Handle(Complete(Device(target), Success), done);
    Advances(j, target, TargetPhases, legs);
    ActAllConcat(j, Reports(target, TargetPhases, legs), [complete]);
    FirstAct(Reported(j, target, BaselineValidation, legs[5].time), complete, []);
    assert [complete] + [] == [complete];
  }

  /**
   Followed through, the protocol succeeds: each party reports its phases in order,
   the source records complete facts within its last lease and the target completes
   within its own; sweeps run anywhere in between, as long as none finds a lease
   lapsed or the handover too old.
   */
  lemma FollowedThrough(target: string, source: string, facts: Facts, created: int, early: seq<int>,
                        legs: seq<Leg>, handover: Leg, legs': seq<Leg>, done: int)
    requires target != "" && source != "" && target != source && FactsComplete(facts)
    requires |legs| == |SourcePhases| && Timely(legs) && handover.time < legs[3].time + LEASE_MS
    requires AllBefore(handover.sweeps, handover.time + HANDOVER_GRACE_MS)
    requires |legs'| == |TargetPhases| && Timely(legs') && done < legs'[5].time + LEASE_MS
    ensures var j := Created(target, source, facts.format, created);
            var end := ActAll(j, Sweeps(early) + (SourceHalf(source, facts, legs, handover) + TargetHalf(target, legs', done)));
            end.phase.Completed? && end.status.Ended? && end.facts == facts && end.leaseOwner.None?
  {
    var j := Created(target, source, facts.format, created);
    var first, second := SourceHalf(source, facts, legs, handover), TargetHalf(target, legs', done);
    SweepsPass(j, early);
    ActAllConcat(j, Sweeps(early), first + second);
    SourceFollows(j, source, facts, legs, handover);
    ActAllConcat(j, first, second);
    TargetFollows(ActAll(j, first), target, legs', done);
  }

  // -------------------------------------------------------------------------
  // A second archive report
  // -------------------------------------------------------------------------

  /** The answer is 200: the write landed, or the row read back already says the same. */
  predicate ArchiveAccepted(j: Job, r: Request, now: int)
    requires r.Archive?
  {
    Write(j, j, r, now).Some? || FactsEqual(Commit(j, j, r, now).facts, r.reported)
  }

  /** A report of the source is accepted exactly when the row ends up with the facts it reports; recorded ones never change. */
  lemma AcceptedIsRecorded(j: Job, facts: Facts, now: int)
    requires j.source.Some? && Check(j, Archive(Device(j.source.value), true, facts)).Proceed?
    ensures var r := Archive(Device(j.source.value), true, facts);
            var after := Act(j, Handle(r, now));
            && (ArchiveAccepted(j, r, now) <==> FactsEqual(after.facts, facts))
            && (j.facts.sha256.Some? ==> after == j && (ArchiveAccepted(j, r, now) <==> FactsEqual(j.facts, facts)))
  {
  }

  // -------------------------------------------------------------------------
  // A report that was checked before the handover, by another process
  // -------------------------------------------------------------------------

  /** The source of `j` is uploading and holds a live lease; no digest is recorded. */
  predicate Uploading(j: Job, now: int) {
    && j.source.Some? && j.source.value != "" && j.source.value != j.target && j.target != ""
    && j.phase.UploadingArchive? && j.status.Running? && j.facts.sha256.None?
    && LeaseIsLive(j, j.source.value, now)
  }

  function Repeat(j: Job): Request
    requires j.source.Some?
  {
    Progress(Device(j.source.value), UploadingArchive, None, None)
  }

  /**
   A progress report of the source that one process checked before another one
   recorded the facts: whatever happened in between, it still lands exactly when the job
   has not left the phase it was read in and the target has not taken the lease.
   */
  lemma LateReportLands(read: Job, j: Job, now: int)
    requires Uploading(read, now) && Coherent(j) && Follows(read, j)
    ensures Check(read, Repeat(read)).Proceed?
    ensures Write(j, read, Repeat(read), now).Some? <==>
            j.phase.UploadingArchive? && Claimable(j, read.source.value, now)
  {
  }

  /**
   The limit of the compare-and-set on the phase, for writers that can come between
   a read and its write (a second server process on the same database; within one
   process no request can): the source takes the freed lease back after its own
   handover, and the target, whose start is allowed by every check, is refused
   until that lease lapses.
   */
  lemma ReclaimAfterHandover(j: Job, facts: Facts, now: int, later: int)
    requires Coherent(j) && Uploading(j, now) && FactsComplete(facts)
    requires later < now + LEASE_MS
    ensures var s := Exec(System(j, []),
                          [Arrive(Repeat(j)), Arrive(Archive(Device(j.source.value), true, facts)), Land(1, now), Land(0, now)]);
            var start := Progress(Device(j.target), DownloadingArchive, None, None);
            && s.job.facts == facts
            && LeaseIsLive(s.job, j.source.value, later)
            && Check(s.job, start).Proceed?
            && Write(s.job, s.job, start, later).None?
  {
    var report, archive := Repeat(j), Archive(Device(j.source.value), true, facts);
    var s0 := System(j, []);
    var s1 := Step(s0, Arrive(report));
    var s2 := Step(s1, Arrive(archive));
    assert s2.pending == [Pending(j, report), Pending(j, archive)];
    var s3 := Step(s2, Land(1, now));
    assert s3.pending == [Pending(j, report)];
    var s4 := Step(s3, Land(0, now));
    var events := [Arrive(report), Arrive(archive), Land(1, now), Land(0, now)];
    assert events[1..] == [Arrive(archive), Land(1, now), Land(0, now)];
    assert events[1..][1..] == [Land(1, now), Land(0, now)];
    assert events[1..][1..][1..] == [Land(0, now)];
    assert events[1..][1..][1..][1..] == [];
    assert Exec(s0, events) == Exec(s1, events[1..]) == Exec(s2, events[1..][1..]) == Exec(s3, [Land(0, now)]) == Exec(s4, []);
  }

  // -------------------------------------------------------------------------
  // A handover with incomplete facts
  // -------------------------------------------------------------------------

  /**
   Recording facts frees the lease whatever they hold. The target may then start
   exactly when they are complete, and the source may go on exactly when they
   carry no digest.
   */
  lemma HandoverOpensFor(j: Job, facts: Facts, now: int)
    requires Coherent(j) && Uploading(j, now)
    ensures var after := Commit(j, j, Archive(Device(j.source.value), true, facts), now);
            && after.facts == facts && after.leaseOwner.None?
            && (Check(after, Progress(Device(j.target), DownloadingArchive, None, None)).Proceed? <==> FactsComplete(facts))
            && (Check(after, Repeat(j)).Proceed? <==> facts.sha256.None?)
  {
  }

  /** A recorded digest with a missing companion fact, still in the source's half. */
  ghost predicate Stranded(j: Job) {
    && j.facts.sha256.Some? && !FactsComplete(j.facts)
    && (IsTerminal(j.phase) || PhaseRole(j.phase) == Source)
    && !j.phase.Completed?
  }

  lemma {:induction false} StrandedStays(j: Job, actions: seq<Action>)
    requires HandedOver(j) && Stranded(j) && j.leaseOwner.None? && PartyActions(actions)
    ensures var end := ActAll(j, actions);
            && Stranded(end) && end.leaseOwner.None? && end.facts == j.facts
            && (end.phase == j.phase || end.phase.Failed? || end.phase.Cancelled?)
    decreases |actions|
  {
    if actions != [] {
      var next := Act(j, actions[0]);
      ActKeepsHandover(j, actions[0]);
      forall i | 0 <= i < |actions[1..]| && actions[1..][i].Handle?
        ensures PartyLed(actions[1..][i].request)
      {
        assert actions[1..][i] == actions[i + 1];
      }
      StrandedStays(next, actions[1..]);
    }
  }
}
