/**
 The seed job under concurrent requests. A request reads the row and is checked
 against what it read; its write lands later, after any number of other writes.
 */
module SeedProtocol {
  import opened Wrappers
  import opened SeedJob

  datatype Pending = Pending(read: Job, request: Request)

  datatype System = System(job: Job, pending: seq<Pending>)

  datatype Event =
    | Arrive(request: Request)
    | Land(index: nat, now: int)
    | Sweep(now: int)

  function Step(s: System, e: Event): System {
    match e
    case Arrive(r) =>
      if Check(s.job, r).Proceed? then s.(pending := s.pending + [Pending(s.job, r)]) else s
    case Land(i, now) =>
      if i < |s.pending|
      then System(Commit(s.job, s.pending[i].read, s.pending[i].request, now), s.pending[..i] + s.pending[i + 1..])
      else s
    case Sweep(now) => s.(job := Reap(s.job, now))
  }

  function Exec(s: System, events: seq<Event>): System
    decreases |events|
  {
    if events == [] then s else Exec(Step(s, events[0]), events[1..])
  }

  // -------------------------------------------------------------------------
  // What a row can become
  // -------------------------------------------------------------------------

  /** `new` may follow `old`: ends are final, phases never go back, a digest fixes the facts. */
  ghost predicate Follows(old_: Job, new_: Job) {
    && new_.target == old_.target && new_.source == old_.source
    && (IsTerminal(old_.phase) ==> new_ == old_)
    && (!IsTerminal(new_.phase) ==> !IsTerminal(old_.phase) && PhaseIndex(old_.phase) <= PhaseIndex(new_.phase))
    && (old_.facts.sha256.Some? ==> new_.facts == old_.facts)
  }

  /** One write moves at most one phase ahead. */
  ghost predicate NoSkip(old_: Job, new_: Job) {
    IsTerminal(new_.phase) || new_.phase == old_.phase
    || (!IsTerminal(old_.phase) && PhaseIndex(new_.phase) == PhaseIndex(old_.phase) + 1)
  }

  /** A live lease is only given up by its holder, or ended by an operator. */
  ghost predicate LeaseRespected(old_: Job, new_: Job, r: Request, now: int) {
    forall h :: LeaseIsLive(old_, h, now) ==>
                  || new_.leaseOwner == Some(h)
                  || (r.Archive? && r.caller == Device(h))
                  || (r.Complete? && r.caller in [Device(h), Operator])
                  || (r.Cancel? && r.caller.Operator?)
  }

  /** One step never skips a phase, takes a live lease from its holder, or sweeps a job whose lease is live. */
  ghost predicate StepRespects(s: System, e: Event) {
    && NoSkip(s.job, Step(s, e).job)
    && match e
       case Arrive(_) => Step(s, e).job == s.job
       case Land(i, now) => i < |s.pending| ==> LeaseRespected(s.job, Step(s, e).job, s.pending[i].request, now)
       case Sweep(now) => forall h :: LeaseIsLive(s.job, h, now) ==> Step(s, e).job == s.job
  }

  ghost predicate EveryStepRespects(s: System, events: seq<Event>)
    decreases |events|
  {
    events != [] ==> StepRespects(s, events[0]) && EveryStepRespects(Step(s, events[0]), events[1..])
  }

  ghost predicate Coherent(j: Job) {
    && (j.status.Ended? <==> IsTerminal(j.phase))
    && (j.leaseOwner.Some? <==> j.leaseExpiresAt.Some?)
    && (j.leaseOwner.Some? ==> j.status.Running?)
  }

  /** The operator leaves progress and success to the two parties (it may still fail or cancel). */
  predicate PartyLed(r: Request) {
    r.caller.Operator? ==> !r.Progress? && !(r.Complete? && r.outcome.Success?)
  }

  /** The target's half and a success have complete facts behind them; only its own half has its lease. */
  ghost predicate TargetGuarded(j: Job) {
    && (!IsTerminal(j.phase) && PhaseRole(j.phase) == Target ==> FactsComplete(j.facts))
    && (j.phase.Completed? ==> FactsComplete(j.facts))
    && (j.leaseOwner.Some? ==> RoleFor(j, j.leaseOwner.value).Some?)
    && (j.leaseOwner.Some? && RoleFor(j, j.leaseOwner.value) == Some(Target) ==>
          !IsTerminal(j.phase) && PhaseRole(j.phase) == Target)
  }

  ghost predicate Inv(s: System) {
    && Coherent(s.job)
    && forall i :: 0 <= i < |s.pending| ==>
                     Check(s.pending[i].read, s.pending[i].request).Proceed? && Follows(s.pending[i].read, s.job)
  }

  /** `Inv` for histories led by the two parties. */
  ghost predicate PartyInv(s: System) {
    && Inv(s) && TargetGuarded(s.job)
    && forall i :: 0 <= i < |s.pending| ==> PartyLed(s.pending[i].request)
  }

  lemma FollowsTransitive(a: Job, b: Job, c: Job)
    requires Follows(a, b) && Follows(b, c)
    ensures Follows(a, c)
  {
  }

  /** What any single write keeps, however stale the row its request was checked against. */
  lemma WriteKeeps(j: Job, read: Job, r: Request, now: int)
    requires Coherent(j) && Check(read, r).Proceed? && Follows(read, j)
    ensures var new_ := Commit(j, read, r, now);
            Coherent(new_) && Follows(j, new_) && NoSkip(j, new_) && LeaseRespected(j, new_, r, now)
  {
  }

  lemma ReapKeeps(j: Job, now: int)
    requires Coherent(j)
    ensures Coherent(Reap(j, now)) && Follows(j, Reap(j, now)) && NoSkip(j, Reap(j, now))
    ensures forall h :: LeaseIsLive(j, h, now) ==> Reap(j, now) == j
  {
  }

  lemma StepKeeps(s: System, e: Event)
    requires Inv(s)
    ensures Inv(Step(s, e)) && Follows(s.job, Step(s, e).job) && StepRespects(s, e)
  {
    match e {
      case Arrive(r) =>
      case Land(i, now) =>
        if i < |s.pending| {
          WriteKeeps(s.job, s.pending[i].read, s.pending[i].request, now);
          var new_ := Step(s, e);
          forall k | 0 <= k < |new_.pending|
            ensures Check(new_.pending[k].read, new_.pending[k].request).Proceed? && Follows(new_.pending[k].read, new_.job)
          {
            var from := if k < i then k else k + 1;
            assert new_.pending[k] == s.pending[from];
            FollowsTransitive(s.pending[from].read, s.job, new_.job);
          }
        }
      case Sweep(now) =>
        ReapKeeps(s.job, now);
        forall k | 0 <= k < |s.pending|
          ensures Follows(s.pending[k].read, Reap(s.job, now))
        {
          FollowsTransitive(s.pending[k].read, s.job, Reap(s.job, now));
        }
    }
  }

  /**
   Over every interleaving of requests, late writes and sweeps: ended jobs stay
   ended, phases neither go back nor are skipped, a live lease is only given up by
   its holder or ended by an operator, and a recorded digest freezes the facts.
   */
  lemma {:induction false} HistoryKeeps(s: System, events: seq<Event>)
    requires Inv(s)
    ensures Inv(Exec(s, events)) && Follows(s.job, Exec(s, events).job) && EveryStepRespects(s, events)
    decreases |events|
  {
    if events != [] {
      StepKeeps(s, events[0]);
      HistoryKeeps(Step(s, events[0]), events[1..]);
      FollowsTransitive(s.job, Step(s, events[0]).job, Exec(s, events).job);
    }
  }

  lemma PartyWriteKeeps(j: Job, read: Job, r: Request, now: int)
    requires Coherent(j) && TargetGuarded(j)
    requires Check(read, r).Proceed? && Follows(read, j) && PartyLed(r)
    ensures TargetGuarded(Commit(j, read, r, now))
  {
  }

  predicate PartyEvents(events: seq<Event>) {
    forall i :: 0 <= i < |events| && events[i].Arrive? ==> PartyLed(events[i].request)
  }

  lemma PartyStepKeeps(s: System, e: Event)
    requires PartyInv(s) && (e.Arrive? ==> PartyLed(e.request))
    ensures PartyInv(Step(s, e))
  {
    StepKeeps(s, e);
    if e.Land? && e.index < |s.pending| {
      PartyWriteKeeps(s.job, s.pending[e.index].read, s.pending[e.index].request, e.now);
    }
  }

  /** No target phase, no lease of the target and no success ever precedes complete facts. */
  lemma {:induction false} NoTargetBeforeFacts(s: System, events: seq<Event>)
    requires PartyInv(s) && PartyEvents(events)
    ensures PartyInv(Exec(s, events))
    decreases |events|
  {
    if events != [] {
      PartyStepKeeps(s, events[0]);
      forall i | 0 <= i < |events[1..]| && events[1..][i].Arrive?
        ensures PartyLed(events[1..][i].request)
      {
        assert events[1..][i] == events[i + 1];
      }
      NoTargetBeforeFacts(Step(s, events[0]), events[1..]);
    }
  }

  /**
   Why the operator is kept out of it: for every job that is uploading without a
   digest, an operator's report in the name of its holder, or of anybody while the
   lease is free, moves it into the target's half without facts.
   */
  lemma OperatorSkipsTheFacts(j: Job, owner: string, now: int)
    requires Coherent(j) && j.phase.UploadingArchive? && j.facts.sha256.None? && Claimable(j, owner, now)
    ensures var r := Progress(Operator, DownloadingArchive, Some(owner), None);
            var after := Commit(j, j, r, now);
            && !PartyLed(r) && Check(j, r).Proceed?
            && after.phase.DownloadingArchive? && !FactsComplete(after.facts) && !TargetGuarded(after)
  {
  }

  lemma CreatedIsGood(target: string, source: string, format: Format, now: int)
    ensures PartyInv(System(Created(target, source, format, now), []))
  {
  }
}
