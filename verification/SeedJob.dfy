/**
 One seed job: the phase, lease, role and archive-fact rules
 (packages/core/src/folder-seed.ts), the compare-and-set writers of the job row
 (packages/server/src/seed-jobs.ts) and the checks each device route makes
 before it writes (packages/server/src/routes/folder-seed.ts).
 */
module SeedJob {
  import opened Wrappers

  // -------------------------------------------------------------------------
  // Phases, roles, facts
  // -------------------------------------------------------------------------

  datatype Phase =
    | Preflight | MeasuringSource | ArchivingSource | UploadingArchive
    | DownloadingArchive | VerifyingArchive | ExtractingTarget | VerifyingTarget | Publishing | BaselineValidation
    | Completed | Failed | Cancelled

  predicate IsTerminal(p: Phase) {
    p.Completed? || p.Failed? || p.Cancelled?
  }

  type WorkPhase = p: Phase | !IsTerminal(p) witness Preflight

  function PhaseIndex(p: WorkPhase): nat {
    match p
    case Preflight => 0
    case MeasuringSource => 1
    case ArchivingSource => 2
    case UploadingArchive => 3
    case DownloadingArchive => 4
    case VerifyingArchive => 5
    case ExtractingTarget => 6
    case VerifyingTarget => 7
    case Publishing => 8
    case BaselineValidation => 9
  }

  predicate CanTransition(from: Phase, to: Phase) {
    if IsTerminal(from) then false
    else if IsTerminal(to) then true
    else from == to || PhaseIndex(to) == PhaseIndex(from) + 1
  }

  datatype Role = Source | Target

  function PhaseRole(p: WorkPhase): Role {
    if p.Preflight? || p.MeasuringSource? || p.ArchivingSource? || p.UploadingArchive? then Source else Target
  }

  datatype Format = TarZstd | TarGz

  /** The normalized archive block of a job; `uploadedAt` and `verifiedAt` are bookkeeping. */
  datatype Facts = Facts(
    format: Format, bytes: Option<nat>, sha256: Option<string>, objectKey: Option<string>, memberCount: Option<nat>,
    manifestFingerprint: Option<string>, manifestObjectKey: Option<string>, manifestBytes: Option<nat>, manifestSha256: Option<string>,
    uploadedAt: Option<int>, verifiedAt: Option<int>)

  function NoFacts(format: Format): Facts {
    Facts(format, None, None, None, None, None, None, None, None, None, None)
  }

  predicate FactsComplete(f: Facts) {
    && f.sha256.Some? && f.bytes.Some? && f.objectKey.Some? && f.memberCount.Some?
    && f.manifestFingerprint.Some? && f.manifestObjectKey.Some? && f.manifestBytes.Some? && f.manifestSha256.Some?
  }

  predicate FactsEqual(a: Facts, b: Facts) {
    && a.format == b.format && a.bytes == b.bytes && a.sha256 == b.sha256 && a.objectKey == b.objectKey
    && a.memberCount == b.memberCount && a.manifestFingerprint == b.manifestFingerprint
    && a.manifestObjectKey == b.manifestObjectKey && a.manifestBytes == b.manifestBytes && a.manifestSha256 == b.manifestSha256
  }

  // -------------------------------------------------------------------------
  // The job row and its writers
  // -------------------------------------------------------------------------

  datatype Status = Planned | Running | Ended

  /** `Ended` is the status that repeats the terminal phase. */
  datatype Job = Job(
    target: string, source: Option<string>, status: Status, phase: Phase,
    leaseOwner: Option<string>, leaseExpiresAt: Option<int>, facts: Facts, updatedAt: int)

  predicate LeaseIsLive(j: Job, owner: string, now: int) {
    j.leaseOwner == Some(owner) && j.leaseExpiresAt.Some? && j.leaseExpiresAt.value > now
  }

  function RoleFor(j: Job, host: string): Option<Role> {
    if host == "" then None
    else if host == j.target then Some(Target)
    else if j.source == Some(host) then Some(Source)
    else None
  }

  const LEASE_MS := 10 * 60_000
  const HANDOVER_GRACE_MS := 5 * 60_000

  function ClampLease(ms: Option<int>): (r: int)
    ensures 30_000 <= r <= 3_600_000
  {
    var wanted := if ms.Some? then ms.value else LEASE_MS;
    var atLeast := if wanted < 30_000 then 30_000 else wanted;
    if atLeast > 3_600_000 then 3_600_000 else atLeast
  }

  /** The shared predicate of the role-scoped writers: free, ours, or lapsed. */
  predicate Claimable(j: Job, owner: string, now: int) {
    j.leaseOwner.None? || j.leaseOwner == Some(owner) || (j.leaseExpiresAt.Some? && j.leaseExpiresAt.value <= now)
  }

  function ReportProgress(j: Job, next: WorkPhase, owner: string, expiresAt: int, now: int, fromPhase: Phase): Option<Job> {
    if j.phase == fromPhase && !j.status.Ended? && !IsTerminal(j.phase) && Claimable(j, owner, now)
    then Some(j.(phase := next, status := Running, leaseOwner := Some(owner), leaseExpiresAt := Some(expiresAt), updatedAt := now))
    else None
  }

  function ReportArchiveOnce(j: Job, facts: Facts, owner: string, now: int, fromPhase: Phase): Option<Job> {
    if j.phase == fromPhase && !j.status.Ended? && !IsTerminal(j.phase) && LeaseIsLive(j, owner, now) && j.facts.sha256.None?
    then Some(j.(facts := facts, leaseOwner := None, leaseExpiresAt := None, updatedAt := now))
    else None
  }

  function RenewLease(j: Job, owner: string, expiresAt: int, now: int, fromPhase: Phase): Option<Job> {
    if j.phase == fromPhase && j.status.Running? && !IsTerminal(j.phase) && LeaseIsLive(j, owner, now)
    then Some(j.(leaseExpiresAt := Some(expiresAt), updatedAt := now))
    else None
  }

  function Finished(j: Job, outcome: Phase, now: int): Job {
    j.(status := Ended, phase := outcome, leaseOwner := None, leaseExpiresAt := None, updatedAt := now)
  }

  function FinishOwnedBy(j: Job, owner: string, outcome: Phase, now: int, fromPhase: Phase): Option<Job> {
    if j.phase == fromPhase && j.status.Running? && !IsTerminal(j.phase) && LeaseIsLive(j, owner, now)
    then Some(Finished(j, outcome, now))
    else None
  }

  function FinishAsOperator(j: Job, outcome: Phase, now: int, fromPhase: Phase): Option<Job> {
    if j.phase == fromPhase && !j.status.Ended? && !IsTerminal(j.phase)
    then Some(Finished(j, outcome, now))
    else None
  }

  /** A running job is reaped when its lease lapsed, or when a handover was never taken up. */
  function Reap(j: Job, now: int): Job {
    if j.status.Running?
       && ((j.leaseExpiresAt.Some? && j.leaseExpiresAt.value <= now)
           || (j.leaseExpiresAt.None? && j.updatedAt <= now - HANDOVER_GRACE_MS))
    then Finished(j, Failed, now)
    else j
  }

  // -------------------------------------------------------------------------
  // The routes: a check on the row as it was read, then one guarded write
  // -------------------------------------------------------------------------

  datatype Caller = Operator | Device(host: string)

  datatype Outcome = Success | Failure | Cancellation

  datatype Request =
    | Progress(caller: Caller, next: WorkPhase, leaseOwner: Option<string>, leaseMs: Option<int>)
    | Archive(caller: Caller, pilotEligible: bool, reported: Facts)
    | Renew(caller: Caller, owner: Option<string>, leaseMs: Option<int>)
    | Complete(caller: Caller, outcome: Outcome)
    | Cancel(caller: Caller)

  /** Refused carries the HTTP status; Unchanged is the idempotent 200. */
  datatype Verdict = Proceed | Unchanged | Refused(code: int)

  predicate Stranger(j: Job, c: Caller) {
    c.Device? && RoleFor(j, c.host).None?
  }

  function CheckProgress(j: Job, r: Request): Verdict
    requires r.Progress?
  {
    if Stranger(j, r.caller) then Refused(403)
    else if IsTerminal(j.phase) then Refused(409)
    else if r.caller.Device? && PhaseRole(r.next) != RoleFor(j, r.caller.host).value then Refused(403)
    else if r.caller.Device? && RoleFor(j, r.caller.host) == Some(Source) && j.facts.sha256.Some? then Refused(409)
    else if r.caller.Device? && RoleFor(j, r.caller.host) == Some(Target) && !FactsComplete(j.facts) then Refused(409)
    else if !CanTransition(j.phase, r.next) then Refused(409)
    else Proceed
  }

  function CheckArchive(j: Job, r: Request): Verdict
    requires r.Archive?
  {
    if !r.pilotEligible then Refused(503)
    else if Stranger(j, r.caller) then Refused(403)
    else if r.caller.Operator? || RoleFor(j, r.caller.host) != Some(Source) then Refused(403)
    else if IsTerminal(j.phase) then Refused(409)
    else if !j.phase.UploadingArchive? then Refused(409)
    else Proceed
  }

  function CheckRenew(j: Job, r: Request): Verdict
    requires r.Renew?
  {
    if Stranger(j, r.caller) then Refused(403)
    else if r.caller.Device? && !IsTerminal(j.phase) && PhaseRole(j.phase) != RoleFor(j, r.caller.host).value then Refused(409)
    else Proceed
  }

  function CheckComplete(j: Job, r: Request): Verdict
    requires r.Complete?
  {
    if Stranger(j, r.caller) then Refused(403)
    else if IsTerminal(j.phase) then Unchanged
    else if r.caller.Device? && r.outcome.Success? && RoleFor(j, r.caller.host) != Some(Target) then Refused(403)
    else if r.caller.Device? && r.outcome.Cancellation? then Refused(403)
    else Proceed
  }

  function Check(j: Job, r: Request): Verdict {
    match r
    case Progress(_, _, _, _) => CheckProgress(j, r)
    case Archive(_, _, _) => CheckArchive(j, r)
    case Renew(_, _, _) => CheckRenew(j, r)
    case Complete(_, _) => CheckComplete(j, r)
    case Cancel(c) => if c.Device? then Refused(403) else if IsTerminal(j.phase) then Unchanged else Proceed
  }

  function OutcomePhase(o: Outcome): (p: Phase)
    ensures IsTerminal(p)
  {
    match o
    case Success => Completed
    case Failure => Failed
    case Cancellation => Cancelled
  }

  /** The write a request that was checked against `read` makes on the row `j`. */
  function Write(j: Job, read: Job, r: Request, now: int): Option<Job> {
    match r
    case Progress(c, next, leaseOwner, leaseMs) =>
      var owner := if c.Device? then c.host else if leaseOwner.Some? then leaseOwner.value else read.target;
      ReportProgress(j, next, owner, now + ClampLease(leaseMs), now, read.phase)
    case Archive(c, _, facts) =>
      if c.Device? then ReportArchiveOnce(j, facts, c.host, now, read.phase) else None
    case Renew(c, owner, leaseMs) =>
      var holder := if c.Device? then c.host
                    else if owner.Some? then owner.value
                    else if read.leaseOwner.Some? then read.leaseOwner.value else read.target;
      RenewLease(j, holder, now + ClampLease(leaseMs), now, read.phase)
    case Complete(c, outcome) =>
      if c.Device? then FinishOwnedBy(j, c.host, OutcomePhase(outcome), now, read.phase)
      else FinishAsOperator(j, OutcomePhase(outcome), now, read.phase)
    case Cancel(_) => FinishAsOperator(j, Cancelled, now, read.phase)
  }

  function Commit(j: Job, read: Job, r: Request, now: int): Job {
    var w := Write(j, read, r, now);
    if w.Some? then w.value else j
  }

  /** The row as `POST /seed-jobs` inserts it. */
  function Created(target: string, source: string, format: Format, now: int): Job {
    Job(target, Some(source), Planned, Preflight, None, None, NoFacts(format), now)
  }
}
