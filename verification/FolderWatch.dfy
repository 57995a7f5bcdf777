/**
 The debounce controller of one watched folder
 (`WatchController`, packages/daemon/src/folder-watch.ts) over timed events.
 */
module FolderWatch {
  import opened Wrappers

  const QUIET_SEC_DEFAULT := 30
  const QUIET_SEC_MIN := 10
  const QUIET_SEC_MAX := 300

  /** The configured quiet period in seconds, clamped to the supported range. */
  function ResolveQuietSec(value: Option<int>): (sec: int)
    ensures QUIET_SEC_MIN <= sec <= QUIET_SEC_MAX
  {
    if value.None? || value.value <= 0 then QUIET_SEC_DEFAULT
    else if value.value < QUIET_SEC_MIN then QUIET_SEC_MIN
    else if value.value > QUIET_SEC_MAX then QUIET_SEC_MAX
    else value.value
  }

  datatype Phase = Idle | Debouncing | Running

  /** `timer` is the instant the pending timer is due; `inFlight` counts runs not yet settled. */
  datatype State = State(phase: Phase, timer: Option<int>, dirtyDuringRun: bool, closed: bool, inFlight: nat)

  const Initial := State(Idle, None, false, false, 0)

  function ScheduleRun(s: State, quiet: int, now: int): State {
    s.(phase := Debouncing, timer := Some(now + quiet))
  }

  function MarkDirty(s: State, quiet: int, now: int): State {
    if s.closed then s
    else if s.phase.Running? then s.(dirtyDuringRun := true)
    else ScheduleRun(s, quiet, now)
  }

  /** Up to the await of the run. */
  function Fire(s: State): State {
    if s.closed then s
    else if !s.phase.Debouncing? then s.(timer := None)
    else s.(timer := None, phase := Running, dirtyDuringRun := false, inFlight := s.inFlight + 1)
  }

  /** After the run settled, however it ended. */
  function RunSettled(s: State, quiet: int, now: int): State {
    var landed := s.(inFlight := if s.inFlight > 0 then s.inFlight - 1 else 0);
    if s.closed then landed
    else if s.dirtyDuringRun then ScheduleRun(landed, quiet, now)
    else landed.(phase := Idle)
  }

  function Stop(s: State): State {
    s.(closed := true, timer := None)
  }

  class WatchController {
    const quiet: int
    var phase: Phase
    var timer: Option<int>
    var dirtyDuringRun: bool
    var closed: bool
    var inFlight: nat

    function Now(): State
      reads this
    {
      State(phase, timer, dirtyDuringRun, closed, inFlight)
    }

    constructor (watchQuietSec: Option<int>)
      ensures Now() == Initial && quiet == ResolveQuietSec(watchQuietSec) * 1000
    {
      quiet := ResolveQuietSec(watchQuietSec) * 1000;
      phase, timer, dirtyDuringRun, closed, inFlight := Idle, None, false, false, 0;
    }

    method Schedule(now: int)
      modifies this
      ensures Now() == ScheduleRun(old(Now()), quiet, now)
    {
      timer := None;
      phase := Debouncing;
      timer := Some(now + quiet);
    }

    /** A filesystem event, or an error of the event stream. */
    method Dirty(now: int)
      modifies this
      ensures Now() == MarkDirty(old(Now()), quiet, now)
    {
      if closed { return; }
      if phase.Running? {
        dirtyDuringRun := true;
        return;
      }
      Schedule(now);
    }

    method TimerFired()
      modifies this
      ensures Now() == Fire(old(Now()))
    {
      if closed { return; }
      timer := None;
      if !phase.Debouncing? { return; }
      phase := Running;
      dirtyDuringRun := false;
      inFlight := inFlight + 1;
    }

    method RunEnded(now: int)
      modifies this
      ensures Now() == RunSettled(old(Now()), quiet, now)
    {
      inFlight := if inFlight > 0 then inFlight - 1 else 0;
      if closed { return; }
      if dirtyDuringRun {
        Schedule(now);
      } else {
        phase := Idle;
      }
    }

    method StopWatching()
      modifies this
      ensures Now() == Stop(old(Now()))
    {
      closed := true;
      timer := None;
    }
  }

  // -------------------------------------------------------------------------
  // Timed histories
  // -------------------------------------------------------------------------

  datatype Event =
    | DirtyAt(time: int)
    | TimerAt(time: int)
    | RunEndsAt(time: int)
    | StopAt(time: int)

  /** A timer fires no earlier than it is due, and only a started run can end. */
  predicate Happens(s: State, e: Event) {
    match e
    case TimerAt(t) => s.timer.Some? && s.timer.value <= t
    case RunEndsAt(_) => s.inFlight > 0
    case _ => true
  }

  function Step(s: State, e: Event, quiet: int): State {
    if !Happens(s, e) then s
    else
      match e
      case DirtyAt(t) => MarkDirty(s, quiet, t)
      case TimerAt(_) => Fire(s)
      case RunEndsAt(t) => RunSettled(s, quiet, t)
      case StopAt(_) => Stop(s)
  }

  function Exec(events: seq<Event>, quiet: int): State {
    if events == [] then Initial else Step(Exec(events[..|events| - 1], quiet), events[|events| - 1], quiet)
  }

  predicate Forward(events: seq<Event>) {
    forall i, j :: 0 <= i <= j < |events| ==> events[i].time <= events[j].time
  }

  /** Event `k` starts a run. */
  predicate StartsRun(events: seq<Event>, k: nat, quiet: int)
    requires k < |events|
  {
    Step(Exec(events[..k], quiet), events[k], quiet).inFlight > Exec(events[..k], quiet).inFlight
  }

  /** Event `k` is a dirty event the controller is still open for. */
  predicate SeenDirty(events: seq<Event>, k: nat, quiet: int)
    requires k < |events|
  {
    events[k].DirtyAt? && !Exec(events[..k], quiet).closed
  }

  /** A run for the dirty event `k` has started, or will when the timer or the current run ends. */
  ghost predicate Served(events: seq<Event>, k: nat, quiet: int)
    requires k < |events|
  {
    var s := Exec(events, quiet);
    || s.phase.Debouncing?
    || (s.phase.Running? && s.dirtyDuringRun)
    || exists m :: k < m < |events| && StartsRun(events, m, quiet)
  }

  ghost predicate Inv(s: State) {
    && s.inFlight <= 1
    && (!s.closed ==> (s.timer.Some? <==> s.phase.Debouncing?))
    && (!s.closed ==> (s.inFlight == 1 <==> s.phase.Running?))
    && (s.closed ==> s.timer.None?)
  }

  lemma {:induction false} HistoryKeeps(events: seq<Event>, quiet: int)
    ensures Inv(Exec(events, quiet))
    decreases |events|
  {
    if events != [] {
      HistoryKeeps(events[..|events| - 1], quiet);
    }
  }

  /** In every history at most one run is in flight, and a timer is pending exactly while debouncing. */
  lemma SingleRun(events: seq<Event>, quiet: int)
    ensures var s := Exec(events, quiet);
            s.inFlight <= 1 && (!s.closed ==> (s.timer.Some? <==> s.phase.Debouncing?)) && (s.closed ==> s.timer.None?)
  {
    HistoryKeeps(events, quiet);
  }

  lemma PrefixOfPrefix(events: seq<Event>, k: nat)
    requires k < |events|
    ensures events[..|events| - 1][..k] == events[..k]
  {
  }

  /** While the controller is open, no dirty event is forgotten. */
  lemma {:induction false} DirtyIsServed(events: seq<Event>, k: nat, quiet: int)
    requires k < |events| && SeenDirty(events, k, quiet) && !Exec(events, quiet).closed
    ensures Served(events, k, quiet)
    decreases |events|
  {
    var n := |events| - 1;
    var before := events[..n];
    HistoryKeeps(before, quiet);
    if k < n {
      PrefixOfPrefix(events, k);
      assert before[k] == events[k];
      DirtyIsServed(before, k, quiet);
      if m :| k < m < n && StartsRun(before, m, quiet) {
        PrefixOfPrefix(events, m);
        assert before[m] == events[m];
        assert StartsRun(events, m, quiet);
      } else if events[n].TimerAt? && Happens(Exec(before, quiet), events[n]) && Exec(before, quiet).phase.Debouncing? {
        assert StartsRun(events, n, quiet);
      }
    } else {
      assert before == events[..k];
    }
  }

  /** The pending timer is due a quiet period after every dirty event seen so far. */
  ghost predicate TimerAfterDirt(events: seq<Event>, quiet: int) {
    var s := Exec(events, quiet);
    s.timer.Some? ==> forall k :: 0 <= k < |events| && SeenDirty(events, k, quiet) ==> s.timer.value >= events[k].time + quiet
  }

  lemma {:induction false} TimerWaits(events: seq<Event>, quiet: int)
    requires Forward(events)
    ensures TimerAfterDirt(events, quiet)
    decreases |events|
  {
    if events != [] {
      var n := |events| - 1;
      var before := events[..n];
      assert Forward(before);
      TimerWaits(before, quiet);
      HistoryKeeps(before, quiet);
      forall k | 0 <= k < |events| && SeenDirty(events, k, quiet)
        ensures Exec(events, quiet).timer.Some? ==> Exec(events, quiet).timer.value >= events[k].time + quiet
      {
        assert events[k].time <= events[n].time;
        if k < n {
          PrefixOfPrefix(events, k);
          assert before[k] == events[k] && SeenDirty(before, k, quiet);
        }
      }
    }
  }

  /** A run starts only when nothing was dirty for a full quiet period. */
  lemma RunStartsAfterQuiet(events: seq<Event>, k: nat, m: nat, quiet: int)
    requires Forward(events) && k < m < |events|
    requires SeenDirty(events, k, quiet) && StartsRun(events, m, quiet)
    ensures events[m].time >= events[k].time + quiet
  {
    var before := events[..m];
    assert Forward(before);
    TimerWaits(before, quiet);
    assert before[..k] == events[..k] && before[k] == events[k];
    assert SeenDirty(before, k, quiet);
  }
}
