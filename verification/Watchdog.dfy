/**
 The progress-aware deadline of a seed stage: the verdict
 (`shouldExtendSeedDeadline`, packages/core/src/folder-seed.ts) and the
 supervisor that polls it (`superviseProcess`, packages/daemon/src/executor.ts).
 */
module Watchdog {
  import opened Wrappers

  datatype Verdict = Continue | Stalled | HardCap

  function Elapsed(from: int, now: int): (ms: nat) {
    if now > from then now - from else 0
  }

  function ShouldExtend(startedAt: int, lastProgressAt: int, now: int, stall: int, hardCap: int): Verdict {
    if Elapsed(startedAt, now) >= hardCap then HardCap
    else if Elapsed(lastProgressAt, now) >= stall then Stalled
    else Continue
  }

  /** `killedAt` is the instant of the kill, when there was one. */
  datatype State = State(startedAt: int, lastProgressAt: int, killedAt: Option<int>)

  datatype Event = ProgressAt(time: int) | TickAt(time: int)

  function Step(s: State, e: Event, stall: int, hardCap: int): State {
    match e
    case ProgressAt(t) => s.(lastProgressAt := t)
    case TickAt(t) =>
      if s.killedAt.None? && !ShouldExtend(s.startedAt, s.lastProgressAt, t, stall, hardCap).Continue?
      then s.(killedAt := Some(t)) else s
  }

  class Supervisor {
    const startedAt: int
    const stall: int
    const hardCap: int
    var lastProgressAt: int
    var timedOut: bool
    var killedAt: Option<int>

    ghost predicate Valid()
      reads this
    {
      timedOut <==> killedAt.Some?
    }

    function Now(): State
      reads this
    {
      State(startedAt, lastProgressAt, killedAt)
    }

    constructor (now: int, stall: int, hardCap: int)
      ensures Valid() && Now() == State(now, now, None) && this.stall == stall && this.hardCap == hardCap
    {
      startedAt, lastProgressAt, this.stall, this.hardCap := now, now, stall, hardCap;
      timedOut, killedAt := false, None;
    }

    method Progress(now: int)
      requires Valid()
      modifies this
      ensures Valid() && Now() == Step(old(Now()), ProgressAt(now), stall, hardCap)
    {
      lastProgressAt := now;
    }

    method Kill(now: int)
      requires Valid()
      modifies this
      ensures Valid() && lastProgressAt == old(lastProgressAt)
      ensures killedAt == if old(killedAt).Some? then old(killedAt) else Some(now)
    {
      if timedOut { return; }
      timedOut := true;
      killedAt := Some(now);
    }

    method Tick(now: int)
      requires Valid()
      modifies this
      ensures Valid() && Now() == Step(old(Now()), TickAt(now), stall, hardCap)
    {
      var verdict := ShouldExtend(startedAt, lastProgressAt, now, stall, hardCap);
      if !verdict.Continue? { Kill(now); }
    }
  }

  function Exec(s: State, events: seq<Event>, stall: int, hardCap: int): State {
    if events == [] then s
    else Step(Exec(s, events[..|events| - 1], stall, hardCap), events[|events| - 1], stall, hardCap)
  }

  function Started(now: int): State {
    State(now, now, None)
  }

  predicate Forward(startedAt: int, events: seq<Event>) {
    && (forall i :: 0 <= i < |events| ==> startedAt <= events[i].time)
    && (forall i, j :: 0 <= i <= j < |events| ==> events[i].time <= events[j].time)
  }

  /** Every event comes less than `stall` after the start or after some earlier progress. */
  ghost predicate KeepsMoving(startedAt: int, events: seq<Event>, stall: int) {
    forall i :: 0 <= i < |events| ==>
                  || events[i].time < startedAt + stall
                  || exists j :: 0 <= j < i && events[j].ProgressAt? && events[i].time < events[j].time + stall
  }

  ghost predicate TickIn(events: seq<Event>, from: int, width: int) {
    exists i :: 0 <= i < |events| && events[i].TickAt? && from <= events[i].time <= from + width
  }

  /** The interval timer: up to `until`, every window of `tick` holds a tick. */
  ghost predicate TicksEvery(events: seq<Event>, start: int, until: int, tick: int) {
    forall from :: start <= from && from + tick <= until ==> TickIn(events, from, tick)
  }

  lemma {:induction false} ProgressIsRemembered(start: int, events: seq<Event>, stall: int, hardCap: int, j: nat)
    requires Forward(start, events) && j < |events| && events[j].ProgressAt?
    ensures Exec(Started(start), events, stall, hardCap).lastProgressAt >= events[j].time
    decreases |events|
  {
    if j < |events| - 1 {
      ProgressIsRemembered(start, events[..|events| - 1], stall, hardCap, j);
    }
  }

  lemma {:induction false} StartIsRemembered(start: int, events: seq<Event>, stall: int, hardCap: int)
    requires Forward(start, events)
    ensures Exec(Started(start), events, stall, hardCap).lastProgressAt >= start
    ensures Exec(Started(start), events, stall, hardCap).startedAt == start
    decreases |events|
  {
    if events != [] {
      StartIsRemembered(start, events[..|events| - 1], stall, hardCap);
    }
  }

  lemma MovingBefore(start: int, events: seq<Event>, stall: int)
    requires events != [] && KeepsMoving(start, events, stall)
    ensures KeepsMoving(start, events[..|events| - 1], stall)
  {
    var before := events[..|events| - 1];
    forall i | 0 <= i < |before| && before[i].time >= start + stall
      ensures exists j :: 0 <= j < i && before[j].ProgressAt? && before[i].time < before[j].time + stall
    {
      assert events[i] == before[i];
      var j :| 0 <= j < i && events[j].ProgressAt? && events[i].time < events[j].time + stall;
      assert before[j] == events[j];
    }
  }

  /** Before the last event, the latest progress is recent. */
  lemma RecentProgress(start: int, events: seq<Event>, stall: int, hardCap: int)
    requires events != [] && Forward(start, events) && KeepsMoving(start, events, stall)
    ensures var n := |events| - 1;
            events[n].time < Exec(Started(start), events[..n], stall, hardCap).lastProgressAt + stall
  {
    var n := |events| - 1;
    var before := events[..n];
    StartIsRemembered(start, before, stall, hardCap);
    if events[n].time >= start + stall {
      var j :| 0 <= j < n && events[j].ProgressAt? && events[n].time < events[j].time + stall;
      assert before[j] == events[j];
      ProgressIsRemembered(start, before, stall, hardCap, j);
    }
  }

  /** While progress keeps coming within the stall budget, nothing is killed before the hard cap. */
  lemma {:induction false} HealthyRunLives(start: int, events: seq<Event>, stall: int, hardCap: int)
    requires Forward(start, events) && stall > 0
    requires KeepsMoving(start, events, stall)
    requires forall i :: 0 <= i < |events| ==> events[i].time < start + hardCap
    ensures Exec(Started(start), events, stall, hardCap).killedAt.None?
    decreases |events|
  {
    if events != [] {
      var before := events[..|events| - 1];
      MovingBefore(start, events, stall);
      HealthyRunLives(start, before, stall, hardCap);
      StartIsRemembered(start, before, stall, hardCap);
      RecentProgress(start, events, stall, hardCap);
    }
  }

  lemma {:induction false} KilledByTick(start: int, events: seq<Event>, stall: int, hardCap: int, i: nat)
    requires Forward(start, events) && i < |events| && events[i].TickAt?
    requires !ShouldExtend(start, Exec(Started(start), events[..i], stall, hardCap).lastProgressAt, events[i].time, stall, hardCap).Continue?
    ensures var k := Exec(Started(start), events, stall, hardCap).killedAt; k.Some? && k.value <= events[i].time
    decreases |events|
  {
    var n := |events| - 1;
    if i < n {
      assert events[..n][..i] == events[..i];
      KilledByTick(start, events[..n], stall, hardCap, i);
    } else {
      StartIsRemembered(start, events[..n], stall, hardCap);
      KilledInThePast(start, events[..n], stall, hardCap, events[n].time);
    }
  }

  lemma {:induction false} KilledInThePast(start: int, events: seq<Event>, stall: int, hardCap: int, now: int)
    requires Forward(start, events) && forall i :: 0 <= i < |events| ==> events[i].time <= now
    ensures var k := Exec(Started(start), events, stall, hardCap).killedAt; k.Some? ==> k.value <= now
    decreases |events|
  {
    if events != [] {
      KilledInThePast(start, events[..|events| - 1], stall, hardCap, now);
    }
  }

  /** A process that makes no progress after `last` is killed within the stall budget plus one tick. */
  lemma StalledRunDies(start: int, events: seq<Event>, stall: int, hardCap: int, last: int, tick: int, until: int)
    requires Forward(start, events) && stall > 0 && start <= last
    requires forall i :: 0 <= i < |events| && events[i].ProgressAt? ==> events[i].time <= last
    requires TicksEvery(events, start, until, tick) && last + stall + tick <= until
    ensures var k := Exec(Started(start), events, stall, hardCap).killedAt; k.Some? && k.value <= last + stall + tick
  {
    assert TickIn(events, last + stall, tick);
    var i :| 0 <= i < |events| && events[i].TickAt? && last + stall <= events[i].time <= last + stall + tick;
    LastProgressBound(start, events[..i], stall, hardCap, last);
    KilledByTick(start, events, stall, hardCap, i);
  }

  lemma {:induction false} LastProgressBound(start: int, events: seq<Event>, stall: int, hardCap: int, last: int)
    requires start <= last
    requires forall i :: 0 <= i < |events| && events[i].ProgressAt? ==> events[i].time <= last
    ensures Exec(Started(start), events, stall, hardCap).lastProgressAt <= last
    decreases |events|
  {
    if events != [] {
      LastProgressBound(start, events[..|events| - 1], stall, hardCap, last);
    }
  }

  /** Whatever it reports, a process is killed by the hard cap plus one tick. */
  lemma EveryRunEnds(start: int, events: seq<Event>, stall: int, hardCap: int, tick: int, until: int)
    requires Forward(start, events) && hardCap > 0
    requires TicksEvery(events, start, until, tick) && start + hardCap + tick <= until
    ensures var k := Exec(Started(start), events, stall, hardCap).killedAt; k.Some? && k.value <= start + hardCap + tick
  {
    assert TickIn(events, start + hardCap, tick);
    var i :| 0 <= i < |events| && events[i].TickAt? && start + hardCap <= events[i].time <= start + hardCap + tick;
    KilledByTick(start, events, stall, hardCap, i);
  }
}
