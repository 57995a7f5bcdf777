/**
 The throttled, coalescing progress reporter
 (packages/daemon/src/live-progress.ts): `send` is cut at its await, so a send
 starts in one step and resolves in a later one.
 */
module ProgressReporter {
  import opened Wrappers

  datatype Counter = Transfers | Bytes | Checks | Errors | Files

  datatype Body = Body(phase: string, phaseStartedAt: int, detail: Option<string>, counters: map<Counter, Option<int>>)

  /** An observation; what it omits keeps its current value. */
  datatype Observation = Observation(phase: Option<string>, detail: Option<Option<string>>, counters: map<Counter, Option<int>>)

  /** `inFlight` and `started` record the requests made; the other fields are the closure's variables. */
  datatype State = State(
    phase: string, detail: Option<string>, counters: map<Counter, Option<int>>, phaseStartedAt: int,
    lastSentAt: int, sending: Option<nat>, dirty: bool, terminalPhase: Option<string>, timer: Option<int>,
    inFlight: set<nat>, started: seq<Body>)

  function Initial(startedAt: int): State {
    State("queued", None, map[Transfers := None, Bytes := None, Checks := None, Errors := None, Files := None],
          startedAt, 0, None, false, None, None, {}, [])
  }

  function CurrentBody(s: State): Body {
    Body(if s.terminalPhase.Some? then s.terminalPhase.value else s.phase, s.phaseStartedAt, s.detail, s.counters)
  }

  /** The synchronous part of `send`: clear the timer, take the state, start the request. */
  function StartSend(s: State): State {
    s.(timer := None, dirty := false, inFlight := s.inFlight + {|s.started|}, started := s.started + [CurrentBody(s)])
  }

  /** `sending = send()`. */
  function TrackedSend(s: State): State {
    StartSend(s).(sending := Some(|s.started|))
  }

  function ScheduleFlush(s: State, minInterval: int, now: int): State {
    if s.timer.Some? || s.sending.Some? || s.terminalPhase.Some? then s
    else
      var wait := minInterval - (now - s.lastSentAt);
      s.(timer := Some(now + if wait > 0 then wait else 0))
  }

  function Observe(s: State, o: Observation, now: int): State {
    var moved := if o.phase.Some? && o.phase.value != s.phase then s.(phase := o.phase.value, phaseStartedAt := now) else s;
    var detailed := if o.detail.Some? then moved.(detail := o.detail.value) else moved;
    detailed.(counters := detailed.counters + o.counters, dirty := true)
  }

  predicate ThrottleOpen(s: State, minInterval: int, now: int) {
    s.lastSentAt == 0 || now - s.lastSentAt >= minInterval
  }

  function Report(s: State, o: Observation, minInterval: int, now: int): State {
    if s.terminalPhase.Some? then s
    else
      var seen := Observe(s, o, now);
      if seen.sending.Some? then seen
      else if ThrottleOpen(seen, minInterval, now) then TrackedSend(seen)
      else ScheduleFlush(seen, minInterval, now)
  }

  function Finish(s: State, terminal: string, detail: Option<Option<string>>): State {
    var ended := s.(terminalPhase := Some(terminal), detail := if detail.Some? then detail.value else s.detail, dirty := true, timer := None);
    if ended.sending.Some? then ended else TrackedSend(ended)
  }

  function TimerFires(s: State): State {
    var fired := s.(timer := None);
    if fired.dirty && fired.sending.None? then TrackedSend(fired) else fired
  }

  /** The end of `send`: its follow-up is not stored in `sending`. */
  function Resolve(s: State, id: nat, ok: bool, now: int): State {
    var done := s.(inFlight := s.inFlight - {id}, lastSentAt := if ok then now else s.lastSentAt, sending := None);
    if done.dirty then StartSend(done) else done
  }

  class Reporter {
    const minInterval: int
    var phase: string
    var detail: Option<string>
    var counters: map<Counter, Option<int>>
    var phaseStartedAt: int
    var lastSentAt: int
    var sending: Option<nat>
    var dirty: bool
    var terminalPhase: Option<string>
    var timer: Option<int>
    var inFlight: set<nat>
    var started: seq<Body>

    function Now(): State
      reads this
    {
      State(phase, detail, counters, phaseStartedAt, lastSentAt, sending, dirty, terminalPhase, timer, inFlight, started)
    }

    constructor (startedAt: int, minInterval: int)
      ensures Now() == Initial(startedAt) && this.minInterval == minInterval
    {
      this.minInterval := minInterval;
      phase, detail, phaseStartedAt, lastSentAt := "queued", None, startedAt, 0;
      counters := map[Transfers := None, Bytes := None, Checks := None, Errors := None, Files := None];
      sending, dirty, terminalPhase, timer, inFlight, started := None, false, None, None, {}, [];
    }

    method Send() returns (id: nat)
      modifies this
      ensures Now() == StartSend(old(Now())) && id == |old(started)|
    {
      timer := None;
      dirty := false;
      id := |started|;
      var body := Body(if terminalPhase.Some? then terminalPhase.value else phase, phaseStartedAt, detail, counters);
      started, inFlight := started + [body], inFlight + {id};
    }

    method SendResolved(id: nat, ok: bool, now: int)
      modifies this
      ensures Now() == Resolve(old(Now()), id, ok, now)
    {
      inFlight := inFlight - {id};
      if ok { lastSentAt := now; }
      sending := None;
      if dirty { var _ := Send(); }
    }

    /** The observed fields are taken over; the latest value wins. */
    method Merge(o: Observation, now: int)
      modifies this
      ensures Now() == Observe(old(Now()), o, now)
    {
      if o.phase.Some? && o.phase.value != phase {
        phase := o.phase.value;
        phaseStartedAt := now;
      }
      if o.detail.Some? { detail := o.detail.value; }
      counters := counters + o.counters;
      dirty := true;
    }

    method Observed(o: Observation, now: int)
      modifies this
      ensures Now() == Report(old(Now()), o, minInterval, now)
    {
      if terminalPhase.Some? { return; }
      Merge(o, now);
      if sending.Some? { return; }
      if lastSentAt == 0 || now - lastSentAt >= minInterval {
        var id := Send();
        sending := Some(id);
      } else if timer.None? {
        var wait := minInterval - (now - lastSentAt);
        timer := Some(now + if wait > 0 then wait else 0);
      }
    }

    method Flush()
      modifies this
      ensures Now() == TimerFires(old(Now()))
    {
      timer := None;
      if dirty && sending.None? {
        var id := Send();
        sending := Some(id);
      }
    }

    method Finished(terminal: string, terminalDetail: Option<Option<string>>)
      modifies this
      ensures Now() == Finish(old(Now()), terminal, terminalDetail)
    {
      terminalPhase := Some(terminal);
      if terminalDetail.Some? { detail := terminalDetail.value; }
      dirty := true;
      timer := None;
      if sending.Some? { return; }
      var id := Send();
      sending := Some(id);
    }
  }

  // -------------------------------------------------------------------------
  // Every interleaving
  // -------------------------------------------------------------------------

  datatype Event =
    | Reported(observation: Observation, now: int)
    | Ended(terminal: string, detail: Option<Option<string>>)
    | TimerElapsed
    | Resolved(id: nat, ok: bool, now: int)

  function Step(s: State, e: Event, minInterval: int): State {
    match e
    case Reported(o, now) => Report(s, o, minInterval, now)
    case Ended(t, d) => Finish(s, t, d)
    case TimerElapsed => if s.timer.Some? then TimerFires(s) else s
    case Resolved(i, ok, now) => if i in s.inFlight then Resolve(s, i, ok, now) else s
  }

  function Exec(s: State, events: seq<Event>, minInterval: int): State
    decreases |events|
  {
    if events == [] then s else Exec(Step(s, events[0], minInterval), events[1..], minInterval)
  }

  ghost predicate Inv(s: State) {
    && (s.dirty ==> s.inFlight != {} || s.timer.Some?)
    && (s.sending.Some? ==> s.sending.value in s.inFlight)
    && (forall i :: i in s.inFlight ==> i < |s.started|)
    && (s.terminalPhase.Some? ==> s.timer.None? && s.started != [])
    && (s.started == [] ==> !s.dirty && s.lastSentAt == 0)
    && (!s.dirty && s.started != [] ==> s.started[|s.started| - 1] == CurrentBody(s))
  }

  lemma ResolveKeeps(s: State, id: nat, ok: bool, now: int)
    requires Inv(s) && id in s.inFlight
    ensures Inv(Resolve(s, id, ok, now))
  {
    if s.dirty {
      assert |s.started| in Resolve(s, id, ok, now).inFlight;
    }
  }

  lemma ReportKeeps(s: State, o: Observation, minInterval: int, now: int)
    requires Inv(s)
    ensures Inv(Report(s, o, minInterval, now))
  {
    if s.terminalPhase.None? && s.sending.None? && ThrottleOpen(s, minInterval, now) {
      assert |s.started| in Report(s, o, minInterval, now).inFlight;
    }
  }

  lemma StepKeeps(s: State, e: Event, minInterval: int)
    requires Inv(s)
    ensures Inv(Step(s, e, minInterval))
  {
    match e
    case Reported(o, now) => ReportKeeps(s, o, minInterval, now);
    case Resolved(i, ok, now) => if i in s.inFlight { ResolveKeeps(s, i, ok, now); }
    case _ =>
  }

  lemma {:induction false} HistoryKeeps(s: State, events: seq<Event>, minInterval: int)
    requires Inv(s)
    ensures Inv(Exec(s, events, minInterval))
    decreases |events|
  {
    if events != [] {
      StepKeeps(s, events[0], minInterval);
      HistoryKeeps(Step(s, events[0], minInterval), events[1..], minInterval);
    }
  }

  /** No observation is stranded, and what was sent last is current unless more is to come. */
  lemma NothingStranded(startedAt: int, events: seq<Event>, minInterval: int)
    ensures var s := Exec(Initial(startedAt), events, minInterval);
            && (s.dirty ==> s.inFlight != {} || s.timer.Some?)
            && (!s.dirty && s.started != [] ==> s.started[|s.started| - 1] == CurrentBody(s))
            && (s.started == [] ==> !s.dirty)
  {
    HistoryKeeps(Initial(startedAt), events, minInterval);
  }

  /** From the end of the run on, every request that starts carries a terminal phase. */
  predicate TerminalFrom(s: State, from: nat, terminals: set<string>) {
    && s.terminalPhase.Some? && s.terminalPhase.value in terminals
    && from <= |s.started| && forall i :: from <= i < |s.started| ==> s.started[i].phase in terminals
  }

  predicate EndsIn(events: seq<Event>, terminals: set<string>) {
    forall i :: 0 <= i < |events| && events[i].Ended? ==> events[i].terminal in terminals
  }

  lemma {:induction false} TerminalWins(s: State, from: nat, events: seq<Event>, minInterval: int, terminals: set<string>)
    requires Inv(s) && TerminalFrom(s, from, terminals) && EndsIn(events, terminals)
    ensures TerminalFrom(Exec(s, events, minInterval), from, terminals)
    decreases |events|
  {
    if events != [] {
      StepKeeps(s, events[0], minInterval);
      assert forall i :: 0 <= i < |events[1..]| ==> events[1..][i] == events[i + 1];
      TerminalWins(Step(s, events[0], minInterval), from, events[1..], minInterval, terminals);
    }
  }

  /** Once a finished reporter is at rest, the last request it made was the terminal one, with the final state. */
  lemma RestIsTerminal(startedAt: int, before: seq<Event>, e: Event, after: seq<Event>, minInterval: int)
    requires e.Ended? && (forall i :: 0 <= i < |after| ==> !after[i].Ended?)
    requires var s := Exec(Step(Exec(Initial(startedAt), before, minInterval), e, minInterval), after, minInterval); s.inFlight == {}
    ensures var s := Exec(Step(Exec(Initial(startedAt), before, minInterval), e, minInterval), after, minInterval);
            && s.started != [] && s.started[|s.started| - 1] == CurrentBody(s) && CurrentBody(s).phase == e.terminal
  {
    var s0 := Exec(Initial(startedAt), before, minInterval);
    var s1 := Step(s0, e, minInterval);
    HistoryKeeps(Initial(startedAt), before, minInterval);
    StepKeeps(s0, e, minInterval);
    HistoryKeeps(s1, after, minInterval);
    TerminalWins(s1, |s1.started|, after, minInterval, {e.terminal});
  }

  // -------------------------------------------------------------------------
  // At most one request in flight
  // -------------------------------------------------------------------------

  /** The event starts a request of its own accord (not as the follow-up of another). */
  predicate StartsNow(s: State, e: Event, minInterval: int) {
    match e
    case Reported(_, now) => s.terminalPhase.None? && ThrottleOpen(s, minInterval, now)
    case Ended(_, _) => true
    case TimerElapsed => s.timer.Some? && s.dirty
    case Resolved(_, _, _) => false
  }

  /**
   With at most one request in flight, a second one joins it exactly when the
   one in flight is an untracked follow-up and the event starts a request.
   */
  lemma SecondInFlightExact(s: State, e: Event, minInterval: int)
    requires Inv(s) && |s.inFlight| <= 1
    ensures |Step(s, e, minInterval).inFlight| > 1 <==> s.inFlight != {} && s.sending.None? && StartsNow(s, e, minInterval)
  {
    InFlightAfter(s, e, minInterval);
    var n := Step(s, e, minInterval).inFlight;
    if s.inFlight == {} {
      assert n <= {|s.started|};
      AtMostOne(n, |s.started|);
    } else {
      var i :| i in s.inFlight;
      SingletonIs(s.inFlight, i);
      if s.sending.None? && StartsNow(s, e, minInterval) {
        assert n == {i, |s.started|} && i != |s.started|;
      } else if e.Resolved? && e.id == i {
        assert n <= {|s.started|};
        AtMostOne(n, |s.started|);
      }
    }
  }

  /** In every state, one more request gets in flight exactly when none is tracked and the event starts one. */
  lemma OneMoreExactly(s: State, e: Event, minInterval: int)
    requires Inv(s)
    ensures |Step(s, e, minInterval).inFlight| > |s.inFlight| <==> s.sending.None? && StartsNow(s, e, minInterval)
  {
    InFlightAfter(s, e, minInterval);
    if !(s.sending.None? && StartsNow(s, e, minInterval)) && e.Resolved? && e.id in s.inFlight {
      var rest := s.inFlight - {e.id};
      assert |rest| == |s.inFlight| - 1;
      assert |rest + if s.dirty then {|s.started|} else {}| <= |rest| + 1;
    } else if s.sending.None? && StartsNow(s, e, minInterval) {
      assert |s.started| !in s.inFlight;
    }
  }

  lemma InFlightAfter(s: State, e: Event, minInterval: int)
    requires Inv(s)
    ensures Step(s, e, minInterval).inFlight ==
            if s.sending.None? && StartsNow(s, e, minInterval) then s.inFlight + {|s.started|}
            else if e.Resolved? && e.id in s.inFlight then s.inFlight - {e.id} + if s.dirty then {|s.started|} else {}
            else s.inFlight
  {
  }

  lemma SingletonIs(x: set<nat>, i: nat)
    requires |x| <= 1 && i in x
    ensures x == {i}
  {
    assert |x - {i}| == 0;
  }

  lemma AtMostOne(x: set<nat>, i: nat)
    requires x <= {i}
    ensures |x| <= 1
  {
    if i in x { assert x == {i}; }
  }

  /** The first request of a round is answered while a second report waits, and the follow-up stays untracked. */
  function Round(s: State, o: Observation, now: int): seq<Event> {
    [Reported(o, now), Reported(o, now), Resolved(|s.started|, true, now)]
  }

  lemma FirstReport(s: State, o: Observation, now: int, minInterval: int)
    requires s.sending.None? && s.terminalPhase.None? && ThrottleOpen(s, minInterval, now)
    ensures var n := Step(s, Reported(o, now), minInterval);
            && n.inFlight == s.inFlight + {|s.started|} && n.sending == Some(|s.started|) && n.terminalPhase.None?
            && |n.started| == |s.started| + 1
  {
  }

  lemma SecondReport(s: State, o: Observation, now: int, minInterval: int)
    requires s.sending.Some? && s.terminalPhase.None?
    ensures var n := Step(s, Reported(o, now), minInterval);
            && n.inFlight == s.inFlight && n.sending == s.sending && n.started == s.started && n.terminalPhase.None? && n.dirty
  {
  }

  lemma Answered(s: State, id: nat, now: int, minInterval: int)
    requires id in s.inFlight && s.dirty && s.terminalPhase.None?
    ensures var n := Step(s, Resolved(id, true, now), minInterval);
            && n.inFlight == s.inFlight - {id} + {|s.started|} && n.sending.None? && n.terminalPhase.None? && n.lastSentAt == now
  {
  }

  lemma RoundAddsOne(s: State, o: Observation, now: int, minInterval: int)
    requires Inv(s) && s.sending.None? && s.terminalPhase.None? && ThrottleOpen(s, minInterval, now)
    ensures var n := Exec(s, Round(s, o, now), minInterval);
            && Inv(n) && n.sending.None? && n.terminalPhase.None?
            && |n.inFlight| == |s.inFlight| + 1 && n.lastSentAt == now
  {
    var events, k := Round(s, o, now), |s.started|;
    HistoryKeeps(s, events, minInterval);
    FirstReport(s, o, now, minInterval);
    var s1 := Step(s, events[0], minInterval);
    SecondReport(s1, o, now, minInterval);
    var s2 := Step(s1, events[1], minInterval);
    Answered(s2, k, now, minInterval);
    ThreeSteps(s, events, minInterval);
    assert s.inFlight + {k} - {k} + {k + 1} == s.inFlight + {k + 1};
    assert k !in s.inFlight && k + 1 !in s.inFlight;
  }

  lemma ThreeSteps(s: State, events: seq<Event>, minInterval: int)
    requires |events| == 3
    ensures Exec(s, events, minInterval) ==
            Step(Step(Step(s, events[0], minInterval), events[1], minInterval), events[2], minInterval)
  {
    var e1 := events[1..];
    var e2 := e1[1..];
    var s1 := Step(s, events[0], minInterval);
    var s2 := Step(s1, events[1], minInterval);
    assert e1[0] == events[1] && e2[0] == events[2] && e2[1..] == [];
    assert Exec(s, events, minInterval) == Exec(s1, e1, minInterval);
    assert Exec(s1, e1, minInterval) == Exec(s2, e2, minInterval);
    assert Exec(s2, e2, minInterval) == Exec(Step(s2, events[2], minInterval), [], minInterval);
  }

  lemma {:induction false} ExecConcat(s: State, a: seq<Event>, b: seq<Event>, minInterval: int)
    ensures Exec(s, a + b, minInterval) == Exec(Exec(s, a, minInterval), b, minInterval)
    decreases |a|
  {
    if a == [] {
      assert a + b == b;
    } else {
      assert (a + b)[0] == a[0] && (a + b)[1..] == a[1..] + b;
      ExecConcat(Step(s, a[0], minInterval), a[1..], b, minInterval);
    }
  }

  /** There is no bound: for every number there is a history with that many requests in flight at once. */
  lemma {:induction false} NoBound(startedAt: int, o: Observation, n: nat, minInterval: int) returns (events: seq<Event>, now: int)
    ensures var s := Exec(Initial(startedAt), events, minInterval);
            && |s.inFlight| == n && s.sending.None? && s.terminalPhase.None? && Inv(s)
            && (s.lastSentAt == 0 || s.lastSentAt <= now) && (n == 0 ==> s.lastSentAt == 0)
  {
    if n == 0 {
      events, now := [], 0;
    } else {
      var before, last := NoBound(startedAt, o, n - 1, minInterval);
      var s := Exec(Initial(startedAt), before, minInterval);
      now := last + if minInterval > 0 then minInterval else 0;
      RoundAddsOne(s, o, now, minInterval);
      ExecConcat(Initial(startedAt), before, Round(s, o, now), minInterval);
      events := before + Round(s, o, now);
    }
  }

  /** A second report while the first request is out, its resolution, the end of the run: two are in flight. */
  lemma TwoInFlight(startedAt: int, o: Observation, now: int, minInterval: int)
    ensures var s1 := Step(Initial(startedAt), Reported(o, now), minInterval);
            var s2 := Step(s1, Reported(o, now), minInterval);
            var s3 := Step(s2, Resolved(0, true, now), minInterval);
            Step(s3, Ended("success", None), minInterval).inFlight == {1, 2}
  {
    var s1 := Step(Initial(startedAt), Reported(o, now), minInterval);
    assert s1.inFlight == {0} && |s1.started| == 1 && s1.sending == Some(0);
    var s2 := Step(s1, Reported(o, now), minInterval);
    assert s2.inFlight == {0} && s2.dirty && |s2.started| == 1;
    var s3 := Step(s2, Resolved(0, true, now), minInterval);
    assert s3.inFlight == {1} && s3.sending.None? && |s3.started| == 2;
  }
}
