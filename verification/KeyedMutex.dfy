/**
 Per-key serialization of asynchronous calls
 (packages/daemon/src/keyed-mutex.ts), cut at its awaits: a call arrives, its
 body starts once the gate before it is released, and the body settles.
 */
module KeyedMutexes {
  import opened Wrappers

  datatype Progress = Waiting | Running | Done

  /** One `run` call; its number is its gate, and `prev` the gate it awaits. */
  datatype Call = Call(key: string, prev: Option<nat>, progress: Progress)

  datatype Mutex = Mutex(chains: map<string, nat>, calls: seq<Call>)

  const Empty := Mutex(map[], [])

  function Arrive(m: Mutex, key: string): Mutex {
    var prev := if key in m.chains then Some(m.chains[key]) else None;
    Mutex(m.chains[key := |m.calls|], m.calls + [Call(key, prev, Waiting)])
  }

  /** A gate never rejects, so a body that threw releases it like any other. */
  predicate Released(m: Mutex, gate: Option<nat>) {
    gate.Some? ==> gate.value < |m.calls| && m.calls[gate.value].progress.Done?
  }

  predicate Enabled(m: Mutex, i: nat) {
    i < |m.calls| && m.calls[i].progress.Waiting? && Released(m, m.calls[i].prev)
  }

  function SetProgress(m: Mutex, i: nat, p: Progress): Mutex
    requires i < |m.calls|
  {
    m.(calls := m.calls[i := m.calls[i].(progress := p)])
  }

  function Settle(m: Mutex, i: nat): Mutex
    requires i < |m.calls|
  {
    var key := m.calls[i].key;
    var released := SetProgress(m, i, Done);
    if key in m.chains && m.chains[key] == i then released.(chains := m.chains - {key}) else released
  }

  class KeyedMutex {
    var chains: map<string, nat>
    var calls: seq<Call>

    function State(): Mutex
      reads this
    {
      Mutex(chains, calls)
    }

    constructor ()
      ensures State() == Empty
    {
      chains, calls := map[], [];
    }

    /** Up to the first await: replace the tail of the key's chain. */
    method Run(key: string) returns (gate: nat)
      modifies this
      ensures State() == Arrive(old(State()), key) && gate == |old(calls)|
    {
      var prev := if key in chains then Some(chains[key]) else None;
      gate := |calls|;
      chains := chains[key := gate];
      calls := calls + [Call(key, prev, Waiting)];
    }

    /** The awaited gate is released: the body starts. */
    method Begin(gate: nat)
      requires Enabled(State(), gate)
      modifies this
      ensures State() == SetProgress(old(State()), gate, Running)
    {
      calls := calls[gate := calls[gate].(progress := Running)];
    }

    /** The `finally` block, whether the body returned or threw. */
    method Finish(gate: nat)
      requires gate < |calls|
      modifies this
      ensures State() == Settle(old(State()), gate)
    {
      var key := calls[gate].key;
      calls := calls[gate := calls[gate].(progress := Done)];
      if key in chains && chains[key] == gate {
        chains := chains - {key};
      }
    }
  }

  // -------------------------------------------------------------------------
  // Every history
  // -------------------------------------------------------------------------

  datatype Event = Called(key: string) | Started(call: nat) | Settled(call: nat, threw: bool)

  function Step(m: Mutex, e: Event): Mutex {
    match e
    case Called(key) => Arrive(m, key)
    case Started(i) => if Enabled(m, i) then SetProgress(m, i, Running) else m
    case Settled(i, _) => if i < |m.calls| && m.calls[i].progress.Running? then Settle(m, i) else m
  }

  function Exec(m: Mutex, events: seq<Event>): Mutex {
    if events == [] then m else Step(Exec(m, events[..|events| - 1]), events[|events| - 1])
  }

  /** The calls whose bodies started, in the order in which they started. */
  function Starts(m: Mutex, events: seq<Event>): seq<nat> {
    if events == [] then []
    else
      var before, e := events[..|events| - 1], events[|events| - 1];
      if e.Started? && Enabled(Exec(m, before), e.call) then Starts(m, before) + [e.call] else Starts(m, before)
  }

  predicate SameKey(m: Mutex, i: nat, j: nat)
    requires i < |m.calls| && j < |m.calls|
  {
    m.calls[i].key == m.calls[j].key
  }

  /** A call awaits the latest earlier call of its key, unless all of those are done. */
  ghost predicate Linked(m: Mutex, i: nat)
    requires i < |m.calls|
  {
    match m.calls[i].prev
    case None => forall j :: 0 <= j < i && m.calls[j].key == m.calls[i].key ==> m.calls[j].progress.Done?
    case Some(p) => p < i && SameKey(m, i, p) && forall j :: p < j < i ==> m.calls[j].key != m.calls[i].key
  }

  /** Nothing of a key starts before everything that arrived earlier for it is done. */
  ghost predicate InOrder(m: Mutex) {
    forall i, j :: 0 <= j < i < |m.calls| && SameKey(m, i, j) && !m.calls[i].progress.Waiting? ==> m.calls[j].progress.Done?
  }

  /** A key has an entry exactly while one of its calls is not done, and it is the last of them. */
  ghost predicate Tailed(m: Mutex) {
    && (forall key :: key in m.chains ==>
          && m.chains[key] < |m.calls| && m.calls[m.chains[key]].key == key && !m.calls[m.chains[key]].progress.Done?
          && forall j :: m.chains[key] < j < |m.calls| ==> m.calls[j].key != key)
    && (forall j :: 0 <= j < |m.calls| && !m.calls[j].progress.Done? ==> m.calls[j].key in m.chains)
  }

  ghost predicate Inv(m: Mutex) {
    Tailed(m) && InOrder(m) && forall i :: 0 <= i < |m.calls| ==> Linked(m, i)
  }

  lemma EarlierAllDone(m: Mutex, i: nat)
    requires Inv(m) && Enabled(m, i)
    ensures forall j :: 0 <= j < i && SameKey(m, i, j) ==> m.calls[j].progress.Done?
  {
    assert Linked(m, i);
  }

  lemma ArriveKeeps(m: Mutex, key: string)
    requires Inv(m)
    ensures Inv(Arrive(m, key))
  {
    var n := Arrive(m, key);
    forall i | 0 <= i < |n.calls|
      ensures Linked(n, i)
    {
      if i < |m.calls| {
        assert Linked(m, i);
        assert n.calls[i] == m.calls[i];
      }
    }
  }

  lemma BeginLinks(m: Mutex, i: nat, k: nat)
    requires Enabled(m, i) && k < |m.calls| && Linked(m, k)
    ensures Linked(SetProgress(m, i, Running), k)
  {
    var n := SetProgress(m, i, Running);
    assert forall j :: 0 <= j < |m.calls| ==> n.calls[j].key == m.calls[j].key && n.calls[j].prev == m.calls[j].prev;
    assert forall j :: 0 <= j < |m.calls| ==> (n.calls[j].progress.Done? <==> m.calls[j].progress.Done?);
  }

  lemma BeginKeeps(m: Mutex, i: nat)
    requires Inv(m) && Enabled(m, i)
    ensures Inv(SetProgress(m, i, Running))
  {
    EarlierAllDone(m, i);
    var n := SetProgress(m, i, Running);
    assert forall k :: 0 <= k < |m.calls| ==> n.calls[k].key == m.calls[k].key;
    assert forall k :: 0 <= k < |m.calls| ==> (n.calls[k].progress.Done? <==> m.calls[k].progress.Done?);
    assert Tailed(n);
    forall k | 0 <= k < |n.calls|
      ensures Linked(n, k)
    {
      BeginLinks(m, i, k);
    }
  }

  lemma SettleOrders(m: Mutex, i: nat)
    requires InOrder(m) && i < |m.calls| && m.calls[i].progress.Running?
    ensures InOrder(Settle(m, i))
  {
    var n := Settle(m, i);
    forall k, j | 0 <= j < k < |n.calls| && SameKey(n, k, j) && !n.calls[k].progress.Waiting?
      ensures n.calls[j].progress.Done?
    {
      assert SameKey(m, k, j) && !m.calls[k].progress.Waiting?;
    }
  }

  lemma SettleLinks(m: Mutex, i: nat, k: nat)
    requires i < |m.calls| && k < |m.calls| && Linked(m, k)
    ensures Linked(Settle(m, i), k)
  {
    var n := Settle(m, i);
    assert forall j :: 0 <= j < |m.calls| ==> n.calls[j].key == m.calls[j].key && n.calls[j].prev == m.calls[j].prev;
    assert forall j :: 0 <= j < |m.calls| && m.calls[j].progress.Done? ==> n.calls[j].progress.Done?;
  }

  lemma SettleTails(m: Mutex, i: nat)
    requires Tailed(m) && InOrder(m) && i < |m.calls| && m.calls[i].progress.Running?
    ensures Tailed(Settle(m, i))
  {
    var n := Settle(m, i);
    assert forall k :: 0 <= k < |m.calls| ==> n.calls[k].key == m.calls[k].key;
    forall j | 0 <= j < |n.calls| && !n.calls[j].progress.Done?
      ensures n.calls[j].key in n.chains
    {
      if SameKey(m, i, j) && j < i {
        assert m.calls[j].progress.Done?;
      }
    }
  }

  lemma SettleKeeps(m: Mutex, i: nat)
    requires Inv(m) && i < |m.calls| && m.calls[i].progress.Running?
    ensures Inv(Settle(m, i))
  {
    SettleOrders(m, i);
    SettleTails(m, i);
    forall k | 0 <= k < |m.calls|
      ensures Linked(Settle(m, i), k)
    {
      SettleLinks(m, i, k);
    }
  }

  lemma {:induction false} HistoryKeeps(events: seq<Event>)
    ensures Inv(Exec(Empty, events))
    decreases |events|
  {
    if events != [] {
      var before := Exec(Empty, events[..|events| - 1]);
      HistoryKeeps(events[..|events| - 1]);
      match events[|events| - 1] {
        case Called(key) => ArriveKeeps(before, key);
        case Started(i) => if Enabled(before, i) { BeginKeeps(before, i); }
        case Settled(i, _) => if i < |before.calls| && before.calls[i].progress.Running? { SettleKeeps(before, i); }
      }
    }
  }

  predicate InSomeBody(m: Mutex, key: string, i: nat) {
    i < |m.calls| && m.calls[i].key == key && m.calls[i].progress.Running?
  }

  /** In every history at most one body per key runs. */
  lemma MutualExclusion(events: seq<Event>, key: string, i: nat, j: nat)
    requires InSomeBody(Exec(Empty, events), key, i) && InSomeBody(Exec(Empty, events), key, j)
    ensures i == j
  {
    HistoryKeeps(events);
  }

  /** The entry of a key is in the map exactly while one of its calls is waiting or running. */
  lemma EntryExactlyWhileQueued(events: seq<Event>, key: string)
    ensures var m := Exec(Empty, events);
            key in m.chains <==> exists i :: 0 <= i < |m.calls| && m.calls[i].key == key && !m.calls[i].progress.Done?
  {
    HistoryKeeps(events);
  }

  /** Whoever waits while nobody runs: some waiter of that key can start. */
  lemma SomeWaiterEnabled(events: seq<Event>, key: string, i: nat)
    requires var m := Exec(Empty, events);
             && i < |m.calls| && m.calls[i].key == key && m.calls[i].progress.Waiting?
             && forall j :: !InSomeBody(m, key, j)
    ensures var m := Exec(Empty, events);
            exists j :: 0 <= j <= i && Enabled(m, j) && m.calls[j].key == key
  {
    HistoryKeeps(events);
    FirstWaiter(Exec(Empty, events), key, i);
  }

  lemma {:induction false} FirstWaiter(m: Mutex, key: string, i: nat)
    requires Inv(m) && i < |m.calls| && m.calls[i].key == key && m.calls[i].progress.Waiting?
    requires forall j :: !InSomeBody(m, key, j)
    ensures exists j :: 0 <= j <= i && Enabled(m, j) && m.calls[j].key == key
    decreases i
  {
    assert Linked(m, i);
    if !Enabled(m, i) {
      var p := m.calls[i].prev.value;
      assert !InSomeBody(m, key, p);
      FirstWaiter(m, key, p);
    }
  }

  /** A started call stays started, with the key it came with. */
  lemma {:induction false} StartedStays(events: seq<Event>)
    ensures var m := Exec(Empty, events);
            forall a :: 0 <= a < |Starts(Empty, events)| ==>
              var i := Starts(Empty, events)[a]; i < |m.calls| && !m.calls[i].progress.Waiting?
    decreases |events|
  {
    if events != [] {
      StartedStays(events[..|events| - 1]);
    }
  }

  /** Whoever can start now arrived after everybody of its key who has started. */
  lemma StartsLater(m: Mutex, i: nat, j: nat)
    requires Inv(m) && Enabled(m, j) && i < |m.calls| && !m.calls[i].progress.Waiting? && SameKey(m, i, j)
    ensures i < j
  {
  }

  /** Bodies of one key start in the order of their calls, each at most once. */
  lemma {:induction false} CallOrder(events: seq<Event>, a: nat, b: nat)
    requires a < b < |Starts(Empty, events)|
    ensures var m := Exec(Empty, events);
            var i, j := Starts(Empty, events)[a], Starts(Empty, events)[b];
            i < |m.calls| && j < |m.calls| && (SameKey(m, i, j) ==> i < j)
    decreases |events|
  {
    StartedStays(events);
    var before := events[..|events| - 1];
    var starts := Starts(Empty, before);
    if b < |starts| {
      CallOrder(before, a, b);
    } else {
      var m, i, j := Exec(Empty, before), starts[a], Starts(Empty, events)[b];
      HistoryKeeps(before);
      StartedStays(before);
      assert i < |m.calls| && !m.calls[i].progress.Waiting? && Enabled(m, j);
      if SameKey(m, i, j) { StartsLater(m, i, j); }
    }
  }
}
