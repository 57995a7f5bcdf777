/**
 The fleet summary (packages/core/src/fleet-health.ts, `deriveFleetHealth`):
 rows with their weights and counts, without their wording.
 */
module FleetHealth {

  datatype Status = Online | Offline | Degraded | UnknownStatus

  datatype FolderState = Healthy | NewHost | ResyncRequired | Recoverable | Unsafe | Blocked | Busy | Unknown

  datatype Host = Host(
    id: string, alwaysOn: bool, status: Status, everSeen: bool, updateActionable: bool, updateNotEvaluated: bool)

  datatype Folder = Folder(id: string, hostId: string, hostStatus: Status, hostEverSeen: bool, state: FolderState, stale: bool)

  datatype Kind = FolderRow | HostRow | UpdateRow

  datatype Row = Row(kind: Kind, id: string, hostId: string, weight: nat)

  datatype Bucket = Bucket(total: nat, items: seq<Row>, truncated: nat)

  datatype Summary = Summary(
    red: Bucket, yellow: Bucket, grey: Bucket, healthyFolders: nat, healthyHosts: nat,
    updatesActionable: nat, updatesNotEvaluated: nat)

  function Severity(state: FolderState): nat {
    match state
    case Unsafe => 6
    case ResyncRequired => 5
    case Blocked => 4
    case Recoverable => 3
    case NewHost => 2
    case Unknown => 1
    case Busy => 0
    case Healthy => 0
  }

  predicate Down(status: Status) {
    status.Offline? || status.Degraded?
  }

  // -------------------------------------------------------------------------
  // Where a host and a folder belong
  // -------------------------------------------------------------------------

  datatype Place = Red | Yellow | Grey | Green

  function HostPlace(h: Host): Place {
    if !h.everSeen && !h.status.Online? then Grey
    else if Down(h.status) then (if h.alwaysOn then Red else Yellow)
    else if h.status.Online? then Green
    else Grey
  }

  /** Never heard from: the device's own row speaks for its folders. */
  predicate Unheard(h: Host) {
    !h.everSeen && !h.status.Online?
  }

  predicate SpeaksForFolders(h: Host) {
    HostPlace(h).Red? || Unheard(h)
  }

  function FolderPlace(f: Folder): Place {
    if f.state.Unknown? || f.stale || !f.hostEverSeen then Grey
    else if Down(f.hostStatus) then Yellow
    else if f.state in {Unsafe, ResyncRequired, Blocked} then Red
    else if f.state in {NewHost, Recoverable} then Yellow
    else Green
  }

  // -------------------------------------------------------------------------
  // The rows a list should hold
  // -------------------------------------------------------------------------

  function HostRows(hosts: seq<Host>, place: Place): seq<Row> {
    if hosts == [] then []
    else
      var n := |hosts| - 1;
      HostRows(hosts[..n], place) + RowsOf(hosts[n], place)
  }

  /** At most one row of a host in a list; an available update shares the yellow one. */
  function RowsOf(h: Host, place: Place): (rows: seq<Row>)
    ensures |rows| <= 1
  {
    if place.Yellow? then
      if HostPlace(h).Yellow? then [Row(HostRow, h.id, h.id, if h.updateActionable then 3 else 2)]
      else if h.updateActionable && !HostPlace(h).Red? then [Row(UpdateRow, h.id, h.id, 1)]
      else []
    else if place == HostPlace(h) && !place.Green? then
      [Row(HostRow, h.id, h.id, if place.Red? then 5 else if Unheard(h) then 2 else 1)]
    else []
  }

  /** The rows of the folders whose device does not speak for them. */
  function FolderRows(spoken: set<string>, folders: seq<Folder>, place: Place): seq<Row> {
    if folders == [] then []
    else FolderRows(spoken, folders[..|folders| - 1], place) + RowsOfFolder(spoken, folders[|folders| - 1], place)
  }

  function RowsOfFolder(spoken: set<string>, f: Folder, place: Place): seq<Row> {
    if f.hostId !in spoken && FolderPlace(f) == place then [Row(FolderRow, f.id, f.hostId, Severity(f.state))] else []
  }

  function CountHosts(hosts: seq<Host>, test: Host -> bool): nat {
    if hosts == [] then 0 else CountHosts(hosts[..|hosts| - 1], test) + if test(hosts[|hosts| - 1]) then 1 else 0
  }

  function IdsOf(hosts: seq<Host>, test: Host -> bool): set<string> {
    if hosts == [] then {}
    else
      var n := |hosts| - 1;
      IdsOf(hosts[..n], test) + if test(hosts[n]) then {hosts[n].id} else {}
  }

  /** The devices that were never heard from or are missing. */
  function SpokenFor(hosts: seq<Host>): set<string> {
    IdsOf(hosts, SpeaksForFolders)
  }

  predicate AnyHost(h: Host) {
    true
  }

  lemma {:induction false} IdsAreHosts(hosts: seq<Host>, test: Host -> bool, id: string)
    ensures id in IdsOf(hosts, test) <==> exists i :: 0 <= i < |hosts| && hosts[i].id == id && test(hosts[i])
  {
    if hosts != [] {
      var n := |hosts| - 1;
      IdsAreHosts(hosts[..n], test, id);
      assert forall i :: 0 <= i < n ==> hosts[..n][i] == hosts[i];
    }
  }

  lemma IdIsNew(hosts: seq<Host>, i: nat, test: Host -> bool)
    requires DistinctHosts(hosts) && i < |hosts|
    ensures hosts[i].id !in IdsOf(hosts[..i], test)
  {
    IdsAreHosts(hosts[..i], test, hosts[i].id);
  }

  predicate IsRed(h: Host) {
    HostPlace(h).Red?
  }

  predicate IsYellow(h: Host) {
    HostPlace(h).Yellow?
  }

  predicate IsGreen(h: Host) {
    HostPlace(h).Green?
  }

  /** The update needs a row of its own: the host is neither asleep nor missing. */
  predicate OwnUpdateRow(h: Host) {
    h.updateActionable && !HostPlace(h).Yellow? && !HostPlace(h).Red?
  }

  predicate HasUpdate(h: Host) {
    h.updateActionable
  }

  predicate NotJudged(h: Host) {
    !h.updateActionable && h.updateNotEvaluated
  }

  function HealthyFolders(spoken: set<string>, folders: seq<Folder>): nat {
    if folders == [] then 0
    else
      var n := |folders| - 1;
      HealthyFolders(spoken, folders[..n]) + if folders[n].hostId !in spoken && FolderPlace(folders[n]).Green? then 1 else 0
  }

  function SkippedFolders(spoken: set<string>, folders: seq<Folder>): nat {
    if folders == [] then 0
    else
      var n := |folders| - 1;
      SkippedFolders(spoken, folders[..n]) + if folders[n].hostId in spoken then 1 else 0
  }

  predicate DistinctHosts(hosts: seq<Host>) {
    forall i, j :: 0 <= i < j < |hosts| ==> hosts[i].id != hosts[j].id
  }

  // -------------------------------------------------------------------------
  // Worst first
  // -------------------------------------------------------------------------

  predicate WorstFirst(rows: seq<Row>) {
    forall i, j :: 0 <= i < j < |rows| ==> rows[i].weight >= rows[j].weight
  }

  function InsertRow(row: Row, rows: seq<Row>): seq<Row> {
    if rows == [] || rows[0].weight < row.weight then [row] + rows else [rows[0]] + InsertRow(row, rows[1..])
  }

  /** Rows of equal weight keep their order here; `bySeverity` orders them by title. */
  function SortRows(rows: seq<Row>): seq<Row> {
    if rows == [] then [] else InsertRow(rows[|rows| - 1], SortRows(rows[..|rows| - 1]))
  }

  lemma {:induction false} InsertAdds(row: Row, rows: seq<Row>)
    ensures multiset(InsertRow(row, rows)) == multiset(rows) + multiset{row}
  {
    if rows != [] && rows[0].weight >= row.weight {
      assert rows == [rows[0]] + rows[1..];
      InsertAdds(row, rows[1..]);
    }
  }

  lemma {:induction false} InsertKeeps(row: Row, rows: seq<Row>)
    requires WorstFirst(rows)
    ensures WorstFirst(InsertRow(row, rows))
  {
    if rows != [] && rows[0].weight >= row.weight {
      InsertKeeps(row, rows[1..]);
      InsertAdds(row, rows[1..]);
      var rest := InsertRow(row, rows[1..]);
      forall i | 0 <= i < |rest|
        ensures rest[i].weight <= rows[0].weight
      {
        assert rest[i] in multiset(rest);
      }
    }
  }

  lemma {:induction false} SortKeeps(rows: seq<Row>)
    ensures WorstFirst(SortRows(rows)) && multiset(SortRows(rows)) == multiset(rows) && |SortRows(rows)| == |rows|
  {
    if rows != [] {
      var n := |rows| - 1;
      assert rows == rows[..n] + [rows[n]];
      SortKeeps(rows[..n]);
      InsertKeeps(rows[n], SortRows(rows[..n]));
      InsertAdds(rows[n], SortRows(rows[..n]));
      assert |multiset(SortRows(rows))| == |multiset(rows)|;
    }
  }

  function BucketOf(rows: seq<Row>, limit: nat): Bucket {
    var sorted := SortRows(rows);
    Bucket(|sorted|, if |sorted| <= limit then sorted else sorted[..limit], if |sorted| <= limit then 0 else |sorted| - limit)
  }

  /** The rows split into those shown and those cut off, and none cut off outweighs one shown. */
  ghost predicate ShowsWorst(b: Bucket, rows: seq<Row>, limit: nat) {
    && b.total == |rows| == |b.items| + b.truncated && |b.items| <= limit
    && (b.truncated > 0 ==> |b.items| == limit)
    && exists cut :: multiset(b.items + cut) == multiset(rows) && WorstFirst(b.items + cut)
  }

  lemma BucketShowsWorst(rows: seq<Row>, limit: nat)
    ensures ShowsWorst(BucketOf(rows, limit), rows, limit)
  {
    SortKeeps(rows);
    var sorted := SortRows(rows);
    var cut := if |sorted| <= limit then [] else sorted[limit..];
    assert BucketOf(rows, limit).items + cut == sorted;
  }

  // -------------------------------------------------------------------------
  // The summary
  // -------------------------------------------------------------------------

  function Max(a: nat, b: nat): nat {
    if a >= b then a else b
  }

  /** The yellow list, and the row that speaks for each host in it. */
  datatype YellowList = YellowList(rows: seq<Row>, byHost: map<string, nat>)

  predicate WithinRows(y: YellowList) {
    forall id :: id in y.byHost ==> y.byHost[id] < |y.rows|
  }

  function AddSleeping(y: YellowList, h: Host): YellowList {
    if HostPlace(h).Yellow? then YellowList(y.rows + [Row(HostRow, h.id, h.id, 2)], y.byHost[h.id := |y.rows|]) else y
  }

  /** An update raises the row its host has, or gets a row of its own. */
  function AddUpdateRow(y: YellowList, h: Host): YellowList
    requires WithinRows(y)
  {
    if h.id in y.byHost then
      var at := y.byHost[h.id];
      YellowList(y.rows[at := y.rows[at].(weight := Max(y.rows[at].weight, 3))], y.byHost)
    else YellowList(y.rows + [Row(UpdateRow, h.id, h.id, 1)], y.byHost[h.id := |y.rows|])
  }

  /** The yellow list of the hosts, an id that comes twice included. */
  function Yellows(hosts: seq<Host>): (y: YellowList)
    ensures WithinRows(y)
  {
    if hosts == [] then YellowList([], map[])
    else
      var h := hosts[|hosts| - 1];
      var y := AddSleeping(Yellows(hosts[..|hosts| - 1]), h);
      if h.updateActionable && h.id !in IdsOf(hosts, IsRed) then AddUpdateRow(y, h) else y
  }

  /** Each list holds the rows placed there, and each counter its count. */
  predicate Describes(s: Summary, hosts: seq<Host>, folders: seq<Folder>, limit: nat) {
    && s.red == BucketOf(HostRows(hosts, Red) + FolderRows(SpokenFor(hosts), folders, Red), limit)
    && s.yellow == BucketOf(Yellows(hosts).rows + FolderRows(SpokenFor(hosts), folders, Yellow), limit)
    && s.grey == BucketOf(HostRows(hosts, Grey) + FolderRows(SpokenFor(hosts), folders, Grey), limit)
    && s.healthyFolders == HealthyFolders(SpokenFor(hosts), folders) && s.healthyHosts == CountHosts(hosts, IsGreen)
    && s.updatesActionable == CountHosts(hosts, HasUpdate) && s.updatesNotEvaluated == CountHosts(hosts, NotJudged)
  }

  method DeriveFleetHealth(hosts: seq<Host>, folders: seq<Folder>, itemLimit: int) returns (s: Summary)
    ensures Describes(s, hosts, folders, if itemLimit < 1 then 1 else itemLimit)
  {
    var limit: nat := if itemLimit < 1 then 1 else itemLimit;
    var red, yellow, grey, suppressed, unheard, healthyHosts, updatesActionable, updatesNotEvaluated := PlaceHosts(hosts);
    SpokenIds(hosts);
    var redFolders, yellowFolders, greyFolders, healthyFolders := PlaceFolders(folders, suppressed, unheard);
    s := Summary(BucketOf(red + redFolders, limit), BucketOf(yellow + yellowFolders, limit), BucketOf(grey + greyFolders, limit),
                 healthyFolders, healthyHosts, updatesActionable, updatesNotEvaluated);
  }

  method PlaceFolders(folders: seq<Folder>, suppressed: set<string>, unheard: set<string>)
    returns (red: seq<Row>, yellow: seq<Row>, grey: seq<Row>, healthy: nat)
    ensures var spoken := suppressed + unheard;
            && red == FolderRows(spoken, folders, Red) && yellow == FolderRows(spoken, folders, Yellow)
            && grey == FolderRows(spoken, folders, Grey) && healthy == HealthyFolders(spoken, folders)
  {
    red, yellow, grey, healthy := [], [], [], 0;
    ghost var spoken := suppressed + unheard;
    for i := 0 to |folders|
      invariant red == FolderRows(spoken, folders[..i], Red)
      invariant yellow == FolderRows(spoken, folders[..i], Yellow)
      invariant grey == FolderRows(spoken, folders[..i], Grey)
      invariant healthy == HealthyFolders(spoken, folders[..i])
    {
      var f := folders[i];
      assert folders[..i + 1][..i] == folders[..i];
      if f.hostId in suppressed { continue; }
      if f.hostId in unheard { continue; }
      var row := Row(FolderRow, f.id, f.hostId, Severity(f.state));
      if f.state.Unknown? {
        grey := grey + [row];
        continue;
      }
      if f.stale || !f.hostEverSeen {
        grey := grey + [row];
        continue;
      }
      if Down(f.hostStatus) {
        yellow := yellow + [row];
        continue;
      }
      if f.state in {Unsafe, ResyncRequired, Blocked} {
        red := red + [row];
        continue;
      }
      if f.state.NewHost? || f.state.Recoverable? {
        yellow := yellow + [row];
        continue;
      }
      healthy := healthy + 1;
    }
    assert folders[..|folders|] == folders;
  }

  lemma {:induction false} SpokenIds(hosts: seq<Host>)
    ensures IdsOf(hosts, IsRed) + IdsOf(hosts, Unheard) == SpokenFor(hosts)
  {
    if hosts != [] {
      SpokenIds(hosts[..|hosts| - 1]);
    }
  }

  lemma NextRows(hosts: seq<Host>, i: nat)
    requires i < |hosts|
    ensures hosts[..i + 1][..i] == hosts[..i]
    ensures HostRows(hosts[..i + 1], Red) == HostRows(hosts[..i], Red) + RowsOf(hosts[i], Red)
    ensures HostRows(hosts[..i + 1], Grey) == HostRows(hosts[..i], Grey) + RowsOf(hosts[i], Grey)
    ensures var y := AddSleeping(Yellows(hosts[..i]), hosts[i]);
            Yellows(hosts[..i + 1]) == if hosts[i].updateActionable && hosts[i].id !in IdsOf(hosts[..i + 1], IsRed) then AddUpdateRow(y, hosts[i]) else y
  {
    assert hosts[..i + 1][..i] == hosts[..i];
  }

  method PlaceHosts(hosts: seq<Host>)
    returns (red: seq<Row>, yellow: seq<Row>, grey: seq<Row>, suppressed: set<string>, unheard: set<string>,
             healthyHosts: nat, updatesActionable: nat, updatesNotEvaluated: nat)
    ensures red == HostRows(hosts, Red) && yellow == Yellows(hosts).rows && grey == HostRows(hosts, Grey)
    ensures suppressed == IdsOf(hosts, IsRed) && unheard == IdsOf(hosts, Unheard)
    ensures healthyHosts == CountHosts(hosts, IsGreen)
    ensures updatesActionable == CountHosts(hosts, HasUpdate)
    ensures updatesNotEvaluated == CountHosts(hosts, NotJudged)
  {
    red, yellow, grey, suppressed, unheard := [], [], [], {}, {};
    healthyHosts, updatesActionable, updatesNotEvaluated := 0, 0, 0;
    var yellowByHost: map<string, nat> := map[];
    for i := 0 to |hosts|
      invariant red == HostRows(hosts[..i], Red) && grey == HostRows(hosts[..i], Grey)
      invariant YellowList(yellow, yellowByHost) == Yellows(hosts[..i])
      invariant suppressed == IdsOf(hosts[..i], IsRed) && unheard == IdsOf(hosts[..i], Unheard)
      invariant healthyHosts == CountHosts(hosts[..i], IsGreen)
      invariant updatesActionable == CountHosts(hosts[..i], HasUpdate)
      invariant updatesNotEvaluated == CountHosts(hosts[..i], NotJudged)
    {
      var host := hosts[i];
      NextRows(hosts, i);
      if !host.everSeen && !host.status.Online? {
        unheard := unheard + {host.id};
        grey := grey + [Row(HostRow, host.id, host.id, 2)];
      } else if host.alwaysOn && Down(host.status) {
        suppressed := suppressed + {host.id};
        red := red + [Row(HostRow, host.id, host.id, 5)];
      } else if !host.alwaysOn && Down(host.status) {
        yellowByHost := yellowByHost[host.id := |yellow|];
        yellow := yellow + [Row(HostRow, host.id, host.id, 2)];
      } else if host.status.Online? {
        healthyHosts := healthyHosts + 1;
      } else {
        grey := grey + [Row(HostRow, host.id, host.id, 1)];
      }
      assert YellowList(yellow, yellowByHost) == AddSleeping(Yellows(hosts[..i]), host);
      assert suppressed == IdsOf(hosts[..i + 1], IsRed) && unheard == IdsOf(hosts[..i + 1], Unheard);
      assert red == HostRows(hosts[..i + 1], Red) && grey == HostRows(hosts[..i + 1], Grey);
      assert healthyHosts == CountHosts(hosts[..i + 1], IsGreen);
      if host.updateActionable {
        updatesActionable := updatesActionable + 1;
        yellow, yellowByHost := AddUpdate(host, yellow, yellowByHost, suppressed);
        assert YellowList(yellow, yellowByHost) == Yellows(hosts[..i + 1]);
      } else if host.updateNotEvaluated {
        updatesNotEvaluated := updatesNotEvaluated + 1;
      }
    }
    assert hosts[..|hosts|] == hosts;
  }

  /** An update goes into the yellow row the host already has, or into a row of its own; a red host gets neither. */
  method AddUpdate(host: Host, rows: seq<Row>, byHost: map<string, nat>, suppressed: set<string>)
    returns (yellow: seq<Row>, yellowByHost: map<string, nat>)
    requires WithinRows(YellowList(rows, byHost))
    ensures YellowList(yellow, yellowByHost) ==
            if host.id !in suppressed then AddUpdateRow(YellowList(rows, byHost), host) else YellowList(rows, byHost)
  {
    yellow, yellowByHost := rows, byHost;
    if host.id !in suppressed {
      if host.id in byHost {
        var at := byHost[host.id];
        yellow := yellow[at := yellow[at].(weight := Max(yellow[at].weight, 3))];
      } else {
        yellowByHost := byHost[host.id := |yellow|];
        yellow := yellow + [Row(UpdateRow, host.id, host.id, 1)];
      }
    }
  }

  /** Where no id comes twice, the yellow list holds the rows placed there. */
  lemma {:induction false} YellowsAreRows(hosts: seq<Host>)
    requires DistinctHosts(hosts)
    ensures Yellows(hosts).rows == HostRows(hosts, Yellow) && Yellows(hosts).byHost.Keys <= IdsOf(hosts, AnyHost)
  {
    if hosts != [] {
      var n := |hosts| - 1;
      YellowsAreRows(hosts[..n]);
      IdIsNew(hosts, n, AnyHost);
      IdIsNew(hosts, n, IsRed);
    }
  }

  // -------------------------------------------------------------------------
  // Conservation
  // -------------------------------------------------------------------------

  /** Every folder is skipped, healthy or in exactly one list. */
  lemma {:induction false} FoldersAddUp(spoken: set<string>, folders: seq<Folder>)
    ensures |folders| == SkippedFolders(spoken, folders) + HealthyFolders(spoken, folders) +
                         |FolderRows(spoken, folders, Red)| + |FolderRows(spoken, folders, Yellow)| + |FolderRows(spoken, folders, Grey)|
  {
    if folders != [] {
      FoldersAddUp(spoken, folders[..|folders| - 1]);
    }
  }

  lemma {:induction false} RowsAreHosts(hosts: seq<Host>, place: Place, row: Row)
    ensures row in HostRows(hosts, place) <==> exists i :: 0 <= i < |hosts| && row in RowsOf(hosts[i], place)
  {
    if hosts != [] {
      var n := |hosts| - 1;
      RowsAreHosts(hosts[..n], place, row);
      if i :| 0 <= i < n && row in RowsOf(hosts[..n][i], place) {
        assert row in RowsOf(hosts[i], place);
      }
      if i :| 0 <= i < |hosts| && row in RowsOf(hosts[i], place) {
        assert i < n ==> row in RowsOf(hosts[..n][i], place);
      }
    }
  }

  /** A host has a status row in exactly the list of its place, and none when it is healthy. */
  lemma OneStatusRow(hosts: seq<Host>, i: nat, place: Place)
    requires DistinctHosts(hosts) && i < |hosts|
    ensures (exists row :: row in HostRows(hosts, place) && row.kind.HostRow? && row.hostId == hosts[i].id) <==>
            place == HostPlace(hosts[i]) && !place.Green?
  {
    if row :| row in HostRows(hosts, place) && row.kind.HostRow? && row.hostId == hosts[i].id {
      RowsAreHosts(hosts, place, row);
    }
    if place == HostPlace(hosts[i]) && !place.Green? {
      var row := RowsOf(hosts[i], place)[0];
      RowsAreHosts(hosts, place, row);
    }
  }

  /** No list holds two rows of one host. */
  lemma {:induction false} OneRowPerHost(hosts: seq<Host>, place: Place, i: nat, j: nat)
    requires DistinctHosts(hosts) && i < j < |HostRows(hosts, place)|
    ensures HostRows(hosts, place)[i].hostId != HostRows(hosts, place)[j].hostId
  {
    var n := |hosts| - 1;
    var before := HostRows(hosts[..n], place);
    if j < |before| {
      OneRowPerHost(hosts[..n], place, i, j);
    } else {
      RowsAreHosts(hosts[..n], place, before[i]);
    }
  }

  /** The places add up to the fleet. */
  lemma {:induction false} HostsAddUp(hosts: seq<Host>)
    ensures |HostRows(hosts, Red)| + CountHosts(hosts, IsYellow) + |HostRows(hosts, Grey)| + CountHosts(hosts, IsGreen) == |hosts|
  {
    if hosts != [] {
      HostsAddUp(hosts[..|hosts| - 1]);
    }
  }

  /** Every sleeping host has a status row in the yellow list, and its other rows are updates. */
  lemma {:induction false} SleepersHaveRows(hosts: seq<Host>)
    ensures StatusRows(Yellows(hosts).rows) == CountHosts(hosts, IsYellow)
  {
    if hosts != [] {
      var n := |hosts| - 1;
      var before, h := Yellows(hosts[..n]), hosts[n];
      SleepersHaveRows(hosts[..n]);
      StatusRowsConcat(before.rows, [Row(HostRow, h.id, h.id, 2)]);
      var y := AddSleeping(before, h);
      StatusRowsConcat(y.rows, [Row(UpdateRow, h.id, h.id, 1)]);
      if h.id in y.byHost {
        StatusRowsUpdate(y.rows, y.byHost[h.id], Max(y.rows[y.byHost[h.id]].weight, 3));
      }
    }
  }

  lemma {:induction false} StatusRowsUpdate(rows: seq<Row>, at: nat, weight: nat)
    requires at < |rows|
    ensures StatusRows(rows[at := rows[at].(weight := weight)]) == StatusRows(rows)
  {
    var n := |rows| - 1;
    var changed := rows[at := rows[at].(weight := weight)];
    if at < n {
      assert changed[..n] == rows[..n][at := rows[..n][at].(weight := weight)];
      StatusRowsUpdate(rows[..n], at, weight);
    } else {
      assert changed[..n] == rows[..n];
    }
  }

  /** Where no id comes twice, those are the hosts with an update that needs a row of its own. */
  lemma {:induction false} UpdatesAddUp(hosts: seq<Host>)
    ensures |HostRows(hosts, Yellow)| == CountHosts(hosts, IsYellow) + CountHosts(hosts, OwnUpdateRow)
  {
    if hosts != [] {
      UpdatesAddUp(hosts[..|hosts| - 1]);
    }
  }

  function StatusRows(rows: seq<Row>): nat {
    if rows == [] then 0 else StatusRows(rows[..|rows| - 1]) + if rows[|rows| - 1].kind.HostRow? then 1 else 0
  }

  lemma StatusRowsConcat(rows: seq<Row>, more: seq<Row>)
    requires |more| <= 1
    ensures StatusRows(rows + more) == StatusRows(rows) + StatusRows(more)
  {
    if more == [] {
      assert rows + more == rows;
    } else {
      assert (rows + more)[..|rows|] == rows && more[..0] == [];
    }
  }

  /** A skipped folder is never silent: its device has a row of its own, red or grey. */
  lemma SkippedIsSpokenFor(hosts: seq<Host>, hostId: string)
    requires hostId in SpokenFor(hosts)
    ensures exists row :: row in HostRows(hosts, Red) + HostRows(hosts, Grey) && row.kind.HostRow? && row.hostId == hostId
  {
    IdsAreHosts(hosts, SpeaksForFolders, hostId);
    var i :| 0 <= i < |hosts| && hosts[i].id == hostId && SpeaksForFolders(hosts[i]);
    var place := HostPlace(hosts[i]);
    var row := RowsOf(hosts[i], place)[0];
    RowsAreHosts(hosts, place, row);
    assert row in HostRows(hosts, Red) + HostRows(hosts, Grey);
  }

  /** Rows of a list that are updates. */
  function UpdateRows(rows: seq<Row>): int {
    |rows| - StatusRows(rows)
  }

  /**
   The summary accounts for everything once, whatever ids come twice: its three
   totals, the healthy counters and the skipped folders are the hosts, the folders
   and the update rows; and every total is what is shown plus what is cut off.
   */
  lemma SummaryAddsUp(s: Summary, hosts: seq<Host>, folders: seq<Folder>, limit: nat)
    requires Describes(s, hosts, folders, limit)
    ensures s.red.total + s.yellow.total + s.grey.total + s.healthyHosts + s.healthyFolders + SkippedFolders(SpokenFor(hosts), folders) ==
            |hosts| + |folders| + UpdateRows(Yellows(hosts).rows)
    ensures Shows(s.red) && Shows(s.yellow) && Shows(s.grey)
    ensures DistinctHosts(hosts) ==> UpdateRows(Yellows(hosts).rows) == CountHosts(hosts, OwnUpdateRow)
  {
    var spoken := SpokenFor(hosts);
    FoldersAddUp(spoken, folders);
    HostsAddUp(hosts);
    SleepersHaveRows(hosts);
    TotalOf(HostRows(hosts, Red), FolderRows(spoken, folders, Red), limit);
    TotalOf(Yellows(hosts).rows, FolderRows(spoken, folders, Yellow), limit);
    TotalOf(HostRows(hosts, Grey), FolderRows(spoken, folders, Grey), limit);
    UpdatesAddUp(hosts);
    if DistinctHosts(hosts) {
      YellowsAreRows(hosts);
    }
  }

  predicate Shows(b: Bucket) {
    b.total == |b.items| + b.truncated
  }

  lemma TotalOf(a: seq<Row>, b: seq<Row>, limit: nat)
    ensures BucketOf(a + b, limit).total == |a| + |b| && Shows(BucketOf(a + b, limit))
  {
    SortKeeps(a + b);
  }
}
