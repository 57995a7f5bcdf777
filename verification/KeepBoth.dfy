/**
 Automatic conflict resolution on the local side (packages/daemon/src/executor.ts,
 `pickConflictAction`, `keepLocalConflictCopy`, `applyAutomaticConflicts`). The
 local tree is a map from paths to what is stored there; renames and transfers
 may fail at will.
 */
module KeepBoth {
  import opened Wrappers
  import opened Text

  datatype Strategy = SourceWins | KeepBothSides | NewerWins | OtherStrategy

  datatype Action = LocalWins | RemoteWins | KeepBothCopies

  datatype Conflict = Conflict(path: string, localMtime: Option<int>, remoteMtime: Option<int>)

  type Files = map<string, string>

  /** What the environment does to one conflict: a failed transfer may leave anything at its destination. */
  datatype Outcome = Outcome(renameWorks: bool, transfer: Transfer)
  datatype Transfer = Arrived(content: string) | Broken(left: Option<string>)

  function PickConflictAction(strategy: Strategy, localMtime: Option<int>, remoteMtime: Option<int>, roleIsTarget: bool): Action {
    match strategy
    case SourceWins => if roleIsTarget then RemoteWins else LocalWins
    case KeepBothSides => KeepBothCopies
    case NewerWins =>
      if localMtime.Some? && remoteMtime.Some? && localMtime.value > remoteMtime.value then LocalWins
      else if localMtime.Some? && remoteMtime.Some? && remoteMtime.value > localMtime.value then RemoteWins
      else KeepBothCopies
    case OtherStrategy => KeepBothCopies
  }

  // -------------------------------------------------------------------------
  // The name of a copy
  // -------------------------------------------------------------------------

  function CopyBase(file: string, day: string): string {
    file + ".conflict-" + day
  }

  /** The base itself, then the base with a counter. */
  function Name(base: string, k: nat): string {
    if k == 0 then base else base + "." + Decimal(k)
  }

  lemma NamesDiffer(base: string, j: nat, k: nat)
    requires Name(base, j) == Name(base, k)
    ensures j == k
  {
    if j > 0 && k > 0 {
      var head := base + ".";
      assert Decimal(j) == Name(base, j)[|head|..] && Decimal(k) == Name(base, k)[|head|..];
      DecimalInjective(j, k);
    }
  }

  ghost function FirstNames(base: string, n: nat): set<string> {
    set k: nat | k < n :: Name(base, k)
  }

  lemma {:induction false} FirstNamesCount(base: string, n: nat)
    ensures |FirstNames(base, n)| == n
  {
    if n > 0 {
      FirstNamesCount(base, n - 1);
      if Name(base, n - 1) in FirstNames(base, n - 1) {
        var k: nat :| k < n - 1 && Name(base, k) == Name(base, n - 1);
        NamesDiffer(base, k, n - 1);
      }
      assert FirstNames(base, n) == FirstNames(base, n - 1) + {Name(base, n - 1)};
    }
  }

  /** As many names cannot be taken as there are files. */
  lemma NamesRunOut(base: string, n: nat, taken: set<string>)
    requires forall k: nat :: k < n ==> Name(base, k) in taken
    ensures n <= |taken|
  {
    FirstNamesCount(base, n);
    assert FirstNames(base, n) <= taken;
    assert taken == FirstNames(base, n) + (taken - FirstNames(base, n));
  }

  /** The first free name from the n-th on. */
  function FirstFree(base: string, n: nat, taken: set<string>): (k: nat)
    requires forall j: nat :: j < n ==> Name(base, j) in taken
    ensures Name(base, k) !in taken && forall j: nat :: j < k ==> Name(base, j) in taken
    decreases |taken| - n
  {
    if Name(base, n) !in taken then n
    else
      NamesRunOut(base, n + 1, taken);
      FirstFree(base, n + 1, taken)
  }

  function CopyPath(files: Files, file: string, day: string): (path: string)
    ensures path !in files && path != file
  {
    var base := CopyBase(file, day);
    var k := FirstFree(base, 0, files.Keys);
    assert |Name(base, k)| > |file|;
    Name(base, k)
  }

  // -------------------------------------------------------------------------
  // One conflict
  // -------------------------------------------------------------------------

  /** The local file moved aside, where there is one. */
  function SetAside(files: Files, file: string, day: string): Files {
    if file in files then (files - {file})[CopyPath(files, file, day) := files[file]] else files
  }

  function Received(files: Files, file: string, transfer: Transfer): Files {
    match transfer
    case Arrived(content) => files[file := content]
    case Broken(left) => if left.Some? then files[file := left.value] else files
  }

  function Resolved(files: Files, file: string, action: Action, day: string, o: Outcome): Files {
    match action
    case LocalWins => files
    case RemoteWins => Received(files, file, o.transfer)
    case KeepBothCopies =>
      if file in files && !o.renameWorks then files else Received(SetAside(files, file, day), file, o.transfer)
  }

  predicate Succeeds(files: Files, file: string, action: Action, o: Outcome) {
    o.transfer.Arrived? && (action.KeepBothCopies? && file in files ==> o.renameWorks)
  }

  datatype Setting = Setting(strategy: Strategy, root: string, roleIsTarget: bool, day: string)

  function FileOf(s: Setting, c: Conflict): string {
    s.root + "/" + c.path
  }

  function ActionFor(s: Setting, c: Conflict): Action {
    PickConflictAction(s.strategy, c.localMtime, c.remoteMtime, s.roleIsTarget)
  }

  function ResolveAll(files: Files, s: Setting, conflicts: seq<Conflict>, outcomes: seq<Outcome>): Files
    requires |conflicts| == |outcomes|
  {
    if conflicts == [] then files
    else
      var n := |conflicts| - 1;
      var before := ResolveAll(files, s, conflicts[..n], outcomes[..n]);
      Resolved(before, FileOf(s, conflicts[n]), ActionFor(s, conflicts[n]), s.day, outcomes[n])
  }

  function Unresolved(files: Files, s: Setting, conflicts: seq<Conflict>, outcomes: seq<Outcome>): seq<Conflict>
    requires |conflicts| == |outcomes|
  {
    if conflicts == [] then []
    else
      var n := |conflicts| - 1;
      var before := ResolveAll(files, s, conflicts[..n], outcomes[..n]);
      Unresolved(files, s, conflicts[..n], outcomes[..n]) +
      if Succeeds(before, FileOf(s, conflicts[n]), ActionFor(s, conflicts[n]), outcomes[n]) then [] else [conflicts[n]]
  }

  datatype MoveResult = NothingToMove | MovedTo(path: string) | MoveFailed

  class LocalTree {
    var files: Files

    constructor (f: Files)
      ensures files == f
    {
      files := f;
    }

    /** The fresh-name search ends, and on success only the local file has moved, to a free path. */
    method KeepLocalConflictCopy(localFile: string, day: string, renameWorks: bool) returns (r: MoveResult)
      modifies this
      ensures r.NothingToMove? <==> localFile !in old(files)
      ensures r.MoveFailed? <==> localFile in old(files) && !renameWorks
      ensures r.MovedTo? ==> r.path == CopyPath(old(files), localFile, day)
      ensures files == if r.MoveFailed? then old(files) else SetAside(old(files), localFile, day)
    {
      if localFile !in files { return NothingToMove; }
      var base := CopyBase(localFile, day);
      var target, n := base, 1;
      while target in files
        invariant files == old(files) && n >= 1 && target == Name(base, n - 1)
        invariant forall k: nat :: k < n - 1 ==> Name(base, k) in files
        decreases |files| + 1 - n
      {
        NamesRunOut(base, n, files.Keys);
        target := base + "." + Decimal(n);
        n := n + 1;
      }
      FirstIsUnique(base, n - 1, FirstFree(base, 0, files.Keys), files.Keys);
      if !renameWorks { return MoveFailed; }
      files := (files - {localFile})[target := files[localFile]];
      return MovedTo(target);
    }

    /** `rclone copyto` from the remote side onto the local file. */
    method Pull(localFile: string, transfer: Transfer) returns (ok: bool)
      modifies this
      ensures files == Received(old(files), localFile, transfer) && (ok <==> transfer.Arrived?)
    {
      match transfer
      case Arrived(content) =>
        files := files[localFile := content];
        ok := true;
      case Broken(left) =>
        if left.Some? { files := files[localFile := left.value]; }
        ok := false;
    }

    method ApplyAutomaticConflicts(s: Setting, conflicts: seq<Conflict>, outcomes: seq<Outcome>)
      returns (resolved: nat, unresolved: seq<Conflict>)
      requires |conflicts| == |outcomes|
      modifies this
      ensures files == ResolveAll(old(files), s, conflicts, outcomes)
      ensures unresolved == Unresolved(old(files), s, conflicts, outcomes) && resolved + |unresolved| == |conflicts|
    {
      resolved, unresolved := 0, [];
      for i := 0 to |conflicts|
        invariant files == ResolveAll(old(files), s, conflicts[..i], outcomes[..i])
        invariant unresolved == Unresolved(old(files), s, conflicts[..i], outcomes[..i]) && resolved + |unresolved| == i
      {
        var c, o := conflicts[i], outcomes[i];
        assert conflicts[..i + 1][..i] == conflicts[..i] && outcomes[..i + 1][..i] == outcomes[..i];
        var localFile := FileOf(s, c);
        var ok := false;
        match ActionFor(s, c) {
          case LocalWins => ok := o.transfer.Arrived?;
          case RemoteWins => ok := Pull(localFile, o.transfer);
          case KeepBothCopies =>
            var moved := KeepLocalConflictCopy(localFile, s.day, o.renameWorks);
            if !moved.MoveFailed? { ok := Pull(localFile, o.transfer); }
        }
        if ok {
          resolved := resolved + 1;
        } else {
          unresolved := unresolved + [c];
        }
      }
      assert conflicts[..|conflicts|] == conflicts && outcomes[..|outcomes|] == outcomes;
    }
  }

  lemma FirstIsUnique(base: string, j: nat, k: nat, taken: set<string>)
    requires Name(base, j) !in taken && forall i: nat :: i < j ==> Name(base, i) in taken
    requires Name(base, k) !in taken && forall i: nat :: i < k ==> Name(base, i) in taken
    ensures j == k
  {
  }

  // -------------------------------------------------------------------------
  // Nothing is lost
  // -------------------------------------------------------------------------

  /** Every file of `before` has a place of its own in `after`, with the same content. */
  predicate Places(place: map<string, string>, before: Files, after: Files) {
    && place.Keys == before.Keys
    && (forall p :: p in place ==> place[p] in after && after[place[p]] == before[p])
    && (forall p, q :: p in place && q in place && p != q ==> place[p] != place[q])
  }

  function ConflictFiles(s: Setting, conflicts: seq<Conflict>): set<string> {
    set c | c in conflicts :: FileOf(s, c)
  }

  predicate NoRemoteWins(s: Setting, conflicts: seq<Conflict>) {
    forall c :: c in conflicts ==> !ActionFor(s, c).RemoteWins?
  }

  /** One side overwrites the other only by role, or by being strictly newer; everything else keeps both. */
  lemma WinnerExactly(s: Setting, c: Conflict)
    ensures ActionFor(s, c).RemoteWins? <==>
            || (s.strategy.SourceWins? && s.roleIsTarget)
            || (s.strategy.NewerWins? && c.localMtime.Some? && c.remoteMtime.Some? && c.localMtime.value < c.remoteMtime.value)
    ensures ActionFor(s, c).LocalWins? <==>
            || (s.strategy.SourceWins? && !s.roleIsTarget)
            || (s.strategy.NewerWins? && c.localMtime.Some? && c.remoteMtime.Some? && c.localMtime.value > c.remoteMtime.value)
  {
  }

  /** Where a file is after its place was moved aside. */
  function MovedPlace(place: map<string, string>, file: string, copy: string): map<string, string> {
    map p | p in place :: if place[p] == file then copy else place[p]
  }

  lemma OneConflict(place: map<string, string>, before: Files, files: Files, file: string, action: Action, day: string, o: Outcome)
    returns (place': map<string, string>)
    requires Places(place, before, files) && !action.RemoteWins?
    ensures Places(place', before, Resolved(files, file, action, day, o))
    ensures forall p :: p in place && place[p] != file ==> place'[p] == place[p]
  {
    place' := place;
    if action.KeepBothCopies? && (file !in files || o.renameWorks) {
      if file in files {
        place' := MovedPlace(place, file, CopyPath(files, file, day));
      }
      assert forall p :: p in place' ==> place'[p] != file;
    }
  }

  /**
   Where the remote side may not overwrite: for every list of conflicts, and
   whichever renames and transfers fail and whatever they leave behind, every
   content there was before is still there at a path of its own, and every file
   outside the conflicts is where it was.
   */
  lemma {:induction false} NothingIsLost(files: Files, s: Setting, conflicts: seq<Conflict>, outcomes: seq<Outcome>)
    returns (place: map<string, string>)
    requires |conflicts| == |outcomes| && NoRemoteWins(s, conflicts)
    ensures Places(place, files, ResolveAll(files, s, conflicts, outcomes))
    ensures forall p :: p in files && p !in ConflictFiles(s, conflicts) ==> place[p] == p
  {
    if conflicts == [] {
      place := map p | p in files :: p;
    } else {
      var n := |conflicts| - 1;
      var earlier := NothingIsLost(files, s, conflicts[..n], outcomes[..n]);
      var file := FileOf(s, conflicts[n]);
      assert conflicts[n] in conflicts && file in ConflictFiles(s, conflicts);
      place := OneConflict(earlier, files, ResolveAll(files, s, conflicts[..n], outcomes[..n]), file, ActionFor(s, conflicts[n]), s.day, outcomes[n]);
    }
  }

  /** A resolved keep-both leaves the remote version in place and the local one beside it. */
  lemma BothAreThere(files: Files, file: string, day: string, o: Outcome)
    requires Succeeds(files, file, KeepBothCopies, o)
    ensures var after := Resolved(files, file, KeepBothCopies, day, o);
            && file in after && after[file] == o.transfer.content
            && (file in files ==> CopyPath(files, file, day) in after && after[CopyPath(files, file, day)] == files[file])
  {
  }

  predicate DistinctFiles(s: Setting, conflicts: seq<Conflict>) {
    forall i, j :: 0 <= i < j < |conflicts| ==> FileOf(s, conflicts[i]) != FileOf(s, conflicts[j])
  }

  /** Resolving one conflict does not touch a file of another one. */
  lemma OthersStay(files: Files, file: string, other: string, action: Action, day: string, o: Outcome)
    requires other in files && other != file
    ensures var after := Resolved(files, file, action, day, o); other in after && after[other] == files[other]
  {
  }

  /**
   In a list of conflicts over different files, a keep-both that succeeds has the
   remote version at its path when the list is done, whatever happens to the rest;
   the local one is still there by `NothingIsLost`.
   */
  lemma {:induction false} RemoteArrives(files: Files, s: Setting, conflicts: seq<Conflict>, outcomes: seq<Outcome>, i: nat)
    requires |conflicts| == |outcomes| && i < |conflicts| && DistinctFiles(s, conflicts)
    requires ActionFor(s, conflicts[i]).KeepBothCopies?
    requires Succeeds(ResolveAll(files, s, conflicts[..i], outcomes[..i]), FileOf(s, conflicts[i]), KeepBothCopies, outcomes[i])
    ensures var after := ResolveAll(files, s, conflicts, outcomes);
            FileOf(s, conflicts[i]) in after && after[FileOf(s, conflicts[i])] == outcomes[i].transfer.content
  {
    var n := |conflicts| - 1;
    var before := ResolveAll(files, s, conflicts[..n], outcomes[..n]);
    if i == n {
      BothAreThere(before, FileOf(s, conflicts[n]), s.day, outcomes[n]);
    } else {
      assert conflicts[..n][..i] == conflicts[..i] && outcomes[..n][..i] == outcomes[..i];
      RemoteArrives(files, s, conflicts[..n], outcomes[..n], i);
      OthersStay(before, FileOf(s, conflicts[n]), FileOf(s, conflicts[i]), ActionFor(s, conflicts[n]), s.day, outcomes[n]);
    }
  }

  ghost predicate Survives(before: Files, after: Files) {
    exists place :: Places(place, before, after)
  }

  ghost predicate NeverLoses(s: Setting, conflicts: seq<Conflict>) {
    forall files, outcomes :: |outcomes| == |conflicts| ==> Survives(files, ResolveAll(files, s, conflicts, outcomes))
  }

  /** A list of conflicts can cost a local content exactly when the remote side may overwrite in one of them. */
  lemma LossExactly(s: Setting, conflicts: seq<Conflict>)
    ensures NeverLoses(s, conflicts) <==> NoRemoteWins(s, conflicts)
  {
    if NoRemoteWins(s, conflicts) {
      forall files, outcomes: seq<Outcome> | |outcomes| == |conflicts|
        ensures Survives(files, ResolveAll(files, s, conflicts, outcomes))
      {
        var place := NothingIsLost(files, s, conflicts, outcomes);
      }
    } else {
      var k :| 0 <= k < |conflicts| && ActionFor(s, conflicts[k]).RemoteWins?;
      var file := FileOf(s, conflicts[k]);
      var outcomes := OnlyArrival(|conflicts|, k);
      Overwritten(s, conflicts, k, file, |conflicts|);
      assert conflicts[..|conflicts|] == conflicts && outcomes[..|conflicts|] == outcomes;
      var files: Files := map[file := "a"];
      ContentIsGone(files, file);
      assert !Survives(files, ResolveAll(files, s, conflicts, outcomes));
    }
  }

  /** In terms of what the caller knows: nothing can be lost unless the remote role or a strictly newer remote side wins. */
  lemma LossByStrategy(s: Setting, conflicts: seq<Conflict>)
    ensures NeverLoses(s, conflicts) <==>
            forall c :: c in conflicts ==>
              !(s.strategy.SourceWins? && s.roleIsTarget)
              && !(s.strategy.NewerWins? && c.localMtime.Some? && c.remoteMtime.Some? && c.localMtime.value < c.remoteMtime.value)
  {
    LossExactly(s, conflicts);
    forall c { WinnerExactly(s, c); }
  }

  /** One transfer arrives, nothing else works. */
  function OnlyArrival(n: nat, k: nat): (outcomes: seq<Outcome>)
    ensures |outcomes| == n
  {
    seq(n, i => if i == k then Outcome(true, Arrived("b")) else Outcome(false, Broken(None)))
  }

  lemma {:induction false} Overwritten(s: Setting, conflicts: seq<Conflict>, k: nat, file: string, n: nat)
    requires k < |conflicts| && n <= |conflicts|
    requires ActionFor(s, conflicts[k]).RemoteWins? && file == FileOf(s, conflicts[k])
    ensures ResolveAll(map[file := "a"], s, conflicts[..n], OnlyArrival(|conflicts|, k)[..n]) ==
            map[file := if n <= k then "a" else "b"]
  {
    if n > 0 {
      var outcomes := OnlyArrival(|conflicts|, k);
      Overwritten(s, conflicts, k, file, n - 1);
      assert conflicts[..n][..n - 1] == conflicts[..n - 1] && outcomes[..n][..n - 1] == outcomes[..n - 1];
    }
  }

  lemma ContentIsGone(files: Files, file: string)
    requires files == map[file := "a"]
    ensures !Survives(files, map[file := "b"])
  {
    assert file in files.Keys;
    if place :| Places(place, files, map[file := "b"]) {
      assert false;
    }
  }
}
