/**
 The bisync workdir: what its directory entries say about the listing pair,
 and what the recorded filter fingerprint says about the filter universe
 (packages/daemon/src/bisync-baseline.ts).
 */
module BisyncBaseline {
  import opened Wrappers
  import opened Text

  // -------------------------------------------------------------------------
  // The filter universe and its fingerprint
  // -------------------------------------------------------------------------

  /** Git-ignore rules (None when `respectGitignore` is off) and `.lamasyncignore` patterns. */
  datatype Universe = Universe(rules: Option<seq<string>>, patterns: seq<string>)

  /** SHA-256 as a free injective symbol. */
  datatype Digest = Sha256(preimage: string)

  function RulesOf(u: Universe): seq<string> {
    if u.rules.Some? then u.rules.value else []
  }

  /** The bytes rclone receives through `--filter-from`; no file at all reads as "". */
  function FilterText(u: Universe): string {
    var lines := RulesOf(u) + u.patterns;
    if lines == [] then "" else Join(lines, '\n') + "\n"
  }

  /** A universe with neither rules nor patterns configured has no fingerprint. */
  predicate Checked(u: Universe) {
    u.rules.Some? || u.patterns != []
  }

  function Fingerprint(u: Universe): Digest {
    Sha256(Join(RulesOf(u), '\n') + ['\0'] + Join(u.patterns, '\n'))
  }

  /** The hash of the Git-ignore rules alone, when a Git-ignore filter file exists. */
  function LegacyFingerprint(u: Universe): Option<Digest> {
    if u.rules.Some? && RulesOf(u) + u.patterns != []
    then Some(Sha256(Join(u.rules.value, '\n')))
    else None
  }

  /** Rules are file names (no NUL) behind "- "; patterns are trimmed non-blank lines. */
  predicate WellFormed(u: Universe) {
    && (forall i :: 0 <= i < |RulesOf(u)| ==> RulesOf(u)[i] != "" && '\0' !in RulesOf(u)[i])
    && (forall i :: 0 <= i < |u.patterns| ==> u.patterns[i] != "")
  }

  lemma {:induction false} JoinAvoids(parts: seq<string>, sep: char, c: char)
    requires c != sep
    requires forall i :: 0 <= i < |parts| ==> c !in parts[i]
    ensures c !in Join(parts, sep)
  {
    if |parts| > 1 { JoinAvoids(parts[1..], sep, c); }
  }

  lemma {:induction false} JoinAppend(a: seq<string>, b: seq<string>, sep: char)
    requires a != [] && b != []
    ensures Join(a + b, sep) == Join(a, sep) + [sep] + Join(b, sep)
  {
    assert (a + b)[0] == a[0];
    if |a| == 1 {
      assert (a + b)[1..] == b;
    } else {
      assert (a + b)[1..] == a[1..] + b;
      JoinAppend(a[1..], b, sep);
    }
  }

  lemma JoinEmpty(parts: seq<string>, sep: char)
    requires forall i :: 0 <= i < |parts| ==> parts[i] != ""
    ensures Join(parts, sep) == "" <==> parts == []
  {
    if parts != [] {
      assert parts[0] != "";
    }
  }

  /** The filter file, read off the two joined halves. */
  lemma FilterTextByHalves(u: Universe)
    requires WellFormed(u)
    ensures var r := Join(RulesOf(u), '\n');
            var p := Join(u.patterns, '\n');
            FilterText(u) ==
            if r == "" && p == "" then ""
            else if r == "" then p + "\n"
            else if p == "" then r + "\n"
            else r + "\n" + p + "\n"
  {
    var a, b := RulesOf(u), u.patterns;
    JoinEmpty(a, '\n');
    JoinEmpty(b, '\n');
    if a != [] && b != [] {
      JoinAppend(a, b, '\n');
    } else if a != [] {
      assert a + b == a;
    } else {
      assert a + b == b;
    }
  }

  /** Equal fingerprints mean rclone filters with the same bytes. */
  lemma FingerprintFixesFilter(u: Universe, v: Universe)
    requires WellFormed(u) && WellFormed(v)
    requires Fingerprint(u) == Fingerprint(v)
    ensures FilterText(u) == FilterText(v)
  {
    JoinAvoids(RulesOf(u), '\n', '\0');
    JoinAvoids(RulesOf(v), '\n', '\0');
    CutUnique(Join(RulesOf(u), '\n'), Join(u.patterns, '\n'),
              Join(RulesOf(v), '\n'), Join(v.patterns, '\n'), '\0');
    FilterTextByHalves(u);
    FilterTextByHalves(v);
  }

  /** The fingerprint of a universe that filters nothing is the digest of a lone NUL. */
  lemma EmptyFilterFingerprint(u: Universe)
    requires WellFormed(u)
    ensures FilterText(u) == "" <==> Fingerprint(u) == Sha256(['\0'])
  {
    FilterTextByHalves(u);
    var r, p := Join(RulesOf(u), '\n'), Join(u.patterns, '\n');
    assert |r + ['\0'] + p| == |r| + 1 + |p|;
  }

  datatype Verdict = Verdict(changed: bool, acknowledge: Digest)

  function ReconcileFingerprint(stored: Option<Digest>, unified: Digest, gitignoreOnly: Option<Digest>): Verdict {
    if stored.None? then Verdict(true, unified)
    else if stored.value == unified then Verdict(false, unified)
    else if gitignoreOnly.Some? && stored.value == gitignoreOnly.value then Verdict(false, unified)
    else Verdict(true, unified)
  }

  // -------------------------------------------------------------------------
  // The workdir
  // -------------------------------------------------------------------------

  /** A listing carries the universe rclone walked the tree under. */
  datatype File = Listing(built: Universe) | Recorded(digest: Digest) | Other

  type Dir = map<string, File>

  const FINGERPRINT := ".filter-fingerprint"
  const LEGACY := ".filter-snapshot.hash"
  const RESYNC_REQUIRED := ".resync-required"
  const PATH1 := ".path1.lst"
  const PATH2 := ".path2.lst"
  const PATH1_NEW := ".path1.lst-new"
  const PATH2_NEW := ".path2.lst-new"
  const ERROR := ".lst-err"

  function ReadRecorded(d: Dir, name: string): Option<Digest> {
    if name in d && d[name].Recorded? then Some(d[name].digest) else None
  }

  function ReadAcknowledged(d: Dir): Option<Digest> {
    var current := ReadRecorded(d, FINGERPRINT);
    if current.Some? then current else ReadRecorded(d, LEGACY)
  }

  /** `stem` has both of its listings among `names`. */
  predicate Paired(names: set<string>, stem: string) {
    stem + PATH1 in names && stem + PATH2 in names
  }

  predicate InFlight(names: set<string>, stem: string) {
    stem + PATH1_NEW in names || stem + PATH2_NEW in names
  }

  ghost predicate HasError(names: set<string>) {
    exists stem :: stem + ERROR in names
  }

  ghost predicate Present(names: set<string>) {
    exists stem :: Paired(names, stem)
  }

  /** Only a complete pair with no error marker and no in-flight write is a baseline. */
  ghost predicate Ready(names: set<string>) {
    && Present(names)
    && !HasError(names)
    && forall stem :: Paired(names, stem) ==> !InFlight(names, stem)
  }

  datatype Inspection = Inspection(present: bool, ready: bool, error: bool, stems: set<string>, updatedAt: Option<int>)

  function Stripped(name: string, suffix: string): (stem: string)
    requires EndsWith(name, suffix)
    ensures stem + suffix == name
  {
    name[..|name| - |suffix|]
  }

  /** A name has at most one stem for a suffix. */
  lemma StemOf(name: string, suffix: string)
    ensures forall stem :: stem + suffix == name <==> EndsWith(name, suffix) && stem == Stripped(name, suffix)
  {
    forall stem
      ensures stem + suffix == name <==> EndsWith(name, suffix) && stem == Stripped(name, suffix)
    {
      if stem + suffix == name {
        assert name[|stem|..] == suffix && name[..|stem|] == stem;
      }
    }
  }

  /** Two suffixes that differ `k` characters from the end exclude one another. */
  lemma SuffixClash(name: string, a: string, b: string, k: nat)
    requires 1 <= k <= |a| && k <= |b| && a[|a| - k] != b[|b| - k]
    ensures !(EndsWith(name, a) && EndsWith(name, b))
  {
    if EndsWith(name, a) {
      assert name[|name| - |a|..][|a| - k] == name[|name| - k];
    }
    if EndsWith(name, b) {
      assert name[|name| - |b|..][|b| - k] == name[|name| - k];
    }
  }

  /** The suffixes exclude one another, so the order of the tests is immaterial. */
  lemma SuffixesApart(name: string)
    ensures !(EndsWith(name, ERROR) && EndsWith(name, PATH1_NEW)) && !(EndsWith(name, ERROR) && EndsWith(name, PATH2_NEW))
    ensures !(EndsWith(name, ERROR) && EndsWith(name, PATH1)) && !(EndsWith(name, ERROR) && EndsWith(name, PATH2))
    ensures !(EndsWith(name, PATH1_NEW) && EndsWith(name, PATH2_NEW)) && !(EndsWith(name, PATH1) && EndsWith(name, PATH2))
    ensures !(EndsWith(name, PATH1_NEW) && EndsWith(name, PATH1)) && !(EndsWith(name, PATH1_NEW) && EndsWith(name, PATH2))
    ensures !(EndsWith(name, PATH2_NEW) && EndsWith(name, PATH1)) && !(EndsWith(name, PATH2_NEW) && EndsWith(name, PATH2))
  {
    SuffixClash(name, ERROR, PATH1_NEW, 1);
    SuffixClash(name, ERROR, PATH2_NEW, 1);
    SuffixClash(name, ERROR, PATH1, 1);
    SuffixClash(name, ERROR, PATH2, 1);
    SuffixClash(name, PATH1_NEW, PATH2_NEW, 9);
    SuffixClash(name, PATH1, PATH2, 5);
    SuffixClash(name, PATH1_NEW, PATH1, 1);
    SuffixClash(name, PATH1_NEW, PATH2, 1);
    SuffixClash(name, PATH2_NEW, PATH1, 1);
    SuffixClash(name, PATH2_NEW, PATH2, 1);
  }

  type Entries = map<string, Option<int>>

  datatype Sorted = Sorted(path1: map<string, int>, path2: map<string, int>, inFlight: set<string>, error: bool)

  /** `m` holds the stems of the readable listings among `done`, with their times. */
  ghost predicate ListingsOf(m: map<string, int>, entries: Entries, done: set<string>, suffix: string)
    requires done <= entries.Keys
  {
    && (forall s :: s in m ==> s + suffix in done && entries[s + suffix] == Some(m[s]))
    && (forall s :: s + suffix in done && entries[s + suffix].Some? ==> s in m)
  }

  ghost predicate Sorts(r: Sorted, entries: Entries, done: set<string>)
    requires done <= entries.Keys
  {
    && ListingsOf(r.path1, entries, done, PATH1)
    && ListingsOf(r.path2, entries, done, PATH2)
    && (forall s :: s in r.inFlight <==> InFlight(done, s))
    && (r.error <==> HasError(done))
  }

  function Place(r: Sorted, name: string, mtime: Option<int>): Sorted {
    if EndsWith(name, ERROR) then r.(error := true)
    else if EndsWith(name, PATH1_NEW) then r.(inFlight := r.inFlight + {Stripped(name, PATH1_NEW)})
    else if EndsWith(name, PATH2_NEW) then r.(inFlight := r.inFlight + {Stripped(name, PATH2_NEW)})
    else if EndsWith(name, PATH1) then
      if mtime.Some? then r.(path1 := r.path1[Stripped(name, PATH1) := mtime.value]) else r
    else if EndsWith(name, PATH2) then
      if mtime.Some? then r.(path2 := r.path2[Stripped(name, PATH2) := mtime.value]) else r
    else r
  }

  lemma PlaceListing(m: map<string, int>, entries: Entries, done: set<string>, name: string, suffix: string)
    requires done <= entries.Keys && name in entries && ListingsOf(m, entries, done, suffix)
    ensures ListingsOf(if EndsWith(name, suffix) && entries[name].Some?
                       then m[Stripped(name, suffix) := entries[name].value] else m,
                       entries, done + {name}, suffix)
  {
    StemOf(name, suffix);
  }

  lemma PlaceInFlight(inFlight: set<string>, done: set<string>, name: string)
    requires forall s :: s in inFlight <==> InFlight(done, s)
    ensures forall s :: InFlight(done + {name}, s) <==>
                        s in inFlight
                        || (EndsWith(name, PATH1_NEW) && s == Stripped(name, PATH1_NEW))
                        || (EndsWith(name, PATH2_NEW) && s == Stripped(name, PATH2_NEW))
  {
    StemOf(name, PATH1_NEW);
    StemOf(name, PATH2_NEW);
  }

  lemma PlaceError(done: set<string>, name: string)
    ensures HasError(done + {name}) <==> HasError(done) || EndsWith(name, ERROR)
  {
    StemOf(name, ERROR);
    if EndsWith(name, ERROR) {
      assert Stripped(name, ERROR) + ERROR in done + {name};
    }
    if s :| s + ERROR in done {
      assert s + ERROR in done + {name};
    }
  }

  lemma PlaceSorts(r: Sorted, entries: Entries, done: set<string>, name: string)
    requires done <= entries.Keys && name in entries && Sorts(r, entries, done)
    ensures Sorts(Place(r, name, entries[name]), entries, done + {name})
  {
    SuffixesApart(name);
    PlaceError(done, name);
    PlaceInFlight(r.inFlight, done, name);
    PlaceListing(r.path1, entries, done, name, PATH1);
    PlaceListing(r.path2, entries, done, name, PATH2);
  }

  /** The names whose modification time could be read. */
  function Readable(entries: Entries): set<string> {
    set n | n in entries && entries[n].Some?
  }

  /**
   One pass over the directory in whatever order it is read, then one pass over
   the `path1` listings. A listing that cannot be read back does not count.
   */
  method InspectBisyncBaseline(entries: Entries) returns (r: Inspection)
    ensures r.error == HasError(entries.Keys)
    ensures forall s :: s in r.stems <==> Paired(Readable(entries), s)
    ensures r.present <==> r.stems != {}
    ensures r.ready <==> r.present && !r.error && forall s :: s in r.stems ==> !InFlight(entries.Keys, s)
    ensures Newest(entries, r.stems, r.updatedAt)
  {
    var sorted := Sorted(map[], map[], {}, false);
    var todo := entries.Keys;
    ghost var done: set<string> := {};
    while todo != {}
      invariant done + todo == entries.Keys
      invariant Sorts(sorted, entries, done)
      decreases todo
    {
      var name :| name in todo;
      PlaceSorts(sorted, entries, done, name);
      sorted := Place(sorted, name, entries[name]);
      todo, done := todo - {name}, done + {name};
    }
    assert done == entries.Keys;
    var stems, updatedAt := NewestPair(sorted.path1, sorted.path2);
    NewestEntry(sorted, entries, stems, updatedAt);
    var present := stems != {};
    r := Inspection(present, present && !sorted.error && stems !! sorted.inFlight, sorted.error, stems, updatedAt);
  }

  /** The stems listed on both sides and the newest of their listings. */
  method NewestPair(path1: map<string, int>, path2: map<string, int>) returns (stems: set<string>, updatedAt: Option<int>)
    ensures stems == path1.Keys * path2.Keys
    ensures IsNewest(path1, path2, stems, updatedAt)
  {
    stems, updatedAt := {}, None;
    var left := path1.Keys;
    while left != {}
      invariant left <= path1.Keys
      invariant stems == (path1.Keys - left) * path2.Keys
      invariant IsNewest(path1, path2, stems, updatedAt)
      decreases left
    {
      var stem :| stem in left;
      left := left - {stem};
      if stem in path2 {
        stems := stems + {stem};
        var newest := if path1[stem] >= path2[stem] then path1[stem] else path2[stem];
        if updatedAt.None? || newest > updatedAt.value {
          updatedAt := Some(newest);
        }
      }
    }
  }

  ghost predicate IsNewest(path1: map<string, int>, path2: map<string, int>, stems: set<string>, newest: Option<int>)
    requires stems <= path1.Keys && stems <= path2.Keys
  {
    && (newest.Some? <==> stems != {})
    && (newest.Some? ==>
          && (exists s :: s in stems && (newest.value == path1[s] || newest.value == path2[s]))
          && (forall s :: s in stems ==> path1[s] <= newest.value && path2[s] <= newest.value))
  }

  lemma NewestEntry(sorted: Sorted, entries: Entries, stems: set<string>, updatedAt: Option<int>)
    requires ListingsOf(sorted.path1, entries, entries.Keys, PATH1) && ListingsOf(sorted.path2, entries, entries.Keys, PATH2)
    requires stems == sorted.path1.Keys * sorted.path2.Keys
    requires IsNewest(sorted.path1, sorted.path2, stems, updatedAt)
    ensures Newest(entries, stems, updatedAt)
  {
    if updatedAt.Some? {
      var s :| s in stems && (updatedAt.value == sorted.path1[s] || updatedAt.value == sorted.path2[s]);
      assert entries[s + PATH1] == updatedAt || entries[s + PATH2] == updatedAt;
    }
  }

  /** `newest` is the largest modification time among the listings of `stems`. */
  ghost predicate Newest(entries: Entries, stems: set<string>, newest: Option<int>) {
    && (newest.Some? <==> stems != {})
    && (forall s :: s in stems ==> s + PATH1 in entries && s + PATH2 in entries)
    && (newest.Some? ==> exists s :: s in stems && newest in [entries[s + PATH1], entries[s + PATH2]])
    && (newest.Some? ==> forall s :: s in stems ==>
          && entries[s + PATH1].Some? && entries[s + PATH1].value <= newest.value
          && entries[s + PATH2].Some? && entries[s + PATH2].value <= newest.value)
  }
}
