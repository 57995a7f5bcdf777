/**
 The temporary relay of a seed archive (packages/core/src/seed-relay.ts): the
 content-identity string of a manifest, the check of a transported manifest,
 the object keys and the orphan sweep.
 */
module SeedRelay {
  import opened Wrappers
  import opened Text

  const PATH_MAX_LENGTH := 4096
  const ENTRY_LIMIT := 2_000_000
  const MAX_SAFE := 0x1F_FFFF_FFFF_FFFF

  datatype Kind = File | Dir | OtherKind

  /** `mtime` is None when the number read is not finite. */
  datatype Entry = Entry(path: string, kind: Kind, size: int, mtime: Option<int>, sha256: Option<string>)

  datatype Document = Document(
    version: int, fingerprint: string, filterFingerprint: Option<string>,
    fileCount: int, dirCount: int, totalBytes: int, entries: seq<Entry>)

  // -------------------------------------------------------------------------
  // Fields
  // -------------------------------------------------------------------------

  predicate HexDigit(c: char) {
    '0' <= c <= '9' || 'a' <= c <= 'f'
  }

  /** The lowercase 64-character form every digest has. */
  predicate Sha256Hex(s: string) {
    |s| == 64 && forall i :: 0 <= i < |s| ==> HexDigit(s[i])
  }

  predicate SafeCount(n: int) {
    0 <= n <= MAX_SAFE
  }

  predicate Control(c: char) {
    c as int < 0x20 || c as int == 0x7f
  }

  predicate HasControl(s: string) {
    exists i :: 0 <= i < |s| && Control(s[i])
  }

  predicate BadSegment(segment: string) {
    segment == "" || segment == "." || segment == ".."
  }

  predicate SafePath(path: string) {
    && 0 < |path| <= PATH_MAX_LENGTH
    && path[0] != '/' && '\\' !in path && !HasControl(path)
    && forall i :: 0 <= i < |Split(path, '/')| ==> !BadSegment(Split(path, '/')[i])
  }

  /** A member a target can extract and check. */
  predicate ValidEntry(e: Entry) {
    && !e.kind.OtherKind? && SafePath(e.path) && SafeCount(e.size) && e.mtime.Some?
    && (e.kind.File? ==> e.sha256.Some? && Sha256Hex(e.sha256.value))
    && (e.kind.Dir? ==> e.sha256.None?)
  }

  predicate AllValid(entries: seq<Entry>) {
    forall i :: 0 <= i < |entries| ==> ValidEntry(entries[i])
  }

  // -------------------------------------------------------------------------
  // The content-identity string
  // -------------------------------------------------------------------------

  function KindText(k: Kind): string {
    match k
    case File => "file"
    case Dir => "dir"
    case OtherKind => "other"
  }

  function ShaText(e: Entry): string {
    if e.sha256.Some? then e.sha256.value else "-"
  }

  function Line(e: Entry): string {
    e.path + ['\0'] + (KindText(e.kind) + ['\0'] + (Number(e.size) + ['\0'] + (ShaText(e) + "\n")))
  }

  function DigestInput(entries: seq<Entry>): string {
    if entries == [] then "" else Line(entries[0]) + DigestInput(entries[1..])
  }

  lemma Regroup3(a: string, b: string, c: string)
    ensures (a + b) + c == a + (b + c)
  {
  }

  method SeedManifestContentDigestInput(entries: seq<Entry>) returns (out: string)
    ensures out == DigestInput(entries)
  {
    out := "";
    for i := 0 to |entries|
      invariant out + DigestInput(entries[i..]) == DigestInput(entries)
    {
      assert entries[i..][1..] == entries[i + 1..];
      ghost var rest := DigestInput(entries[i + 1..]);
      var line := Line(entries[i]);
      Regroup3(out, line, rest);
      out := out + line;
    }
  }

  /** Two entries agree on everything the string is about. */
  predicate SameContent(a: Entry, b: Entry) {
    a.path == b.path && a.kind == b.kind && a.size == b.size && a.sha256 == b.sha256
  }

  lemma FieldsAvoidSeparators(e: Entry)
    requires ValidEntry(e)
    ensures '\0' !in e.path && '\0' !in KindText(e.kind) && '\0' !in Number(e.size) && '\n' !in ShaText(e)
  {
    assert Control('\0');
    DecimalAvoids(e.size, '\0');
    assert !HexDigit('\n');
  }

  lemma Regroup(path: string, kind: string, size: string, sha: string, rest: string)
    ensures path + ['\0'] + (kind + ['\0'] + (size + ['\0'] + (sha + "\n"))) + rest ==
            path + ['\0'] + (kind + ['\0'] + (size + ['\0'] + (sha + ['\n'] + rest)))
  {
  }

  /** The first line of a text can be read back. */
  lemma LineDecodes(a: Entry, restA: string, b: Entry, restB: string)
    requires ValidEntry(a) && ValidEntry(b)
    requires Line(a) + restA == Line(b) + restB
    ensures SameContent(a, b) && restA == restB
  {
    FieldsAvoidSeparators(a);
    FieldsAvoidSeparators(b);
    Regroup(a.path, KindText(a.kind), Number(a.size), ShaText(a), restA);
    Regroup(b.path, KindText(b.kind), Number(b.size), ShaText(b), restB);
    var shaA, shaB := ShaText(a) + ['\n'] + restA, ShaText(b) + ['\n'] + restB;
    var sizeA, sizeB := Number(a.size) + ['\0'] + shaA, Number(b.size) + ['\0'] + shaB;
    var kindA, kindB := KindText(a.kind) + ['\0'] + sizeA, KindText(b.kind) + ['\0'] + sizeB;
    CutUnique(a.path, kindA, b.path, kindB, '\0');
    CutUnique(KindText(a.kind), sizeA, KindText(b.kind), sizeB, '\0');
    CutUnique(Number(a.size), shaA, Number(b.size), shaB, '\0');
    CutUnique(ShaText(a), restA, ShaText(b), restB, '\n');
    DecimalInjective(a.size, b.size);
    assert |KindText(File)| != |KindText(Dir)|;
    assert |"-"| != 64;
  }

  /**
   The identity string is uniquely decodable: two member lists that pass the
   check and give the same string agree, member by member and in order.
   */
  lemma {:induction false} DigestInputDecodes(a: seq<Entry>, b: seq<Entry>)
    requires AllValid(a) && AllValid(b)
    requires DigestInput(a) == DigestInput(b)
    ensures |a| == |b| && forall i :: 0 <= i < |a| ==> SameContent(a[i], b[i])
  {
    if a != [] && b != [] {
      assert ValidEntry(a[0]) && ValidEntry(b[0]) && AllValid(a[1..]) && AllValid(b[1..]);
      LineDecodes(a[0], DigestInput(a[1..]), b[0], DigestInput(b[1..]));
      DigestInputDecodes(a[1..], b[1..]);
      forall i | 0 <= i < |a|
        ensures SameContent(a[i], b[i])
      {
        if i > 0 { assert a[i] == a[1..][i - 1] && b[i] == b[1..][i - 1]; }
      }
    }
  }

  // -------------------------------------------------------------------------
  // The check of a transported manifest
  // -------------------------------------------------------------------------

  function CountKind(entries: seq<Entry>, kind: Kind): (n: nat)
    ensures n <= |entries|
  {
    if entries == [] then 0
    else CountKind(entries[..|entries| - 1], kind) + if entries[|entries| - 1].kind == kind then 1 else 0
  }

  function FileBytes(entries: seq<Entry>): int {
    if entries == [] then 0
    else FileBytes(entries[..|entries| - 1]) + if entries[|entries| - 1].kind.File? then entries[|entries| - 1].size else 0
  }

  /** Every field describes the members, and every member can be checked. */
  predicate ValidDocument(d: Document) {
    && d.version == 1 && Sha256Hex(d.fingerprint) && (d.filterFingerprint.Some? ==> Sha256Hex(d.filterFingerprint.value))
    && |d.entries| <= ENTRY_LIMIT
    && AllValid(d.entries)
    && d.fileCount == CountKind(d.entries, File) && d.dirCount == CountKind(d.entries, Dir)
    && d.totalBytes == FileBytes(d.entries) && SafeCount(d.totalBytes)
  }

  lemma {:induction false} KindsAddUp(entries: seq<Entry>)
    requires AllValid(entries)
    ensures CountKind(entries, File) + CountKind(entries, Dir) == |entries|
  {
    if entries != [] {
      assert ValidEntry(entries[|entries| - 1]);
      KindsAddUp(entries[..|entries| - 1]);
    }
  }

  lemma NextValid(entries: seq<Entry>, i: nat)
    requires i < |entries|
    ensures AllValid(entries[..i + 1]) <==> AllValid(entries[..i]) && ValidEntry(entries[i])
    ensures AllValid(entries) ==> ValidEntry(entries[i])
  {
    assert forall k :: 0 <= k < i ==> entries[..i + 1][k] == entries[..i][k];
    assert entries[..i + 1][i] == entries[i];
  }

  /** `ok` is the null answer of `seedManifestDocumentProblem`. */
  method SeedManifestDocumentOk(d: Document) returns (ok: bool)
    ensures ok <==> ValidDocument(d)
  {
    if d.version != 1 { return false; }
    if !Sha256Hex(d.fingerprint) { return false; }
    if d.filterFingerprint.Some? && !Sha256Hex(d.filterFingerprint.value) { return false; }
    if !SafeCount(d.fileCount) || !SafeCount(d.dirCount) || !SafeCount(d.totalBytes) { return false; }
    if |d.entries| > ENTRY_LIMIT { return false; }
    if |d.entries| != d.fileCount + d.dirCount {
      if AllValid(d.entries) { KindsAddUp(d.entries); }
      return false;
    }
    var files, dirs, bytes := 0, 0, 0;
    for i := 0 to |d.entries|
      invariant AllValid(d.entries[..i])
      invariant files == CountKind(d.entries[..i], File) && dirs == CountKind(d.entries[..i], Dir)
      invariant bytes == FileBytes(d.entries[..i])
    {
      var entry := d.entries[i];
      assert d.entries[..i + 1][..i] == d.entries[..i];
      NextValid(d.entries, i);
      if entry.kind.OtherKind? { return false; }
      if !SafePath(entry.path) { return false; }
      if !SafeCount(entry.size) { return false; }
      if entry.mtime.None? { return false; }
      if entry.kind.File? {
        if entry.sha256.None? || !Sha256Hex(entry.sha256.value) { return false; }
        files := files + 1;
        bytes := bytes + entry.size;
      } else {
        if entry.sha256.Some? { return false; }
        dirs := dirs + 1;
      }
    }
    assert d.entries[..|d.entries|] == d.entries;
    ok := files == d.fileCount && dirs == d.dirCount && bytes == d.totalBytes;
  }

  // -------------------------------------------------------------------------
  // Object keys
  // -------------------------------------------------------------------------

  const PREFIX := "lamasync/seed"

  predicate JobIdFirst(c: char) {
    'A' <= c <= 'Z' || 'a' <= c <= 'z' || '0' <= c <= '9'
  }

  predicate JobIdRest(c: char) {
    JobIdFirst(c) || c == '.' || c == '_' || c == '-'
  }

  predicate ValidJobId(id: string) {
    1 <= |id| <= 128 && JobIdFirst(id[0]) && forall i :: 1 <= i < |id| ==> JobIdRest(id[i])
  }

  predicate WindowsPath(key: string) {
    |key| >= 2 && ('A' <= key[0] <= 'Z' || 'a' <= key[0] <= 'z') && key[1] == ':'
  }

  datatype KeyVerdict = KeyVerdict(ok: bool, jobId: Option<string>, inNamespace: bool)

  /** The checks that do not know about the namespace. */
  predicate SafeKey(key: string) {
    && 0 < |key| <= PATH_MAX_LENGTH
    && key[0] != '/' && key[0] != '\\' && !WindowsPath(key) && '\\' !in key && !HasControl(key)
    && forall i :: 0 <= i < |Split(key, '/')| ==> !BadSegment(Split(key, '/')[i])
  }

  function ValidateObjectKey(key: string, expectedJobId: Option<string>): KeyVerdict {
    if !SafeKey(key) || !(PREFIX + "/" <= key) then KeyVerdict(false, None, false)
    else InNamespace(Split(key, '/'), |Split(PREFIX, '/')|, expectedJobId)
  }

  function InNamespace(segments: seq<string>, depth: nat, expectedJobId: Option<string>): KeyVerdict {
    if |segments| != depth + 2 then KeyVerdict(false, None, true)
    else
      var jobId := segments[depth];
      if !ValidJobId(jobId) then KeyVerdict(false, None, true)
      else if expectedJobId.Some? && jobId != expectedJobId.value then KeyVerdict(false, Some(jobId), true)
      else KeyVerdict(true, Some(jobId), true)
  }

  /** One object name inside a job's namespace. */
  predicate ObjectName(name: string) {
    !BadSegment(name) && '/' !in name && '\\' !in name && !HasControl(name)
  }

  function KeyOf(jobId: string, name: string): string {
    PREFIX + "/" + jobId + "/" + name
  }

  lemma JoinTwo(a: string, b: string)
    ensures Join([a, b], '/') == a + ['/'] + b
  {
    assert [a, b][1..] == [b];
  }

  lemma JoinFour(a: string, b: string, c: string, d: string)
    ensures Join([a, b, c, d], '/') == a + ['/'] + (b + ['/'] + (c + ['/'] + d))
  {
    assert [a, b, c, d][1..] == [b, c, d] && [b, c, d][1..] == [c, d];
    JoinTwo(c, d);
  }

  lemma TwoSplits(p: string, q: string)
    requires '/' !in p && '/' !in q
    ensures Split(p + "/" + q, '/') == [p, q]
  {
    JoinTwo(p, q);
    SplitUnique(Split(p + "/" + q, '/'), [p, q], '/');
  }

  lemma FourSplits(p: string, q: string, jobId: string, name: string)
    requires '/' !in p && '/' !in q && '/' !in jobId && '/' !in name
    ensures Split(p + "/" + q + "/" + jobId + "/" + name, '/') == [p, q, jobId, name]
  {
    JoinFour(p, q, jobId, name);
    var key := p + "/" + q + "/" + jobId + "/" + name;
    assert key == p + ['/'] + (q + ['/'] + (jobId + ['/'] + name));
    SplitUnique(Split(key, '/'), [p, q, jobId, name], '/');
  }

  /** A text in the namespace `p/q/` with four segments is `p/q/job/name`. */
  lemma FourSegments(p: string, q: string, key: string)
    requires '/' !in p && '/' !in q
    requires p + "/" + q + "/" <= key && |Split(key, '/')| == 4
    ensures var s := Split(key, '/'); key == p + "/" + q + "/" + s[2] + "/" + s[3]
  {
    var s := Split(key, '/');
    assert s == [s[0], s[1], s[2], s[3]];
    JoinFour(s[0], s[1], s[2], s[3]);
    var tail := s[2] + ['/'] + s[3];
    var after := key[|p + "/" + q + "/"|..];
    assert key == p + "/" + q + "/" + after;
    assert key == p + ['/'] + (q + ['/'] + after);
    CutUnique(s[0], s[1] + ['/'] + tail, p, q + ['/'] + after, '/');
    CutUnique(s[1], tail, q, after, '/');
    assert key == p + "/" + q + "/" + tail;
  }

  lemma Namespace(p: string, q: string)
    requires p == "lamasync" && q == "seed"
    ensures '/' !in p && '/' !in q && p + "/" + q == PREFIX && Split(PREFIX, '/') == [p, q]
  {
    TwoSplits(p, q);
  }

  lemma JobIdIsPlain(jobId: string)
    requires ValidJobId(jobId)
    ensures ObjectName(jobId)
  {
    assert !JobIdRest('/') && !JobIdRest('\\');
    if i :| 0 <= i < |jobId| && Control(jobId[i]) {
      assert JobIdRest(jobId[i]);
    }
  }

  /** A key is accepted only as one plain object name in one valid job's namespace. */
  lemma AcceptedKeyIsOneObject(key: string, expected: Option<string>)
    requires ValidateObjectKey(key, expected).ok
    ensures var jobId := ValidateObjectKey(key, expected).jobId;
            && jobId.Some? && ValidJobId(jobId.value) && (expected.Some? ==> jobId == expected)
            && exists name :: ObjectName(name) && key == KeyOf(jobId.value, name)
  {
    var p, q := "lamasync", "seed";
    Namespace(p, q);
    FourSegments(p, q, key);
    var s := Split(key, '/');
    LastSegmentIsPlain(p + "/" + q + "/" + s[2] + "/", s[3]);
    assert !BadSegment(s[3]);
    assert ObjectName(s[3]) && key == KeyOf(s[2], s[3]);
  }

  lemma LastSegmentIsPlain(head: string, name: string)
    requires Plain(head + name)
    ensures Plain(name)
  {
    assert forall i :: 0 <= i < |name| ==> name[i] == (head + name)[|head| + i];
  }

  /** Every such key of acceptable length is accepted, and names its job. */
  lemma ObjectKeysAreAccepted(jobId: string, name: string, expected: Option<string>)
    requires ValidJobId(jobId) && ObjectName(name) && |KeyOf(jobId, name)| <= PATH_MAX_LENGTH
    ensures ValidateObjectKey(KeyOf(jobId, name), expected) ==
            if expected.Some? && expected.value != jobId then KeyVerdict(false, Some(jobId), true) else KeyVerdict(true, Some(jobId), true)
  {
    var p, q := "lamasync", "seed";
    Namespace(p, q);
    JobIdIsPlain(jobId);
    FourSplits(p, q, jobId, name);
    KeyIsPlain(jobId, name);
    assert !BadSegment(p) && !BadSegment(q);
    WellFormedKey(KeyOf(jobId, name), p, q, jobId, name, expected);
  }

  lemma WellFormedKey(key: string, p: string, q: string, jobId: string, name: string, expected: Option<string>)
    requires Split(PREFIX, '/') == [p, q] && Split(key, '/') == [p, q, jobId, name]
    requires !BadSegment(p) && !BadSegment(q) && ValidJobId(jobId) && ObjectName(jobId) && ObjectName(name)
    requires Plain(key) && PREFIX + "/" <= key && 2 < |key| <= PATH_MAX_LENGTH && key[0] == 'l' && key[1] == 'a'
    ensures ValidateObjectKey(key, expected) ==
            if expected.Some? && expected.value != jobId then KeyVerdict(false, Some(jobId), true) else KeyVerdict(true, Some(jobId), true)
  {
    var segments := [p, q, jobId, name];
    forall i | 0 <= i < |segments|
      ensures !BadSegment(segments[i])
    {
      assert segments[i] == if i == 0 then p else if i == 1 then q else if i == 2 then jobId else name;
    }
    PlainKeyIsSafe(key, segments);
  }

  lemma PlainKeyIsSafe(key: string, segments: seq<string>)
    requires Plain(key) && 2 < |key| <= PATH_MAX_LENGTH && key[0] == 'l' && key[1] == 'a'
    requires Split(key, '/') == segments && forall i :: 0 <= i < |segments| ==> !BadSegment(segments[i])
    ensures SafeKey(key)
  {
  }

  lemma KeyIsPlain(jobId: string, name: string)
    requires Plain(jobId) && Plain(name)
    ensures Plain(KeyOf(jobId, name)) && PREFIX + "/" <= KeyOf(jobId, name)
    ensures var key := KeyOf(jobId, name); |key| > 2 && key[0] == 'l' && key[1] == 'a'
  {
    PlainConcat(PREFIX, "/");
    PlainConcat(PREFIX + "/", jobId);
    PlainConcat(PREFIX + "/" + jobId, "/");
    PlainConcat(PREFIX + "/" + jobId + "/", name);
  }

  predicate Plain(s: string) {
    '\\' !in s && !HasControl(s)
  }

  lemma PlainConcat(a: string, b: string)
    requires Plain(a) && Plain(b)
    ensures Plain(a + b)
  {
    if i :| 0 <= i < |a + b| && Control((a + b)[i]) {
      assert if i < |a| then Control(a[i]) else Control(b[i - |a|]);
    }
  }

  // -------------------------------------------------------------------------
  // The orphan sweep
  // -------------------------------------------------------------------------

  predicate Invalid(key: string) {
    !ValidateObjectKey(key, None).ok
  }

  predicate Orphan(key: string, known: set<string>) {
    var v := ValidateObjectKey(key, None);
    v.ok && v.jobId.Some? && v.jobId.value !in known
  }

  function InvalidKeys(keys: seq<string>): seq<string> {
    if keys == [] then []
    else InvalidKeys(keys[..|keys| - 1]) + if Invalid(keys[|keys| - 1]) then [keys[|keys| - 1]] else []
  }

  function Orphans(keys: seq<string>, known: set<string>): seq<string> {
    if keys == [] then []
    else Orphans(keys[..|keys| - 1], known) + if Orphan(keys[|keys| - 1], known) then [keys[|keys| - 1]] else []
  }

  function FirstOf(s: seq<string>, limit: nat): seq<string> {
    if |s| <= limit then s else s[..limit]
  }

  lemma FirstOfMore(s: seq<string>, x: string, limit: nat)
    ensures FirstOf(s + [x], limit) == if |s| < limit then FirstOf(s, limit) + [x] else FirstOf(s, limit)
  {
  }

  lemma NextKey(keys: seq<string>, i: nat, known: set<string>)
    requires i < |keys|
    ensures InvalidKeys(keys[..i + 1]) == InvalidKeys(keys[..i]) + if Invalid(keys[i]) then [keys[i]] else []
    ensures Orphans(keys[..i + 1], known) == Orphans(keys[..i], known) + if Orphan(keys[i], known) then [keys[i]] else []
  {
    assert keys[..i + 1][..i] == keys[..i];
  }

  /** The first `limit` orphans in listing order; the rest only set the flag. */
  method SeedRelayOrphanKeys(listedKeys: seq<string>, knownJobIds: seq<string>, limit: nat)
    returns (orphans: seq<string>, invalid: seq<string>, truncated: bool)
    ensures var known := set id | id in knownJobIds;
            var all := Orphans(listedKeys, known);
            && invalid == InvalidKeys(listedKeys)
            && orphans == FirstOf(all, limit)
            && (truncated <==> |all| > limit)
  {
    var known := set id | id in knownJobIds;
    orphans, invalid, truncated := [], [], false;
    for i := 0 to |listedKeys|
      invariant invalid == InvalidKeys(listedKeys[..i])
      invariant orphans == FirstOf(Orphans(listedKeys[..i], known), limit)
      invariant truncated <==> |Orphans(listedKeys[..i], known)| > limit
    {
      var key := listedKeys[i];
      NextKey(listedKeys, i, known);
      var verdict := ValidateObjectKey(key, None);
      if !verdict.ok {
        invalid := invalid + [key];
      } else if verdict.jobId.Some? && verdict.jobId.value !in known {
        FirstOfMore(Orphans(listedKeys[..i], known), key, limit);
        if |orphans| >= limit {
          truncated := true;
        } else {
          orphans := orphans + [key];
        }
      }
    }
    assert listedKeys[..|listedKeys|] == listedKeys;
  }

  predicate ForeignObject(key: string, jobId: string, name: string, known: set<string>) {
    && ValidJobId(jobId) && jobId !in known && ObjectName(name)
    && key == KeyOf(jobId, name) && |key| <= PATH_MAX_LENGTH
  }

  /** Swept keys are exactly the listed objects in the namespace of a job nobody knows. */
  lemma {:induction false} OrphansAreForeignObjects(keys: seq<string>, known: set<string>, key: string)
    ensures key in Orphans(keys, known) <==>
            key in keys && exists jobId, name :: ForeignObject(key, jobId, name, known)
  {
    if keys != [] {
      var n := |keys| - 1;
      assert keys == keys[..n] + [keys[n]];
      OrphansAreForeignObjects(keys[..n], known, key);
      OrphanIsForeignObject(key, known);
    }
  }

  lemma OrphanIsForeignObject(key: string, known: set<string>)
    ensures Orphan(key, known) <==> exists jobId, name :: ForeignObject(key, jobId, name, known)
  {
    if Orphan(key, known) {
      AcceptedKeyIsOneObject(key, None);
      var jobId := ValidateObjectKey(key, None).jobId.value;
      var name :| ObjectName(name) && key == KeyOf(jobId, name);
      assert ForeignObject(key, jobId, name, known);
    }
    if jobId, name :| ForeignObject(key, jobId, name, known) {
      ObjectKeysAreAccepted(jobId, name, None);
    }
  }
}
