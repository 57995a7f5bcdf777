/**
 The exclude rules emitted for a worktree (packages/daemon/src/gitignore.ts,
 `buildRcloneFilterSnapshot`). Whether a path is ignored is asked of a matcher
 that is not part of this model.
 */
module GitignoreWalk {
  import opened Text

  /** What a directory listing shows: everything that is not a directory counts as a file. */
  datatype Node =
    | File(name: string)
    | Directory(name: string, readable: bool, entries: seq<Node>)

  /** The matcher's answers, for a path and for a path taken as a directory. */
  datatype Matcher = Matcher(isIgnored: string -> bool, isIgnoredDir: string -> bool)

  datatype Rule = Rule(path: seq<string>, subtree: bool)

  function TextOf(rule: Rule): string {
    "- " + Join(rule.path, '/') + if rule.subtree then "/" else ""
  }

  function Texts(rules: seq<Rule>): seq<string> {
    seq(|rules|, i requires 0 <= i < |rules| => TextOf(rules[i]))
  }

  predicate IsIgnored(m: Matcher, path: seq<string>, directory: bool) {
    if directory then m.isIgnoredDir(Join(path, '/')) else m.isIgnored(Join(path, '/'))
  }

  /** The rules of one entry, and of the entries after it, in listing order. */
  function Rules(m: Matcher, entries: seq<Node>, base: seq<string>): seq<Rule> {
    if entries == [] then []
    else
      var e := entries[0];
      var path := base + [e.name];
      var here :=
        if e.Directory? && e.name == ".git" then []
        else if IsIgnored(m, path, e.Directory?) then [Rule(path, e.Directory?)]
        else if e.Directory? && e.readable then Rules(m, e.entries, path)
        else [];
      here + Rules(m, entries[1..], base)
  }

  predicate Plain(name: string) {
    name != "" && '/' !in name
  }

  /** Names a file system lists: plain, and no two alike in one directory. */
  predicate Listed(entries: seq<Node>) {
    && (forall i :: 0 <= i < |entries| ==> Plain(entries[i].name) && (entries[i].Directory? ==> Listed(entries[i].entries)))
    && (forall i, j :: 0 <= i < j < |entries| ==> entries[i].name != entries[j].name)
  }

  predicate PlainPath(path: seq<string>) {
    forall i :: 0 <= i < |path| ==> Plain(path[i])
  }

  // -------------------------------------------------------------------------
  // The walk
  // -------------------------------------------------------------------------

  lemma {:induction false} JoinLast(path: seq<string>, name: string)
    ensures Join(path + [name], '/') == if path == [] then name else Join(path, '/') + "/" + name
  {
    if |path| == 1 {
      assert (path + [name])[1..] == [name];
    } else if |path| > 1 {
      JoinLast(path[1..], name);
      assert (path + [name])[1..] == path[1..] + [name];
      var head, rest := path[0] + ['/'], Join(path[1..], '/');
      assert head + (rest + "/" + name) == (head + rest) + "/" + name;
    }
  }

  lemma JoinNotEmpty(path: seq<string>)
    requires PlainPath(path)
    ensures Join(path, '/') == "" <==> path == []
  {
  }

  class SnapshotBuilder {
    const matcher: Matcher
    var rules: seq<string>

    constructor (m: Matcher)
      ensures matcher == m && rules == []
    {
      matcher, rules := m, [];
    }

    /** `entries` is what `readdirSync` gave for the directory at `dirRel`. */
    method Walk(entries: seq<Node>, dirRel: string, ghost base: seq<string>)
      requires Listed(entries) && PlainPath(base) && dirRel == Join(base, '/')
      modifies this
      ensures rules == old(rules) + Texts(Rules(matcher, entries, base))
      decreases entries
    {
      JoinNotEmpty(base);
      ghost var all := rules + Texts(Rules(matcher, entries, base));
      var i := 0;
      while i < |entries|
        invariant 0 <= i <= |entries|
        invariant rules + Texts(Rules(matcher, entries[i..], base)) == all
      {
        var entry := entries[i];
        ghost var before, rest, here := rules, Rules(matcher, entries[i + 1..], base), [];
        ghost var path := base + [entry.name];
        if entry.Directory? && entry.name == ".git" {
        } else {
          var rel := if dirRel != "" then dirRel + "/" + entry.name else entry.name;
          JoinLast(base, entry.name);
          var ignored := if entry.Directory? then matcher.isIgnoredDir(rel) else matcher.isIgnored(rel);
          if ignored {
            here := [Rule(path, entry.Directory?)];
            OneText(here, rel);
            if entry.Directory? {
              rules := rules + ["- " + rel + "/"];
            } else {
              rules := rules + ["- " + rel];
            }
          } else if entry.Directory? && entry.readable {
            here := Rules(matcher, entry.entries, path);
            Walk(entry.entries, rel, path);
          }
        }
        assert entries[i..][1..] == entries[i + 1..];
        assert Rules(matcher, entries[i..], base) == here + rest;
        TextsConcat(before, here, rest);
        assert rules == before + Texts(here);
        assert rules + Texts(rest) == all;
        i := i + 1;
      }
    }
  }

  lemma OneText(rules: seq<Rule>, rel: string)
    requires |rules| == 1 && Join(rules[0].path, '/') == rel
    ensures Texts(rules) == if rules[0].subtree then ["- " + rel + "/"] else ["- " + rel]
  {
    assert ("- " + rel) + "" == "- " + rel;
    assert TextOf(rules[0]) == if rules[0].subtree then "- " + rel + "/" else "- " + rel;
  }

  lemma TextsConcat(before: seq<string>, a: seq<Rule>, b: seq<Rule>)
    ensures (before + Texts(a)) + Texts(b) == before + Texts(a + b)
  {
    assert Texts(a + b) == Texts(a) + Texts(b);
  }

  // -------------------------------------------------------------------------
  // What the rules cover
  // -------------------------------------------------------------------------

  /** A file is found under a listing, by readable directories none of which is called `.git`. */
  predicate HasFile(entries: seq<Node>, path: seq<string>)
    decreases |path|, 1
  {
    path != [] && exists i :: 0 <= i < |entries| && LeadsTo(entries[i], path)
  }

  predicate LeadsTo(e: Node, path: seq<string>)
    requires path != []
    decreases |path|, 0
  {
    && e.name == path[0]
    && if |path| == 1 then e.File? else e.Directory? && e.readable && e.name != ".git" && HasFile(e.entries, path[1..])
  }

  /** The file itself, or a directory above it inside the listing, is ignored. */
  predicate IgnoredFrom(m: Matcher, base: seq<string>, path: seq<string>) {
    exists k :: 0 < k <= |path| && IsIgnored(m, base + path[..k], k < |path|)
  }

  /** A rule read as an exact path or as everything below a directory. */
  predicate CoversPath(rule: Rule, path: seq<string>) {
    if rule.subtree then rule.path < path else rule.path == path
  }

  predicate SomeCovers(rules: seq<Rule>, path: seq<string>) {
    exists i :: 0 <= i < |rules| && CoversPath(rules[i], path)
  }

  lemma SomeCoversConcat(a: seq<Rule>, b: seq<Rule>, path: seq<string>)
    ensures SomeCovers(a + b, path) <==> SomeCovers(a, path) || SomeCovers(b, path)
  {
    if i :| 0 <= i < |a| && CoversPath(a[i], path) {
      assert (a + b)[i] == a[i];
    }
    if i :| 0 <= i < |b| && CoversPath(b[i], path) {
      assert (a + b)[|a| + i] == b[i];
    }
    if i :| 0 <= i < |a + b| && CoversPath((a + b)[i], path) {
      assert if i < |a| then CoversPath(a[i], path) else CoversPath(b[i - |a|], path);
    }
  }

  /** Every rule of a listing starts with the name of one of its entries. */
  lemma {:induction false} RulesBelow(m: Matcher, entries: seq<Node>, base: seq<string>, rule: Rule)
    requires rule in Rules(m, entries, base)
    ensures |base| < |rule.path| && base == rule.path[..|base|]
    ensures exists i :: 0 <= i < |entries| && rule.path[|base|] == entries[i].name
    decreases entries
  {
    var e := entries[0];
    var path := base + [e.name];
    if rule in Rules(m, entries[1..], base) {
      RulesBelow(m, entries[1..], base, rule);
      var i :| 0 <= i < |entries[1..]| && rule.path[|base|] == entries[1..][i].name;
      assert entries[i + 1].name == rule.path[|base|];
    } else if rule != Rule(path, e.Directory?) {
      RulesBelow(m, e.entries, path, rule);
      assert path == rule.path[..|base| + 1];
      assert rule.path[..|base|] == path[..|base|] == base;
      assert rule.path[|base|] == path[|base|] == entries[0].name;
    } else {
      assert rule.path[|base|] == entries[0].name;
    }
  }

  /** Rules of a listing do not reach below a name that is not in it. */
  lemma OthersDoNotCover(m: Matcher, entries: seq<Node>, base: seq<string>, path: seq<string>)
    requires path != [] && forall i :: 0 <= i < |entries| ==> entries[i].name != path[0]
    ensures !SomeCovers(Rules(m, entries, base), base + path)
  {
    var rules := Rules(m, entries, base);
    if i :| 0 <= i < |rules| && CoversPath(rules[i], base + path) {
      RulesBelow(m, entries, base, rules[i]);
      assert false;
    }
  }

  /** Being ignored is decided at the first name, or after it. */
  lemma IgnoredStep(m: Matcher, base: seq<string>, path: seq<string>)
    requires path != []
    ensures IgnoredFrom(m, base, path) <==>
            IsIgnored(m, base + [path[0]], |path| > 1) || (|path| > 1 && IgnoredFrom(m, base + [path[0]], path[1..]))
  {
    var next := base + [path[0]];
    assert path[..1] == [path[0]];
    forall k | 1 < k <= |path|
      ensures next + path[1..][..k - 1] == base + path[..k]
    {
      assert path[..k] == [path[0]] + path[1..][..k - 1];
    }
    if k :| 0 < k <= |path| && IsIgnored(m, base + path[..k], k < |path|) {
      assert k > 1 ==> IsIgnored(m, next + path[1..][..k - 1], k - 1 < |path| - 1);
    }
    if |path| > 1 && IgnoredFrom(m, next, path[1..]) {
      var j :| 0 < j <= |path[1..]| && IsIgnored(m, next + path[1..][..j], j < |path[1..]|);
      assert IsIgnored(m, base + path[..j + 1], j + 1 < |path|);
    }
    if IsIgnored(m, next, |path| > 1) {
      assert IsIgnored(m, base + path[..1], 1 < |path|);
    }
  }

  lemma FirstRules(m: Matcher, entries: seq<Node>, base: seq<string>)
    requires entries != []
    ensures Rules(m, entries, base) == Rules(m, [entries[0]], base) + Rules(m, entries[1..], base)
  {
    assert [entries[0]][1..] == [];
  }

  /** The entry on the way to the file: it is ignored itself, or its own listing decides. */
  lemma {:induction false} CoveredHere(m: Matcher, e: Node, base: seq<string>, path: seq<string>)
    requires path != [] && LeadsTo(e, path) && (e.Directory? ==> Listed(e.entries))
    ensures SomeCovers(Rules(m, [e], base), base + path) <==> IgnoredFrom(m, base, path)
    decreases |path|, 0
  {
    var next := base + [e.name];
    IgnoredStep(m, base, path);
    assert base + path == next + path[1..];
    var here := Rules(m, [e], base);
    assert [e][1..] == [] && Rules(m, [e][1..], base) == [];
    if IsIgnored(m, next, e.Directory?) {
      assert here == [Rule(next, e.Directory?)];
      assert CoversPath(here[0], base + path);
    } else if e.Directory? {
      assert here == Rules(m, e.entries, next);
      CoveredWithin(m, e.entries, next, path[1..]);
    }
  }

  /** Over the structured paths: a file is covered exactly when it or a directory above it is ignored. */
  lemma {:induction false} CoveredWithin(m: Matcher, entries: seq<Node>, base: seq<string>, path: seq<string>)
    requires Listed(entries) && HasFile(entries, path)
    ensures SomeCovers(Rules(m, entries, base), base + path) <==> IgnoredFrom(m, base, path)
    decreases |path|, |entries|
  {
    var e, rest := entries[0], entries[1..];
    var here, tail := Rules(m, [e], base), Rules(m, rest, base);
    FirstRules(m, entries, base);
    SomeCoversConcat(here, tail, base + path);
    var i :| 0 <= i < |entries| && LeadsTo(entries[i], path);
    if i == 0 {
      OthersDoNotCover(m, rest, base, path);
      CoveredHere(m, e, base, path);
    } else {
      assert LeadsTo(rest[i - 1], path);
      CoveredWithin(m, rest, base, path);
      OthersDoNotCover(m, [e], base, path);
    }
  }

  // -------------------------------------------------------------------------
  // Reading the rules back as text
  // -------------------------------------------------------------------------

  /** A line excludes the path it names, or everything below it when it ends in a slash. */
  predicate LineCovers(line: string, path: string) {
    |line| >= 2 && (line[2..] == path || (EndsWith(line, "/") && line[2..] <= path))
  }

  predicate SomeLineCovers(lines: seq<string>, path: string) {
    exists i :: 0 <= i < |lines| && LineCovers(lines[i], path)
  }

  lemma {:induction false} JoinConcat(a: seq<string>, b: seq<string>)
    requires a != [] && b != []
    ensures Join(a + b, '/') == Join(a, '/') + ['/'] + Join(b, '/')
  {
    assert (a + b)[1..] == a[1..] + b;
    if |a| > 1 {
      JoinConcat(a[1..], b);
      var head, rest, tail := a[0] + ['/'], Join(a[1..], '/'), Join(b, '/');
      assert head + (rest + ['/'] + tail) == (head + rest) + ['/'] + tail;
    }
  }

  lemma NoSlashAtEnd(path: seq<string>)
    requires path != [] && PlainPath(path)
    ensures Join(path, '/') != "" && !EndsWith(Join(path, '/'), "/")
  {
    var n := |path| - 1;
    assert path == path[..n] + [path[n]];
    JoinLast(path[..n], path[n]);
    var text, name := Join(path, '/'), path[n];
    assert text[|text| - 1] == name[|name| - 1];
  }

  lemma BelowIsPrefix(a: seq<string>, path: seq<string>)
    requires a != [] && a < path
    ensures Join(a, '/') + ['/'] <= Join(path, '/')
  {
    assert path == a + path[|a|..];
    JoinConcat(a, path[|a|..]);
  }

  /** A directory's text with a slash starts the text of no other paths than those below it. */
  lemma PrefixIsBelow(a: seq<string>, path: seq<string>)
    requires a != [] && path != [] && PlainPath(a) && PlainPath(path)
    requires Join(a, '/') + ['/'] <= Join(path, '/')
    ensures a < path
  {
    var head, text := Join(a, '/') + ['/'], Join(path, '/');
    var tail := text[|head|..];
    var rest := Split(tail, '/');
    JoinConcat(a, rest);
    assert text == head + tail;
    SplitUnique(a + rest, path, '/');
  }

  lemma LineIsRule(rule: Rule, path: seq<string>)
    requires rule.path != [] && path != [] && PlainPath(rule.path) && PlainPath(path)
    ensures LineCovers(TextOf(rule), Join(path, '/')) <==> CoversPath(rule, path)
  {
    var text, named := Join(path, '/'), Join(rule.path, '/');
    NoSlashAtEnd(path);
    NoSlashAtEnd(rule.path);
    if rule.subtree {
      if rule.path < path { BelowIsPrefix(rule.path, path); }
      if named + ['/'] <= text { PrefixIsBelow(rule.path, path); }
      assert TextOf(rule)[2..] == named + ['/'];
      SlashEnds(named);
    } else {
      assert TextOf(rule)[2..] == named;
      EndOfLine(named);
      if named == text { SplitUnique(rule.path, path, '/'); }
    }
  }

  lemma SlashEnds(named: string)
    ensures EndsWith(named + ['/'], "/") && EndsWith("- " + named + "/", "/")
  {
  }

  lemma EndOfLine(named: string)
    requires named != ""
    ensures EndsWith("- " + named + "", "/") <==> EndsWith(named, "/")
  {
    var line := "- " + named + "";
    assert line[|line| - 1] == named[|named| - 1];
  }

  lemma {:induction false} RulesArePlain(m: Matcher, entries: seq<Node>, base: seq<string>, rule: Rule)
    requires Listed(entries) && PlainPath(base) && rule in Rules(m, entries, base)
    ensures rule.path != [] && PlainPath(rule.path)
    decreases entries
  {
    var e := entries[0];
    var path := base + [e.name];
    if rule in Rules(m, entries[1..], base) {
      RulesArePlain(m, entries[1..], base, rule);
    } else if rule != Rule(path, e.Directory?) {
      RulesArePlain(m, e.entries, path, rule);
    }
  }

  lemma {:induction false} FilesArePlain(entries: seq<Node>, path: seq<string>)
    requires Listed(entries) && HasFile(entries, path)
    ensures PlainPath(path)
    decreases |path|
  {
    var i :| 0 <= i < |entries| && LeadsTo(entries[i], path);
    if |path| > 1 {
      FilesArePlain(entries[i].entries, path[1..]);
    }
  }

  /**
   For every tree and every matcher: a file outside `.git` directories is covered
   by an emitted line exactly when it, or a directory above it, is ignored.
   */
  lemma SnapshotCoversIgnored(m: Matcher, entries: seq<Node>, path: seq<string>)
    requires Listed(entries) && HasFile(entries, path)
    ensures SomeLineCovers(Texts(Rules(m, entries, [])), Join(path, '/')) <==> IgnoredFrom(m, [], path)
  {
    var rules := Rules(m, entries, []);
    FilesArePlain(entries, path);
    forall i | 0 <= i < |rules|
      ensures LineCovers(Texts(rules)[i], Join(path, '/')) <==> CoversPath(rules[i], path)
    {
      RulesArePlain(m, entries, [], rules[i]);
      LineIsRule(rules[i], path);
    }
    assert SomeLineCovers(Texts(rules), Join(path, '/')) <==> SomeCovers(rules, path);
    CoveredWithin(m, entries, [], path);
    assert [] + path == path;
  }

  predicate Apart(a: Rule, b: Rule) {
    !(a.path <= b.path) && !(b.path <= a.path)
  }

  predicate AllApart(rules: seq<Rule>) {
    forall i, j :: 0 <= i < j < |rules| ==> Apart(rules[i], rules[j])
  }

  lemma ApartConcat(a: seq<Rule>, b: seq<Rule>)
    requires AllApart(a) && AllApart(b) && forall x, y :: x in a && y in b ==> Apart(x, y)
    ensures AllApart(a + b)
  {
  }

  /** Rules of different entries part at the entry's name. */
  lemma RulesPart(m: Matcher, entries: seq<Node>, base: seq<string>, mine: Rule, other: Rule)
    requires Listed(entries) && entries != []
    requires mine in Rules(m, [entries[0]], base) && other in Rules(m, entries[1..], base)
    ensures Apart(mine, other)
  {
    RulesBelow(m, [entries[0]], base, mine);
    RulesBelow(m, entries[1..], base, other);
    assert mine.path[|base|] != other.path[|base|];
  }

  /** No rule repeats another or lies below it. */
  lemma {:induction false} NoRuleBeneath(m: Matcher, entries: seq<Node>, base: seq<string>)
    requires Listed(entries)
    ensures AllApart(Rules(m, entries, base))
    decreases entries
  {
    if entries != [] {
      var e := entries[0];
      var here, tail := Rules(m, [e], base), Rules(m, entries[1..], base);
      FirstRules(m, entries, base);
      NoRuleBeneath(m, entries[1..], base);
      assert [e][1..] == [];
      if |here| > 1 {
        NoRuleBeneath(m, e.entries, base + [e.name]);
      }
      forall x, y | x in here && y in tail
        ensures Apart(x, y)
      {
        RulesPart(m, entries, base, x, y);
      }
      ApartConcat(here, tail);
    }
  }
}
