/**
 The glob translation of the folder watcher
 (`globToRegex`, packages/daemon/src/folder-watch.ts): the emitted text, read
 back by the pattern grammar of ECMA-262 (section 22.2.1), means the glob.
 */
module Glob {
  import opened Wrappers

  /** A pattern rooted at "/" loses that slash. */
  function Body(pattern: string): string {
    if pattern != "" && pattern[0] == '/' then pattern[1..] else pattern
  }

  const ESCAPED := "\\.^$+()[]{}|"

  /** What one step of the translation consumes and emits. */
  datatype Piece = Piece(width: nat, text: string)

  function NextPiece(body: string): (p: Piece)
    requires body != ""
    ensures 1 <= p.width <= |body|
  {
    var c := body[0];
    if c == '*' then
      if |body| > 1 && body[1] == '*' then Piece(2, ".*") else Piece(1, "[^/]*")
    else if c == '?' then Piece(1, "[^/]")
    else if c in ESCAPED then Piece(1, ['\\', c])
    else Piece(1, [c])
  }

  /** The text emitted for the rest of a body, with the closing anchor. */
  function Emitted(body: string): string
    decreases |body|
  {
    if body == "" then "$" else NextPiece(body).text + Emitted(body[NextPiece(body).width..])
  }

  method GlobToRegex(pattern: string) returns (re: string)
    ensures re == "^" + Emitted(Body(pattern))
  {
    var body := Body(pattern);
    re := "^";
    var i := 0;
    while i < |body|
      invariant 0 <= i <= |body|
      invariant re + Emitted(body[i..]) == "^" + Emitted(body)
    {
      ghost var p := NextPiece(body[i..]);
      Reassociate(re, p.text, Emitted(body[i..][p.width..]));
      assert body[i..][p.width..] == body[i + p.width..];
      var c := body[i];
      if c == '*' {
        if i + 1 < |body| && body[i + 1] == '*' {
          re := re + ".*";
          i := i + 1;
        } else {
          re := re + "[^/]*";
        }
      } else if c == '?' {
        re := re + "[^/]";
      } else if c in ESCAPED {
        re := re + ['\\', c];
      } else {
        re := re + [c];
      }
      i := i + 1;
    }
    re := re + "$";
  }

  lemma Reassociate(a: string, b: string, c: string)
    ensures (a + b) + c == a + (b + c)
  {
  }

  // -------------------------------------------------------------------------
  // The pattern grammar, and what a pattern matches
  // -------------------------------------------------------------------------

  /** Assertions and atoms of the fragment; `.` and the one class `[^/]`. */
  datatype Atom = Start | End | Literal(c: char) | Dot | NotSlash

  datatype Term = Term(atom: Atom, star: bool)

  predicate SyntaxCharacter(c: char) {
    c in "^$\\.*+?()[]{}|"
  }

  function Cons(t: Term, rest: Option<seq<Term>>): Option<seq<Term>> {
    if rest.Some? then Some([t] + rest.value) else None
  }

  function Parse(text: string): Option<seq<Term>>
    decreases |text|, 1
  {
    if text == "" then Some([])
    else if text[0] == '^' then Cons(Term(Start, false), Parse(text[1..]))
    else if text[0] == '$' then Cons(Term(End, false), Parse(text[1..]))
    else if text[0] == '\\' then
      if |text| >= 2 && SyntaxCharacter(text[1]) then Quantified(Literal(text[1]), text[2..]) else None
    else if text[0] == '.' then Quantified(Dot, text[1..])
    else if text[0] == '[' then
      if |text| >= 4 && text[1] == '^' && text[2] == '/' && text[3] == ']' then Quantified(NotSlash, text[4..]) else None
    else if SyntaxCharacter(text[0]) then None
    else Quantified(Literal(text[0]), text[1..])
  }

  /** An atom, with the `*` that may follow it. */
  function Quantified(a: Atom, text: string): Option<seq<Term>>
    decreases |text|, 2
  {
    if text != "" && text[0] == '*' then Cons(Term(a, true), Parse(text[1..]))
    else Cons(Term(a, false), Parse(text))
  }

  predicate LineTerminator(c: char) {
    c == '\n' || c == '\r' || c as int == 0x2028 || c as int == 0x2029
  }

  predicate Accepts(a: Atom, c: char) {
    match a
    case Literal(d) => c == d
    case Dot => !LineTerminator(c)
    case NotSlash => c != '/'
    case _ => false
  }

  predicate RunOf(a: Atom, s: string, i: nat, j: nat)
    requires i <= j <= |s|
  {
    forall k :: i <= k < j ==> Accepts(a, s[k])
  }

  /** The terms match from position `i` on (a match may end anywhere). */
  ghost predicate MatchesAt(terms: seq<Term>, s: string, i: nat)
    requires i <= |s|
    decreases |terms|
  {
    if terms == [] then true
    else
      var t, rest := terms[0], terms[1..];
      if t.atom.Start? then i == 0 && MatchesAt(rest, s, i)
      else if t.atom.End? then i == |s| && MatchesAt(rest, s, i)
      else if t.star then exists j :: i <= j <= |s| && RunOf(t.atom, s, i, j) && MatchesAt(rest, s, j)
      else i < |s| && Accepts(t.atom, s[i]) && MatchesAt(rest, s, i + 1)
  }

  /** `RegExp.prototype.test`: a match may begin anywhere. */
  ghost predicate Test(terms: seq<Term>, s: string) {
    exists i :: 0 <= i <= |s| && MatchesAt(terms, s, i)
  }

  // -------------------------------------------------------------------------
  // The glob itself
  // -------------------------------------------------------------------------

  /** `**` stands for any run without line terminators, `*` and `?` stop at "/". */
  ghost predicate GlobMatches(body: string, s: string)
    decreases |body|
  {
    if body == "" then s == ""
    else if body[0] == '*' && |body| > 1 && body[1] == '*' then
      exists j :: 0 <= j <= |s| && RunOf(Dot, s, 0, j) && GlobMatches(body[2..], s[j..])
    else if body[0] == '*' then
      exists j :: 0 <= j <= |s| && RunOf(NotSlash, s, 0, j) && GlobMatches(body[1..], s[j..])
    else if body[0] == '?' then s != "" && s[0] != '/' && GlobMatches(body[1..], s[1..])
    else s != "" && s[0] == body[0] && GlobMatches(body[1..], s[1..])
  }

  function Tokens(body: string): seq<Term>
    decreases |body|
  {
    if body == "" then [Term(End, false)]
    else if body[0] == '*' && |body| > 1 && body[1] == '*' then [Term(Dot, true)] + Tokens(body[2..])
    else if body[0] == '*' then [Term(NotSlash, true)] + Tokens(body[1..])
    else if body[0] == '?' then [Term(NotSlash, false)] + Tokens(body[1..])
    else [Term(Literal(body[0]), false)] + Tokens(body[1..])
  }

  lemma PieceHead(body: string)
    ensures Emitted(body) != "" && Emitted(body)[0] != '*'
  {
  }

  /** How one emitted piece is read, whatever follows it. */
  lemma ReadDotStar(rest: string)
    ensures Parse(".*" + rest) == Cons(Term(Dot, true), Parse(rest))
  {
    var text := ".*" + rest;
    assert text[1..][1..] == rest;
  }

  lemma ReadBracket(tail: string)
    ensures Parse("[^/]" + tail) == Quantified(NotSlash, tail)
  {
    var text := "[^/]" + tail;
    assert text[..4] == "[^/]" && text[4..] == tail;
  }

  lemma ReadClass(rest: string)
    requires rest != "" && rest[0] != '*'
    ensures Parse("[^/]" + rest) == Cons(Term(NotSlash, false), Parse(rest))
  {
    ReadBracket(rest);
  }

  lemma ReadClassStar(rest: string)
    ensures Parse("[^/]*" + rest) == Cons(Term(NotSlash, true), Parse(rest))
  {
    var tail := "*" + rest;
    ReadBracket(tail);
    assert "[^/]*" + rest == "[^/]" + tail;
    assert tail[1..] == rest;
  }

  lemma ReadEscape(c: char, rest: string)
    requires c in ESCAPED && rest != "" && rest[0] != '*'
    ensures Parse(['\\', c] + rest) == Cons(Term(Literal(c), false), Parse(rest))
  {
    var text := ['\\', c] + rest;
    assert text[2..] == rest;
    EscapedIsSyntax(c);
  }

  lemma ReadLiteral(c: char, rest: string)
    requires c !in ESCAPED && c != '*' && c != '?' && rest != "" && rest[0] != '*'
    ensures Parse([c] + rest) == Cons(Term(Literal(c), false), Parse(rest))
  {
    var text := [c] + rest;
    assert text[1..] == rest;
    EscapedIsSyntax(c);
  }

  /** Exactly the characters with a meaning of their own are escaped (`*` and `?` are translated). */
  lemma EscapedIsSyntax(c: char)
    ensures SyntaxCharacter(c) <==> c in ESCAPED || c == '*' || c == '?'
  {
  }

  /** The emitted text parses, character by character of the glob. */
  lemma {:induction false} EmittedParses(body: string)
    ensures Parse(Emitted(body)) == Some(Tokens(body))
    decreases |body|
  {
    if body == "" {
      assert Parse("$"[1..]) == Some([]);
      assert [Term(End, false)] + [] == [Term(End, false)];
    } else {
      var p := NextPiece(body);
      var rest := body[p.width..];
      var text := Emitted(rest);
      EmittedParses(rest);
      PieceHead(rest);
      if body[0] == '*' && p.width == 2 {
        ReadDotStar(text);
      } else if body[0] == '*' {
        ReadClassStar(text);
      } else if body[0] == '?' {
        ReadClass(text);
      } else if body[0] in ESCAPED {
        ReadEscape(body[0], text);
      } else {
        ReadLiteral(body[0], text);
      }
    }
  }

  lemma RunsShift(a: Atom, s: string, i: nat, j: nat)
    requires i <= j <= |s|
    ensures RunOf(a, s, i, j) <==> RunOf(a, s[i..], 0, j - i)
  {
    assert forall k :: i <= k < j ==> s[k] == s[i..][k - i];
    assert forall k :: 0 <= k < j - i ==> s[i..][k] == s[i + k];
  }

  /** A starred token and a star of the glob try the same runs. */
  lemma StarsMatch(a: Atom, rest: string, s: string, i: nat)
    requires i <= |s|
    requires forall j :: i <= j <= |s| ==> (MatchesAt(Tokens(rest), s, j) <==> GlobMatches(rest, s[j..]))
    ensures (exists j :: i <= j <= |s| && RunOf(a, s, i, j) && MatchesAt(Tokens(rest), s, j)) <==>
            (exists j :: 0 <= j <= |s[i..]| && RunOf(a, s[i..], 0, j) && GlobMatches(rest, s[i..][j..]))
  {
    if j :| i <= j <= |s| && RunOf(a, s, i, j) && MatchesAt(Tokens(rest), s, j) {
      RunsShift(a, s, i, j);
      assert s[i..][j - i..] == s[j..];
    }
    if j :| 0 <= j <= |s[i..]| && RunOf(a, s[i..], 0, j) && GlobMatches(rest, s[i..][j..]) {
      RunsShift(a, s, i, i + j);
      assert s[i..][j..] == s[i + j..];
      assert MatchesAt(Tokens(rest), s, i + j);
    }
  }

  /** From any position the tokens match exactly the strings the glob matches. */
  lemma {:induction false} TokensMatch(body: string, s: string, i: nat)
    requires i <= |s|
    ensures MatchesAt(Tokens(body), s, i) <==> GlobMatches(body, s[i..])
    decreases |body|
  {
    if body == "" {
      assert Tokens(body)[1..] == [];
    } else {
      var rest, terms := body[NextPiece(body).width..], Tokens(body);
      assert terms[1..] == Tokens(rest);
      if body[0] == '*' {
        forall j | i <= j <= |s|
          ensures MatchesAt(Tokens(rest), s, j) <==> GlobMatches(rest, s[j..])
        {
          TokensMatch(rest, s, j);
        }
        StarsMatch(terms[0].atom, rest, s, i);
      } else if i < |s| {
        TokensMatch(rest, s, i + 1);
        assert s[i..][1..] == s[i + 1..];
      }
    }
  }

  /**
   For every pattern: the emitted text is a pattern of the grammar, and testing
   it accepts exactly the strings the glob matches.
   */
  lemma RegexMeansGlob(pattern: string, s: string)
    ensures var terms := Parse("^" + Emitted(Body(pattern)));
            terms.Some? && (Test(terms.value, s) <==> GlobMatches(Body(pattern), s))
  {
    var text := "^" + Emitted(Body(pattern));
    assert text[1..] == Emitted(Body(pattern));
    EmittedParses(Body(pattern));
    var terms := [Term(Start, false)] + Tokens(Body(pattern));
    assert Parse(text) == Some(terms) && terms[1..] == Tokens(Body(pattern));
    TokensMatch(Body(pattern), s, 0);
    assert s[0..] == s;
    if GlobMatches(Body(pattern), s) {
      assert MatchesAt(terms, s, 0);
    }
  }

  /** The glob its users expect: `**` stands for anything. */
  ghost predicate IdealMatches(body: string, s: string)
    decreases |body|
  {
    if body == "" then s == ""
    else if body[0] == '*' && |body| > 1 && body[1] == '*' then
      exists j :: 0 <= j <= |s| && IdealMatches(body[2..], s[j..])
    else if body[0] == '*' then
      exists j :: 0 <= j <= |s| && RunOf(NotSlash, s, 0, j) && IdealMatches(body[1..], s[j..])
    else if body[0] == '?' then s != "" && s[0] != '/' && IdealMatches(body[1..], s[1..])
    else s != "" && s[0] == body[0] && IdealMatches(body[1..], s[1..])
  }

  /** On names without line terminators the translation is the expected glob. */
  lemma {:induction false} IdealOnOneLine(body: string, s: string)
    requires forall k :: 0 <= k < |s| ==> !LineTerminator(s[k])
    ensures GlobMatches(body, s) <==> IdealMatches(body, s)
    decreases |body|
  {
    if body != "" {
      var rest := body[NextPiece(body).width..];
      forall j | 0 <= j <= |s|
        ensures GlobMatches(rest, s[j..]) <==> IdealMatches(rest, s[j..])
      {
        assert forall k :: 0 <= k < |s[j..]| ==> s[j..][k] == s[j + k];
        IdealOnOneLine(rest, s[j..]);
      }
    }
  }

  /** The translation never accepts more than the expected glob. */
  lemma {:induction false} NeverTooMuch(body: string, s: string)
    requires GlobMatches(body, s)
    ensures IdealMatches(body, s)
    decreases |body|
  {
    if body != "" {
      var rest := body[NextPiece(body).width..];
      forall j | 0 <= j <= |s| && GlobMatches(rest, s[j..])
        ensures IdealMatches(rest, s[j..])
      {
        NeverTooMuch(rest, s[j..]);
      }
    }
  }

  lemma DoubleStarExactly(s: string)
    ensures IdealMatches("**", s)
    ensures GlobMatches("**", s) <==> forall k :: 0 <= k < |s| ==> !LineTerminator(s[k])
  {
    var body := "**";
    assert body[2..] == "" && s[|s|..] == "";
    assert IdealMatches("", s[|s|..]) && GlobMatches("", s[|s|..]);
    assert forall j :: 0 <= j < |s| ==> s[j..] != "" && !GlobMatches("", s[j..]);
    assert RunOf(Dot, s, 0, |s|) <==> forall k :: 0 <= k < |s| ==> !LineTerminator(s[k]);
  }

  ghost predicate Agree(pattern: string, s: string) {
    GlobMatches(Body(pattern), s) <==> IdealMatches(Body(pattern), s)
  }

  /** A name is matched as expected by every pattern exactly when it stays on one line. */
  lemma AgreesExactly(s: string)
    ensures (forall pattern :: Agree(pattern, s)) <==> forall k :: 0 <= k < |s| ==> !LineTerminator(s[k])
  {
    if forall k :: 0 <= k < |s| ==> !LineTerminator(s[k]) {
      forall pattern
        ensures Agree(pattern, s)
      {
        IdealOnOneLine(Body(pattern), s);
      }
    } else {
      DoubleStarExactly(s);
      assert Body("**") == "**";
      assert !Agree("**", s);
    }
  }

  predicate NoDoubleStar(body: string) {
    forall i :: 0 <= i < |body| - 1 ==> !(body[i] == '*' && body[i + 1] == '*')
  }

  /** Without `**` the line does not matter. */
  lemma {:induction false} WithoutDoubleStar(body: string, s: string)
    requires NoDoubleStar(body)
    ensures GlobMatches(body, s) <==> IdealMatches(body, s)
    decreases |body|
  {
    if body != "" {
      var rest := body[1..];
      assert forall i :: 0 <= i < |rest| ==> rest[i] == body[i + 1];
      forall j | 0 <= j <= |s|
        ensures GlobMatches(rest, s[j..]) <==> IdealMatches(rest, s[j..])
      {
        WithoutDoubleStar(rest, s[j..]);
      }
    }
  }
}
