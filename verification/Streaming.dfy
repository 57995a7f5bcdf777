/**
 The streaming line splitter and the bounded tail of an rclone pipe
 (packages/daemon/src/live-progress.ts): fed in any chunks, they deliver what
 the whole text would have given at once.
 */
module Streaming {
  import opened Text

  /** The finished lines of a text, and what follows its last newline. */
  datatype Cut = Cut(lines: seq<string>, rest: string)

  function CutLines(text: string): Cut
    decreases |text|
  {
    if '\n' !in text then Cut([], text)
    else
      var nl := IndexOfNewline(text);
      var after := CutLines(text[nl + 1..]);
      Cut([text[..nl]] + after.lines, after.rest)
  }

  lemma {:induction false} CutAvoids(text: string)
    ensures '\n' !in CutLines(text).rest
    ensures forall i :: 0 <= i < |CutLines(text).lines| ==> '\n' !in CutLines(text).lines[i]
    decreases |text|
  {
    if '\n' in text {
      CutAvoids(text[IndexOfNewline(text) + 1..]);
    }
  }

  /** The cut is the text split at its newlines: all parts but the last are finished lines. */
  lemma CutIsSplit(text: string)
    ensures Split(text, '\n') == CutLines(text).lines + [CutLines(text).rest]
  {
    var parts := CutLines(text).lines + [CutLines(text).rest];
    CutJoins(text);
    CutAvoids(text);
    SplitUnique(Split(text, '\n'), parts, '\n');
  }

  lemma {:induction false} CutJoins(text: string)
    ensures Join(CutLines(text).lines + [CutLines(text).rest], '\n') == text
    decreases |text|
  {
    var c := CutLines(text);
    if '\n' in text {
      var nl := IndexOfNewline(text);
      var after := CutLines(text[nl + 1..]);
      CutJoins(text[nl + 1..]);
      JoinsOn(text[..nl], after.lines, after.rest);
      Rejoin(text, nl);
    }
  }

  lemma JoinsOn(line: string, lines: seq<string>, rest: string)
    ensures Join([line] + lines + [rest], '\n') == line + ['\n'] + Join(lines + [rest], '\n')
  {
    var parts := [line] + lines + [rest];
    assert parts[0] == line && parts[1..] == lines + [rest];
  }

  lemma Rejoin(text: string, nl: nat)
    requires nl < |text| && text[nl] == '\n'
    ensures text == text[..nl] + ['\n'] + text[nl + 1..]
  {
  }

  function IndexOfNewline(text: string): (i: nat)
    requires '\n' in text
    ensures i < |text| && text[i] == '\n' && '\n' !in text[..i]
  {
    if text[0] == '\n' then 0
    else
      var j := IndexOfNewline(text[1..]);
      assert text[..j + 1] == [text[0]] + text[1..][..j];
      j + 1
  }

  lemma NoLinesYet(before: seq<string>, c: Cut)
    ensures Then(Cut([], ""), c) == c && before + [] == before
  {
  }

  lemma LastLine(out: seq<string>, text: string)
    requires '\n' !in text
    ensures Then(Cut(out, ""), CutLines(text)) == Cut(out, text)
  {
    assert out + [] == out;
  }

  lemma FirstLine(text: string, nl: nat, line: string, rest: string)
    requires '\n' in text && nl == IndexOfNewline(text) && line == text[..nl] && rest == text[nl + 1..]
    ensures CutLines(text) == Cut([line] + CutLines(rest).lines, CutLines(rest).rest)
  {
  }

  lemma NextLine(before: seq<string>, out: seq<string>, text: string, nl: nat, line: string)
    requires '\n' in text && nl == IndexOfNewline(text) && line == text[..nl]
    ensures Then(Cut(out, ""), CutLines(text)) == Then(Cut(out + [line], ""), CutLines(text[nl + 1..]))
    ensures (before + out) + [line] == before + (out + [line])
  {
    FirstLine(text, nl, line, text[nl + 1..]);
    OneFurther(out, line, CutLines(text[nl + 1..]).lines);
    assert (before + out) + [line] == before + (out + [line]);
  }

  lemma OneFurther(a: seq<string>, line: string, b: seq<string>)
    ensures a + ([line] + b) == (a + [line]) + b
  {
  }

  /** `onLine` collects what the callback receives. */
  class LineSplitter {
    var pending: string
    var onLine: seq<string>

    constructor ()
      ensures pending == "" && onLine == []
    {
      pending, onLine := "", [];
    }

    method Append(chunk: string) returns (out: seq<string>)
      modifies this
      ensures Cut(out, pending) == CutLines(old(pending) + chunk)
      ensures onLine == old(onLine) + out
    {
      pending := pending + chunk;
      out := [];
      ghost var whole, before := CutLines(pending), onLine;
      NoLinesYet(before, whole);
      while '\n' in pending
        invariant whole == Then(Cut(out, ""), CutLines(pending))
        invariant onLine == before + out
        decreases |pending|
      {
        var nl := IndexOfNewline(pending);
        var line := pending[..nl];
        NextLine(before, out, pending, nl, line);
        pending := pending[nl + 1..];
        out := out + [line];
        onLine := onLine + [line];
      }
      LastLine(out, pending);
    }

    method Finish()
      modifies this
      ensures pending == ""
      ensures onLine == if old(pending) == "" then old(onLine) else old(onLine) + [old(pending)]
    {
      if |pending| > 0 {
        onLine := onLine + [pending];
        pending := "";
      }
    }
  }

  function Concat(chunks: seq<string>): string {
    if chunks == [] then "" else chunks[0] + Concat(chunks[1..])
  }

  /** What the callback has received after the chunks, by `Append`'s contract. */
  function Fed(pending: string, chunks: seq<string>): Cut
    decreases |chunks|
  {
    if chunks == [] then Cut([], pending)
    else
      var first := CutLines(pending + chunks[0]);
      Then(first, Fed(first.rest, chunks[1..]))
  }

  /** More text behind a newline does not move the first newline. */
  lemma FirstNewline(a: string, b: string)
    requires '\n' in a
    ensures '\n' in a + b
    ensures var nl := IndexOfNewline(a);
            IndexOfNewline(a + b) == nl && (a + b)[..nl] == a[..nl] && (a + b)[nl + 1..] == a[nl + 1..] + b
  {
    var t := a + b;
    var nl := IndexOfNewline(a);
    assert t[nl] == '\n' && t[..nl] == a[..nl];
    var n2 := IndexOfNewline(t);
    assert forall k :: 0 <= k < nl ==> t[k] == a[..nl][k];
    assert forall k :: 0 <= k < n2 ==> t[k] == t[..n2][k];
  }

  /** `first` followed by what the later text gives. */
  function Then(first: Cut, later: Cut): Cut {
    Cut(first.lines + later.lines, later.rest)
  }

  lemma ThenAssociative(line: string, first: Cut, later: Cut)
    ensures Then(Cut([line] + first.lines, first.rest), later) ==
            Cut([line] + Then(first, later).lines, Then(first, later).rest)
  {
    assert ([line] + first.lines) + later.lines == [line] + (first.lines + later.lines);
  }

  /** Cutting a text in two steps, the second behind what the first left pending. */
  lemma {:induction false} CutInSteps(a: string, b: string)
    ensures CutLines(a + b) == Then(CutLines(a), CutLines(CutLines(a).rest + b))
    decreases |a|
  {
    if '\n' in a {
      FirstNewline(a, b);
      var nl := IndexOfNewline(a);
      var tail := a[nl + 1..];
      CutInSteps(tail, b);
      ThenAssociative(a[..nl], CutLines(tail), CutLines(CutLines(tail).rest + b));
    } else {
      var whole := CutLines(a + b);
      assert [] + whole.lines == whole.lines;
    }
  }

  /** For every chunking of a text, the delivered lines and the pending part are those of the whole text. */
  lemma {:induction false} ChunkingIsInvisible(pending: string, chunks: seq<string>)
    requires '\n' !in pending
    ensures Fed(pending, chunks) == CutLines(pending + Concat(chunks))
    decreases |chunks|
  {
    if chunks == [] {
      assert pending + "" == pending;
    } else {
      var a, b := pending + chunks[0], Concat(chunks[1..]);
      CutAvoids(a);
      ChunkingIsInvisible(CutLines(a).rest, chunks[1..]);
      CutInSteps(a, b);
      Associative(pending, chunks[0], b);
    }
  }

  lemma Associative(a: string, b: string, c: string)
    ensures (a + b) + c == a + (b + c)
  {
  }

  /** The last `cap` characters of a text. */
  function Tail(text: string, cap: nat): string {
    if |text| <= cap then text else text[|text| - cap..]
  }

  const TAIL_CAP := 2000

  class BoundedTail {
    const cap: nat
    var buffer: string

    constructor (cap: nat := TAIL_CAP)
      ensures buffer == "" && this.cap == cap
    {
      this.cap, buffer := cap, "";
    }

    method Append(text: string)
      modifies this
      ensures buffer == Tail(old(buffer) + text, cap)
    {
      buffer := buffer + text;
      if |buffer| > cap {
        buffer := buffer[|buffer| - cap..];
      }
    }
  }

  function Kept(buffer: string, chunks: seq<string>, cap: nat): string
    decreases |chunks|
  {
    if chunks == [] then buffer else Kept(Tail(buffer + chunks[0], cap), chunks[1..], cap)
  }

  /** However the text arrives, the buffer ends up as the tail of all of it. */
  lemma {:induction false} TailOfWhole(buffer: string, chunks: seq<string>, cap: nat)
    requires |buffer| <= cap
    ensures Kept(buffer, chunks, cap) == Tail(buffer + Concat(chunks), cap)
    decreases |chunks|
  {
    if chunks == [] {
      assert buffer + "" == buffer;
    } else {
      var text := buffer + chunks[0];
      TailOfWhole(Tail(text, cap), chunks[1..], cap);
      TailTail(text, Concat(chunks[1..]), cap);
      Associative(buffer, chunks[0], Concat(chunks[1..]));
    }
  }

  lemma TailTail(text: string, more: string, cap: nat)
    ensures Tail(Tail(text, cap) + more, cap) == Tail(text + more, cap)
  {
    if |text| > cap {
      assert (text + more)[|text| - cap..] == text[|text| - cap..] + more;
    }
  }

  // -------------------------------------------------------------------------
  // A whole stream
  // -------------------------------------------------------------------------

  /** The lines, and what `finish` adds to them. */
  function Delivered(c: Cut): seq<string> {
    if c.rest == "" then c.lines else c.lines + [c.rest]
  }

  /** What the callback receives for a whole text: an unfinished last line too. */
  function LinesOf(text: string): seq<string> {
    Delivered(CutLines(text))
  }

  /** The loop over the decoded chunks of a stream, torn or not; the count leaves out an unfinished last line. */
  method ConsumeLines(chunks: seq<string>) returns (lines: seq<string>, count: nat)
    ensures lines == LinesOf(Concat(chunks))
    ensures count == |CutLines(Concat(chunks)).lines|
  {
    var splitter := new LineSplitter();
    count := 0;
    ghost var whole := Fed("", chunks);
    NoLinesYet([], whole);
    for i := 0 to |chunks|
      invariant whole == Then(Cut(splitter.onLine, ""), Fed(splitter.pending, chunks[i..]))
      invariant count == |splitter.onLine| && fresh(splitter)
    {
      ghost var before, pending := splitter.onLine, splitter.pending;
      var out := splitter.Append(chunks[i]);
      assert chunks[i..][0] == chunks[i] && chunks[i..][1..] == chunks[i + 1..];
      FedOn(before, out, Fed(splitter.pending, chunks[i + 1..]), pending, chunks[i..], splitter.pending);
      count := count + |out|;
    }
    assert chunks[|chunks|..] == [];
    LastLine(splitter.onLine, "");
    ChunkingIsInvisible("", chunks);
    assert "" + Concat(chunks) == Concat(chunks);
    assert Cut(splitter.onLine, splitter.pending) == CutLines(Concat(chunks));
    splitter.Finish();
    lines := splitter.onLine;
  }

  lemma FedOn(before: seq<string>, out: seq<string>, later: Cut, pending: string, chunks: seq<string>, rest: string)
    requires chunks != [] && Cut(out, rest) == CutLines(pending + chunks[0]) && later == Fed(rest, chunks[1..])
    ensures Then(Cut(before, ""), Fed(pending, chunks)) == Then(Cut(before + out, ""), later)
  {
    assert Fed(pending, chunks) == Then(Cut(out, rest), later);
    LinesAssociative(before, out, later.lines);
  }

  lemma LinesAssociative(a: seq<string>, b: seq<string>, c: seq<string>)
    ensures a + (b + c) == (a + b) + c
  {
  }

  /** The count is the number of lines delivered exactly when the text does not stop in the middle of a line. */
  lemma CountsEveryLine(text: string)
    ensures |CutLines(text).lines| == |LinesOf(text)| <==> text == "" || EndsWith(text, "\n")
  {
    RestIsEmpty(text);
  }

  lemma LastIsNewline(text: string)
    requires text != ""
    ensures EndsWith(text, "\n") <==> text[|text| - 1] == '\n'
  {
    assert text[|text| - 1..] == [text[|text| - 1]];
  }

  lemma {:induction false} RestIsEmpty(text: string)
    ensures CutLines(text).rest == "" <==> text == "" || EndsWith(text, "\n")
    decreases |text|
  {
    if '\n' in text {
      var nl := IndexOfNewline(text);
      var after := text[nl + 1..];
      RestIsEmpty(after);
      FirstLine(text, nl, text[..nl], after);
      LastIsNewline(text);
      if after != "" {
        LastIsNewline(after);
        assert text[|text| - 1] == after[|after| - 1];
      }
    } else if text != "" {
      LastIsNewline(text);
    }
  }

  /** The lines as the handler appends them, each with its newline. */
  function Terminated(lines: seq<string>): seq<string> {
    seq(|lines|, i requires 0 <= i < |lines| => lines[i] + "\n")
  }

  lemma TerminatedMore(line: string, lines: seq<string>)
    ensures Concat(Terminated([line] + lines)) == (line + "\n") + Concat(Terminated(lines))
  {
    var all := Terminated([line] + lines);
    assert all[0] == line + "\n" && all[1..] == Terminated(lines);
  }

  /** The text with its last line finished. */
  function Finished(text: string): string {
    if text == "" || EndsWith(text, "\n") then text else text + "\n"
  }

  lemma FinishedMore(head: string, after: string)
    requires EndsWith(head, "\n")
    ensures Finished(head + after) == head + Finished(after)
  {
    var text := head + after;
    if after == "" {
      assert text == head;
    } else {
      LastIsNewline(text);
      LastIsNewline(after);
      assert text[|text| - 1] == after[|after| - 1];
      Associative(head, after, "\n");
    }
  }

  lemma LinesOfMore(text: string, nl: nat, line: string, after: string)
    requires '\n' in text && nl == IndexOfNewline(text) && line == text[..nl] && after == text[nl + 1..]
    ensures LinesOf(text) == [line] + LinesOf(after) && text == (line + "\n") + after && EndsWith(line + "\n", "\n")
  {
    FirstLine(text, nl, line, after);
    MoreLines(line, CutLines(after), CutLines(text));
    Rejoin(text, nl);
    NewlineEnds(line);
  }

  lemma NewlineEnds(line: string)
    ensures EndsWith(line + "\n", "\n")
  {
  }

  lemma MoreLines(line: string, later: Cut, all: Cut)
    requires all == Cut([line] + later.lines, later.rest)
    ensures Delivered(all) == [line] + Delivered(later)
  {
  }

  /** The lines handed to the tail put the text together again, its last line finished. */
  lemma {:induction false} LinesRebuild(text: string)
    ensures Concat(Terminated(LinesOf(text))) == Finished(text)
    decreases |text|
  {
    if '\n' in text {
      var nl := IndexOfNewline(text);
      var line, after := text[..nl], text[nl + 1..];
      LinesRebuild(after);
      LinesOfMore(text, nl, line, after);
      TerminatedMore(line, LinesOf(after));
      FinishedMore(line + "\n", after);
    } else {
      OneUnfinishedLine(text);
    }
  }

  lemma OneUnfinishedLine(text: string)
    requires '\n' !in text
    ensures Concat(Terminated(LinesOf(text))) == Finished(text)
  {
    if text != "" {
      assert LinesOf(text) == [text] + [];
      TerminatedMore(text, []);
      assert (text + "\n") + "" == text + "\n";
      LastIsNewline(text);
    }
  }

  /** The handler's side of the stream: every delivered line goes into the tail with a newline. */
  method KeepTail(chunks: seq<string>, cap: nat := TAIL_CAP) returns (tail: string)
    ensures tail == Tail(Finished(Concat(chunks)), cap)
  {
    var lines, count := ConsumeLines(chunks);
    var bounded := new BoundedTail(cap);
    ghost var pieces := Terminated(lines);
    for i := 0 to |lines|
      invariant fresh(bounded) && bounded.cap == cap && |bounded.buffer| <= cap
      invariant Kept(bounded.buffer, pieces[i..], cap) == Kept("", pieces, cap)
    {
      assert pieces[i..][0] == lines[i] + "\n" && pieces[i..][1..] == pieces[i + 1..];
      bounded.Append(lines[i] + "\n");
    }
    assert pieces[|lines|..] == [];
    tail := bounded.buffer;
    TailOfWhole("", pieces, cap);
    assert "" + Concat(pieces) == Concat(pieces);
    LinesRebuild(Concat(chunks));
  }

  /** That is the tail of the raw text exactly when the text does not stop in the middle of a line. */
  lemma RawTailExactly(text: string, cap: nat)
    requires cap > 0
    ensures Tail(Finished(text), cap) == Tail(text, cap) <==> text == "" || EndsWith(text, "\n")
  {
    if text != "" && !EndsWith(text, "\n") {
      var a, b := Tail(text + "\n", cap), Tail(text, cap);
      LastIsNewline(text);
      assert a[|a| - 1] == '\n' && b[|b| - 1] == text[|text| - 1];
    }
  }
}
