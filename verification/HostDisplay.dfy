/** The parser and the terminal together on a host program's output: which characters after the cursor the
    output replaces, and the method that runs both. */
module HostDisplay {
  import Dom
  import Erase
  import Sgr
  import StyledOutput
  import opened StyledTerminal
  import opened TerminalRun
  import opened EscapeParser
  import opened ParserChunks
  import opened ControlPrinter
  import opened HostOutput

  /** Characters that take a column each. */
  predicate IsOrdinary(s: string) {
    forall i :: 0 <= i < |s| ==> ' ' <= s[i] < 127 as char
  }

  /** After the cursor come m ordinary characters and then the end of the line or of the document, in
      elements that a deletion has no rule of its own for. */
  predicate LineAhead(p: Dom.Place, m: nat) {
    var after := Dom.After(p);
    && Erase.ProseAhead(p) && m <= |after|
    && (forall i :: 0 <= i < m ==> ' ' <= after[i].ch < 127 as char)
    && (m < |after| ==> after[m].ch in {LF, CR, FF})
  }

  function Min(a: nat, b: nat): nat {
    if a < b then a else b
  }

  /** A deletion counts columns as the parser does. */
  lemma ColumnsAgree(ch: char, column: nat, seen: nat)
    requires ch !in {CR, LF, FF}
    ensures column + Erase.Advance(ch, column, seen)
         == if ch == TAB then NextTab(column + seen) else UpdateColumn(ch, column + seen)
  {
  }

  // ---------- The calls for such a text ----------

  /** Text, breaks and SGR sequences only. */
  predicate IsMild(log: seq<Action>) {
    forall i :: 0 <= i < |log| ==>
      log[i].Text? || log[i].WrapBreak? || (log[i].ControlSequence? && log[i].last == 'm')
  }

  lemma {:induction false} LayIsMild(s: string, col: int, log: seq<Action>, scr: Screen)
    requires IsMild(log)
    ensures IsMild(Lay(s, col, log, scr).1)
    decreases |s|
  {
    if |s| > 0 {
      LayIsMild(s[1..], NextText(col, s[0], log, scr).0, NextText(col, s[0], log, scr).1, scr);
    }
  }

  lemma {:induction false} ParsedIsMild(items: seq<Item>, scr: Screen)
    requires AllSendable(items)
    ensures IsMild(Parsed(items, scr).1) && TextsOf(Parsed(items, scr).1) == TextSent(items)
    decreases |items|
  {
    hide Column, Lay, Values, TextsOf;
    if |items| == 0 {
      NoText();
    } else {
      var front, last := items[..|items| - 1], items[|items| - 1];
      ParsedIsMild(front, scr);
      var (col, log) := Parsed(front, scr);
      match last
      case Say(text) =>
        LayIsMild(text, col, log, scr);
        TextSurvives(text, col, log, scr);
      case Render(params) =>
        assert Sendable(last);
        TextsOfSnoc(log, Sequence(false, Values(params), 'm'));
    }
  }

  lemma NoText()
    ensures TextsOf([]) == ""
  {
  }

  /** Text counts alike in pieces. */
  lemma {:induction false} CallsAreMild(calls: seq<Action>)
    ensures TextsOf(Merged(calls)) == TextsOf(calls) && Breaks(Merged(calls)) == Breaks(calls)
    ensures IsMild(Merged(calls)) ==> IsMild(calls)
    decreases |calls|
  {
    hide TextsOf, Breaks;
    if |calls| > 0 {
      var front, last := calls[..|calls| - 1], calls[|calls| - 1];
      assert calls == front + [last];
      CallsAreMild(front);
      TextsOfSnoc(front, last);
      MildSoFar(Merged(front), last);
      if last.Text? {
        TextsOfAppend(Merged(front), last.s, last.end);
      } else {
        TextsOfSnoc(Merged(front), last);
      }
    }
  }

  lemma MildSoFar(log: seq<Action>, a: Action)
    ensures a.Text? && IsMild(AppendText(log, a.s, a.end)) ==> IsMild(log)
    ensures !a.Text? && IsMild(log + [a]) ==> IsMild(log) && IsMild([a])
  {
    if a.Text? && IsMild(AppendText(log, a.s, a.end)) {
      var more := AppendText(log, a.s, a.end);
      forall i | 0 <= i < |log|
        ensures log[i].Text? || log[i].WrapBreak? || (log[i].ControlSequence? && log[i].last == 'm')
      {
        if i < |log| - 1 { assert more[i] == log[i]; } else if |log| > 0 && !log[i].Text? && a.s != [] {
          assert more[i] == log[i];
        }
      }
    }
    if !a.Text? && IsMild(log + [a]) {
      assert forall i :: 0 <= i < |log| ==> (log + [a])[i] == log[i];
      assert (log + [a])[|log|] == a;
    }
  }

  lemma {:induction false} RunOrdinary(s: string, col: int, scr: Screen)
    requires IsOrdinary(s) && col >= 0 && col + |s| <= scr.wrapWidth
    ensures RunColumn(s, col, scr) == col + |s|
    decreases |s|
  {
    if |s| > 0 {
      RunOrdinary(s[..|s| - 1], col, scr);
      assert ' ' <= s[|s| - 1] < 127 as char;
    }
  }

  // ---------- What the calls leave after the cursor ----------

  /** What n columns of text leave of a line of m ordinary characters. */
  function LeftOf(p: Dom.Place, n: nat, m: nat): Ahead
    requires LineAhead(p, m)
  {
    Erase.ProseAheadMarks(p);
    Ahead(Dom.Look(Dom.After(p))[Min(n, m)..], Erase.MarksFrom(p)[Min(n, m)..])
  }

  lemma DroppedLeft(p: Dom.Place, n: nat, k: nat, m: nat, column: nat)
    requires LineAhead(p, m)
    ensures Dropped(LeftOf(p, n, m), k, column) == LeftOf(p, n + k, m)
  {
    hide Dom.Look, Dom.After, Erase.MarksFrom, Erase.ScanLine, Erase.ProseAhead, Dropped, Erase.TextMarks;
    Erase.ProseAheadMarks(p);
    var after := Dom.After(p);
    OrdinaryAhead(p, m);
    DroppedPart(Dom.Look(after), Erase.Chars(after), Min(n, m), k, m, column);
  }

  lemma OrdinaryAhead(p: Dom.Place, m: nat)
    requires LineAhead(p, m)
    ensures m <= |Dom.After(p)| && IsOrdinary(Erase.Chars(Dom.After(p))[..m])
  {
    hide Dom.After, Erase.ProseAhead;
  }

  lemma DroppedPart(glyphs: seq<Dom.Glyph>, chars: string, j: nat, k: nat, m: nat, column: nat)
    requires j <= m <= |chars| == |glyphs| && IsOrdinary(chars[..m]) && (m < |chars| ==> chars[m] in {LF, CR, FF})
    ensures Dropped(Ahead(glyphs[j..], Erase.TextMarks(chars)[j..]), k, column)
         == Ahead(glyphs[Min(j + k, m)..], Erase.TextMarks(chars)[Min(j + k, m)..])
  {
    hide Erase.ScanLine, Erase.TextMarks, IsOrdinary, Dropped, Min;
    MinSplit(j, k, m);
    LineTaken(chars, j, k, m, column);
    DroppedSlices(glyphs, Erase.TextMarks(chars), j, Min(k, m - j), k, column);
  }

  lemma MinSplit(j: nat, k: nat, m: nat)
    requires j <= m
    ensures Min(j + k, m) == j + Min(k, m - j)
  {
  }

  lemma LineTaken(chars: string, j: nat, k: nat, m: nat, column: nat)
    requires j <= m <= |chars| && IsOrdinary(chars[..m]) && (m < |chars| ==> chars[m] in {LF, CR, FF})
    ensures var scan := Erase.ScanLine(Erase.TextMarks(chars)[j..], k, column, 0);
            scan.taken == scan.marks == Min(k, m - j)
  {
    hide Erase.ScanLine, Erase.TextMarks, IsOrdinary;
    LineMarks(chars, j, m);
    Erase.OrdinaryLine(chars[j..m], Erase.TextMarks(chars[m..]), k, column, 0);
  }

  lemma DroppedSlices(glyphs: seq<Dom.Glyph>, marks: seq<Erase.Mark>, j: nat, t: nat, k: nat, column: nat)
    requires j + t <= |glyphs| == |marks|
    requires var scan := Erase.ScanLine(marks[j..], k, column, 0); scan.taken == scan.marks == t
    ensures Dropped(Ahead(glyphs[j..], marks[j..]), k, column) == Ahead(glyphs[j + t..], marks[j + t..])
  {
    hide Erase.ScanLine;
    SliceTwice(glyphs, j, t);
    SliceTwice(marks, j, t);
  }

  lemma SliceTwice<T>(s: seq<T>, j: nat, t: nat)
    requires j + t <= |s|
    ensures s[j..][t..] == s[j + t..]
  {
  }

  lemma LineMarks(chars: string, j: nat, m: nat)
    requires j <= m <= |chars| && IsOrdinary(chars[..m]) && (m < |chars| ==> chars[m] in {LF, CR, FF})
    ensures Erase.TextMarks(chars)[j..] == Erase.TextMarks(chars[j..m]) + Erase.TextMarks(chars[m..])
    ensures forall i :: 0 <= i < m - j ==> ' ' <= chars[j..m][i] < 127 as char
    ensures var rest := Erase.TextMarks(chars[m..]); |rest| == 0 || (rest[0].Ch? && Erase.IsLineEnd(rest[0].ch))
  {
    forall i | 0 <= i < m - j ensures ' ' <= chars[j..m][i] < 127 as char {
      assert chars[j..m][i] == chars[..m][j + i];
    }
  }

  /** The calls make room for as many columns as they print characters. */
  lemma {:induction false} CallsReplace(p: Dom.Place, calls: seq<Action>, m: nat, scr: Screen)
    requires LineAhead(p, m) && IsMild(calls) && Breaks(calls) == 0 && Placed(calls, 0, scr)
    requires IsOrdinary(TextsOf(calls)) && Column([], scr) + |TextsOf(calls)| <= scr.wrapWidth
    ensures Column(Merged(calls), scr) == Column([], scr) + |TextsOf(calls)|
    ensures Remaining(AheadOf(p), false, OutputsOf(calls, scr)) == LeftOf(p, |TextsOf(calls)|, m)
    decreases |calls|
  {
    hide Column, TextsOf, Breaks, Merged, LineAhead, AheadOf, Dropped, LeftOf, RunColumn, Remaining, OutputsOf;
    if |calls| == 0 {
      NothingCalledYet(p, m, scr);
    } else {
      var front, last := calls[..|calls| - 1], calls[|calls| - 1];
      assert calls == front + [last];
      TextsOfSnoc(front, last);
      PlacedFront(front, last, scr);
      assert forall i :: 0 <= i < |front| ==> calls[i] == front[i];
      assert forall i :: 0 <= i < |TextsOf(front)| ==> TextsOf(calls)[i] == TextsOf(front)[i];
      CallsReplace(p, front, m, scr);
      if last.Text? {
        assert TextsOf(calls)[|TextsOf(front)|..] == last.s;
        TextReplaces(p, front, last, m, scr);
      } else {
        SequenceReplaces(p, front, last, m, scr);
        assert TextsOf(front) + "" == TextsOf(front);
      }
    }
  }

  lemma TextReplaces(p: Dom.Place, front: seq<Action>, last: Action, m: nat, scr: Screen)
    requires LineAhead(p, m) && last.Text? && IsOrdinary(last.s)
    requires last.end == RunColumn(last.s, Column(Merged(front), scr), scr)
    requires Column(Merged(front), scr) + |last.s| <= scr.wrapWidth
    requires Remaining(AheadOf(p), false, OutputsOf(front, scr)) == LeftOf(p, |TextsOf(front)|, m)
    ensures Column(Merged(front + [last]), scr) == Column(Merged(front), scr) + |last.s|
    ensures Remaining(AheadOf(p), false, OutputsOf(front + [last], scr)) == LeftOf(p, |TextsOf(front)| + |last.s|, m)
  {
    hide Column, TextsOf, Merged, LineAhead, AheadOf, Dropped, LeftOf, RunColumn, Remaining, OutputsOf, ModeAfter,
      IsOrdinary;
    var s, column := last.s, Column(Merged(front), scr);
    NoInsertMode(front, scr);
    OutputsSnoc(front, last, scr);
    MergedAppend(front, last);
    RunOrdinary(s, column, scr);
    TextEnds(Merged(front), s, last.end, scr);
    DroppedLeft(p, |TextsOf(front)|, |s|, m, column);
    assert OutputFor(front, last, scr) == [Print(s, false, column, |s|)];
    RemainingSnoc(AheadOf(p), OutputsOf(front, scr), Print(s, false, column, |s|));
  }

  lemma SequenceReplaces(p: Dom.Place, front: seq<Action>, last: Action, m: nat, scr: Screen)
    requires LineAhead(p, m) && last.ControlSequence? && last.last == 'm'
    ensures Column(Merged(front + [last]), scr) == Column(Merged(front), scr)
    ensures Remaining(AheadOf(p), false, OutputsOf(front + [last], scr))
         == Remaining(AheadOf(p), false, OutputsOf(front, scr))
  {
    hide Column, Merged, LineAhead, AheadOf, Dropped, Remaining, OutputsOf, ModeAfter;
    OutputsSnoc(front, last, scr);
    MergedAppend(front, last);
    SequenceRests(Merged(front), last, scr);
    assert OutputFor(front, last, scr) == [StyledTerminal.Sgr(last.params + [last.num])];
    RemainingSnoc(AheadOf(p), OutputsOf(front, scr), StyledTerminal.Sgr(last.params + [last.num]));
  }

  lemma NothingCalledYet(p: Dom.Place, m: nat, scr: Screen)
    requires LineAhead(p, m)
    ensures TextsOf([]) == "" && Merged([]) == [] && OutputsOf([], scr) == []
    ensures Remaining(AheadOf(p), false, []) == AheadOf(p) == LeftOf(p, 0, m)
  {
  }

  lemma PlacedFront(front: seq<Action>, last: Action, scr: Screen)
    requires Placed(front + [last], 0, scr)
    ensures Placed(front, 0, scr)
    ensures last.Text? ==> last.end == RunColumn(last.s, Column(Merged(front), scr), scr)
  {
    hide Merged, Column, RunColumn;
    var calls := front + [last];
    assert calls[..|front|] == front && PlacedAt(calls, |front|, scr);
    forall k | 0 <= k < |front| ensures PlacedAt(front, k, scr) {
      assert calls[..k] == front[..k] && calls[k] == front[k] && PlacedAt(calls, k, scr);
    }
  }

  lemma TextEnds(log: seq<Action>, s: string, end: int, scr: Screen)
    requires end >= 0 && (s == "" ==> end == Column(log, scr))
    ensures Column(AppendText(log, s, end), scr) == end
  {
  }

  lemma SequenceRests(log: seq<Action>, a: Action, scr: Screen)
    requires a.ControlSequence? && a.last == 'm'
    ensures Column(log + [a], scr) == Column(log, scr)
  {
    assert (log + [a])[..|log|] == log;
  }

  lemma RemainingSnoc(a: Ahead, es: seq<Output>, e: Output)
    ensures Remaining(a, false, es + [e]) == Left(Remaining(a, false, es), ModeAfter(false, es), e)
  {
    hide Left, ModeAfter;
    assert (es + [e])[..|es|] == es;
  }

  /** A host program's text of n ordinary characters that fit the line takes the place of the next n
      characters of a line of ordinary ones, or of all that are left of it; everything behind them stays as
      it is. */
  lemma HostOutputReplaces(doc: Dom.Place, items: seq<Item>, chunks: seq<string>, calls: seq<Action>, scr: Screen,
                           trim: Trimming, m: nat)
    requires AllSendable(items) && Concat(chunks) == Sent(items) && Merged(calls) == FeedChunks(chunks, scr).1
    requires Placed(calls, 0, scr)
    requires StyledOutput.ParentStyles(doc) == [] && !IsError(Dom.Around(doc))
    requires IsOrdinary(TextSent(items)) && Column([], scr) + |TextSent(items)| <= scr.wrapWidth && LineAhead(doc, m)
    ensures Dom.Look(Dom.After(Document(doc, calls, scr, trim)))
         == Dom.Look(Dom.After(doc))[Min(|TextSent(items)|, m)..]
  {
    hide FeedChunks, Run, Dom.After, Dom.Look, OutputsOf, IsError, Concat, Sent, Column, Parsed, Merged, TextSent,
      Remaining, Erase.MarksFrom, Erase.BlockAhead, Erase.ProseAhead, Placed, Fits, Lits, Painted, Breaks, TextsOf,
      IsMild, Screenful, TextOnly, Plain, IsTail;
    var text := TextSent(items);
    AnyChunks(items, chunks, scr);
    ParsedIsMild(items, scr);
    CallsAreMild(calls);
    forall i | 0 <= i < |text| ensures text[i] !in {CR, LF, FF, 0x200B as char} {
      assert ' ' <= text[i] < 127 as char;
    }
    OrdinaryFits(text, Column([], scr), scr);
    BreaksIffTooLong(items, scr);
    NothingFits(text, Column([], scr), scr);
    CallsReplace(doc, calls, m, scr);
    Erase.ProseAheadMarks(doc);
    HostOutputIsPainted(doc, items, chunks, calls, scr, trim);
  }

  lemma NothingFits(s: string, col: int, scr: Screen)
    ensures s == "" ==> Fits(s, col, scr)
  {
  }

  // ---------- Both together ----------

  /** The parser and the terminal on the chunks: what they leave in the document. */
  method Display(doc: Dom.Place, items: seq<Item>, chunks: seq<string>, scr: Screen,
                 trim: Trimming) returns (shown: Dom.Place)
    requires AllSendable(items) && Concat(chunks) == Sent(items)
    requires StyledOutput.ParentStyles(doc) == [] && !IsError(Dom.Around(doc))
    ensures exists calls: seq<Action> ::
      && shown == Document(doc, calls, scr, trim)
      && Screenful(shown) == Screenful(doc) + Plain(Lits(calls)) && TextOnly(Lits(calls)) == Painted(items)
    ensures Screenful(shown) == Screenful(doc) + Painted(items) <==>
            !scr.wraps || Fits(TextSent(items), Column([], scr), scr)
    ensures IsOrdinary(TextSent(items)) && Column([], scr) + |TextSent(items)| <= scr.wrapWidth ==>
              forall m: nat :: LineAhead(doc, m) ==>
                Dom.Look(Dom.After(shown)) == Dom.Look(Dom.After(doc))[Min(|TextSent(items)|, m)..]
  {
    hide Run, Step, OutputsOf, Screenful, Plain, Lits, TextOnly, Painted, Fits, Chunk, Sent, Merged, IsError, Column,
      TextSent, Concat, Placed, Quiet, LineAhead, Dom.After, Dom.Look;
    var parser := new Parser(scr);
    var terminal := new Terminal(doc, trim);
    var i := 0;
    NothingYet(doc, chunks, scr, trim);
    while i < |chunks|
      invariant 0 <= i <= |chunks| && parser.Valid() && fresh(parser) && fresh(terminal)
      invariant parser.prevNumParameters == null || fresh(parser.prevNumParameters)
      invariant parser.scr == scr && terminal.trim == trim
      invariant (parser.Control(0), Merged(parser.calls)) == FeedChunks(chunks[..i], scr)
      invariant Placed(parser.calls, 0, scr)
      invariant terminal.Contents() == Run(Fresh(doc), OutputsOf(parser.calls, scr), trim)
    {
      var was := parser.calls;
      assert chunks[..i + 1][..i] == chunks[..i] && chunks[..i + 1][i] == chunks[i];
      ChunkIsQuiet(items, chunks, i);
      parser.InsertString(chunks[i]);
      PlacedMore(was, parser.calls, 0, scr);
      Perform(terminal, was, parser.calls, scr, Fresh(doc));
      i := i + 1;
    }
    assert chunks[..i] == chunks;
    shown := terminal.doc;
    HostOutputIsPainted(doc, items, chunks, parser.calls, scr, trim);
    DisplayReplaces(doc, items, chunks, parser.calls, scr, trim);
  }

  lemma DisplayReplaces(doc: Dom.Place, items: seq<Item>, chunks: seq<string>, calls: seq<Action>, scr: Screen,
                        trim: Trimming)
    requires AllSendable(items) && Concat(chunks) == Sent(items) && Merged(calls) == FeedChunks(chunks, scr).1
    requires Placed(calls, 0, scr)
    requires StyledOutput.ParentStyles(doc) == [] && !IsError(Dom.Around(doc))
    ensures IsOrdinary(TextSent(items)) && Column([], scr) + |TextSent(items)| <= scr.wrapWidth ==>
              forall m: nat :: LineAhead(doc, m) ==>
                Dom.Look(Dom.After(Document(doc, calls, scr, trim)))
                == Dom.Look(Dom.After(doc))[Min(|TextSent(items)|, m)..]
  {
    hide FeedChunks, Dom.After, Dom.Look, IsError, Concat, Sent, Column, Merged, TextSent, Placed, Document;
    if IsOrdinary(TextSent(items)) && Column([], scr) + |TextSent(items)| <= scr.wrapWidth {
      forall m: nat | LineAhead(doc, m)
        ensures Dom.Look(Dom.After(Document(doc, calls, scr, trim)))
             == Dom.Look(Dom.After(doc))[Min(|TextSent(items)|, m)..]
      {
        HostOutputReplaces(doc, items, chunks, calls, scr, trim, m);
      }
    }
  }

  lemma ChunkIsQuiet(items: seq<Item>, chunks: seq<string>, k: nat)
    requires AllSendable(items) && Concat(chunks) == Sent(items) && k < |chunks|
    ensures Quiet(chunks[k])
  {
    SentIsQuiet(items);
    PartOfConcat(chunks, k);
  }

  lemma {:induction false} PartOfConcat(chunks: seq<string>, k: nat)
    requires k < |chunks| && Quiet(Concat(chunks))
    ensures Quiet(chunks[k])
    decreases |chunks|
  {
    var front, last := Concat(chunks[..|chunks| - 1]), chunks[|chunks| - 1];
    assert forall i :: 0 <= i < |front| ==> (front + last)[i] == front[i];
    assert forall i :: 0 <= i < |last| ==> (front + last)[|front| + i] == last[i];
    if k < |chunks| - 1 { PartOfConcat(chunks[..|chunks| - 1], k); }
  }

  lemma NothingYet(doc: Dom.Place, chunks: seq<string>, scr: Screen, trim: Trimming)
    ensures (Initial(0), Merged([])) == FeedChunks(chunks[..0], scr)
    ensures Placed([], 0, scr)
    ensures Fresh(doc) == Run(Fresh(doc), OutputsOf([], scr), trim)
  {
  }

  /** The terminal does what the parser has called for since the calls `was`. */
  method Perform(terminal: Terminal, was: seq<Action>, calls: seq<Action>, scr: Screen, ghost start: State)
    requires was <= calls
    requires terminal.Contents() == Run(start, OutputsOf(was, scr), terminal.trim)
    modifies terminal
    ensures terminal.Contents() == Run(start, OutputsOf(calls, scr), terminal.trim)
  {
    hide OutputFor, Step, Run, OutputsOf;
    var k := |was|;
    assert calls[..k] == was;
    while k < |calls|
      invariant |was| <= k <= |calls|
      invariant terminal.Contents() == Run(start, OutputsOf(calls[..k], scr), terminal.trim)
    {
      var out := OutputFor(calls[..k], calls[k], scr);
      assert calls[..k + 1] == calls[..k] + [calls[k]];
      AfterCall(start, calls[..k], calls[k], scr, terminal.trim);
      if |out| > 0 {
        terminal.Do(out[0]);
      }
      k := k + 1;
    }
    assert calls[..k] == calls;
  }

  /** One more call is at most one more step of the terminal. */
  lemma AfterCall(start: State, calls: seq<Action>, a: Action, scr: Screen, trim: Trimming)
    ensures var out, s := OutputFor(calls, a, scr), Run(start, OutputsOf(calls, scr), trim);
            Run(start, OutputsOf(calls + [a], scr), trim) == if |out| > 0 then Step(s, out[0], trim) else s
  {
    hide OutputFor, Step, Run, OutputsOf;
    var out, es := OutputFor(calls, a, scr), OutputsOf(calls, scr);
    AtMostOne(calls, a, scr);
    OutputsSnoc(calls, a, scr);
    if |out| > 0 {
      assert out == [out[0]];
      RunSnoc(start, es, out[0], trim);
    } else {
      assert es + [] == es;
    }
  }

  lemma AtMostOne(before: seq<Action>, a: Action, scr: Screen)
    ensures |OutputFor(before, a, scr)| <= 1
  {
  }

  lemma RunSnoc(s: State, es: seq<Output>, e: Output, trim: Trimming)
    ensures Run(s, es + [e], trim) == Step(Run(s, es, trim), e, trim)
  {
    hide Step;
    assert (es + [e])[..|es|] == es;
  }
}
