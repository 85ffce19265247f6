/** From the characters a host program sends to what the document shows: the escape parser and the
    style engine together. */
module HostOutput {
  import opened Wire
  import Dom
  import Erase
  import Sgr
  import StyledOutput
  import opened StyledTerminal
  import opened TerminalRun
  import opened EscapeParser
  import opened ParserChunks
  import opened ControlPrinter
  import GraphicRendition

  /** What a host program means to send: text, or an SGR sequence with its parameters. */
  datatype Item =
    | Say(text: string)
    | Render(params: seq<Option<nat>>)

  function SentFor(item: Item): string {
    match item
    case Say(text) => text
    case Render(params) => Printed(false, params, 'm')
  }

  /** The characters that it sends for it. */
  function Sent(items: seq<Item>): string {
    if |items| == 0 then "" else Sent(items[..|items| - 1]) + SentFor(items[|items| - 1])
  }

  /** Text is free of controls that the parser acts on and of line ends; there is a parameter, though it
      may be omitted, and the numbers are Java ints. */
  predicate Sendable(item: Item) {
    match item
    case Say(text) => IsPlain(text) && FF !in text
    case Render(params) =>
      |params| > 0 && forall i :: 0 <= i < |params| && params[i].Some? ==> params[i].value < 0x8000_0000
  }

  predicate AllSendable(items: seq<Item>) {
    forall i :: 0 <= i < |items| ==> Sendable(items[i])
  }

  // ---------- What should be seen ----------

  function CodesFor(item: Item): seq<int> {
    if item.Say? then [] else Values(item.params)
  }

  function ItemCodes(items: seq<Item>): seq<int> {
    if |items| == 0 then [] else ItemCodes(items[..|items| - 1]) + CodesFor(items[|items| - 1])
  }

  /** Every character of the text with the rendition selected by all parameters sent before it. */
  function Painted(items: seq<Item>): seq<Shown> {
    if |items| == 0 then []
    else Painted(items[..|items| - 1]) + Paint(ItemCodes(items[..|items| - 1]), items[|items| - 1])
  }

  function Paint(codes: seq<int>, item: Item): seq<Shown> {
    if item.Say? then Drawn(item.text, Now(codes), false) else []
  }

  /** All the text. */
  function TextSent(items: seq<Item>): string {
    if |items| == 0 then ""
    else TextSent(items[..|items| - 1]) + if items[|items| - 1].Say? then items[|items| - 1].text else ""
  }

  // ---------- What the actions of the parser show ----------

  /** A character on the screen, and whether it belongs to a wrap break. */
  datatype Lit = Lit(shown: Shown, inBreak: bool)

  function Lights(s: seq<Shown>, inBreak: bool): (r: seq<Lit>)
    ensures |r| == |s| && forall i :: 0 <= i < |s| ==> r[i] == Lit(s[i], inBreak)
  {
    seq(|s|, i requires 0 <= i < |s| => Lit(s[i], inBreak))
  }

  function Plain(lits: seq<Lit>): (r: seq<Shown>)
    ensures |r| == |lits| && forall i :: 0 <= i < |r| ==> r[i] == lits[i].shown
  {
    seq(|lits|, i requires 0 <= i < |lits| => lits[i].shown)
  }

  function TextOnly(lits: seq<Lit>): seq<Shown> {
    if |lits| == 0 then []
    else TextOnly(lits[..|lits| - 1]) + if lits[|lits| - 1].inBreak then [] else [lits[|lits| - 1].shown]
  }

  function Codes(log: seq<Action>): seq<int> {
    if |log| == 0 then [] else Codes(log[..|log| - 1]) + CodesOfAction(log[|log| - 1])
  }

  function CodesOfAction(a: Action): seq<int> {
    if a.ControlSequence? && a.last == 'm' then a.params + [a.num] else []
  }

  /** The codes sent before the last text. */
  function TextCodes(log: seq<Action>): seq<int> {
    if |log| == 0 then []
    else if log[|log| - 1].Text? && log[|log| - 1].s != "" then Codes(log[..|log| - 1])
    else TextCodes(log[..|log| - 1])
  }

  function LitFor(codes: seq<int>, around: seq<int>, a: Action): seq<Lit> {
    match a
    case Text(s, _) => Lights(Drawn(s, Now(codes), false), false)
    case WrapBreak => Lights(Drawn(WRAP_STRING, Now(around), false), true)
    case _ => []
  }

  function Lits(log: seq<Action>): seq<Lit> {
    if |log| == 0 then []
    else
      var front := log[..|log| - 1];
      Lits(front) + LitFor(Codes(front), TextCodes(front), log[|log| - 1])
  }

  lemma LogSnoc(log: seq<Action>, a: Action)
    ensures Codes(log + [a]) == Codes(log) + CodesOfAction(a)
    ensures TextCodes(log + [a]) == if a.Text? && a.s != "" then Codes(log) else TextCodes(log)
    ensures Lits(log + [a]) == Lits(log) + LitFor(Codes(log), TextCodes(log), a)
  {
    hide Now, Drawn;
    assert (log + [a])[..|log|] == log;
  }

  lemma LightsAppend(s: string, t: string, codes: seq<int>)
    ensures Lights(Drawn(s + t, Now(codes), false), false)
         == Lights(Drawn(s, Now(codes), false), false) + Lights(Drawn(t, Now(codes), false), false)
  {
    hide Now;
  }

  lemma LitsRegroup(x: seq<Lit>, y: seq<Lit>, z: seq<Lit>)
    ensures (x + y) + z == x + (y + z) && x + [] == x
  {
  }

  /** Text that continues a text counts as if it came on its own. */
  lemma TextCounts(log: seq<Action>, s: string, end: int)
    ensures Codes(AppendText(log, s, end)) == Codes(log)
    ensures TextCodes(AppendText(log, s, end)) == if s == "" then TextCodes(log) else Codes(log)
    ensures Lits(AppendText(log, s, end)) == Lits(log) + LitFor(Codes(log), TextCodes(log), Text(s, end))
  {
    hide Codes, TextCodes, Lits, Now, Drawn;
    if s == "" {
      assert Lits(log) + [] == Lits(log);
    } else {
      LogSnoc(log, Text(s, end));
      assert Codes(log) + [] == Codes(log);
      if |log| > 0 && log[|log| - 1].Text? {
        MoreText(log[..|log| - 1], log[|log| - 1], s, end);
        assert log == log[..|log| - 1] + [log[|log| - 1]];
      }
    }
  }

  lemma MoreText(front: seq<Action>, last: Action, s: string, end: int)
    requires last.Text? && s != ""
    ensures Codes(front + [Text(last.s + s, end)]) == Codes(front + [last])
    ensures TextCodes(front + [Text(last.s + s, end)]) == Codes(front + [last])
    ensures Lits(front + [Text(last.s + s, end)])
         == Lits(front + [last]) + LitFor(Codes(front + [last]), TextCodes(front + [last]), Text(s, end))
  {
    hide Codes, TextCodes, Lits, Now, Drawn, Lights;
    LogSnoc(front, last);
    LogSnoc(front, Text(last.s + s, end));
    assert Codes(front) + [] == Codes(front);
    LightsAppend(last.s, s, Codes(front));
    LitsRegroup(Lits(front), Lights(Drawn(last.s, Now(Codes(front)), false), false),
                Lights(Drawn(s, Now(Codes(front)), false), false));
  }

  /** In whatever pieces the text comes. */
  lemma {:induction false} PiecesDoNotMatter(calls: seq<Action>)
    ensures Codes(Merged(calls)) == Codes(calls) && TextCodes(Merged(calls)) == TextCodes(calls)
    ensures Lits(Merged(calls)) == Lits(calls)
    decreases |calls|
  {
    hide Codes, TextCodes, Lits, LitFor, CodesOfAction, AppendText, Merged;
    if |calls| == 0 {
      NothingMerged();
    } else {
      var front, last := calls[..|calls| - 1], calls[|calls| - 1];
      assert calls == front + [last];
      PiecesDoNotMatter(front);
      MergedAppend(front, last);
      LogSnoc(front, last);
      if last.Text? {
        TextCounts(Merged(front), last.s, last.end);
        NoCodesInText(last);
        assert Codes(front) + [] == Codes(front);
      } else {
        LogSnoc(Merged(front), last);
      }
    }
  }

  lemma NoCodesInText(a: Action)
    requires a.Text?
    ensures CodesOfAction(a) == []
  {
  }

  lemma NothingMerged()
    ensures Merged([]) == []
  {
  }

  // ---------- What the style engine gets ----------

  /** The output for a call that is made after the calls before it. */
  function OutputFor(before: seq<Action>, a: Action, scr: Screen): seq<Output> {
    match a
    case Text(s, end) => [Print(s, false, Column(Merged(before), scr), end - Column(Merged(before), scr))]
    case WrapBreak => [Output.WrapBreak]
    case ControlSequence(_, params, num, last) => if last == 'm' then [Sgr(params + [num])] else []
    case _ => []
  }

  function OutputsOf(calls: seq<Action>, scr: Screen): seq<Output> {
    if |calls| == 0 then []
    else
      var front := calls[..|calls| - 1];
      OutputsOf(front, scr) + OutputFor(front, calls[|calls| - 1], scr)
  }

  lemma OutputsSnoc(calls: seq<Action>, a: Action, scr: Screen)
    ensures OutputsOf(calls + [a], scr) == OutputsOf(calls, scr) + OutputFor(calls, a, scr)
  {
    hide Column, Merged;
    assert (calls + [a])[..|calls|] == calls;
  }

  lemma SelectedSnoc(es: seq<Output>, e: Output)
    ensures CodesOf(es + [e]) == CodesOf(es) + if e.Sgr? then e.vals else []
    ensures CodesAround(es + [e]) == if e.Print? && e.text != "" then CodesOf(es) else CodesAround(es)
    ensures Selected(es + [e]) == Selected(es) + Draw(CodesOf(es), CodesAround(es), e)
  {
    hide Draw;
    assert (es + [e])[..|es|] == es;
  }

  lemma PlainAppend(a: seq<Lit>, b: seq<Lit>)
    ensures Plain(a + b) == Plain(a) + Plain(b)
  {
  }

  lemma OutputShows(codes: seq<int>, around: seq<int>, before: seq<Action>, a: Action, scr: Screen)
    ensures OutputFor(before, a, scr) == [] ==> LitFor(codes, around, a) == [] && CodesOfAction(a) == [] && !a.Text?
    ensures |OutputFor(before, a, scr)| <= 1
    ensures OutputFor(before, a, scr) != [] ==>
      var e := OutputFor(before, a, scr)[0];
      && Draw(codes, around, e) == Plain(LitFor(codes, around, a))
      && CodesOfAction(a) == (if e.Sgr? then e.vals else [])
      && (e.Print? && e.text != "" <==> a.Text? && a.s != "")
  {
    hide Column, Merged, Now;
  }

  /** What the style engine should show for the calls is what they light. */
  lemma {:induction false} SelectedIsLits(calls: seq<Action>, scr: Screen)
    ensures CodesOf(OutputsOf(calls, scr)) == Codes(calls)
    ensures CodesAround(OutputsOf(calls, scr)) == TextCodes(calls)
    ensures Selected(OutputsOf(calls, scr)) == Plain(Lits(calls))
    decreases |calls|
  {
    hide Selected, CodesOf, CodesAround, OutputsOf, OutputFor, Draw, Codes, TextCodes, Lits, LitFor, CodesOfAction;
    if |calls| == 0 {
      NothingCalled(scr);
    } else {
      var front, last := calls[..|calls| - 1], calls[|calls| - 1];
      assert calls == front + [last];
      SelectedIsLits(front, scr);
      var es, out := OutputsOf(front, scr), OutputFor(front, last, scr);
      OutputsSnoc(front, last, scr);
      LogSnoc(front, last);
      OutputShows(Codes(front), TextCodes(front), front, last, scr);
      PlainAppend(Lits(front), LitFor(Codes(front), TextCodes(front), last));
      if out == [] {
        assert es + [] == es && Lits(front) + [] == Lits(front) && Codes(front) + [] == Codes(front);
      } else {
        assert out == [out[0]];
        SelectedSnoc(es, out[0]);
      }
    }
  }

  lemma NothingCalled(scr: Screen)
    ensures OutputsOf([], scr) == [] && CodesOf([]) == [] == CodesAround([]) && Selected([]) == []
    ensures Codes([]) == [] == TextCodes([]) && Lits([]) == [] && Plain([]) == []
  {
  }

  /** Nothing switches insert mode on, so no line is trimmed. */
  lemma {:induction false} NoInsertMode(calls: seq<Action>, scr: Screen)
    ensures Untrimmed(true, false, OutputsOf(calls, scr)) && !ModeAfter(false, OutputsOf(calls, scr))
    decreases |calls|
  {
    hide Column, Merged;
    if |calls| > 0 {
      var front := calls[..|calls| - 1];
      NoInsertMode(front, scr);
      var es, out := OutputsOf(front, scr), OutputFor(front, calls[|calls| - 1], scr);
      if out == [] {
        assert es + [] == es;
      } else {
        assert out == [out[0]] && (es + out)[..|es|] == es;
      }
    }
  }

  // ---------- The parser's part ----------

  /** The column and the actions after the items. */
  function Parsed(items: seq<Item>, scr: Screen): (int, seq<Action>) {
    if |items| == 0 then (Column([], scr), [])
    else ParsedItem(Parsed(items[..|items| - 1], scr), items[|items| - 1], scr)
  }

  function ParsedItem(at: (int, seq<Action>), item: Item, scr: Screen): (int, seq<Action>) {
    match item
    case Say(text) => Lay(text, at.0, at.1, scr)
    case Render(params) =>
      if |params| == 0 then at
      else
        var log := at.1 + [Sequence(false, Values(params), 'm')];
        (Column(log, scr), log)
  }

  lemma FeedItem(item: Item, col: int, log: seq<Action>, scr: Screen)
    requires Sendable(item)
    ensures var at := ParsedItem((col, log), item, scr); Feed(Initial(col), SentFor(item), log, scr) == (Initial(at.0),
        at.1)
  {
    hide Feed, Printed, Sequence, Values, Lay, Column;
    match item
    case Say(text) => PlainText(text, col, log, scr);
    case Render(params) => PrintThenParse(false, col, params, 'm', log, scr);
  }

  lemma {:induction false} FeedSent(items: seq<Item>, scr: Screen)
    requires AllSendable(items)
    ensures var at := Parsed(items, scr); Feed(Initial(Column([], scr)), Sent(items), [], scr) == (Initial(at.0), at.1)
    decreases |items|
  {
    hide SentFor, ParsedItem, Sendable, Feed, Column;
    if |items| == 0 {
      FeedNothing(scr);
    } else {
      var front, last := items[..|items| - 1], items[|items| - 1];
      FeedSent(front, scr);
      NoLineFeedFirst(last);
      FeedSplit(Initial(Column([], scr)), Sent(front), SentFor(last), [], scr);
      var at := Parsed(front, scr);
      FeedItem(last, at.0, at.1, scr);
    }
  }

  lemma FeedNothing(scr: Screen)
    ensures Feed(Initial(Column([], scr)), "", [], scr) == (Initial(Column([], scr)), [])
  {
  }

  lemma NoLineFeedFirst(item: Item)
    requires Sendable(item)
    ensures SentFor(item) != "" ==> SentFor(item)[0] != LF
  {
    if item.Render? {
      assert SentFor(item)[0] == ESC;
    } else {
      assert item.text != "" ==> !IsC0(item.text[0]);
    }
  }

  // ---------- What the text comes to ----------

  lemma TextOnlyAppend(a: seq<Lit>, b: seq<Lit>)
    ensures TextOnly(a + b) == TextOnly(a) + TextOnly(b)
    decreases |b|
  {
    if |b| == 0 {
      assert a + b == a;
    } else {
      assert (a + b)[..|a + b| - 1] == a + b[..|b| - 1];
      TextOnlyAppend(a, b[..|b| - 1]);
    }
  }

  lemma TextOnlySnoc(lits: seq<Lit>, l: Lit)
    ensures TextOnly(lits + [l]) == TextOnly(lits) + if l.inBreak then [] else [l.shown]
  {
    assert (lits + [l])[..|lits|] == lits;
  }

  lemma LightsSnoc(s: seq<Shown>, inBreak: bool)
    requires |s| > 0
    ensures Lights(s, inBreak) == Lights(s[..|s| - 1], inBreak) + [Lit(s[|s| - 1], inBreak)]
    ensures s == s[..|s| - 1] + [s[|s| - 1]]
  {
  }

  lemma {:induction false} TextOnlyLights(s: seq<Shown>, inBreak: bool)
    ensures TextOnly(Lights(s, inBreak)) == if inBreak then [] else s
    decreases |s|
  {
    hide TextOnly, Lights;
    if |s| > 0 {
      LightsSnoc(s, inBreak);
      TextOnlySnoc(Lights(s[..|s| - 1], inBreak), Lit(s[|s| - 1], inBreak));
      TextOnlyLights(s[..|s| - 1], inBreak);
    } else {
      NoLights(s, inBreak);
    }
  }

  lemma NoLights(s: seq<Shown>, inBreak: bool)
    requires |s| == 0
    ensures TextOnly(Lights(s, inBreak)) == []
  {
  }

  /** One more piece of text, with or without a break before it. */
  lemma NextTextLits(col: int, ch: char, log: seq<Action>, scr: Screen)
    ensures var log1 := NextText(col, ch, log, scr).1;
            && Codes(log1) == Codes(log)
            && TextOnly(Lits(log1)) == TextOnly(Lits(log)) + Drawn([ch], Now(Codes(log)), false)
  {
    hide Codes, TextCodes, Lits, AppendText, TextOnly, Drawn, Now;
    var base := if UpdateColumn(ch, col) > scr.wrapWidth && scr.wraps then log + [Action.WrapBreak] else log;
    var end := NextText(col, ch, log, scr).0;
    assert NextText(col, ch, log, scr).1 == AppendText(base, [ch], end);
    LogSnoc(log, Action.WrapBreak);
    assert Codes(log) + [] == Codes(log);
    TextCounts(base, [ch], end);
    TextOnlyAppend(Lits(log), LitFor(Codes(log), TextCodes(log), Action.WrapBreak));
    TextOnlyLights(Drawn(WRAP_STRING, Now(TextCodes(log)), false), true);
    TextOnlyAppend(Lits(base), LitFor(Codes(base), TextCodes(base), Text([ch], end)));
    TextOnlyLights(Drawn([ch], Now(Codes(log)), false), false);
    assert TextOnly(Lits(log)) + [] == TextOnly(Lits(log));
  }

  lemma DrawnSplit(s: string, r: Sgr.Rendition)
    requires |s| > 0
    ensures Drawn(s, r, false) == Drawn([s[0]], r, false) + Drawn(s[1..], r, false)
  {
  }

  lemma ShownRegroup(x: seq<Shown>, y: seq<Shown>, z: seq<Shown>)
    ensures (x + y) + z == x + (y + z) && x + [] == x
  {
  }

  lemma {:induction false} LayLits(s: string, col: int, log: seq<Action>, scr: Screen)
    ensures Codes(Lay(s, col, log, scr).1) == Codes(log)
    ensures TextOnly(Lits(Lay(s, col, log, scr).1)) == TextOnly(Lits(log)) + Drawn(s, Now(Codes(log)), false)
    decreases |s|
  {
    hide NextText, Codes, Lits, TextOnly, Now;
    if |s| > 0 {
      var (next, log1) := NextText(col, s[0], log, scr);
      NextTextLits(col, s[0], log, scr);
      LayLits(s[1..], next, log1, scr);
      DrawnSplit(s, Now(Codes(log)));
      ShownRegroup(TextOnly(Lits(log)), Drawn([s[0]], Now(Codes(log)), false), Drawn(s[1..], Now(Codes(log)), false));
    } else {
      assert TextOnly(Lits(log)) + [] == TextOnly(Lits(log));
    }
  }

  lemma SequenceLits(log: seq<Action>, vs: seq<int>)
    requires |vs| > 0
    ensures Codes(log + [Sequence(false, vs, 'm')]) == Codes(log) + vs
    ensures Lits(log + [Sequence(false, vs, 'm')]) == Lits(log)
  {
    hide Codes, Lits, TextCodes;
    LogSnoc(log, Sequence(false, vs, 'm'));
    assert vs[..|vs| - 1] + [vs[|vs| - 1]] == vs;
    assert Lits(log) + [] == Lits(log);
  }

  /** The text that the actions light is the painted text. */
  lemma {:induction false} ParsedIsPainted(items: seq<Item>, scr: Screen)
    requires AllSendable(items)
    ensures Codes(Parsed(items, scr).1) == ItemCodes(items)
    ensures TextOnly(Lits(Parsed(items, scr).1)) == Painted(items)
    decreases |items|
  {
    hide Codes, Lits, TextOnly, Now, Drawn, Lay, Column, Values;
    if |items| == 0 {
      NothingLit();
    } else {
      var front, last := items[..|items| - 1], items[|items| - 1];
      ParsedIsPainted(front, scr);
      var (col, log) := Parsed(front, scr);
      ShownRegroup(Painted(front), [], []);
      match last
      case Say(text) =>
        LayLits(text, col, log, scr);
        assert ItemCodes(front) + [] == ItemCodes(front);
      case Render(params) =>
        assert Sendable(last);
        SequenceLits(log, Values(params));
    }
  }

  lemma NothingLit()
    ensures Codes([]) == [] && Lits([]) == [] && TextOnly([]) == []
  {
  }

  // ---------- Wrap breaks ----------

  /** The columns that a text runs through, as long as it fits. */
  function EndColumn(s: string, col: int): int {
    if |s| == 0 then col else EndColumn(s[1..], UpdateColumn(s[0], col))
  }

  lemma {:induction false} FitsAppend(s: string, t: string, col: int, scr: Screen)
    ensures Fits(s + t, col, scr) <==> Fits(s, col, scr) && Fits(t, EndColumn(s, col), scr)
    ensures EndColumn(s + t, col) == EndColumn(t, EndColumn(s, col))
    decreases |s|
  {
    if |s| == 0 {
      assert s + t == t;
    } else {
      assert (s + t)[1..] == s[1..] + t;
      FitsAppend(s[1..], t, UpdateColumn(s[0], col), scr);
    }
  }

  lemma {:induction false} LayFits(s: string, col: int, log: seq<Action>, scr: Screen)
    requires Fits(s, col, scr)
    ensures Lay(s, col, log, scr).0 == EndColumn(s, col)
    decreases |s|
  {
    if |s| > 0 { LayFits(s[1..], NextText(col, s[0], log, scr).0, NextText(col, s[0], log, scr).1, scr); }
  }

  /** Between the items the column in hand is the cursor's. */
  lemma {:induction false} ParsedColumn(items: seq<Item>, scr: Screen)
    requires AllSendable(items)
    ensures Parsed(items, scr).0 == Column(Parsed(items, scr).1, scr)
    decreases |items|
  {
    hide Column;
    if |items| > 0 {
      var front, last := items[..|items| - 1], items[|items| - 1];
      ParsedColumn(front, scr);
      assert Sendable(last);
      if last.Say? {
        HandAfterText(last.text, Parsed(front, scr).0, Parsed(front, scr).1, scr);
      }
    }
  }

  lemma {:induction false} HandAfterText(s: string, col: int, log: seq<Action>, scr: Screen)
    requires IsPlain(s) && FF !in s && col == Column(log, scr)
    ensures Lay(s, col, log, scr).0 == Column(Lay(s, col, log, scr).1, scr)
    decreases |s|
  {
    if |s| > 0 {
      assert !IsC0(s[0]) && s[0] != FF;
      var (next, log1) := NextText(col, s[0], log, scr);
      ColumnAfterText(col, s[0], log, scr);
      HandAfterText(s[1..], next, log1, scr);
    }
  }

  lemma ColumnAfterText(col: int, ch: char, log: seq<Action>, scr: Screen)
    requires col >= 0 && ch !in {CR, LF, FF}
    ensures NextText(col, ch, log, scr).0 == Column(NextText(col, ch, log, scr).1, scr) >= 0
  {
  }

  /** There is a break, if and only if wrapping is on and the text does not fit the line. */
  lemma {:induction false} BreaksIffTooLong(items: seq<Item>, scr: Screen)
    requires AllSendable(items)
    ensures Breaks(Parsed(items, scr).1) == 0 <==> !scr.wraps || Fits(TextSent(items), Column([], scr), scr)
    ensures Fits(TextSent(items), Column([], scr), scr) ==> Parsed(items, scr).0 == EndColumn(TextSent(items),
        Column([], scr))
    decreases |items|
  {
    hide Column, Lay, Breaks, Fits, Values, EndColumn;
    if |items| == 0 {
      NothingBreaks(Column([], scr), scr);
    } else {
      var front, last := items[..|items| - 1], items[|items| - 1];
      BreaksIffTooLong(front, scr);
      var (col, log) := Parsed(front, scr);
      match last
      case Say(text) =>
        TextSurvives(text, col, log, scr);
        FitsAppend(TextSent(front), text, Column([], scr), scr);
        if Fits(text, col, scr) { LayFits(text, col, log, scr); }
      case Render(params) =>
        assert Sendable(last);
        ParsedColumn(front, scr);
        SgrRests(log, Values(params), scr);
        assert TextSent(front) + "" == TextSent(front);
    }
  }

  lemma NothingBreaks(col: int, scr: Screen)
    ensures Breaks([]) == 0 && Fits("", col, scr) && EndColumn("", col) == col
  {
  }

  lemma SgrRests(log: seq<Action>, vs: seq<int>, scr: Screen)
    requires |vs| > 0
    ensures Column(log + [Sequence(false, vs, 'm')], scr) == Column(log, scr)
    ensures Breaks(log + [Sequence(false, vs, 'm')]) == Breaks(log)
  {
    var a := Sequence(false, vs, 'm');
    assert (log + [a])[..|log|] == log;
  }

  /** Each break is three characters on the screen. */
  lemma {:induction false} LitCount(log: seq<Action>)
    ensures |Lits(log)| == |TextOnly(Lits(log))| + 3 * Breaks(log)
    ensures Breaks(log) == 0 ==> Plain(Lits(log)) == TextOnly(Lits(log))
    decreases |log|
  {
    hide Codes, TextCodes, Now, Drawn, TextOnly;
    if |log| == 0 {
      NothingLit();
    } else {
      var front, last := log[..|log| - 1], log[|log| - 1];
      LitCount(front);
      var more := LitFor(Codes(front), TextCodes(front), last);
      TextOnlyAppend(Lits(front), more);
      PlainAppend(Lits(front), more);
      LitForCount(Codes(front), TextCodes(front), last);
    }
  }

  lemma LitForCount(codes: seq<int>, around: seq<int>, a: Action)
    ensures |LitFor(codes, around, a)| == |TextOnly(LitFor(codes, around, a))| + if a.WrapBreak? then 3 else 0
    ensures !a.WrapBreak? ==> Plain(LitFor(codes, around, a)) == TextOnly(LitFor(codes, around, a))
  {
    hide Now;
    match a
    case Text(s, _) => TextOnlyLights(Drawn(s, Now(codes), false), false);
    case WrapBreak => TextOnlyLights(Drawn(WRAP_STRING, Now(around), false), true);
    case _ => NothingLit();
  }

  // ---------- In chunks ----------

  function Concat(chunks: seq<string>): string {
    if |chunks| == 0 then "" else Concat(chunks[..|chunks| - 1]) + chunks[|chunks| - 1]
  }

  /** The parser on the chunks one after the other. */
  function FeedChunks(chunks: seq<string>, scr: Screen): (Control, seq<Action>) {
    if |chunks| == 0 then (Initial(0), [])
    else
      var (c, log) := FeedChunks(chunks[..|chunks| - 1], scr);
      Chunk(c, chunks[|chunks| - 1], log, scr)
  }

  /** The column in hand is the cursor's. */
  predicate InHand(c: Control, log: seq<Action>, scr: Screen) {
    c.Initial? ==> c.col == Column(log, scr)
  }

  lemma {:induction false} QuietKeepsHand(c: Control, s: string, log: seq<Action>, scr: Screen)
    requires Quiet(s) && InHand(c, log, scr)
    ensures InHand(Feed(c, s, log, scr).0, Feed(c, s, log, scr).1, scr)
    decreases |s|
  {
    hide Column, Next;
    if |s| > 0 {
      assert s[0] !in {CR, LF, BS, TAB, FF};
      NextKeepsHand(c, s[0], log, scr);
      QuietKeepsHand(Next(c, s[0], log, scr).0, s[1..], Next(c, s[0], log, scr).1, scr);
    }
  }

  lemma NextKeepsHand(c: Control, ch: char, log: seq<Action>, scr: Screen)
    requires ch !in {CR, LF, BS, TAB, FF} && InHand(c, log, scr)
    ensures InHand(Next(c, ch, log, scr).0, Next(c, ch, log, scr).1, scr)
  {
    hide NextText, Cached, Column;
    if c.Initial? && ch == BEL {
      BellRests(log, scr);
    } else if c.Initial? && ch != ESC {
      ColumnAfterText(c.col, ch, log, scr);
    }
  }

  lemma AlikeFromOne(s: string, col: int, scr: Screen)
    ensures SameLayout(s, col, col, scr)
  {
  }

  lemma {:induction false} ChunksDoNotMatter(chunks: seq<string>, scr: Screen)
    requires Quiet(Concat(chunks))
    ensures FeedChunks(chunks, scr) == Chunk(Initial(0), Concat(chunks), [], scr)
    decreases |chunks|
  {
    hide Chunk, Feed, SameLayout, Column, Cached;
    if |chunks| == 0 {
      ChunkNothing(scr);
    } else {
      var front, last := Concat(chunks[..|chunks| - 1]), chunks[|chunks| - 1];
      var all := front + last;
      assert forall i :: 0 <= i < |front| ==> front[i] == all[i];
      ChunksDoNotMatter(chunks[..|chunks| - 1], scr);
      var start := Initial(Column([], scr));
      QuietKeepsHand(start, front, [], scr);
      var (c1, log1) := Feed(start, front, [], scr);
      if c1.Initial? { AlikeFromOne(last, c1.col, scr); }
      ChunkIndependence(Initial(0), front, last, [], scr);
      assert |front| > 0 ==> front[|front| - 1] != CR;
      BothInOrder(chunks, front, last, scr);
    }
  }

  lemma ChunkNothing(scr: Screen)
    ensures Chunk(Initial(0), "", [], scr) == (Initial(0), [])
  {
  }

  lemma BothInOrder(chunks: seq<string>, front: string, last: string, scr: Screen)
    requires |chunks| > 0 && last == chunks[|chunks| - 1]
    requires FeedChunks(chunks[..|chunks| - 1], scr) == Chunk(Initial(0), front, [], scr)
    ensures FeedChunks(chunks, scr) == ChunkBoth(Initial(0), front, last, [], scr)
  {
    hide Chunk;
  }

  lemma {:induction false} SentIsQuiet(items: seq<Item>)
    requires AllSendable(items)
    ensures Quiet(Sent(items))
    decreases |items|
  {
    hide Printed;
    if |items| > 0 {
      var last := items[|items| - 1];
      SentIsQuiet(items[..|items| - 1]);
      assert Sendable(last);
      if last.Render? {
        PrintedIsQuiet(last.params);
      } else {
        assert forall i :: 0 <= i < |last.text| ==> !IsC0(last.text[i]);
      }
    }
  }

  lemma PrintedIsQuiet(ps: seq<Option<nat>>)
    ensures Quiet(Printed(false, ps, 'm'))
  {
    JoinedIsQuiet(ps);
    assert "" + (Joined(ps) + ['m']) == Joined(ps) + ['m'];
  }

  lemma {:induction false} JoinedIsQuiet(ps: seq<Option<nat>>)
    ensures Quiet(Joined(ps))
    decreases |ps|
  {
    if |ps| > 0 {
      var first := if ps[0].None? then "" else Digits(ps[0].value);
      assert forall i :: 0 <= i < |first| ==> IsDigit(first[i]);
      JoinedIsQuiet(ps[1..]);
    }
  }

  /** However the host's output is cut into chunks, the actions are the same. */
  lemma AnyChunks(items: seq<Item>, chunks: seq<string>, scr: Screen)
    requires AllSendable(items) && Concat(chunks) == Sent(items)
    ensures FeedChunks(chunks, scr) == (Initial(0), Parsed(items, scr).1)
  {
    hide Feed, Parsed, Sent, FeedChunks, Concat, AllSendable, Column;
    SentIsQuiet(items);
    ChunksDoNotMatter(chunks, scr);
    FeedSent(items, scr);
  }

  // ---------- Both together ----------

  /** What the terminal holds after the calls. */
  function Document(doc: Dom.Place, calls: seq<Action>, scr: Screen, trim: Trimming): Dom.Place {
    Run(Fresh(doc), OutputsOf(calls, scr), trim).doc
  }

  /** What the document shows up to the cursor. */
  function Screenful(p: Dom.Place): seq<Shown> {
    Show(See(Dom.Before(p)))
  }

  /** Text with SGR sequences among it, printed by section 5.4 of ECMA-48 and cut into any chunks, which the
      parser passes on in any pieces: the document shows what the parser's actions light, in which every
      character of the text comes once, in order, with the values that the codes sent before it select,
      and nothing else but wrap breaks; it shows just the text, if and only if wrapping is off or the
      text fits the line. */
  lemma HostOutputIsPainted(doc: Dom.Place, items: seq<Item>, chunks: seq<string>, calls: seq<Action>, scr: Screen,
                            trim: Trimming)
    requires AllSendable(items) && Concat(chunks) == Sent(items) && Merged(calls) == FeedChunks(chunks, scr).1
    requires StyledOutput.ParentStyles(doc) == [] && !IsError(Dom.Around(doc))
    ensures Screenful(Document(doc, calls, scr, trim)) == Screenful(doc) + Plain(Lits(calls))
    ensures TextOnly(Lits(calls)) == Painted(items)
    ensures Screenful(Document(doc, calls, scr, trim)) == Screenful(doc) + Painted(items)
       <==> !scr.wraps || Fits(TextSent(items), Column([], scr), scr)
    ensures IsTail(Dom.Look(Dom.After(doc)), Dom.Look(Dom.After(Document(doc, calls, scr, trim))))
    ensures !Erase.BlockAhead(doc) ==>
              AheadOf(Document(doc, calls, scr, trim)) == Remaining(AheadOf(doc), false, OutputsOf(calls, scr))
  {
    hide IsTail, Erase.BlockAhead, Erase.MarksFrom, Remaining;
    hide FeedChunks, Run, Show, See, Dom.Before, Dom.After, Dom.Look, OutputsOf, Selected, IsError, Concat, Sent, Lits,
      Plain,
      TextOnly, Fits, Column, Breaks, Parsed, Merged, Codes, TextCodes, TextSent, Painted;
    var log := Parsed(items, scr).1;
    AnyChunks(items, chunks, scr);
    PiecesDoNotMatter(calls);
    ParsedIsPainted(items, scr);
    BreaksIffTooLong(items, scr);
    LitCount(log);
    NoInsertMode(calls, scr);
    SelectedIsLits(calls, scr);
    RunRenders(doc, OutputsOf(calls, scr), trim);
    AppendOnce(Screenful(doc), Plain(Lits(calls)), Painted(items), Breaks(log));
  }

  lemma AppendOnce(start: seq<Shown>, all: seq<Shown>, text: seq<Shown>, breaks: nat)
    requires |all| == |text| + 3 * breaks && (breaks == 0 ==> all == text)
    ensures start + all == start + text <==> breaks == 0
  {
  }

  // ---------- As ECMA-48 has it ----------

  /** The appearance that section 8.3.117 of ECMA-48 gives to every character. */
  function Specified(items: seq<Item>): seq<(char, GraphicRendition.Appearance)> {
    if |items| == 0 then []
    else Specified(items[..|items| - 1]) + SpecifiedFor(ItemCodes(items[..|items| - 1]), items[|items| - 1])
  }

  function SpecifiedFor(codes: seq<int>, item: Item): seq<(char, GraphicRendition.Appearance)> {
    if item.Render? then []
    else Coloured(item.text, GraphicRendition.Appears(GraphicRendition.InForce(codes), StyledOutput.FOREGROUND,
                                                      StyledOutput.BACKGROUND_COLOR))
  }

  function Coloured(s: string, a: GraphicRendition.Appearance): (r: seq<(char, GraphicRendition.Appearance)>)
    ensures |r| == |s| && forall i :: 0 <= i < |s| ==> r[i] == (s[i], a)
  {
    seq(|s|, i requires 0 <= i < |s| => (s[i], a))
  }

  /** The appearance that the styles give to it. */
  function Looks(shown: seq<Shown>): (r: seq<(char, GraphicRendition.Appearance)>)
    ensures |r| == |shown|
    ensures forall i :: 0 <= i < |r| ==>
      r[i] == (shown[i].ch, GraphicRendition.Shows(shown[i].rendition, StyledOutput.FOREGROUND,
                                                   StyledOutput.BACKGROUND_COLOR))
  {
    seq(|shown|, i requires 0 <= i < |shown| =>
      (shown[i].ch, GraphicRendition.Shows(shown[i].rendition, StyledOutput.FOREGROUND, StyledOutput.BACKGROUND_COLOR)))
  }

  predicate FaithfulCodes(codes: seq<int>) {
    GraphicRendition.Faithful(codes, StyledOutput.FOREGROUND, StyledOutput.BACKGROUND_COLOR)
  }

  /** Wherever there is text, the codes sent before it are faithful. */
  predicate AllFaithful(items: seq<Item>) {
    |items| == 0 ||
    (AllFaithful(items[..|items| - 1]) &&
     (items[|items| - 1].Say? && items[|items| - 1].text != "" ==> FaithfulCodes(ItemCodes(items[..|items| - 1]))))
  }

  lemma PaintedLooks(codes: seq<int>, item: Item)
    ensures Looks(Paint(codes, item)) == SpecifiedFor(codes, item)
       <==> (item.Say? && item.text != "" ==> FaithfulCodes(codes))
  {
    hide Sgr.RenderAll, GraphicRendition.InForce, GraphicRendition.Appears, GraphicRendition.Shows,
      GraphicRendition.Faithful;
    GraphicRendition.LooksTheSame(codes, StyledOutput.FOREGROUND, StyledOutput.BACKGROUND_COLOR);
    if item.Say? && item.text != "" {
      assert Looks(Paint(codes, item))[0] == (item.text[0], GraphicRendition.Shows(Now(codes), StyledOutput.FOREGROUND,
          StyledOutput.BACKGROUND_COLOR));
      assert SpecifiedFor(codes, item)[0].1 ==
        GraphicRendition.Appears(GraphicRendition.InForce(codes), StyledOutput.FOREGROUND,
                                 StyledOutput.BACKGROUND_COLOR);
    }
  }

  lemma LooksAppend(a: seq<Shown>, b: seq<Shown>)
    ensures Looks(a + b) == Looks(a) + Looks(b)
  {
    hide GraphicRendition.Shows;
  }

  lemma SpecifiedSize(codes: seq<int>, item: Item)
    ensures |SpecifiedFor(codes, item)| == |Paint(codes, item)|
  {
  }

  lemma SplitEqual<T>(a: seq<T>, b: seq<T>, c: seq<T>, d: seq<T>)
    requires |b| == |d|
    ensures a + b == c + d <==> a == c && b == d
  {
    if a + b == c + d {
      assert |a| == |c|;
      assert (a + b)[..|a|] == a && (c + d)[..|c|] == c && (a + b)[|a|..] == b && (c + d)[|c|..] == d;
    }
  }

  /** The painted text looks as section 8.3.117 of ECMA-48 has it, if and only if the codes before every
      text are faithful. */
  lemma {:induction false} LooksAsSpecified(items: seq<Item>)
    ensures Looks(Painted(items)) == Specified(items) <==> AllFaithful(items)
    decreases |items|
  {
    hide Looks, Paint, SpecifiedFor, FaithfulCodes;
    if |items| == 0 {
      LooksNothing();
    } else {
      var front, last := items[..|items| - 1], items[|items| - 1];
      LooksAsSpecified(front);
      var codes := ItemCodes(front);
      LooksAppend(Painted(front), Paint(codes, last));
      PaintedLooks(codes, last);
      SpecifiedSize(codes, last);
      SplitEqual(Looks(Painted(front)), Looks(Paint(codes, last)), Specified(front), SpecifiedFor(codes, last));
    }
  }

  lemma LooksNothing()
    ensures Looks([]) == []
  {
  }
}
