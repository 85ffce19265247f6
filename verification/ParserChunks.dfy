/** What the parser of module EscapeParser makes of text, and how far it matters where the host's output is
    cut into chunks. */
module ParserChunks {
  import opened Arithmetic
  import opened EscapeParser

  // ---------- Printable text ----------

  predicate IsC0(ch: char) {
    ch in {CR, LF, BS, BEL, ESC, TAB}
  }

  predicate IsPlain(s: string) {
    forall i :: 0 <= i < |s| ==> !IsC0(s[i])
  }

  /** The actions for printable text, and the column after it. */
  function Lay(s: string, col: int, log: seq<Action>, scr: Screen): (int, seq<Action>) {
    if |s| == 0 then (col, log)
    else
      var (next, log1) := NextText(col, s[0], log, scr);
      Lay(s[1..], next, log1, scr)
  }

  lemma NextOfText(col: int, ch: char, log: seq<Action>, scr: Screen)
    requires !IsC0(ch)
    ensures Next(Initial(col), ch, log, scr) == (Initial(NextText(col, ch, log, scr).0), NextText(col, ch, log, scr).1)
  {
  }

  lemma {:induction false} PlainText(s: string, col: int, log: seq<Action>, scr: Screen)
    requires IsPlain(s)
    ensures Feed(Initial(col), s, log, scr) == (Initial(Lay(s, col, log, scr).0), Lay(s, col, log, scr).1)
    decreases |s|
  {
    hide NextText, Next;
    if |s| > 0 {
      NextOfText(col, s[0], log, scr);
      assert s[0] != CR;
      PlainText(s[1..], NextText(col, s[0], log, scr).0, NextText(col, s[0], log, scr).1, scr);
    }
  }

  /** The text among the actions. */
  function TextsOf(log: seq<Action>): string {
    if |log| == 0 then ""
    else TextsOf(log[..|log| - 1]) + if log[|log| - 1].Text? then log[|log| - 1].s else ""
  }

  function Breaks(log: seq<Action>): nat {
    if |log| == 0 then 0 else Breaks(log[..|log| - 1]) + if log[|log| - 1].WrapBreak? then 1 else 0
  }

  lemma TextsOfSnoc(log: seq<Action>, a: Action)
    ensures TextsOf(log + [a]) == TextsOf(log) + if a.Text? then a.s else ""
    ensures Breaks(log + [a]) == Breaks(log) + if a.WrapBreak? then 1 else 0
  {
    assert (log + [a])[..|log|] == log;
  }

  lemma TextsOfAppend(log: seq<Action>, s: string, end: int)
    ensures TextsOf(AppendText(log, s, end)) == TextsOf(log) + s
    ensures Breaks(AppendText(log, s, end)) == Breaks(log)
  {
    if s != [] {
      TextsOfSnoc(log, Text(s, end));
      if |log| > 0 && log[|log| - 1].Text? {
        var front, t := log[..|log| - 1], log[|log| - 1].s;
        TextsOfSnoc(front, Text(t + s, end));
        assert (TextsOf(front) + t) + s == TextsOf(front) + (t + s);
      }
    } else {
      assert TextsOf(log) + "" == TextsOf(log);
    }
  }

  lemma NextTextCounts(col: int, ch: char, log: seq<Action>, scr: Screen)
    ensures TextsOf(NextText(col, ch, log, scr).1) == TextsOf(log) + [ch]
    ensures Breaks(NextText(col, ch, log, scr).1) ==
            Breaks(log) + if scr.wraps && UpdateColumn(ch, col) > scr.wrapWidth then 1 else 0
    ensures !(scr.wraps && UpdateColumn(ch, col) > scr.wrapWidth) ==>
              NextText(col, ch, log, scr).1 == AppendText(log, [ch], NextText(col, ch, log, scr).0)
  {
    hide TextsOf, Breaks, AppendText;
    TextsOfAppend(log, [ch], UpdateColumn(ch, col));
    TextsOfAppend(log, [ch], UpdateColumn(ch, 0));
    TextsOfSnoc(log, WrapBreak);
    TextsOfAppend(log + [WrapBreak], [ch], UpdateColumn(ch, 0));
    assert TextsOf(log) + "" == TextsOf(log);
  }

  /** No column on the way is beyond the wrap width. */
  predicate Fits(s: string, col: int, scr: Screen) {
    |s| == 0 || (UpdateColumn(s[0], col) <= scr.wrapWidth && Fits(s[1..], UpdateColumn(s[0], col), scr))
  }

  /** No character of a text is lost or doubled, and breaks are inserted, if and only if wrapping is on and
      the text does not fit; without breaks it is one text. */
  lemma {:induction false} TextSurvives(s: string, col: int, log: seq<Action>, scr: Screen)
    ensures TextsOf(Lay(s, col, log, scr).1) == TextsOf(log) + s
    ensures Breaks(Lay(s, col, log, scr).1) >= Breaks(log)
    ensures Breaks(Lay(s, col, log, scr).1) == Breaks(log) <==> !scr.wraps || Fits(s, col, scr)
    ensures !scr.wraps || Fits(s, col, scr) ==> Lay(s, col, log, scr).1 == AppendText(log, s, Lay(s, col, log, scr).0)
    decreases |s|
  {
    hide NextText, TextsOf, Breaks, AppendText;
    NothingToAppend(log);
    if |s| == 0 {
      assert s == "" && s[0..0] == s;
      assert TextsOf(log) + "" == TextsOf(log);
    } else {
      var (next, log1) := NextText(col, s[0], log, scr);
      NextTextCounts(col, s[0], log, scr);
      NextTextColumn(col, s[0], log, scr);
      TextSurvives(s[1..], next, log1, scr);
      assert s == [s[0]] + s[1..] && (TextsOf(log) + [s[0]]) + s[1..] == TextsOf(log) + s;
      if |s| == 1 {
        assert s[1..] == "" && s == [s[0]];
        assert Lay(s[1..], next, log1, scr) == (next, log1);
      } else {
        AppendTwice(log, [s[0]], next, s[1..], Lay(s[1..], next, log1, scr).0);
      }
    }
  }

  lemma NextTextColumn(col: int, ch: char, log: seq<Action>, scr: Screen)
    ensures UpdateColumn(ch, col) <= scr.wrapWidth ==> NextText(col, ch, log, scr).0 == UpdateColumn(ch, col)
  {
  }

  /** How many of the characters take a column: all but the zero-width space. */
  function Visible(s: string): nat {
    if |s| == 0 then 0 else (if s[0] == 0x200B as char then 0 else 1) + Visible(s[1..])
  }

  /** Text on one line fits, if and only if there are columns for all that is visible. */
  lemma {:induction false} LineFits(s: string, col: int, scr: Screen)
    requires forall i :: 0 <= i < |s| ==> s[i] !in {CR, LF, FF}
    ensures Fits(s, col, scr) <==> |s| == 0 || col + Visible(s) <= scr.wrapWidth
    decreases |s|
  {
    if |s| > 0 { LineFits(s[1..], UpdateColumn(s[0], col), scr); }
  }

  /** Ordinary text fits if there are columns for it. */
  lemma {:induction false} OrdinaryFits(s: string, col: int, scr: Screen)
    requires forall i :: 0 <= i < |s| ==> s[i] !in {CR, LF, FF, 0x200B as char}
    ensures Fits(s, col, scr) <==> |s| == 0 || col + |s| <= scr.wrapWidth
    decreases |s|
  {
    if |s| > 0 { OrdinaryFits(s[1..], col + 1, scr); }
  }

  /** Text of ordinary width fills line after line: a break comes before every character that would be the
      first beyond the width. */
  lemma {:induction false} LinesAreFilled(s: string, col: int, log: seq<Action>, scr: Screen)
    requires |s| > 0 && 0 <= col <= scr.wrapWidth && scr.wrapWidth > 0
    requires forall i :: 0 <= i < |s| ==> s[i] !in {CR, LF, FF, 0x200B as char}
    ensures Lay(s, col, log, scr).0 == (col + |s| - 1) % scr.wrapWidth + 1
    ensures Breaks(Lay(s, col, log, scr).1) ==
            Breaks(log) + if scr.wraps then (col + |s| - 1) / scr.wrapWidth else 0
    decreases |s|
  {
    hide NextText, Breaks;
    var w := scr.wrapWidth;
    var (next, log1) := NextText(col, s[0], log, scr);
    NextTextCounts(col, s[0], log, scr);
    NextOnLine(col, s[0], log, scr);
    if |s| == 1 {
      assert Lay(s[1..], next, log1, scr) == (next, log1);
      Wrapped(col, w);
    } else {
      LinesAreFilled(s[1..], next, log1, scr);
      if col == w { OneLineMore(|s| - 1, w); }
    }
  }

  lemma NextOnLine(col: int, ch: char, log: seq<Action>, scr: Screen)
    requires 0 <= col <= scr.wrapWidth && scr.wrapWidth > 0 && ch !in {CR, LF, FF, 0x200B as char}
    ensures NextText(col, ch, log, scr).0 == if col < scr.wrapWidth then col + 1 else 1
    ensures UpdateColumn(ch, col) > scr.wrapWidth <==> col == scr.wrapWidth
  {
  }

  lemma Wrapped(col: int, w: int)
    requires 0 <= col <= w && w > 0
    ensures col % w == (if col < w then col else 0) && col / w == (if col < w then 0 else 1)
  {
  }

  lemma OneLineMore(n: int, w: int)
    requires n >= 0 && w > 0
    ensures (w + n) % w == n % w && (w + n) / w == n / w + 1
  {
    DivMod(w + n, n / w + 1, n % w, w);
  }

  // ---------- Feeding in two parts ----------

  function FeedBoth(c: Control, a: string, b: string, log: seq<Action>, scr: Screen): (Control, seq<Action>) {
    var (c1, log1) := Feed(c, a, log, scr);
    Feed(c1, b, log1, scr)
  }

  /** The end of a and the start of b are a CR and an LF that the parser would take as one. */
  predicate Separates(c: Control, a: string, b: string, log: seq<Action>, scr: Screen) {
    && |a| > 0 && |b| > 0 && a[|a| - 1] == CR && b[0] == LF
    && var (c0, log0) := Feed(c, a[..|a| - 1], log, scr);
       c0.Initial? && !scr.bottom(log0)
  }

  lemma {:induction false} FeedSplit(c: Control, a: string, b: string, log: seq<Action>, scr: Screen)
    requires !Separates(c, a, b, log, scr)
    ensures Feed(c, a + b, log, scr) == FeedBoth(c, a, b, log, scr)
    decreases |a|
  {
    hide Next;
    if |a| == 0 {
      assert a + b == b;
    } else if PairAt(c, a, log, scr) {
      assert (a + b)[2..] == a[2..] + b;
      assert |a| > 2 ==> a[..|a| - 1][2..] == a[2..][..|a| - 3];
      FeedSplit(Initial(0), a[2..], b, log + [LineStart(true)], scr);
    } else {
      var (c1, log1) := Next(c, a[0], log, scr);
      assert (a + b)[1..] == a[1..] + b;
      if |a| == 1 {
        assert a[..0] == "";
        assert !PairAt(c, a + b, log, scr);
        assert a[1..] == "" && (a + b)[1..] == b;
        assert Feed(c, a, log, scr) == (c1, log1);
        assert Feed(c, a + b, log, scr) == Feed(c1, b, log1, scr);
      } else {
        assert PairAt(c, a + b, log, scr) <==> PairAt(c, a, log, scr);
        var front := a[..|a| - 1];
        assert front[0] == a[0] && front[1..] == a[1..][..|a| - 2];
        assert !PairAt(c, front, log, scr);
        FeedSplit(c1, a[1..], b, log1, scr);
      }
    }
  }

  /** Actions stay where they are; only a last text can still grow, and only in the INITIAL state. */
  lemma {:induction false} LogGrows(c: Control, s: string, log: seq<Action>, base: seq<Action>, scr: Screen)
    requires base <= log && (!c.Initial? || (|base| > 0 && !base[|base| - 1].Text?))
    ensures base <= Feed(c, s, log, scr).1
    decreases |s|
  {
    hide Column, Cached;
    if |s| == 0 {
    } else if PairAt(c, s, log, scr) {
      LogGrows(Initial(0), s[2..], log + [LineStart(true)], base, scr);
    } else {
      var (c1, log1) := Next(c, s[0], log, scr);
      assert base <= log1;
      if c1.Initial? && !c.Initial? {
        assert !log1[|log1| - 1].Text?;
        LogGrows(c1, s[1..], log1, log1, scr);
      } else {
        LogGrows(c1, s[1..], log1, base, scr);
      }
    }
  }

  // ---------- A column in hand that is not the cursor's ----------

  function TextLength(s: string): (k: nat)
    ensures k <= |s| && IsPlain(s[..k]) && (k < |s| ==> IsC0(s[k]))
  {
    if |s| == 0 || IsC0(s[0]) then 0 else 1 + TextLength(s[1..])
  }

  /** The actions for a text on their own. */
  function Laid(s: string, col: int, scr: Screen): seq<Action> {
    Lay(s, col, [], scr).1
  }

  /** From both columns s is laid out alike: it starts with a control that makes the column forgotten,
      or the text that it starts with gets the same breaks and ends in the same columns. */
  predicate SameLayout(s: string, col1: int, col2: int, scr: Screen) {
    || |s| == 0
    || s[0] in {CR, LF, BS, ESC, TAB}
    || (s[0] == BEL && SameLayout(s[1..], col1, col2, scr))
    || (!IsC0(s[0]) && Laid(s[..TextLength(s)], col1, scr) == Laid(s[..TextLength(s)], col2, scr))
  }

  /** Appends actions to a log, text to text. */
  function Join(log: seq<Action>, more: seq<Action>): seq<Action> {
    if |more| > 0 && more[0].Text? then AppendText(log, more[0].s, more[0].end) + more[1..] else log + more
  }

  /** Actions that start with text, or with a break and text, and end with text. */
  predicate Proper(more: seq<Action>) {
    && (forall i :: 0 <= i < |more| && more[i].Text? ==> more[i].s != "")
    && (|more| > 0 ==> more[|more| - 1].Text?)
  }

  lemma JoinText(log: seq<Action>, more: seq<Action>, s: string, end: int)
    requires Proper(more) && s != ""
    ensures AppendText(Join(log, more), s, end) == Join(log, AppendText(more, s, end))
    ensures Proper(AppendText(more, s, end))
  {
    hide AppendText;
    if |more| == 0 {
      AppendToNone(log, s, end);
    } else {
      var front, last := more[..|more| - 1], more[|more| - 1];
      assert more == front + [last];
      AppendToText(front, last, s, end);
      if |front| == 0 {
        AppendTwice(log, last.s, last.end, s, end);
        JoinOne(log, last);
        JoinOne(log, Text(last.s + s, end));
        assert [] + [Text(last.s + s, end)] == [Text(last.s + s, end)] && more == [last];
      } else {
        JoinFront(log, front, last);
        JoinFront(log, front, Text(last.s + s, end));
        AppendToText(Join(log, front), last, s, end);
      }
    }
  }

  lemma AppendToNone(log: seq<Action>, s: string, end: int)
    requires s != ""
    ensures AppendText([], s, end) == [Text(s, end)]
    ensures Join(log, []) == log && Join(log, [Text(s, end)]) == AppendText(log, s, end)
  {
    assert [Text(s, end)][1..] == [];
  }

  lemma AppendToText(front: seq<Action>, last: Action, s: string, end: int)
    requires last.Text? && s != ""
    ensures AppendText(front + [last], s, end) == front + [Text(last.s + s, end)]
  {
    assert (front + [last])[..|front|] == front;
  }

  lemma JoinOne(log: seq<Action>, t: Action)
    requires t.Text?
    ensures Join(log, [t]) == AppendText(log, t.s, t.end)
  {
    hide AppendText;
    assert [t][1..] == [];
  }

  /** What stands behind the first of the appended actions is appended as it is. */
  lemma JoinFront(log: seq<Action>, front: seq<Action>, last: Action)
    requires |front| > 0
    ensures Join(log, front + [last]) == Join(log, front) + [last]
  {
    hide AppendText;
    assert (front + [last])[1..] == front[1..] + [last];
  }

  lemma JoinBreak(log: seq<Action>, more: seq<Action>, s: string, end: int)
    requires Proper(more) && s != ""
    ensures AppendText(Join(log, more) + [WrapBreak], s, end) == Join(log, AppendText(more + [WrapBreak], s, end))
    ensures Proper(AppendText(more + [WrapBreak], s, end))
  {
    var longer := more + [WrapBreak, Text(s, end)];
    assert more + [WrapBreak] + [Text(s, end)] == longer;
    assert AppendText(more + [WrapBreak], s, end) == longer;
    if |more| > 0 && more[0].Text? {
      assert longer[1..] == more[1..] + [WrapBreak, Text(s, end)];
    }
  }

  lemma {:induction false} LayIsJoin(s: string, col: int, log: seq<Action>, more: seq<Action>, scr: Screen)
    requires Proper(more)
    ensures Lay(s, col, Join(log, more), scr) == (Lay(s, col, more, scr).0, Join(log, Lay(s, col, more, scr).1))
    ensures Proper(Lay(s, col, more, scr).1)
    decreases |s|
  {
    hide Join, Proper, AppendText;
    if |s| > 0 {
      var next := UpdateColumn(s[0], col);
      var first := UpdateColumn(s[0], 0);
      JoinText(log, more, [s[0]], next);
      JoinText(log, more, [s[0]], first);
      JoinBreak(log, more, [s[0]], first);
      var (n, more1) := NextText(col, s[0], more, scr);
      assert NextText(col, s[0], Join(log, more), scr) == (n, Join(log, more1));
      LayIsJoin(s[1..], n, log, more1, scr);
    }
  }

  lemma LaidOn(s: string, col: int, log: seq<Action>, scr: Screen)
    ensures Lay(s, col, log, scr) == (Lay(s, col, [], scr).0, Join(log, Laid(s, col, scr)))
    ensures Proper(Laid(s, col, scr))
  {
    LayIsJoin(s, col, log, [], scr);
    assert Join(log, []) == log;
  }

  /** The column after a text is where its last piece ends. */
  lemma {:induction false} LayEnds(s: string, col: int, log: seq<Action>, scr: Screen)
    requires |s| > 0
    ensures var (end, log1) := Lay(s, col, log, scr);
            |log1| > 0 && log1[|log1| - 1].Text? && log1[|log1| - 1].s != "" && log1[|log1| - 1].end == end
    decreases |s|
  {
    if |s| > 1 { LayEnds(s[1..], NextText(col, s[0], log, scr).0, NextText(col, s[0], log, scr).1, scr); }
  }

  lemma JoinInjective(log: seq<Action>, d1: seq<Action>, d2: seq<Action>)
    requires Proper(d1) && Proper(d2) && |d1| > 0 && |d2| > 0
    ensures Join(log, d1) == Join(log, d2) ==> d1 == d2
  {
    if Join(log, d1) == Join(log, d2) {
      var j := Join(log, d1);
      if |log| > 0 && log[|log| - 1].Text? {
        var t := log[|log| - 1].s;
        var n := |log| - 1;
        assert d1[0].Text? ==> j[n] == Text(t + d1[0].s, d1[0].end) && j[n + 1..] == d1[1..];
        assert d2[0].Text? ==> j[n] == Text(t + d2[0].s, d2[0].end) && j[n + 1..] == d2[1..];
        assert !d1[0].Text? ==> j[n] == log[n] && j[n + 1..] == d1;
        assert !d2[0].Text? ==> j[n] == log[n] && j[n + 1..] == d2;
        if d1[0].Text? && d2[0].Text? {
          assert (t + d1[0].s)[|t|..] == d1[0].s && (t + d2[0].s)[|t|..] == d2[0].s;
          assert d1 == [d1[0]] + d1[1..] && d2 == [d2[0]] + d2[1..];
        }
      } else {
        JoinPlain(log, d1);
        JoinPlain(log, d2);
        assert j[|log|..] == d1 && j[|log|..] == d2;
      }
    }
  }

  lemma JoinPlain(log: seq<Action>, d: seq<Action>)
    requires Proper(d) && |d| > 0 && (|log| > 0 ==> !log[|log| - 1].Text?)
    ensures Join(log, d) == log + d
  {
    if d[0].Text? {
      assert d == [d[0]] + d[1..];
    }
  }

  /** The same text, laid out from two columns, gives logs of which neither extends the other, unless they
      are the same. */
  lemma NeitherExtends(s: string, col1: int, col2: int, log: seq<Action>, all: seq<Action>, scr: Screen)
    requires |s| > 0
    requires Lay(s, col1, log, scr).1 <= all && Lay(s, col2, log, scr).1 <= all
    ensures Lay(s, col1, log, scr).1 == Lay(s, col2, log, scr).1
  {
    hide Lay, TextsOf;
    var l1, l2 := Lay(s, col1, log, scr).1, Lay(s, col2, log, scr).1;
    TextSurvives(s, col1, log, scr);
    TextSurvives(s, col2, log, scr);
    LayEnds(s, col1, log, scr);
    LayEnds(s, col2, log, scr);
    if |l1| < |l2| {
      LongerText(l1, l2);
    } else if |l2| < |l1| {
      LongerText(l2, l1);
    }
  }

  lemma LongerText(short: seq<Action>, long: seq<Action>)
    requires |short| < |long| && short <= long && long[|long| - 1].Text? && long[|long| - 1].s != ""
    ensures |TextsOf(short)| < |TextsOf(long)|
  {
    hide TextsOf;
    var front, last := long[..|long| - 1], long[|long| - 1];
    PrefixText(short, front);
    assert long == front + [last];
    TextsOfSnoc(front, last);
  }

  lemma {:induction false} PrefixText(short: seq<Action>, long: seq<Action>)
    requires short <= long
    ensures |TextsOf(short)| <= |TextsOf(long)|
    decreases |long|
  {
    if |short| < |long| {
      PrefixText(short, long[..|long| - 1]);
    } else {
      assert short == long;
    }
  }

  /** The result between chunks. */
  function Outcome(r: (Control, seq<Action>)): (Control, seq<Action>) {
    (Idle(r.0), r.1)
  }

  /** Feeding from two columns comes to the same, if and only if both give the same layout. */
  lemma {:induction false} ColumnMatters(s: string, col1: int, col2: int, log: seq<Action>, scr: Screen)
    ensures Outcome(Feed(Initial(col1), s, log, scr)) == Outcome(Feed(Initial(col2), s, log, scr))
       <==> SameLayout(s, col1, col2, scr)
    decreases |s|
  {
    hide NextText, Column, Cached;
    if |s| == 0 {
    } else if s[0] == BEL {
      ColumnMatters(s[1..], col1, col2, log + [Bell], scr);
    } else if IsC0(s[0]) {
      Forgotten(s, col1, col2, log, scr);
    } else {
      TextMatters(s, col1, col2, log, scr);
    }
  }

  lemma Forgotten(s: string, col1: int, col2: int, log: seq<Action>, scr: Screen)
    requires |s| > 0 && IsC0(s[0]) && s[0] != BEL
    ensures Feed(Initial(col1), s, log, scr) == Feed(Initial(col2), s, log, scr)
  {
    hide NextText, Column, Cached;
  }

  lemma TextMatters(s: string, col1: int, col2: int, log: seq<Action>, scr: Screen)
    requires |s| > 0 && !IsC0(s[0])
    ensures Outcome(Feed(Initial(col1), s, log, scr)) == Outcome(Feed(Initial(col2), s, log, scr))
       <==> SameLayout(s, col1, col2, scr)
  {
    hide Feed, Lay, Join, Proper;
    var k := TextLength(s);
    var t, r := s[..k], s[k..];
    TextIsSome(s);
    assert s == t + r && (|r| > 0 ==> r[0] == s[k]);
    FeedText(t, r, col1, log, scr);
    FeedText(t, r, col2, log, scr);
    LaidOn(t, col1, log, scr);
    LaidOn(t, col2, log, scr);
    LayEnds(t, col1, [], scr);
    LayEnds(t, col2, [], scr);
    var (e1, l1) := Lay(t, col1, log, scr);
    var (e2, l2) := Lay(t, col2, log, scr);
    if Laid(t, col1, scr) != Laid(t, col2, scr) {
      JoinInjective(log, Laid(t, col1, scr), Laid(t, col2, scr));
      RestKeeps(r, e1, l1, scr);
      RestKeeps(r, e2, l2, scr);
      if Feed(Initial(e1), r, l1, scr).1 == Feed(Initial(e2), r, l2, scr).1 {
        NeitherExtends(t, col1, col2, log, Feed(Initial(e1), r, l1, scr).1, scr);
      }
    }
  }

  lemma TextIsSome(s: string)
    requires |s| > 0 && !IsC0(s[0])
    ensures TextLength(s) > 0
  {
  }

  lemma FeedText(t: string, r: string, col: int, log: seq<Action>, scr: Screen)
    requires IsPlain(t) && |t| > 0
    ensures Feed(Initial(col), t + r, log, scr)
         == Feed(Initial(Lay(t, col, log, scr).0), r, Lay(t, col, log, scr).1, scr)
  {
    hide Feed, Lay;
    assert !IsC0(t[|t| - 1]);
    FeedSplit(Initial(col), t, r, log, scr);
    PlainText(t, col, log, scr);
  }

  /** What comes after a text, and starts with a control, leaves the log before it as it is. */
  lemma RestKeeps(r: string, col: int, log: seq<Action>, scr: Screen)
    requires |r| > 0 ==> IsC0(r[0])
    ensures log <= Feed(Initial(col), r, log, scr).1
  {
    hide NextText, Column, Cached;
    if |r| == 0 {
    } else if PairAt(Initial(col), r, log, scr) {
      LogGrows(Initial(0), r[2..], log + [LineStart(true)], log + [LineStart(true)], scr);
    } else {
      var (c1, log1) := Next(Initial(col), r[0], log, scr);
      LogGrows(c1, r[1..], log1, log1, scr);
    }
  }

  // ---------- Chunks ----------

  function ChunkBoth(c: Control, a: string, b: string, log: seq<Action>, scr: Screen): (Control, seq<Action>) {
    var (c1, log1) := Chunk(c, a, log, scr);
    Chunk(c1, b, log1, scr)
  }

  /** At the cut the column in hand is not the cursor's, and it shows. */
  predicate LosesColumn(c: Control, a: string, b: string, log: seq<Action>, scr: Screen) {
    var (c1, log1) := Feed(Resume(c, log, scr), a, log, scr);
    c1.Initial? && !SameLayout(b, c1.col, Column(log1, scr), scr)
  }

  /** Feeding host output in two chunks gives the same actions, with the same parameters, payloads, breaks
      and coalesced text, and the same parser state as feeding it at once, if and only if the cut does
      not separate a CR LF pair, and does not come where the column in hand differs from the cursor's
      in front of text that it lays out differently. */
  lemma ChunkIndependence(c: Control, a: string, b: string, log: seq<Action>, scr: Screen)
    ensures Chunk(c, a + b, log, scr) == ChunkBoth(c, a, b, log, scr)
       <==> !Separates(Resume(c, log, scr), a, b, log, scr) && !LosesColumn(c, a, b, log, scr)
  {
    hide Feed, Column, Cached, SameLayout;
    var c0 := Resume(c, log, scr);
    if Separates(c0, a, b, log, scr) {
      PairParted(c0, a, b, log, scr);
      LogsOfChunks(c, a, b, log, scr);
    } else {
      FeedSplit(c0, a, b, log, scr);
      var (c1, log1) := Feed(c0, a, log, scr);
      if c1.Initial? { ColumnMatters(b, c1.col, Column(log1, scr), log1, scr); }
    }
  }

  lemma LogsOfChunks(c: Control, a: string, b: string, log: seq<Action>, scr: Screen)
    ensures var (c1, log1) := Feed(Resume(c, log, scr), a, log, scr);
            ChunkBoth(c, a, b, log, scr).1 == Feed(Resume(Idle(c1), log1, scr), b, log1, scr).1
    ensures Chunk(c, a + b, log, scr).1 == Feed(Resume(c, log, scr), a + b, log, scr).1
  {
    hide Feed, Column;
  }

  lemma PairParted(c: Control, a: string, b: string, log: seq<Action>, scr: Screen)
    requires Separates(c, a, b, log, scr)
    ensures var (c1, log1) := Feed(c, a, log, scr);
            c1.Initial? && forall col :: Feed(c, a + b, log, scr).1 != Feed(Initial(col), b, log1, scr).1
  {
    hide Column, Cached, NextText;
    var front, rest := a[..|a| - 1], b[1..];
    var (c0, log0) := Feed(c, front, log, scr);
    var pair := [CR, LF] + rest;
    assert a == front + [CR] && b == [LF] + rest && a + b == front + pair;
    FeedSplit(c, front, [CR], log, scr);
    FeedSplit(c, front, pair, log, scr);
    assert pair[2..] == rest && [CR][1..] == "";
    assert Feed(c0, pair, log0, scr) == Feed(Initial(0), rest, log0 + [LineStart(true)], scr);
    assert Feed(c0, [CR], log0, scr) == (Initial(0), log0 + [LineStart(false)]);
    LogGrows(Initial(0), rest, log0 + [LineStart(true)], log0 + [LineStart(true)], scr);
    forall col ensures Feed(c, a + b, log, scr).1 != Feed(Initial(col), b, log0 + [LineStart(false)], scr).1 {
      LogGrows(Initial(col), b, log0 + [LineStart(false)], log0 + [LineStart(false)], scr);
      assert Feed(c, a + b, log, scr).1[|log0|] == LineStart(true);
      assert Feed(Initial(col), b, log0 + [LineStart(false)], scr).1[|log0|] == LineStart(false);
    }
  }

  /** After a line feed that leaves the cursor's column uncached, as it does in line-editing mode, the
      column in hand is -1: a cut there moves everything on the line by one column. */
  lemma LineFeedLosesColumn(scr: Screen)
    requires scr.cached([LineFeed]) == -1 && scr.wrapWidth > 0
    ensures LosesColumn(Initial(0), [LF], "x", [], scr)
  {
    assert [LF][1..] == "" && [] + [LineFeed] == [LineFeed];
    assert Feed(Resume(Initial(0), [], scr), [LF], [], scr) == (Initial(-1), [LineFeed]);
    var col := Column([LineFeed], scr);
    OneCharacter(-1, scr);
    OneCharacter(col, scr);
  }

  lemma OneCharacter(col: int, scr: Screen)
    ensures "x"[..TextLength("x")] == "x" && "x"[0] !in {CR, LF, BS, ESC, TAB} && "x"[0] != BEL
    ensures |Laid("x", col, scr)| > 0
    ensures Laid("x", col, scr)[|Laid("x", col, scr)| - 1] == Text("x", if col + 1 <= scr.wrapWidth then col + 1 else 1)
  {
    hide Lay, NextText, TextLength;
    var s := "x";
    assert s[1..] == "" && s == ['x'] && s[0] == 'x';
    OneLength(s);
    OneLaid(s, col, scr);
    NextTextEnds(col, 'x', scr);
  }

  lemma OneLength(s: string)
    requires |s| == 1 && !IsC0(s[0])
    ensures TextLength(s) == 1 && s[..1] == s
  {
    assert s[1..] == "";
  }

  lemma OneLaid(s: string, col: int, scr: Screen)
    requires |s| == 1
    ensures Laid(s, col, scr) == NextText(col, s[0], [], scr).1
  {
    hide NextText;
    assert s[1..] == "";
    var (next, log1) := NextText(col, s[0], [], scr);
    assert Lay(s[1..], next, log1, scr) == (next, log1);
  }

  lemma NextTextEnds(col: int, ch: char, scr: Screen)
    ensures var (end, log) := NextText(col, ch, [], scr);
            |log| > 0 && log[|log| - 1] == Text([ch], end)
    ensures ch == 'x' ==> NextText(col, ch, [], scr).0 == if col + 1 <= scr.wrapWidth then col + 1 else 1
  {
  }
}
