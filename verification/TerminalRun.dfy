/** Runs of SGR sequences, printed text, wrap breaks and deletions: what every character of the document
    looks like, and which are left. */
module TerminalRun {
  import opened Wire
  import opened StyleAttribute
  import opened Sgr
  import opened Dom
  import opened StyledOutput
  import opened Erase
  import opened StyledTerminal

  /** A character, the styles in force where it stands, and whether it is marked as an error. */
  datatype Seen = Seen(ch: char, styles: seq<string>, error: bool)

  predicate IsError(around: seq<Attrs>) {
    exists i :: 0 <= i < |around| && around[i].std == "error"
  }

  function See(cells: seq<Cell>): (r: seq<Seen>)
    ensures |r| == |cells|
    ensures forall i :: 0 <= i < |r| ==>
      r[i] == Seen(cells[i].ch, StylesOf(cells[i].around), IsError(cells[i].around))
  {
    seq(|cells|, i requires 0 <= i < |cells| =>
      Seen(cells[i].ch, StylesOf(cells[i].around), IsError(cells[i].around)))
  }

  function Typed(s: string, styles: seq<string>, error: bool): (r: seq<Seen>)
    ensures |r| == |s|
    ensures forall i :: 0 <= i < |s| ==> r[i] == Seen(s[i], styles, error)
  {
    seq(|s|, i requires 0 <= i < |s| => Seen(s[i], styles, error))
  }

  // ---------- What a run should show ----------

  /** The styles in force, and those of the last text, which are around the cursor until the next one. */
  datatype Ink = Ink(styles: seq<string>, around: seq<string>)

  function Dip(ink: Ink, e: Output): Ink {
    match e
    case Sgr(vals) => ink.(styles := SelectAll(ink.styles, vals, FOREGROUND, BACKGROUND_COLOR))
    case Print(text, _, _, _) => if text == "" then ink else ink.(around := ink.styles)
    case _ => ink
  }

  function InkAfter(ink: Ink, es: seq<Output>): Ink {
    if |es| == 0 then ink else Dip(InkAfter(ink, es[..|es| - 1]), es[|es| - 1])
  }

  /** Text comes with the styles in force, a wrap break with those of the text before it. */
  function Mark(ink: Ink, e: Output): seq<Seen> {
    match e
    case Print(text, error, _, _) => Typed(text, ink.styles, error)
    case WrapBreak => Typed(WRAP_STRING, ink.around, false)
    case _ => []
  }

  function Wanted(ink: Ink, es: seq<Output>): seq<Seen> {
    if |es| == 0 then []
    else Wanted(ink, es[..|es| - 1]) + Mark(InkAfter(ink, es[..|es| - 1]), es[|es| - 1])
  }

  /** What stands after the cursor: how it looks, and what a deletion will find there. */
  datatype Ahead = Ahead(glyphs: seq<Glyph>, marks: seq<Erase.Mark>)

  function AheadOf(p: Place): Ahead {
    Ahead(Look(After(p)), MarksFrom(p))
  }

  function Dropped(a: Ahead, count: int, column: nat): Ahead {
    var scan := ScanLine(a.marks, Columns(count), column, 0);
    Ahead(if scan.taken <= |a.glyphs| then a.glyphs[scan.taken..] else [], a.marks[scan.marks..])
  }

  /** What is left of it: the modes and the columns printed or deleted decide. */
  function Left(a: Ahead, insert: bool, e: Output): Ahead {
    match e
    case Print(text, _, column, width) => if text == "" || insert then a else Dropped(a, width, column)
    case Delete(count, column) => Dropped(a, count, column)
    case _ => a
  }

  function ModeAfter(insert: bool, es: seq<Output>): bool {
    if |es| == 0 then insert
    else if es[|es| - 1].InsertMode? then es[|es| - 1].on
    else ModeAfter(insert, es[..|es| - 1])
  }

  function Remaining(a: Ahead, insert: bool, es: seq<Output>): Ahead {
    if |es| == 0 then a
    else
      var front := es[..|es| - 1];
      Left(Remaining(a, insert, front), ModeAfter(insert, front), es[|es| - 1])
  }

  predicate IsTail(whole: seq<Glyph>, tail: seq<Glyph>) {
    |tail| <= |whole| && whole[|whole| - |tail|..] == tail
  }

  /** No text comes in insert mode while wrapping is on, so that no line is trimmed. */
  predicate Untrimmed(wraps: bool, insert: bool, es: seq<Output>) {
    |es| == 0 ||
    (var front, last := es[..|es| - 1], es[|es| - 1];
     Untrimmed(wraps, insert, front) && (wraps && last.Print? && last.text != "" ==> !ModeAfter(insert, front)))
  }

  // ---------- What every step keeps ----------

  /** The styled elements are directly around the cursor, and hold the current styles unless an
      adjustment is due. */
  predicate Good(s: State) {
    && AreProperties(s.styles)
    && Neat(s.doc)
    && !IsError(Around(s.doc))
    && (!s.pending ==> StylesOf(Around(s.doc)) == s.styles)
  }

  function InkOf(s: State): Ink {
    Ink(s.styles, StylesOf(Around(s.doc)))
  }

  // ---------- Inserting ----------

  lemma InsertedCells(p: Place, text: string, error: bool)
    ensures Before(Inserted(p, text, error)) == Before(p) + Cells(text, Around(p) + if error then [ERROR] else [])
    ensures InsertedAt(p, Inserted(p, text, error))
  {
    hide Flat, Around, Before, After, With, InsertedAt, Cells;
    InsertedElsewhere(p, text, error);
    var n := |p.before|;
    if error {
      ErrorCells(p, text);
    } else {
      assert Around(p) + [] == Around(p);
      if n > 0 && p.before[n - 1].Text? {
        AppendedCells(p, text);
      } else {
        BeforeNode(p, Text(text));
      }
    }
  }

  lemma InsertedElsewhere(p: Place, text: string, error: bool)
    ensures InsertedAt(p, Inserted(p, text, error))
  {
    hide Flat, Around, Marks;
  }

  lemma ErrorCells(p: Place, text: string)
    ensures Before(Inserted(p, text, true)) == Before(p) + Cells(text, Around(p) + [ERROR])
  {
    hide Flat, Around, Before, After, With, Cells;
    var n := Elem(ERROR, [Text(text)]);
    BeforeAppend(p, p.before, [n], p.after);
    FlatOne(n, Around(p));
    FlatOne(Text(text), Around(p) + [ERROR]);
  }

  /** Nothing else has changed. */
  predicate InsertedAt(p: Place, q: Place) {
    After(q) == After(p) && Around(q) == Around(p) && Neat(q) == Neat(p) && MarksFrom(q) == MarksFrom(p)
    && BlockAhead(q) == BlockAhead(p)
  }

  lemma AppendedCells(p: Place, text: string)
    requires |p.before| > 0 && p.before[|p.before| - 1].Text?
    ensures Before(Inserted(p, text, false)) == Before(p) + Cells(text, Around(p))
  {
    hide Flat, Around, Before, After, With, Cells;
    var a := Around(p);
    var n := |p.before|;
    var last := p.before[n - 1];
    var front, joined := p.before[..n - 1], Text(last.data + text);
    var q := With(p, front, p.after);
    BeforeNode(q, last);
    BeforeNode(q, joined);
    AppendedTo(p, text, front);
    CellsAppend(last.data, text, a);
    Regroup(Before(q), Cells(last.data, a), Cells(text, a));
  }

  /** Where the longer text stands. */
  lemma AppendedTo(p: Place, text: string, front: seq<Node>)
    requires |p.before| > 0 && p.before[|p.before| - 1].Text? && front == p.before[..|p.before| - 1]
    ensures With(With(p, front, p.after), front + [p.before[|p.before| - 1]], p.after) == p
    ensures With(With(p, front, p.after), front + [Text(p.before[|p.before| - 1].data + text)], p.after)
         == Inserted(p, text, false)
  {
    assert p.before == front + [p.before[|p.before| - 1]];
  }

  lemma Regroup(x: seq<Cell>, y: seq<Cell>, z: seq<Cell>)
    ensures x + (y + z) == (x + y) + z
  {
  }

  lemma BeforeNode(p: Place, n: Node)
    requires n.Text?
    ensures Before(With(p, p.before + [n], p.after)) == Before(p) + Cells(n.data, Around(p))
  {
    hide Flat, Around, Before, After, With;
    BeforeAppend(p, p.before, [n], p.after);
    FlatOne(n, Around(p));
  }

  lemma CellsAppend(s: string, t: string, around: seq<Attrs>)
    ensures Cells(s + t, around) == Cells(s, around) + Cells(t, around)
  {
  }

  lemma StylesOfAppend(a: seq<Attrs>, last: Attrs)
    ensures StylesOf(a + [last]) == StylesOf(a) + Properties(last.style)
  {
    hide Properties;
    assert (a + [last])[..|a|] == a;
  }

  lemma IsErrorAppend(a: seq<Attrs>, last: Attrs)
    ensures IsError(a + [last]) == (IsError(a) || last.std == "error")
  {
    assert (a + [last])[|a|] == last;
    if i :| 0 <= i < |a| && a[i].std == "error" {
      assert (a + [last])[i] == a[i];
    }
  }

  lemma SeeAppend(a: seq<Cell>, b: seq<Cell>)
    ensures See(a + b) == See(a) + See(b)
  {
  }

  /** Inserted text is seen with the styles around it. */
  lemma InsertedShows(p: Place, text: string, error: bool)
    requires !IsError(Around(p))
    ensures See(Before(Inserted(p, text, error))) == See(Before(p)) + Typed(text, StylesOf(Around(p)), error)
    ensures InsertedAt(p, Inserted(p, text, error))
  {
    hide IsError, StylesOf, Before, Inserted, InsertedAt;
    InsertedCells(p, text, error);
    var around := Around(p) + if error then [ERROR] else [];
    StylesOfAppend(Around(p), ERROR);
    IsErrorAppend(Around(p), ERROR);
    assert Properties(ERROR.style) == [];
    assert Around(p) + [] == Around(p) && StylesOf(Around(p)) + [] == StylesOf(Around(p));
    SeeAppend(Before(p), Cells(text, around));
    assert See(Cells(text, around)) == Typed(text, StylesOf(Around(p)), error);
  }

  // ---------- Adjusting ----------

  lemma NoErrorLeft(a: seq<Attrs>, k: nat)
    requires k <= |a| && !IsError(a)
    ensures !IsError(a[..k])
  {
  }

  lemma AdjustedIsNoError(p: Place, styles: seq<string>)
    requires !IsError(Around(p))
    ensures !IsError(Around(Adjusted(p, styles)))
  {
    hide Kept, Popped, PopN, Before, After, Look, IsError, Joined;
    var pops := Popped(p, styles);
    PopNPreserves(p, pops);
    NoErrorLeft(Around(p), |Around(p)| - pops);
    IsErrorAppend(Around(PopN(p, pops)), Span(Joined(styles[Kept(p, styles)..])));
  }

  /** Leaving an element changes nothing for a deletion. */
  lemma PopMarks(p: Place)
    requires p.Inside?
    ensures MarksFrom(Pop(p)) == MarksFrom(p) && BlockAhead(Pop(p)) == BlockAhead(p)
  {
    hide Marks, HasBlock, HeadMarks;
    if |p.after| == 0 {
      assert p.after == [];
      assert [] + p.outer.after == p.outer.after;
      MarksNone();
      NoBlockInNothing();
    } else {
      var half := Elem(Copied(p.attrs), p.after);
      MarksHead(half, p.outer.after);
      SpanMarks(half, |p.outer.after| == 0);
      BlockInFront(half, p.outer.after);
      var rest := if p.outer.Body? then [] else MarksFrom(p.outer.outer);
      assert (Marks(p.after) + Marks(p.outer.after)) + rest == Marks(p.after) + (Marks(p.outer.after) + rest);
    }
  }

  lemma SpanMarks(n: Node, last: bool)
    requires n.Elem? && n.attrs.tag == SPAN && |n.kids| > 0
    ensures HeadMarks(n, last) == Marks(n.kids)
  {
    hide Marks, Flat;
    assert SPAN[0] != "br"[0] && SPAN[0] != "a"[0] && SPAN[0] != "object"[0] && SPAN[0] != "img"[0];
  }

  lemma NoBlockInNothing()
    ensures !HasBlock([])
  {
  }

  lemma BlockInFront(n: Node, tail: seq<Node>)
    requires n.Elem? && n.attrs.tag == SPAN
    ensures HasBlock([n] + tail) == (HasBlock(tail) || HasBlock(n.kids))
  {
    assert ([n] + tail)[1..] == tail;
    assert SPAN[0] != "p"[0] && SPAN[0] != "div"[0] && |SPAN| != |"pre"|;
  }

  lemma {:induction false} PopNMarks(p: Place, n: nat)
    requires n <= Depth(p)
    ensures MarksFrom(PopN(p, n)) == MarksFrom(p) && BlockAhead(PopN(p, n)) == BlockAhead(p)
    decreases n
  {
    hide MarksFrom, BlockAhead, Pop;
    if n > 0 {
      PopMarks(p);
      PopNMarks(Pop(p), n - 1);
    }
  }

  lemma AdjustedMarks(p: Place, styles: seq<string>)
    ensures MarksFrom(Adjusted(p, styles)) == MarksFrom(p) && BlockAhead(Adjusted(p, styles)) == BlockAhead(p)
  {
    hide Kept, Popped, PopN, Joined, Marks, HasBlock;
    PopNMarks(p, Popped(p, styles));
    MarksNone();
    NoBlockInNothing();
    var q := PopN(p, Popped(p, styles));
    assert [] + MarksFrom(q) == MarksFrom(q);
  }

  /** An adjustment changes nothing one sees. */
  predicate PreparedFrom(p: Place, q: Place) {
    Before(q) == Before(p) && AheadOf(q) == AheadOf(p) && BlockAhead(q) == BlockAhead(p)
  }

  lemma PreparedIsGood(s: State)
    requires Good(s)
    ensures Neat(Prepared(s)) && !IsError(Around(Prepared(s))) && StylesOf(Around(Prepared(s))) == s.styles
    ensures PreparedFrom(s.doc, Prepared(s))
  {
    hide Adjusted, IsError, Neat, StylesOf, Look, After, Before, MarksFrom, BlockAhead;
    if s.pending {
      AdjustPreserves(s.doc, s.styles);
      AdjustReaches(s.doc, s.styles);
      AdjustedIsNoError(s.doc, s.styles);
      AdjustedMarks(s.doc, s.styles);
    }
  }

  // ---------- Deleting ----------

  lemma LookDrop(cells: seq<Cell>, k: nat)
    requires k <= |cells|
    ensures Look(cells[k..]) == Look(cells)[k..]
  {
  }

  lemma {:induction false} ErasedKeepsPlace(p: Place, count: nat, column: nat, seen: nat)
    ensures ParentStyles(ErasedFrom(p, count, column, seen)) == ParentStyles(p)
    ensures Neat(ErasedFrom(p, count, column, seen)) == Neat(p)
    decreases Depth(p)
  {
    hide Erased;
    var r := Erased(p.after, count, column, seen);
    if p.Inside? && !r.over { ErasedKeepsPlace(p.outer, r.count, column, r.seen); }
  }

  /** A deletion leaves the end of what stood after the cursor; with no block there, the part that the
      columns decide. */
  predicate DroppedFrom(p: Place, q: Place, count: int, column: nat) {
    && IsTail(Look(After(p)), Look(After(q)))
    && (!BlockAhead(p) ==> AheadOf(q) == Dropped(AheadOf(p), count, column) && !BlockAhead(q))
  }

  lemma ErasedShows(p: Place, count: int, column: nat)
    ensures var q := ErasedFrom(p, Columns(count), column, 0);
            && Before(q) == Before(p) && Around(q) == Around(p) && Neat(q) == Neat(p)
            && DroppedFrom(p, q, count, column)
  {
    hide ErasedFrom, ScanLine, Look, After, Before, Around, Neat, MarksFrom, BlockAhead;
    ErasedFromIsScan(p, Columns(count), column, 0);
    ErasedKeepsPlace(p, Columns(count), column, 0);
    if !BlockAhead(p) { ErasedFromHasNoBlock(p, Columns(count), column, 0); }
    LookDrop(After(p), ScanLine(MarksFrom(p), Columns(count), column, 0).taken);
  }

  // ---------- Steps ----------

  /** What a step does to what stands after the cursor. */
  predicate LeavesAhead(s: State, t: State, e: Output) {
    && IsTail(Look(After(s.doc)), Look(After(t.doc)))
    && (!BlockAhead(s.doc) ==> AheadOf(t.doc) == Left(AheadOf(s.doc), s.insert, e) && !BlockAhead(t.doc))
  }

  lemma TailOfItself(a: seq<Glyph>)
    ensures IsTail(a, a)
  {
  }

  lemma TailOfTail(a: seq<Glyph>, b: seq<Glyph>, c: seq<Glyph>)
    requires IsTail(a, b) && IsTail(b, c)
    ensures IsTail(a, c)
  {
  }

  predicate NeedsNoTrim(s: State, e: Output) {
    s.wraps && e.Print? && e.text != "" ==> !s.insert
  }

  lemma StepShows(s: State, e: Output, trim: Trimming)
    requires Good(s) && NeedsNoTrim(s, e)
    ensures var t := Step(s, e, trim);
            && Good(t) && InkOf(t) == Dip(InkOf(s), e)
            && t.insert == (if e.InsertMode? then e.on else s.insert) && t.wraps == s.wraps
            && See(Before(t.doc)) == See(Before(s.doc)) + Mark(InkOf(s), e)
            && LeavesAhead(s, t, e)
  {
    hide Prepared, IsError, Neat, StylesOf, Look, After, Before, Inserted, SelectAll, AreProperties, Dropped,
      ErasedFrom,
      BlockAhead, MarksFrom;
    var seen := See(Before(s.doc));
    assert seen + [] == seen;
    TailOfItself(Look(After(s.doc)));
    match e
    case Sgr(vals) =>
      WordsAreProperties();
      assert IsProperty(FOREGROUND) && IsProperty(BACKGROUND_COLOR);
      SelectAllProperties(s.styles, vals, FOREGROUND, BACKGROUND_COLOR);
    case Print(text, error, column, width) =>
      if text != "" {
        PrintShows(s, text, error, column, width, trim);
      } else {
        assert Typed(text, s.styles, error) == [];
      }
    case WrapBreak => InsertedShows(s.doc, WRAP_STRING, false);
    case Delete(count, column) => ErasedShows(s.doc, count, column);
    case InsertMode(on) =>
  }

  lemma PrintShows(s: State, text: string, error: bool, column: nat, width: int, trim: Trimming)
    requires Good(s) && text != "" && (s.wraps ==> !s.insert)
    ensures var t := Step(s, Print(text, error, column, width), trim);
            && Neat(t.doc) && !IsError(Around(t.doc)) && StylesOf(Around(t.doc)) == s.styles
            && See(Before(t.doc)) == See(Before(s.doc)) + Typed(text, s.styles, error)
            && LeavesAhead(s, t, Print(text, error, column, width))
  {
    hide Prepared, IsError, Neat, StylesOf, Look, After, Before, Inserted, ErasedFrom, Dropped, BlockAhead, MarksFrom;
    PreparedIsGood(s);
    if !s.insert { ErasedShows(Prepared(s), width, column); }
    TailOfItself(Look(After(s.doc)));
    var p := Cleared(s, Prepared(s), column, width, trim);
    InsertedShows(p, text, error);
  }

  /** Any run of SGR sequences, text, wrap breaks and deletions, in which no line is trimmed: the document
      then shows, up to the cursor, what it showed before and every new character with exactly the styles
      in force when it came; after the cursor it shows the end of what was there, as it was, namely, if
      there is no block element, all but what was replaced or deleted. */
  lemma {:induction false} RunShows(s: State, es: seq<Output>, trim: Trimming)
    requires Good(s) && Untrimmed(s.wraps, s.insert, es)
    ensures var t := Run(s, es, trim);
            && Good(t) && InkOf(t) == InkAfter(InkOf(s), es)
            && t.insert == ModeAfter(s.insert, es) && t.wraps == s.wraps
            && See(Before(t.doc)) == See(Before(s.doc)) + Wanted(InkOf(s), es)
            && IsTail(Look(After(s.doc)), Look(After(t.doc)))
            && (!BlockAhead(s.doc) ==>
                  AheadOf(t.doc) == Remaining(AheadOf(s.doc), s.insert, es) && !BlockAhead(t.doc))
    decreases |es|
  {
    hide Good, See, Before, After, Look, Step, Mark, Left, Dip, InkOf, BlockAhead, MarksFrom;
    if |es| > 0 {
      var front, last := es[..|es| - 1], es[|es| - 1];
      RunShows(s, front, trim);
      var mid := Run(s, front, trim);
      StepShows(mid, last, trim);
      TailOfTail(Look(After(s.doc)), Look(After(mid.doc)), Look(After(Step(mid, last, trim).doc)));
      SeenRegroup(See(Before(s.doc)), Wanted(InkOf(s), front), Mark(InkOf(mid), last));
    } else {
      assert See(Before(s.doc)) + [] == See(Before(s.doc));
      TailOfItself(Look(After(s.doc)));
    }
  }

  lemma SeenRegroup(x: seq<Seen>, y: seq<Seen>, z: seq<Seen>)
    ensures (x + y) + z == x + (y + z)
  {
  }

  /** At the end of the document nothing is ever replaced. */
  lemma {:induction false} NothingRemains(insert: bool, es: seq<Output>)
    ensures Remaining(Ahead([], []), insert, es) == Ahead([], [])
    decreases |es|
  {
    hide Left, ModeAfter;
    if |es| > 0 {
      NothingRemains(insert, es[..|es| - 1]);
      NothingLeftOver(ModeAfter(insert, es[..|es| - 1]), es[|es| - 1]);
    }
  }

  lemma NothingLeftOver(insert: bool, e: Output)
    ensures Left(Ahead([], []), insert, e) == Ahead([], [])
  {
  }

  /** In replace mode, on a line of ordinary characters, text that is as wide as it is long takes the
      place of as many characters, or of the rest of the line. */
  lemma Overwrites(glyphs: seq<Glyph>, line: string, rest: seq<Erase.Mark>, text: string, column: nat)
    requires |line| <= |glyphs| && 0 < |text|
    requires forall i :: 0 <= i < |line| ==> ' ' <= line[i] < 127 as char
    requires |rest| == 0 || rest[0].Stop? || (rest[0].Ch? && IsLineEnd(rest[0].ch))
    ensures Left(Ahead(glyphs, TextMarks(line) + rest), false, Print(text, false, column, |text|)).glyphs ==
            glyphs[if |text| <= |line| then |text| else |line|..]
  {
    hide ScanLine;
    OrdinaryLine(line, rest, |text|, column, 0);
  }

  // ---------- The same in renditions ----------

  datatype Shown = Shown(ch: char, rendition: Rendition, error: bool)

  function Show(seen: seq<Seen>): (r: seq<Shown>)
    ensures |r| == |seen|
    ensures forall i :: 0 <= i < |r| ==> r[i] == Shown(seen[i].ch, RenditionOf(seen[i].styles), seen[i].error)
  {
    seq(|seen|, i requires 0 <= i < |seen| => Shown(seen[i].ch, RenditionOf(seen[i].styles), seen[i].error))
  }

  function Drawn(s: string, rendition: Rendition, error: bool): (r: seq<Shown>)
    ensures |r| == |s|
    ensures forall i :: 0 <= i < |s| ==> r[i] == Shown(s[i], rendition, error)
  {
    seq(|s|, i requires 0 <= i < |s| => Shown(s[i], rendition, error))
  }

  /** All codes sent, and those sent before the last text. */
  function CodesOf(es: seq<Output>): seq<int> {
    if |es| == 0 then []
    else CodesOf(es[..|es| - 1]) + if es[|es| - 1].Sgr? then es[|es| - 1].vals else []
  }

  function CodesAround(es: seq<Output>): seq<int> {
    if |es| == 0 then []
    else if es[|es| - 1].Print? && es[|es| - 1].text != "" then CodesOf(es[..|es| - 1])
    else CodesAround(es[..|es| - 1])
  }

  /** The values that a list of codes gives to the properties. */
  function Now(codes: seq<int>): Rendition {
    RenderAll(DEFAULT, codes, FOREGROUND, BACKGROUND_COLOR)
  }

  /** Every character with the rendition that all SGR codes before it select, and every wrap break with
      that of the text before it. */
  function Selected(es: seq<Output>): seq<Shown> {
    if |es| == 0 then []
    else
      var front := es[..|es| - 1];
      Selected(front) + Draw(CodesOf(front), CodesAround(front), es[|es| - 1])
  }

  function Draw(codes: seq<int>, around: seq<int>, e: Output): seq<Shown> {
    match e
    case Print(text, error, _, _) => Drawn(text, Now(codes), error)
    case WrapBreak => Drawn(WRAP_STRING, Now(around), false)
    case _ => []
  }

  lemma {:induction false} SelectAllAppend(styles: seq<string>, a: seq<int>, b: seq<int>)
    ensures SelectAll(styles, a + b, FOREGROUND, BACKGROUND_COLOR)
         == SelectAll(SelectAll(styles, a, FOREGROUND, BACKGROUND_COLOR), b, FOREGROUND, BACKGROUND_COLOR)
    decreases |b|
  {
    hide Select;
    if |b| == 0 {
      assert a + b == a;
    } else {
      assert (a + b)[..|a + b| - 1] == a + b[..|b| - 1];
      SelectAllAppend(styles, a, b[..|b| - 1]);
    }
  }

  lemma {:induction false} InkIsCodes(es: seq<Output>)
    ensures InkAfter(Ink([], []), es).styles == SelectAll([], CodesOf(es), FOREGROUND, BACKGROUND_COLOR)
    ensures InkAfter(Ink([], []), es).around == SelectAll([], CodesAround(es), FOREGROUND, BACKGROUND_COLOR)
    decreases |es|
  {
    hide Select;
    if |es| > 0 {
      var front, last := es[..|es| - 1], es[|es| - 1];
      InkIsCodes(front);
      if last.Sgr? { SelectAllAppend([], CodesOf(front), last.vals); }
      assert CodesOf(front) + [] == CodesOf(front);
    }
  }

  /** The list of styles for a list of codes stands for its rendition. */
  lemma StylesAreNow(codes: seq<int>)
    ensures RenditionOf(SelectAll([], codes, FOREGROUND, BACKGROUND_COLOR)) == Now(codes)
  {
    hide RenditionOf, SelectAll, RenderAll, IsStyle;
    SelectAllIsRenderAll([], codes, FOREGROUND, BACKGROUND_COLOR);
    NothingSet();
  }

  lemma MarkIsDraw(codes: seq<int>, around: seq<int>, e: Output)
    ensures Show(Mark(Ink(SelectAll([], codes, FOREGROUND, BACKGROUND_COLOR),
                          SelectAll([], around, FOREGROUND, BACKGROUND_COLOR)), e)) == Draw(codes, around, e)
  {
    hide RenditionOf, SelectAll, Now;
    StylesAreNow(codes);
    StylesAreNow(around);
  }

  lemma {:induction false} WantedIsSelected(es: seq<Output>)
    ensures Show(Wanted(Ink([], []), es)) == Selected(es)
    decreases |es|
  {
    hide Show, Mark, Draw, Now, SelectAll;
    if |es| > 0 {
      var front, last := es[..|es| - 1], es[|es| - 1];
      WantedIsSelected(front);
      InkIsCodes(front);
      MarkIsDraw(CodesOf(front), CodesAround(front), last);
      ShowAppend(Wanted(Ink([], []), front), Mark(InkAfter(Ink([], []), front), last));
    } else {
      ShowNothing();
    }
  }

  lemma ShowNothing()
    ensures Show([]) == []
  {
  }

  lemma ShowAppend(a: seq<Seen>, b: seq<Seen>)
    ensures Show(a + b) == Show(a) + Show(b)
  {
  }

  /** The terminal at its start, in replace mode and with wrapping on. */
  function Fresh(doc: Place): State {
    State([], false, false, true, doc)
  }

  /** From an unstyled cursor: every character shows in the rendition that the codes sent before it
      select, whatever spans were opened, split and closed for it. */
  lemma RunRenders(doc: Place, es: seq<Output>, trim: Trimming)
    requires ParentStyles(doc) == [] && !IsError(Around(doc)) && Untrimmed(true, false, es)
    ensures Show(See(Before(Run(Fresh(doc), es, trim).doc))) == Show(See(Before(doc))) + Selected(es)
    ensures IsTail(Look(After(doc)), Look(After(Run(Fresh(doc), es, trim).doc)))
    ensures !BlockAhead(doc) ==> AheadOf(Run(Fresh(doc), es, trim).doc) == Remaining(AheadOf(doc), false, es)
  {
    hide Before, After, Look, See, Show, Run, StylesOf, IsError, RenditionOf, Remaining, BlockAhead, MarksFrom,
      Untrimmed;
    var s := Fresh(doc);
    AroundIsListed(doc);
    NoneIsNeat(doc);
    assert AreProperties(s.styles) && Good(s);
    RunShows(s, es, trim);
    WantedIsSelected(es);
    ShowAppend(See(Before(doc)), Wanted(InkOf(s), es));
  }
}
