/** The escape-sequence parser of WebTerminal.insertString: a state machine for ECMA-48 control
    sequences that is fed host output in arbitrary chunks, and that counts columns to break overlong
    lines. What it calls the rest of the terminal for is a log of actions; all that is known of the
    rest is that the cursor's place depends on the actions. */
module EscapeParser {

  const NUL: char := 0 as char
  const BEL: char := 7 as char
  const BS: char := 8 as char
  const TAB: char := 9 as char
  const LF: char := 10 as char
  const FF: char := 12 as char
  const CR: char := 13 as char
  const ESC: char := 27 as char

  datatype Action =
    | Text(s: string, end: int)                                   // insertSimpleOutput, up to column end
    | WrapBreak                                                   // insertWrapBreak
    | LineStart(next: bool)                                       // CR, or CR LF in one chunk
    | LineFeed
    | Backspace
    | Bell
    | Tab(steps: int)                                             // cursorRight
    | SaveCursor
    | RestoreCursor
    | ReverseIndex
    | ControlSequence(question: bool, params: seq<int>, num: int, last: char)  // handleControlSequence
    | OperatingSystem(num: int, text: string)                     // handleOperatingSystemControl
    | Ignored                                                     // an escape that calls nothing

  // ---------- The rest of the terminal ----------

  /** What the rest of the terminal answers after the actions logged so far: whether the cursor is on the
      last line of the scroll region, its column if it is cached (-1 if it is not), and its column. */
  datatype Screen = Screen(
    bottom: seq<Action> -> bool, cached: seq<Action> -> int, computed: seq<Action> -> nat, wraps: bool, wrapWidth: int)

  /** Actions that leave the cursor where it is. */
  predicate Rests(a: Action) {
    a.Bell? || a.SaveCursor? || a.Ignored? || (a.ControlSequence? && a.last == 'm')
  }

  /** currentCursorColumn. */
  function Cached(log: seq<Action>, scr: Screen): int {
    if |log| == 0 then scr.cached(log)
    else match log[|log| - 1]
      case Text(_, end) => end
      case WrapBreak => 0
      case a => if Rests(a) then Cached(log[..|log| - 1], scr) else scr.cached(log)
  }

  /** getCursorColumn. */
  function Column(log: seq<Action>, scr: Screen): int
    ensures Column(log, scr) >= 0
  {
    if |log| > 0 && Rests(log[|log| - 1]) then Column(log[..|log| - 1], scr)
    else if Cached(log, scr) >= 0 then Cached(log, scr) else scr.computed(log)
  }

  /** updateColumn, for a character that is not a tab: -1 stands for the start of a line. */
  function UpdateColumn(ch: char, col: int): int {
    if ch == LF || ch == CR || ch == FF then -1 else if ch == 0x200B as char then col else col + 1
  }

  function NextTab(col: int): int {
    col / 8 * 8 + 8
  }

  // ---------- The state machine as a function ----------

  /** controlSequenceState with the variables that are live in it; col is curColumn. */
  datatype Control =
    | Initial(col: int)
    | SeenEsc
    | Csi(question: bool, params: seq<int>, num: int)
    | Osc(num: int)
    | OscText(num: int, text: string)

  function IsDigit(ch: char): bool {
    '0' <= ch <= '9'
  }

  /** Java's int arithmetic. */
  function Wrap32(x: int): (r: int)
    ensures -0x8000_0000 <= r < 0x8000_0000
    ensures -0x8000_0000 <= x < 0x8000_0000 ==> r == x
  {
    (x + 0x8000_0000) % 0x1_0000_0000 - 0x8000_0000
  }

  /** A number after one more digit; -1 stands for a parameter without digits. */
  function AddDigit(num: int, ch: char): int
    requires IsDigit(ch)
  {
    Wrap32((if num >= 0 then 10 * num else 0) + (ch as int - '0' as int))
  }

  /** Text that follows text makes one text, up to the later column. */
  function AppendText(log: seq<Action>, s: string, end: int): seq<Action> {
    if s == [] then log
    else if |log| > 0 && log[|log| - 1].Text? then log[..|log| - 1] + [Text(log[|log| - 1].s + s, end)]
    else log + [Text(s, end)]
  }

  /** One printable character: where it would not fit the line, a break goes before it. */
  function NextText(col: int, ch: char, log: seq<Action>, scr: Screen): (int, seq<Action>) {
    var next := UpdateColumn(ch, col);
    if next <= scr.wrapWidth then (next, AppendText(log, [ch], next))
    else
      var first := UpdateColumn(ch, 0);
      (first, AppendText(if scr.wraps then log + [WrapBreak] else log, [ch], first))
  }

  /** Back in the INITIAL state, curColumn is getCursorColumn(). */
  function Back(log: seq<Action>, scr: Screen): (Control, seq<Action>) {
    (Initial(Column(log, scr)), log)
  }

  /** What one character does, unless it is the LF of a CR LF pair. */
  function Next(c: Control, ch: char, log: seq<Action>, scr: Screen): (Control, seq<Action>) {
    match c
    case Initial(col) =>
      if ch == CR then (Initial(0), log + [LineStart(false)])
      else if ch == LF then (Initial(Cached(log + [LineFeed], scr)), log + [LineFeed])
      else if ch == BS then (Initial(Cached(log + [Backspace], scr)), log + [Backspace])
      else if ch == BEL then (c, log + [Bell])
      else if ch == TAB then
        var tab := Tab(NextTab(Column(log, scr)) - Column(log, scr));
        (Initial(Cached(log + [tab], scr)), log + [tab])
      else if ch == ESC then (SeenEsc, log)
      else
        var (next, log1) := NextText(col, ch, log, scr);
        (Initial(next), log1)
    case SeenEsc =>
      if ch == '[' then (Csi(false, [], -1), log)
      else if ch == ']' then (Osc(-1), log)
      else if ch == '7' then Back(log + [SaveCursor], scr)
      else if ch == '8' then Back(log + [RestoreCursor], scr)
      else if ch == 'M' then Back(log + [ReverseIndex], scr)
      else Back(log + [Ignored], scr)
    case Csi(question, params, num) =>
      if IsDigit(ch) then (Csi(question, params, AddDigit(num, ch)), log)
      else if ch == ';' then (Csi(question, params + [num], -1), log)
      else if ch == '?' then (Csi(true, params, num), log)
      else Back(log + [ControlSequence(question, params, num, ch)], scr)
    case Osc(num) =>
      if IsDigit(ch) then (Osc(AddDigit(num, ch)), log)
      else if ch == ';' then (OscText(num, ""), log)
      else Back(log + [Ignored], scr)
    case OscText(num, text) =>
      if ch == BEL || ch == NUL then Back(log + [OperatingSystem(num, text)], scr)
      else (OscText(num, text + [ch]), log)
  }

  function Feed(c: Control, s: string, log: seq<Action>, scr: Screen): (Control, seq<Action>)
    decreases |s|
  {
    if |s| == 0 then (c, log)
    else if PairAt(c, s, log, scr) then Feed(Initial(0), s[2..], log + [LineStart(true)], scr)
    else
      var (c1, log1) := Next(c, s[0], log, scr);
      Feed(c1, s[1..], log1, scr)
  }

  predicate PairAt(c: Control, s: string, log: seq<Action>, scr: Screen) {
    c.Initial? && |s| > 1 && s[0] == CR && s[1] == LF && !scr.bottom(log)
  }

  // ---------- Chunks ----------

  /** Between chunks curColumn is forgotten; a chunk starts with getCursorColumn(). */
  function Idle(c: Control): Control {
    if c.Initial? then Initial(0) else c
  }

  function Resume(c: Control, log: seq<Action>, scr: Screen): Control {
    if c.Initial? then Initial(Column(log, scr)) else c
  }

  /** The parser on a whole chunk. */
  function Chunk(c: Control, s: string, log: seq<Action>, scr: Screen): (Control, seq<Action>) {
    var (c1, log1) := Feed(Resume(c, log, scr), s, log, scr);
    (Idle(c1), log1)
  }

  /** Calls as they are made, text in pieces, and the actions that they come to. */
  function Merged(calls: seq<Action>): seq<Action> {
    if |calls| == 0 then []
    else
      var before := Merged(calls[..|calls| - 1]);
      match calls[|calls| - 1]
      case Text(s, end) => AppendText(before, s, end)
      case a => before + [a]
  }

  lemma MergedAppend(calls: seq<Action>, a: Action)
    ensures Merged(calls + [a]) == if a.Text? then AppendText(Merged(calls), a.s, a.end) else Merged(calls) + [a]
  {
    assert (calls + [a])[..|calls|] == calls;
  }

  // ---------- Where the pieces of text stand ----------

  /** The column after one printable character. */
  function NextColumn(ch: char, col: int, scr: Screen): int {
    var next := UpdateColumn(ch, col);
    if next <= scr.wrapWidth then next else UpdateColumn(ch, 0)
  }

  function RunColumn(s: string, col: int, scr: Screen): int {
    if |s| == 0 then col else NextColumn(s[|s| - 1], RunColumn(s[..|s| - 1], col, scr), scr)
  }

  lemma RunColumnSnoc(s: string, ch: char, col: int, scr: Screen)
    ensures RunColumn(s + [ch], col, scr) == NextColumn(ch, RunColumn(s, col, scr), scr)
  {
    assert (s + [ch])[..|s|] == s;
  }

  /** Nothing in it moves the cursor other than by text. */
  predicate Quiet(s: string) {
    forall i :: 0 <= i < |s| ==> s[i] !in {CR, LF, BS, TAB, FF}
  }

  lemma {:induction false} QuietColumn(s: string, col: int, scr: Screen)
    requires Quiet(s) && col >= 0
    ensures RunColumn(s, col, scr) >= 0
    decreases |s|
  {
    if |s| > 0 {
      assert s[|s| - 1] !in {CR, LF, BS, TAB, FF};
      QuietColumn(s[..|s| - 1], col, scr);
    }
  }

  /** From call number `from` on, every piece of text ends in the column to which it runs from the
      cursor's. */
  predicate Placed(calls: seq<Action>, from: nat, scr: Screen) {
    forall k :: from <= k < |calls| ==> PlacedAt(calls, k, scr)
  }

  predicate PlacedAt(calls: seq<Action>, k: nat, scr: Screen)
    requires k < |calls|
  {
    calls[k].Text? ==> calls[k].end == RunColumn(calls[k].s, Column(Merged(calls[..k]), scr), scr)
  }

  lemma PlacedMore(was: seq<Action>, calls: seq<Action>, from: nat, scr: Screen)
    requires Placed(was, from, scr) && was <= calls && from <= |was|
    requires Placed(calls, |was|, scr)
    ensures Placed(calls, from, scr)
  {
    hide Merged, Column, RunColumn;
    forall k | from <= k < |calls| ensures PlacedAt(calls, k, scr) {
      if k < |was| {
        assert calls[..k] == was[..k] && calls[k] == was[k];
        assert PlacedAt(was, k, scr);
      }
    }
  }

  // ---------- The parser ----------

  datatype SequenceState =
    INITIAL | SEEN_ESC | SEEN_ESC_LBRACKET | SEEN_ESC_LBRACKET_QUESTION | SEEN_ESC_RBRACKET | SEEN_ESC_BRACKET_TEXT

  class Parser {
    var controlSequenceState: SequenceState
    var prevParametersCount: nat
    var curNumParameter: int
    var prevNumParameters: array?<int>
    var curTextParameter: string
    var calls: seq<Action>
    const scr: Screen

    function Log(): seq<Action>
      reads this
    {
      Merged(calls)
    }

    predicate InCsi()
      reads this
    {
      controlSequenceState == SEEN_ESC_LBRACKET || controlSequenceState == SEEN_ESC_LBRACKET_QUESTION
    }

    /** The growable array of parameters exists only inside a control sequence, and
        holds all the parameters before the current one. */
    ghost predicate Valid()
      reads this
    {
      if prevNumParameters == null then InCsi() ==> prevParametersCount == 0
      else InCsi() && prevParametersCount <= prevNumParameters.Length && prevNumParameters.Length >= 4
    }

    /** The state, with the column that insertString has in hand. */
    ghost function Control(curColumn: int): Control
      reads this, prevNumParameters
      requires Valid()
    {
      match controlSequenceState
      case INITIAL => Initial(curColumn)
      case SEEN_ESC => SeenEsc
      case SEEN_ESC_LBRACKET => Csi(false, Params(), curNumParameter)
      case SEEN_ESC_LBRACKET_QUESTION => Csi(true, Params(), curNumParameter)
      case SEEN_ESC_RBRACKET => Osc(curNumParameter)
      case SEEN_ESC_BRACKET_TEXT => OscText(curNumParameter, curTextParameter)
    }

    ghost function Params(): seq<int>
      reads this, prevNumParameters
      requires Valid()
    {
      if prevNumParameters == null || !InCsi() then [] else prevNumParameters[..prevParametersCount]
    }

    constructor (scr: Screen)
      ensures Valid() && Control(0) == Initial(0) && calls == [] && this.scr == scr
    {
      controlSequenceState, prevParametersCount, curNumParameter := INITIAL, 0, -1;
      prevNumParameters, curTextParameter, calls := null, "", [];
      this.scr := scr;
    }

    method Call(a: Action)
      requires !a.Text?
      modifies this`calls
      ensures calls == old(calls) + [a] && Log() == old(Log()) + [a]
      ensures Placed(calls, |old(calls)|, scr)
    {
      MergedAppend(calls, a);
      calls := calls + [a];
    }

    /** insertSimpleOutput(str, beginIndex, endIndex, kind, endColumn); nothing happens for empty text. */
    method InsertSimpleOutput(str: string, beginIndex: nat, endIndex: nat, endColumn: int)
      requires beginIndex <= endIndex <= |str|
      modifies this`calls
      ensures Log() == AppendText(old(Log()), str[beginIndex..endIndex], endColumn)
      ensures old(calls) <= calls
      ensures beginIndex < endIndex ==> Cached(Log(), scr) == endColumn
      ensures endColumn == RunColumn(str[beginIndex..endIndex], Column(old(Log()), scr), scr) && endColumn >= 0 ==>
                Placed(calls, |old(calls)|, scr) && Column(Log(), scr) == endColumn
    {
      if beginIndex == endIndex { return; }
      MergedAppend(calls, Text(str[beginIndex..endIndex], endColumn));
      calls := calls + [Text(str[beginIndex..endIndex], endColumn)];
    }

    method GetCursorColumn() returns (col: int)
      ensures col == Column(Log(), scr)
    {
      col := Column(Log(), scr);
    }

    /** The case of the semicolon: the array is created, or doubled when it is full. */
    method PushParameter()
      requires Valid() && InCsi()
      modifies this`prevNumParameters, this`prevParametersCount, this`curNumParameter, prevNumParameters
      ensures Valid() && Params() == old(Params()) + [old(curNumParameter)] && curNumParameter == -1
      ensures prevNumParameters == old(prevNumParameters) || fresh(prevNumParameters)
    {
      if prevNumParameters == null {
        prevNumParameters := new int[4];
      } else if prevNumParameters.Length <= prevParametersCount {
        var was := prevNumParameters;
        var copy := new int[2 * prevParametersCount];
        for k := 0 to was.Length
          modifies copy
          invariant forall j :: 0 <= j < k ==> copy[j] == was[j]
        {
          copy[k] := was[k];
        }
        prevNumParameters := copy;
      }
      prevNumParameters[prevParametersCount] := curNumParameter;
      curNumParameter := -1;
      prevParametersCount := prevParametersCount + 1;
      assert prevNumParameters[..prevParametersCount]
          == prevNumParameters[..prevParametersCount - 1] + [old(curNumParameter)];
    }

    /** A character of a control sequence; true when it was the final one. */
    method InSequence(ch: char) returns (done: bool)
      requires Valid() && InCsi()
      modifies this, prevNumParameters
      ensures Valid() && (Control(Column(Log(), scr)), Log()) == Next(old(Control(0)), ch, old(Log()), scr)
      ensures done <==> controlSequenceState == INITIAL
      ensures old(calls) <= calls && Placed(calls, |old(calls)|, scr)
      ensures prevNumParameters == null || prevNumParameters == old(prevNumParameters) || fresh(prevNumParameters)
    {
      hide Merged, Column, Cached, RunColumn, Placed;
      NoCallsPlaced(calls, scr);
      done := false;
      if IsDigit(ch) {
        curNumParameter := AddDigit(curNumParameter, ch);
      } else if ch == ';' {
        PushParameter();
      } else if ch == '?' {
        controlSequenceState := SEEN_ESC_LBRACKET_QUESTION;
      } else {
        var params := if prevNumParameters == null then [] else prevNumParameters[..prevParametersCount];
        Call(ControlSequence(controlSequenceState == SEEN_ESC_LBRACKET_QUESTION, params, curNumParameter, ch));
        prevNumParameters := null;
        controlSequenceState := INITIAL;
        done := true;
      }
    }

    /** A character in any other state than INITIAL. */
    method InOther(ch: char) returns (done: bool)
      requires Valid() && !InCsi() && controlSequenceState != INITIAL
      modifies this
      ensures Valid() && (Control(Column(Log(), scr)), Log()) == Next(old(Control(0)), ch, old(Log()), scr)
      ensures done <==> controlSequenceState == INITIAL
      ensures old(calls) <= calls && Placed(calls, |old(calls)|, scr)
      ensures prevNumParameters == null || prevNumParameters == old(prevNumParameters)
    {
      hide Merged, Column, Cached, RunColumn, Placed;
      NoCallsPlaced(calls, scr);
      done := false;
      match controlSequenceState
      case SEEN_ESC =>
        if ch == '[' || ch == ']' {
          controlSequenceState := if ch == '[' then SEEN_ESC_LBRACKET else SEEN_ESC_RBRACKET;
          curNumParameter := -1;
          prevParametersCount := 0;
        } else {
          Call(if ch == '7' then SaveCursor else if ch == '8' then RestoreCursor
               else if ch == 'M' then ReverseIndex else Ignored);
          controlSequenceState := INITIAL;
          done := true;
        }
      case SEEN_ESC_RBRACKET =>
        if IsDigit(ch) {
          curNumParameter := AddDigit(curNumParameter, ch);
        } else if ch == ';' {
          controlSequenceState := SEEN_ESC_BRACKET_TEXT;
          curTextParameter := "";
        } else {
          Call(Ignored);
          prevNumParameters := null;
          controlSequenceState := INITIAL;
          done := true;
        }
      case SEEN_ESC_BRACKET_TEXT =>
        if ch == BEL || ch == NUL {
          Call(OperatingSystem(curNumParameter, curTextParameter));
          controlSequenceState := INITIAL;
          prevNumParameters := null;
          done := true;
        } else {
          curTextParameter := curTextParameter + [ch];
        }
    }

    /** curColumn is where the text scanned since prevEnd ends. */
    ghost predicate InHand(str: string, prevEnd: nat, i: nat, curColumn: int)
      reads this
      requires prevEnd <= i <= |str|
    {
      curColumn >= 0 && curColumn == RunColumn(str[prevEnd..i], Column(Log(), scr), scr)
    }

    predicate IsC0(ch: char) {
      ch == CR || ch == LF || ch == BS || ch == BEL || ch == ESC || ch == TAB
    }

    /** The C0 controls of the INITIAL state; the text before them is inserted first. */
    method InInitial(str: string, prevEnd: nat, i: nat, curColumn: int) returns (next: nat, column: int)
      requires Valid() && controlSequenceState == INITIAL && prevEnd <= i < |str| && IsC0(str[i])
      modifies this`controlSequenceState, this`calls
      ensures Valid() && i < next <= |str| && old(calls) <= calls
      ensures Feed(Control(column), str[next..], Log(), scr)
           == Feed(Initial(curColumn), str[i..], AppendText(old(Log()), str[prevEnd..i], curColumn), scr)
      ensures Quiet(str) && old(InHand(str, prevEnd, i, curColumn)) ==>
                Placed(calls, |old(calls)|, scr) && InHand(str, next, next, column)
    {
      hide AppendText, NextText, Merged, Cached, Column, RunColumn, Placed;
      var ch := str[i];
      InsertSimpleOutput(str, prevEnd, i, curColumn);
      ghost var mid := calls;
      ghost var rest := str[i..];
      assert rest[0] == ch && rest[1..] == str[i + 1..];
      next, column := i + 1, curColumn;
      if ch == ESC {
        controlSequenceState := SEEN_ESC;
      } else if ch == CR && i + 1 < |str| && str[i + 1] == LF && !scr.bottom(Log()) {
        assert rest[2..] == str[i + 2..];
        Call(LineStart(true));
        next, column := i + 2, 0;
      } else if ch == CR {
        Call(LineStart(false));
        column := 0;
      } else if ch == BEL {
        BellRests(Log(), scr);
        Call(Bell);
      } else {
        column := Move(ch);
      }
      if Quiet(str) && old(InHand(str, prevEnd, i, curColumn)) {
        assert str[i] !in {CR, LF, BS, TAB, FF};
        NoCallsPlaced(mid, scr);
        PlacedMore(mid, calls, |old(calls)|, scr);
        NowhereYet(str, next, Column(Log(), scr), scr);
      }
    }

    /** LF, BS and TAB: curColumn is then what the cache holds. */
    method Move(ch: char) returns (column: int)
      requires Valid() && controlSequenceState == INITIAL && ch in {LF, BS, TAB}
      modifies this`calls
      ensures Valid() && controlSequenceState == INITIAL && old(calls) <= calls && Placed(calls, |old(calls)|, scr)
      ensures forall col :: (Control(column), Log()) == Next(Initial(col), ch, old(Log()), scr)
    {
      if ch == LF {
        Call(LineFeed);
      } else if ch == BS {
        Call(Backspace);
      } else {
        var nextStop := NextTab(Column(Log(), scr));
        Call(Tab(nextStop - Column(Log(), scr)));
      }
      column := Cached(Log(), scr);
    }

    /** A character outside the INITIAL state. */
    method InSequenceOrOther(ch: char) returns (done: bool)
      requires Valid() && controlSequenceState != INITIAL
      modifies this, prevNumParameters
      ensures Valid() && (Control(Column(Log(), scr)), Log()) == Next(old(Control(0)), ch, old(Log()), scr)
      ensures done <==> controlSequenceState == INITIAL
      ensures old(calls) <= calls && Placed(calls, |old(calls)|, scr)
      ensures prevNumParameters == null || prevNumParameters == old(prevNumParameters) || fresh(prevNumParameters)
    {
      if InCsi() {
        done := InSequence(ch);
      } else {
        done := InOther(ch);
      }
    }

    /** The default case: the column after the character, and a break before it if it does not fit. */
    method InText(str: string, prevEnd: nat, i: nat, curColumn: int) returns (start: nat, column: int)
      requires Valid() && controlSequenceState == INITIAL && prevEnd <= i < |str|
      modifies this`calls
      ensures Valid() && prevEnd <= start <= i && old(calls) <= calls
      ensures (column, AppendText(Log(), str[start..i + 1], column))
           == NextText(curColumn, str[i], AppendText(old(Log()), str[prevEnd..i], curColumn), scr)
      ensures old(InHand(str, prevEnd, i, curColumn)) && str[i] !in {CR, LF, FF} ==>
                Placed(calls, |old(calls)|, scr) && InHand(str, start, i + 1, column)
    {
      hide Merged, RunColumn, Placed, Column;
      var ch := str[i];
      start := prevEnd;
      var nextColumn := UpdateColumn(ch, curColumn);
      if nextColumn > scr.wrapWidth {
        if scr.wraps {
          InsertSimpleOutput(str, prevEnd, i, curColumn);
          ghost var mid := calls;
          BreakIsZero(Log(), scr);
          Call(WrapBreak);
          start := i;
          assert str[i..i + 1] == [ch];
          if old(InHand(str, prevEnd, i, curColumn)) { PlacedMore(mid, calls, |old(calls)|, scr); }
        } else {
          TextStep(Log(), str, prevEnd, i, curColumn, UpdateColumn(ch, 0));
        }
        nextColumn := UpdateColumn(ch, 0);
      } else {
        TextStep(Log(), str, prevEnd, i, curColumn, nextColumn);
      }
      column := nextColumn;
      ghost var p, from := Column(Log(), scr), start;
      assert str[from..i + 1] == str[from..i] + [ch];
      RunColumnSnoc(str[from..i], ch, p, scr);
      NowhereYet(str, i, p, scr);
      NoCallsPlaced(calls, scr);
    }

    /** The log as it will be when the scanned text str[prevEnd..i] has been inserted. */
    ghost function Flushed(str: string, prevEnd: nat, i: nat, curColumn: int): seq<Action>
      reads this
      requires prevEnd <= i <= |str|
    {
      if controlSequenceState == INITIAL then AppendText(Log(), str[prevEnd..i], curColumn) else Log()
    }

    /** insertString: the characters str[prevEnd..i] are text that has been scanned and not inserted yet. */
    method InsertString(str: string)
      requires Valid()
      modifies this, prevNumParameters
      ensures Valid() && (Control(0), Log()) == Chunk(old(Control(0)), str, old(Log()), scr)
      ensures old(calls) <= calls
      ensures Quiet(str) ==> Placed(calls, |old(calls)|, scr)
      ensures prevNumParameters == null || prevNumParameters == old(prevNumParameters) || fresh(prevNumParameters)
    {
      hide Next, NextText, AppendText, AddDigit, Merged, Column, RunColumn, Placed;
      var curColumn := GetCursorColumn();
      NothingToAppend(Log());
      NoCallsPlaced(calls, scr);
      var prevEnd, i := 0, 0;
      NowhereYet(str, i, curColumn, scr);
      assert str[0..] == str;
      while i < |str|
        invariant 0 <= prevEnd <= i <= |str| && Valid() && old(calls) <= calls
        invariant prevNumParameters == null || prevNumParameters == old(prevNumParameters) || fresh(prevNumParameters)
        invariant Feed(Control(curColumn), str[i..], Flushed(str, prevEnd, i, curColumn), scr)
               == old(Feed(Control(Column(Log(), scr)), str, Log(), scr))
        invariant Quiet(str) ==> Placed(calls, |old(calls)|, scr)
        invariant Quiet(str) && controlSequenceState == INITIAL ==> InHand(str, prevEnd, i, curColumn)
      {
        ghost var before := calls;
        ghost var rest, was := str[i..], Flushed(str, prevEnd, i, curColumn);
        assert rest[0] == str[i] && rest[1..] == str[i + 1..];
        if controlSequenceState != INITIAL {
          var done := InSequenceOrOther(str[i]);
          i := i + 1;
          if done {
            prevEnd := i;
            curColumn := GetCursorColumn();
            NothingToAppend(Log());
            NowhereYet(str, i, curColumn, scr);
          }
        } else if IsC0(str[i]) {
          i, curColumn := InInitial(str, prevEnd, i, curColumn);
          prevEnd := i;
          NothingToAppend(Log());
        } else {
          TextIsNext(curColumn, str[i], was);
          prevEnd, curColumn := InText(str, prevEnd, i, curColumn);
          i := i + 1;
        }
        if Quiet(str) { PlacedMore(before, calls, |old(calls)|, scr); }
      }
      assert str[i..] == [];
      if controlSequenceState == INITIAL {
        ghost var before := calls;
        InsertSimpleOutput(str, prevEnd, i, curColumn);
        if Quiet(str) { PlacedMore(before, calls, |old(calls)|, scr); }
      }
    }

    lemma TextIsNext(col: int, ch: char, log: seq<Action>)
      requires !IsC0(ch)
      ensures Next(Initial(col), ch, log, scr)
           == (Initial(NextText(col, ch, log, scr).0), NextText(col, ch, log, scr).1)
    {
    }
  }

  /** Before any text is scanned. */
  lemma NowhereYet(s: string, k: nat, col: int, scr: Screen)
    requires k <= |s|
    ensures RunColumn(s[k..k], col, scr) == col
  {
  }

  lemma NoCallsPlaced(calls: seq<Action>, scr: Screen)
    ensures Placed(calls, |calls|, scr)
  {
  }

  lemma BellRests(log: seq<Action>, scr: Screen)
    ensures Column(log + [Bell], scr) == Column(log, scr)
  {
    assert (log + [Bell])[..|log|] == log;
  }

  lemma BreakIsZero(log: seq<Action>, scr: Screen)
    ensures Column(log + [WrapBreak], scr) == 0
  {
  }

  lemma NothingToAppend(log: seq<Action>)
    ensures forall s: string, k: nat, end: int :: k <= |s| ==> AppendText(log, s[k..k], end) == log
  {
  }

  /** Scanning one more text character. */
  lemma TextStep(log: seq<Action>, str: string, prevEnd: nat, i: nat, col: int, end: int)
    requires prevEnd <= i < |str|
    ensures AppendText(AppendText(log, str[prevEnd..i], col), [str[i]], end) == AppendText(log, str[prevEnd..i + 1],
        end)
  {
    AppendTwice(log, str[prevEnd..i], col, [str[i]], end);
    assert str[prevEnd..i + 1] == str[prevEnd..i] + [str[i]];
  }

  lemma AppendTwice(log: seq<Action>, s: string, mid: int, t: string, end: int)
    requires t != ""
    ensures AppendText(AppendText(log, s, mid), t, end) == AppendText(log, s + t, end)
  {
    if s == [] {
      assert s + t == t;
    } else {
      var one := AppendText(log, s, mid);
      if |log| > 0 && log[|log| - 1].Text? {
        assert one[..|one| - 1] == log[..|log| - 1];
        assert (log[|log| - 1].s + s) + t == log[|log| - 1].s + (s + t);
      } else {
        assert one[..|one| - 1] == log;
      }
    }
  }
}
