/** Control sequences as section 5.4 of ECMA-48 writes them, and what the parser reads from them. */
module ControlPrinter {
  import opened Wire
  import Numerals
  import opened EscapeParser
  import opened ParserChunks

  function DigitOf(d: nat): (ch: char)
    requires d < 10
    ensures IsDigit(ch) && ch as int - '0' as int == d
  {
    Numerals.DigitChar(d)
  }

  function Digits(n: nat): (s: string)
    ensures |s| > 0 && forall i :: 0 <= i < |s| ==> IsDigit(s[i])
  {
    Numerals.NumeralIsRead(n, 10);
    Numerals.Numeral(n, 10)
  }

  lemma DigitsAre(n: nat)
    ensures Digits(n) == if n < 10 then [DigitOf(n)] else Digits(n / 10) + [DigitOf(n % 10)]
  {
  }

  /** The parameters of a control sequence by section 5.4 of ECMA-48: decimal numbers,
      any of which may be omitted, separated by semicolons. */
  function Joined(ps: seq<Option<nat>>): string {
    if |ps| == 0 then ""
    else
      var first := if ps[0].None? then "" else Digits(ps[0].value);
      if |ps| == 1 then first else first + ([';'] + Joined(ps[1..]))
  }

  function Printed(question: bool, ps: seq<Option<nat>>, last: char): string {
    [ESC, '['] + ((if question then "?" else "") + (Joined(ps) + [last]))
  }

  function ValueOf(p: Option<nat>): int {
    if p.None? then -1 else p.value
  }

  function Values(ps: seq<Option<nat>>): (vs: seq<int>)
    ensures |vs| == |ps| && forall i :: 0 <= i < |vs| ==> vs[i] == ValueOf(ps[i])
  {
    seq(|ps|, i requires 0 <= i < |ps| => ValueOf(ps[i]))
  }

  /** The number that the digits of n leave in curNumParameter. */
  function ReadBack(n: nat): int {
    AddDigit(if n < 10 then -1 else ReadBack(n / 10), DigitOf(n % 10))
  }

  function ReadBackOne(p: Option<nat>): int {
    if p.None? then -1 else ReadBack(p.value)
  }

  function ReadBackAll(ps: seq<Option<nat>>): (vs: seq<int>)
    ensures |vs| == |ps| && forall i :: 0 <= i < |vs| ==> vs[i] == ReadBackOne(ps[i])
  {
    seq(|ps|, i requires 0 <= i < |ps| => ReadBackOne(ps[i]))
  }

  /** The action for a control sequence with the parameters vs. */
  function Sequence(q: bool, vs: seq<int>, last: char): Action
    requires |vs| > 0
  {
    ControlSequence(q, vs[..|vs| - 1], vs[|vs| - 1], last)
  }

  /** Numbers survive exactly when they fit a Java int. */
  lemma {:induction false} ReadBackIsExact(n: nat)
    ensures ReadBack(n) == n <==> n < 0x8000_0000
    decreases n
  {
    if n >= 10 {
      ReadBackIsExact(n / 10);
    }
  }

  lemma FeedOneDigit(q: bool, ps: seq<int>, num: int, d: char, log: seq<Action>, scr: Screen)
    requires IsDigit(d)
    ensures Feed(Csi(q, ps, num), [d], log, scr) == (Csi(q, ps, AddDigit(num, d)), log)
  {
    assert [d][1..] == "";
  }

  lemma FeedSemicolon(q: bool, ps: seq<int>, num: int, s: string, log: seq<Action>, scr: Screen)
    ensures Feed(Csi(q, ps, num), [';'] + s, log, scr) == Feed(Csi(q, ps + [num], -1), s, log, scr)
  {
    assert ([';'] + s)[1..] == s;
  }

  lemma FeedFinal(q: bool, ps: seq<int>, num: int, last: char, log: seq<Action>, scr: Screen)
    requires !IsDigit(last) && last != ';' && last != '?'
    ensures Feed(Csi(q, ps, num), [last], log, scr) == Back(log + [ControlSequence(q, ps, num, last)], scr)
  {
    assert [last][1..] == "";
  }

  /** The introducer, with or without the private marker. */
  lemma FeedIntroducer(q: bool, col: int, s: string, log: seq<Action>, scr: Screen)
    ensures Feed(Initial(col), [ESC, '['] + ((if q then "?" else "") + s), log, scr) == Feed(Csi(q, [], -1), s, log,
        scr)
  {
    hide Feed, Next;
    var tail := (if q then "?" else "") + s;
    FeedCsi(col, tail, log, scr);
    if q {
      FeedQuestion(s, log, scr);
    } else {
      assert tail == s;
    }
  }

  lemma FeedCsi(col: int, tail: string, log: seq<Action>, scr: Screen)
    ensures Feed(Initial(col), [ESC, '['] + tail, log, scr) == Feed(Csi(false, [], -1), tail, log, scr)
  {
    hide Feed, Column, NextText, Back;
    FeedFirst(Initial(col), [ESC, '['] + tail, log, scr);
    assert ([ESC, '['] + tail)[1..] == ['['] + tail;
    FeedFirst(SeenEsc, ['['] + tail, log, scr);
    assert (['['] + tail)[1..] == tail;
  }

  lemma FeedQuestion(s: string, log: seq<Action>, scr: Screen)
    ensures Feed(Csi(false, [], -1), "?" + s, log, scr) == Feed(Csi(true, [], -1), s, log, scr)
  {
    hide Feed;
    FeedFirst(Csi(false, [], -1), "?" + s, log, scr);
    assert ("?" + s)[1..] == s;
  }

  lemma FeedFirst(c: Control, s: string, log: seq<Action>, scr: Screen)
    requires |s| > 0 && s[0] != CR
    ensures Feed(c, s, log, scr) == Feed(Next(c, s[0], log, scr).0, s[1..], Next(c, s[0], log, scr).1, scr)
  {
    hide Next;
  }

  lemma {:induction false} FeedDigits(q: bool, ps: seq<int>, n: nat, log: seq<Action>, scr: Screen)
    ensures Feed(Csi(q, ps, -1), Digits(n), log, scr) == (Csi(q, ps, ReadBack(n)), log)
    decreases n
  {
    DigitsAre(n);
    if n < 10 {
      assert Digits(n)[1..] == "";
    } else {
      var front, d := Digits(n / 10), DigitOf(n % 10);
      FeedDigits(q, ps, n / 10, log, scr);
      assert !IsDigit(CR);
      FeedSplit(Csi(q, ps, -1), front, [d], log, scr);
      FeedOneDigit(q, ps, ReadBack(n / 10), d, log, scr);
      assert Digits(n) == front + [d];
    }
  }

  /** One parameter, in front of anything. */
  lemma FeedParameter(q: bool, ps: seq<int>, p: Option<nat>, rest: string, log: seq<Action>, scr: Screen)
    ensures Feed(Csi(q, ps, -1), (if p.None? then "" else Digits(p.value)) + rest, log, scr)
         == Feed(Csi(q, ps, ReadBackOne(p)), rest, log, scr)
  {
    if p.None? {
      assert "" + rest == rest;
    } else {
      FeedDigits(q, ps, p.value, log, scr);
      assert !IsDigit(CR);
      FeedSplit(Csi(q, ps, -1), Digits(p.value), rest, log, scr);
    }
  }

  lemma {:induction false} FeedParameters(q: bool, before: seq<int>, ps: seq<Option<nat>>, last: char,
                                          log: seq<Action>, scr: Screen)
    requires |ps| > 0 && !IsDigit(last) && last != ';' && last != '?'
    ensures Feed(Csi(q, before, -1), Joined(ps) + [last], log, scr)
         == Back(log + [Sequence(q, before + ReadBackAll(ps), last)], scr)
    decreases |ps|
  {
    hide Feed, Digits, ReadBackOne, Joined, Column;
    var num := ReadBackOne(ps[0]);
    if |ps| == 1 {
      JoinedOne(ps, last);
      FeedParameter(q, before, ps[0], [last], log, scr);
      FeedFinal(q, before, num, last, log, scr);
      assert before + ReadBackAll(ps) == before + [num];
    } else {
      var more := Joined(ps[1..]) + [last];
      JoinedMore(ps, last);
      FeedParameter(q, before, ps[0], [';'] + more, log, scr);
      FeedSemicolon(q, before, num, more, log, scr);
      FeedParameters(q, before + [num], ps[1..], last, log, scr);
      assert before + ReadBackAll(ps) == before + [num] + ReadBackAll(ps[1..]);
    }
  }

  lemma JoinedOne(ps: seq<Option<nat>>, last: char)
    requires |ps| == 1
    ensures Joined(ps) + [last] == (if ps[0].None? then "" else Digits(ps[0].value)) + [last]
  {
  }

  lemma JoinedMore(ps: seq<Option<nat>>, last: char)
    requires |ps| > 1
    ensures Joined(ps) + [last]
         == (if ps[0].None? then "" else Digits(ps[0].value)) + ([';'] + (Joined(ps[1..]) + [last]))
  {
    hide Digits;
    var first, more := if ps[0].None? then "" else Digits(ps[0].value), Joined(ps[1..]);
    assert Joined(ps) == first + ([';'] + more);
    assert (first + ([';'] + more)) + [last] == first + ([';'] + (more + [last]));
  }

  lemma PrintedIsRead(q: bool, col: int, ps: seq<Option<nat>>, last: char, log: seq<Action>, scr: Screen)
    requires |ps| > 0 && !IsDigit(last) && last != ';' && last != '?'
    ensures Feed(Initial(col), Printed(q, ps, last), log, scr) == Back(log + [Sequence(q, ReadBackAll(ps), last)], scr)
  {
    hide Feed, Joined, ReadBackAll, Sequence, Column;
    FeedIntroducer(q, col, Joined(ps) + [last], log, scr);
    FeedParameters(q, [], ps, last, log, scr);
    assert [] + ReadBackAll(ps) == ReadBackAll(ps);
  }

  lemma AllExact(ps: seq<Option<nat>>)
    ensures ReadBackAll(ps) == Values(ps) <==> forall i :: 0 <= i < |ps| && ps[i].Some? ==> ps[i].value < 0x8000_0000
  {
    hide ReadBack;
    var vs, rs := Values(ps), ReadBackAll(ps);
    forall i | 0 <= i < |ps|
      ensures vs[i] == rs[i] <==> (ps[i].Some? ==> ps[i].value < 0x8000_0000)
    {
      if ps[i].Some? {
        ReadBackIsExact(ps[i].value);
      }
    }
  }

  lemma SequenceInjective(q: bool, vs: seq<int>, rs: seq<int>, last: char)
    requires |vs| == |rs| > 0
    ensures Sequence(q, vs, last) == Sequence(q, rs, last) <==> vs == rs
  {
    if Sequence(q, vs, last) == Sequence(q, rs, last) {
      assert vs == vs[..|vs| - 1] + [vs[|vs| - 1]];
      assert rs == rs[..|rs| - 1] + [rs[|rs| - 1]];
    }
  }

  /** Parsing what was printed: from the INITIAL state the parser reaches
      handleControlSequence once, with the private marker, the final character and
      the parameters that were printed, if and only if every number fits a Java int. */
  lemma PrintThenParse(q: bool, col: int, ps: seq<Option<nat>>, last: char, log: seq<Action>, scr: Screen)
    requires |ps| > 0 && !IsDigit(last) && last != ';' && last != '?'
    ensures Feed(Initial(col), Printed(q, ps, last), log, scr) == Back(log + [Sequence(q, Values(ps), last)], scr)
       <==> forall i :: 0 <= i < |ps| && ps[i].Some? ==> ps[i].value < 0x8000_0000
  {
    hide Feed, Printed, ReadBackAll, Values, Sequence, Column;
    PrintedIsRead(q, col, ps, last, log, scr);
    AllExact(ps);
    SequenceInjective(q, Values(ps), ReadBackAll(ps), last);
    assert (log + [Sequence(q, ReadBackAll(ps), last)])[|log|] == Sequence(q, ReadBackAll(ps), last);
    assert (log + [Sequence(q, Values(ps), last)])[|log|] == Sequence(q, Values(ps), last);
  }

  // ---------- Controls, escapes and operating system controls ----------

  /** Each control by itself makes its own call; a tab moves to the next multiple of eight. */
  lemma ControlsAreCalls(col: int, log: seq<Action>, scr: Screen)
    ensures Feed(Initial(col), [BEL], log, scr) == (Initial(col), log + [Bell])
    ensures Feed(Initial(col), [LF], log, scr).1 == log + [LineFeed]
    ensures Feed(Initial(col), [BS], log, scr).1 == log + [Backspace]
    ensures Feed(Initial(col), [CR], log, scr) == (Initial(0), log + [LineStart(false)])
    ensures Feed(Initial(col), [CR, LF], log, scr).1 ==
            if scr.bottom(log) then log + [LineStart(false), LineFeed] else log + [LineStart(true)]
    ensures exists steps :: 1 <= steps <= 8 && (Column(log, scr) + steps) % 8 == 0
                            && Feed(Initial(col), [TAB], log, scr).1 == log + [Tab(steps)]
  {
    hide Column, Cached;
    assert forall ch: char :: [ch][1..] == "";
    assert [CR, LF][2..] == "" && [CR, LF][1..] == [LF];
    if scr.bottom(log) {
      assert Feed(Initial(col), [CR, LF], log, scr) == Feed(Initial(0), [LF], log + [LineStart(false)], scr);
      assert Feed(Initial(0), [LF], log + [LineStart(false)], scr).1 == (log + [LineStart(false)]) + [LineFeed];
    }
    assert (log + [LineStart(false)]) + [LineFeed] == log + [LineStart(false), LineFeed];
    var tab := Tab(NextTab(Column(log, scr)) - Column(log, scr));
    assert Feed(Initial(col), [TAB], log, scr) == (Initial(Cached(log + [tab], scr)), log + [tab]);
  }

  /** The escape sequences of two characters. */
  lemma EscapesAreCalls(col: int, ch: char, log: seq<Action>, scr: Screen)
    requires ch != '[' && ch != ']'
    ensures Feed(Initial(col), [ESC, ch], log, scr)
         == Back(log + [match ch case '7' => SaveCursor case '8' => RestoreCursor case 'M' => ReverseIndex
                        case _ => Ignored], scr)
  {
    hide Column, Feed;
    FeedFirst(Initial(col), [ESC, ch], log, scr);
    assert [ESC, ch][1..] == [ch] && [ch][1..] == "";
    FeedEscape(ch, log, scr);
  }

  lemma FeedEscape(ch: char, log: seq<Action>, scr: Screen)
    requires ch != '[' && ch != ']'
    ensures Feed(SeenEsc, [ch], log, scr) == Next(SeenEsc, ch, log, scr)
  {
    hide Next;
    assert [ch][1..] == "";
    var (c1, log1) := Next(SeenEsc, ch, log, scr);
    FeedNone(c1, log1, scr);
  }

  /** An operating system control: a number, a text, and BEL. */
  function OscPrinted(n: nat, text: string): string {
    [ESC, ']'] + (Digits(n) + ([';'] + (text + [BEL])))
  }

  lemma {:induction false} FeedOscDigits(n: nat, log: seq<Action>, scr: Screen)
    ensures Feed(Osc(-1), Digits(n), log, scr) == (Osc(ReadBack(n)), log)
    decreases n
  {
    DigitsAre(n);
    if n < 10 {
      assert Digits(n)[1..] == "";
    } else {
      var front, d := Digits(n / 10), DigitOf(n % 10);
      FeedOscDigits(n / 10, log, scr);
      assert !IsDigit(CR);
      FeedSplit(Osc(-1), front, [d], log, scr);
      FeedOscDigit(ReadBack(n / 10), d, log, scr);
      assert Digits(n) == front + [d];
    }
  }

  lemma FeedOscDigit(num: int, d: char, log: seq<Action>, scr: Screen)
    requires IsDigit(d)
    ensures Feed(Osc(num), [d], log, scr) == (Osc(AddDigit(num, d)), log)
  {
    assert [d][1..] == "";
  }

  /** The text of such a control up to its end. */
  function UpToEnd(text: string): (k: nat)
    ensures k <= |text| && BEL !in text[..k] && NUL !in text[..k]
    ensures k < |text| ==> text[k] == BEL || text[k] == NUL
  {
    if |text| == 0 || text[0] == BEL || text[0] == NUL then 0 else 1 + UpToEnd(text[1..])
  }

  lemma {:induction false} FeedOscText(num: int, sofar: string, text: string, rest: string, log: seq<Action>,
                                       scr: Screen)
    requires BEL !in text && NUL !in text
    ensures Feed(OscText(num, sofar), text + rest, log, scr) == Feed(OscText(num, sofar + text), rest, log, scr)
    decreases |text|
  {
    if |text| == 0 {
      assert text + rest == rest && sofar + text == sofar;
    } else {
      var all := text + rest;
      assert all[0] == text[0] && all[1..] == text[1..] + rest;
      FeedOscText(num, sofar + [text[0]], text[1..], rest, log, scr);
      assert sofar + [text[0]] + text[1..] == sofar + text;
      assert text[0] in text;
      assert Feed(OscText(num, sofar), all, log, scr) == Feed(OscText(num, sofar + [text[0]]), all[1..], log, scr);
    }
  }

  /** What is read of it: the rest of a text with an end in it is parsed as something else. */
  lemma OscIsRead(col: int, n: nat, text: string, log: seq<Action>, scr: Screen)
    ensures var k, all := UpToEnd(text), text + [BEL];
            var log1 := log + [OperatingSystem(ReadBack(n), text[..k])];
            Feed(Initial(col), OscPrinted(n, text), log, scr) ==
            Feed(Initial(Column(log1, scr)), all[k + 1..], log1, scr)
  {
    hide Column, Digits, ReadBack, Feed, Next;
    var k, all := UpToEnd(text), text + [BEL];
    OscIntroduced(col, Digits(n) + ([';'] + all), log, scr);
    assert !IsDigit(CR);
    FeedOscDigits(n, log, scr);
    FeedSplit(Osc(-1), Digits(n), [';'] + all, log, scr);
    OscStarts(ReadBack(n), all, log, scr);
    var rest := all[k..];
    assert all == text[..k] + rest && "" + text[..k] == text[..k];
    FeedOscText(ReadBack(n), "", text[..k], rest, log, scr);
    assert rest[0] in {BEL, NUL} && rest[1..] == all[k + 1..];
    OscEnds(ReadBack(n), text[..k], rest, log, scr);
  }

  lemma OscIntroduced(col: int, tail: string, log: seq<Action>, scr: Screen)
    ensures Feed(Initial(col), [ESC, ']'] + tail, log, scr) == Feed(Osc(-1), tail, log, scr)
  {
    hide Feed, Column, NextText, Back;
    var s := [ESC, ']'] + tail;
    assert s[1..] == [']'] + tail && ([']'] + tail)[1..] == tail;
    FeedFirst(Initial(col), s, log, scr);
    FeedFirst(SeenEsc, s[1..], log, scr);
  }

  lemma OscStarts(num: int, all: string, log: seq<Action>, scr: Screen)
    ensures Feed(Osc(num), [';'] + all, log, scr) == Feed(OscText(num, ""), all, log, scr)
  {
    hide Feed;
    assert ([';'] + all)[1..] == all;
    FeedFirst(Osc(num), [';'] + all, log, scr);
  }

  lemma OscEnds(num: int, text: string, rest: string, log: seq<Action>, scr: Screen)
    requires |rest| > 0 && rest[0] in {BEL, NUL}
    ensures var log1 := log + [OperatingSystem(num, text)];
            Feed(OscText(num, text), rest, log, scr) == Feed(Initial(Column(log1, scr)), rest[1..], log1, scr)
  {
    hide Feed, Column;
    FeedFirst(OscText(num, text), rest, log, scr);
  }

  /** An operating system control reaches its handler with its number and its whole text, and nothing comes
      after it, if and only if the number fits a Java int and the text has no BEL and no NUL. */
  lemma OscThenParse(col: int, n: nat, text: string, log: seq<Action>, scr: Screen)
    ensures Feed(Initial(col), OscPrinted(n, text), log, scr) == Back(log + [OperatingSystem(n, text)], scr)
       <==> n < 0x8000_0000 && BEL !in text && NUL !in text
  {
    hide Feed, Column, OscPrinted, ReadBack;
    OscIsRead(col, n, text, log, scr);
    ReadBackIsExact(n);
    var k, all := UpToEnd(text), text + [BEL];
    var was, log1 := log + [OperatingSystem(n, text)], log + [OperatingSystem(ReadBack(n), text[..k])];
    LogGrows(Initial(Column(log1, scr)), all[k + 1..], log1, log1, scr);
    if k == |text| {
      assert text[..k] == text && all[k + 1..] == "";
      FeedNone(Initial(Column(log1, scr)), log1, scr);
    } else {
      assert text[k] in text;
    }
    if Feed(Initial(col), OscPrinted(n, text), log, scr) == Back(was, scr) {
      assert was[|log|] == log1[|log|];
    }
  }

  lemma FeedNone(c: Control, log: seq<Action>, scr: Screen)
    ensures Feed(c, "", log, scr) == (c, log)
  {
  }
}
