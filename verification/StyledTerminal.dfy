/** The terminal as far as it prints text, changes styles and deletes: its state, what each output of
    the parser does to it, and the methods that do it. */
module StyledTerminal {
  import opened Wire
  import opened StyleAttribute
  import opened Sgr
  import opened Dom
  import opened StyledOutput
  import opened Erase

  const ERROR: Attrs := Attrs(SPAN, "", "", "error")

  /** What marks the break of an overlong line. */
  const WRAP_STRING: string := [0x2936 as char, 0x200B as char, '\n']

  /** wraps is wrapOnLongLines. */
  datatype State = State(styles: seq<string>, pending: bool, insert: bool, wraps: bool, doc: Place)

  /** What the parser asks for; the columns of the cursor and of a text are those that it knows. */
  datatype Output =
    | Sgr(vals: seq<int>)
    | Print(text: string, error: bool, column: nat, width: int)
    | WrapBreak
    | Delete(count: int, column: nat)
    | InsertMode(on: bool)

  /** What insert mode with wrapping does to make room: the cursor goes to the column that will be at the
      edge, deletes the rest of the line, and comes back. Moving the cursor is not part of this model. */
  type Trimming = (Place, nat, int) -> Place

  /** The document after inserting text at the cursor. */
  function Inserted(p: Place, text: string, error: bool): Place {
    if error then With(p, p.before + [Elem(ERROR, [Text(text)])], p.after)
    else if |p.before| > 0 && p.before[|p.before| - 1].Text? then
      With(p, p.before[..|p.before| - 1] + [Text(p.before[|p.before| - 1].data + text)], p.after)
    else With(p, p.before + [Text(text)], p.after)
  }

  function Prepared(s: State): Place {
    if s.pending then Adjusted(s.doc, s.styles) else s.doc
  }

  /** In replace mode the text takes the place of what stands in its columns. */
  function Cleared(s: State, p: Place, column: nat, width: int, trim: Trimming): Place {
    if !s.insert then ErasedFrom(p, Columns(width), column, 0)
    else if s.wraps then trim(p, column, width)
    else p
  }

  function Step(s: State, e: Output, trim: Trimming): State {
    match e
    case Sgr(vals) => s.(styles := SelectAll(s.styles, vals, FOREGROUND, BACKGROUND_COLOR), pending := true)
    case Print(text, error, column, width) =>
      if text == "" then s
      else s.(pending := false, doc := Inserted(Cleared(s, Prepared(s), column, width, trim), text, error))
    case WrapBreak => s.(doc := Inserted(s.doc, WRAP_STRING, false))
    case Delete(count, column) => s.(doc := ErasedFrom(s.doc, Columns(count), column, 0))
    case InsertMode(on) => s.(insert := on)
  }

  function Run(s: State, es: seq<Output>, trim: Trimming): State {
    if |es| == 0 then s else Step(Run(s, es[..|es| - 1], trim), es[|es| - 1], trim)
  }

  // ---------- One style attribute against the wanted styles ----------

  predicate Matched(props: seq<string>, wanted: seq<string>, k: int) {
    0 <= k <= |props| && k <= |wanted| && props[..k] == wanted[..k]
  }

  /** One more property matches, or the attribute does not match at all. */
  lemma MatchOne(props: seq<string>, wanted: seq<string>, k: nat, s: string, rest: seq<string>)
    requires Matched(props, wanted, k) && props[k..] == [s] + rest
    ensures k < |wanted| && s == wanted[k] ==> Matched(props, wanted, k + 1) && props[k + 1..] == rest
    ensures !(k < |wanted| && s == wanted[k]) ==> !(props <= wanted)
  {
    assert props[k] == props[k..][0] == s;
    assert props[k + 1..] == props[k..][1..] == rest;
    if props <= wanted {
      assert wanted[k] == wanted[..|props|][k] == props[k];
    }
  }

  /** The list half-way through pushSimpleStyle: the first n styles are looked at. */
  function Filtered(styles: seq<string>, n: nat, name: string): seq<string>
    requires n <= |styles|
  {
    Without(styles[..n], name) + styles[n..]
  }

  lemma FilterOne(styles: seq<string>, n: nat, name: string)
    requires n < |styles|
    ensures Filtered(styles, n, name)[|Without(styles[..n], name)|] == styles[n]
    ensures name <= styles[n] ==>
      && |Without(styles[..n + 1], name)| == |Without(styles[..n], name)|
      && Filtered(styles, n + 1, name) == Omitted(Filtered(styles, n, name), |Without(styles[..n], name)|)
    ensures !(name <= styles[n]) ==>
      && |Without(styles[..n + 1], name)| == |Without(styles[..n], name)| + 1
      && Filtered(styles, n + 1, name) == Filtered(styles, n, name)
  {
    assert styles[..n + 1][..n] == styles[..n];
    var kept := Without(styles[..n], name);
    var all := Filtered(styles, n, name);
    assert styles[n..] == [styles[n]] + styles[n + 1..];
    assert all[..|kept|] == kept && all[|kept| + 1..] == styles[n + 1..];
  }

  lemma FilteredEnds(styles: seq<string>, name: string)
    ensures Filtered(styles, 0, name) == styles && |Without(styles[..0], name)| == 0
    ensures Filtered(styles, |styles|, name) == Without(styles, name)
  {
    assert styles[..|styles|] == styles;
  }

  function Omitted(styles: seq<string>, i: nat): (r: seq<string>)
    requires i < |styles|
    ensures |r| == |styles| - 1
  {
    styles[..i] + styles[i + 1..]
  }

  // ---------- The engine itself ----------

  class Terminal {
    var currentStyles: seq<string>
    var adjustStyleNeeded: bool
    var insertMode: bool
    var wrapOnLongLines: bool
    var doc: Place
    const trim: Trimming

    constructor (doc: Place, trim: Trimming)
      ensures Contents() == State([], false, false, true, doc) && this.trim == trim
    {
      this.doc, this.trim := doc, trim;
      currentStyles, adjustStyleNeeded, insertMode, wrapOnLongLines := [], false, false, true;
    }

    ghost function Contents(): State
      reads this
    {
      State(currentStyles, adjustStyleNeeded, insertMode, wrapOnLongLines, doc)
    }

    method PushSimpleStyle(name: string, value: Option<string>)
      modifies this`currentStyles
      ensures currentStyles == Push(old(currentStyles), name, value)
    {
      var nstyles := |currentStyles|;
      var i := 0;
      hide Without, Filtered, Omitted;
      ghost var was, done := currentStyles, 0;
      FilteredEnds(was, name);
      while i < nstyles
        invariant 0 <= done <= |was| && nstyles == |currentStyles|
        invariant i == |Without(was[..done], name)|
        invariant |currentStyles| == i + |was| - done
        invariant currentStyles == Filtered(was, done, name)
        decreases nstyles - i
      {
        var style := currentStyles[i];
        FilterOne(was, done, name);
        if name <= style {
          currentStyles := Omitted(currentStyles, i);
          nstyles := nstyles - 1;
        } else {
          i := i + 1;
        }
        done := done + 1;
      }
      if value.Some? {
        currentStyles := currentStyles + [name + " " + value.value];
      }
    }

    method SelectGraphicRendition(prevNumParameters: seq<int>, curNumParameter: int)
      modifies this`currentStyles, this`adjustStyleNeeded
      ensures Contents() == Step(old(Contents()), Sgr(prevNumParameters + [curNumParameter]), trim)
    {
      hide Push;
      var count := |prevNumParameters|;
      ghost var vals := prevNumParameters + [curNumParameter];
      var i := 0;
      while i <= count
        invariant 0 <= i <= count + 1
        invariant currentStyles == SelectAll(old(currentStyles), vals[..i], FOREGROUND, BACKGROUND_COLOR)
      {
        var val := if i < count then prevNumParameters[i] else curNumParameter;
        assert vals[..i + 1][..i] == vals[..i] && vals[..i + 1][i] == val;
        SelectOne(val);
        i := i + 1;
      }
      assert vals[..i] == vals;
      adjustStyleNeeded := true;
    }

    method SelectOne(val: int)
      modifies this`currentStyles
      ensures currentStyles == Select(old(currentStyles), val, FOREGROUND, BACKGROUND_COLOR)
    {
      hide Push;
      if val <= 0 {
        currentStyles := [];
      } else {
        match val {
          case 1 => PushSimpleStyle("font-weight:", Some("bold"));
          case 22 => PushSimpleStyle("font-weight:", None);
          case 4 => PushSimpleStyle("text-decoration:", Some("underline"));
          case 24 => PushSimpleStyle("text-decoration:", None);
          case 7 =>
            PushSimpleStyle("color:", Some(BACKGROUND_COLOR));
            PushSimpleStyle("background-color:", Some(FOREGROUND));
          case 27 =>
            PushSimpleStyle("color:", None);
            PushSimpleStyle("background-color:", None);
          case 30 => PushSimpleStyle("color:", Some("black"));
          case 31 => PushSimpleStyle("color:", Some("red"));
          case 32 => PushSimpleStyle("color:", Some("green"));
          case 33 => PushSimpleStyle("color:", Some("yellow"));
          case 34 => PushSimpleStyle("color:", Some("blue"));
          case 35 => PushSimpleStyle("color:", Some("magenta"));
          case 36 => PushSimpleStyle("color:", Some("cyan"));
          case 37 => PushSimpleStyle("color:", Some("white"));
          case 39 => PushSimpleStyle("color:", None);
          case 40 => PushSimpleStyle("background-color:", Some("black"));
          case 41 => PushSimpleStyle("background-color:", Some("red"));
          case 42 => PushSimpleStyle("background-color:", Some("green"));
          case 43 => PushSimpleStyle("background-color:", Some("yellow"));
          case 44 => PushSimpleStyle("background-color:", Some("blue"));
          case 45 => PushSimpleStyle("background-color:", Some("magenta"));
          case 46 => PushSimpleStyle("background-color:", Some("cyan"));
          case 47 => PushSimpleStyle("background-color:", Some("white"));
          case 49 => PushSimpleStyle("background-color:", None);
          case _ =>
        }
      }
    }

    method PopStyle()
      requires doc.Inside?
      modifies this`doc
      ensures doc == Pop(old(doc))
    {
      var span1, following := doc, doc.after;
      var parent := doc.outer;
      var before := parent.before + [Elem(span1.attrs, span1.before)];
      if |following| == 0 {
        doc := With(parent, before, parent.after);
      } else {
        var moved: seq<Node> := [];
        while |following| > 0
          invariant moved + following == span1.after
          decreases |following|
        {
          moved := moved + [following[0]];
          following := following[1..];
        }
        assert moved == span1.after;
        doc := With(parent, before, [Elem(Attrs(SPAN, span1.attrs.cls, span1.attrs.style, ""), moved)] + parent.after);
      }
      assert [] + parent.after == parent.after;
    }

    /** The outer loop of adjustStyle's comparison: how many styles match, and how many of the
        styled elements do not. */
    method Compare(parentStyles: seq<string>) returns (keptStyles: nat, popCount: nat)
      ensures (keptStyles, popCount) == Match(parentStyles, |parentStyles|, currentStyles, 0)
    {
      hide Properties;
      keptStyles, popCount := 0, |parentStyles|;
      while popCount > 0
        invariant popCount <= |parentStyles| && keptStyles <= |currentStyles|
        invariant Match(parentStyles, popCount, currentStyles, keptStyles)
               == Match(parentStyles, |parentStyles|, currentStyles, 0)
      {
        if keptStyles == |currentStyles| {
          break;
        }
        var k := CompareOne(parentStyles[popCount - 1], keptStyles);
        if k < 0 {
          break;
        }
        keptStyles, popCount := keptStyles + k, popCount - 1;
      }
    }

    /** The inner loop: the number of properties of a style attribute if they are the next current
        styles, -1 otherwise. */
    method CompareOne(style: string, keptStyles: nat) returns (k: int)
      requires keptStyles <= |currentStyles|
      ensures k == if Properties(style) <= currentStyles[keptStyles..] then |Properties(style)| else -1
    {
      hide Trim, IndexOf, Properties;
      ghost var props, wanted := Properties(style), currentStyles[keptStyles..];
      k := 0;
      var parentStyle := Trim(style);
      PropertiesOfTrim(style);
      while k >= 0 && |parentStyle| > 0
        invariant -1 <= k && parentStyle == Trim(parentStyle)
        invariant k >= 0 ==> Matched(props, wanted, k) && props[k..] == Properties(parentStyle)
        invariant k < 0 ==> !(props <= wanted)
        decreases |parentStyle|, k
      {
        var semi := IndexOf(parentStyle, ';');
        var s;
        FirstProperty(parentStyle);
        if semi < |parentStyle| {
          s := Trim(parentStyle[..semi]);
          parentStyle := parentStyle[semi + 1..];
          PropertiesOfTrim(parentStyle);
          if |s| == 0 {
            parentStyle := Trim(parentStyle);
            continue;
          }
        } else {
          s := parentStyle;
          parentStyle := "";
        }
        PropertiesOfTrim(parentStyle);
        assert props[k..] == [s] + Properties(parentStyle);
        MatchOne(props, wanted, k, s, Properties(parentStyle));
        if keptStyles + k < |currentStyles| && s == currentStyles[keptStyles + k] {
          k := k + 1;
        } else {
          k := -1;
        }
        parentStyle := Trim(parentStyle);
      }
      PropertiesOfTrim("");
    }

    /** Collects the style attributes around the cursor, from the inside out. */
    method StylesAround() returns (parentStyles: seq<string>)
      ensures parentStyles == ParentStyles(doc)
    {
      parentStyles := [];
      var n := doc;
      while n.Inside?
        invariant parentStyles + ParentStyles(n) == ParentStyles(doc)
        decreases n
      {
        var style := n.attrs.style;
        if style != "" {
          parentStyles := parentStyles + [style];
        }
        n := n.outer;
      }
    }

    /** Opens a span at the cursor for the current styles from keptStyles on. */
    method OpenSpan(keptStyles: nat)
      requires keptStyles < |currentStyles|
      modifies this`doc
      ensures doc == Inside(old(doc), Span(Joined(currentStyles[keptStyles..])), [], [])
    {
      var styleValue := currentStyles[keptStyles];
      var next := keptStyles + 1;
      while next < |currentStyles|
        invariant keptStyles < next <= |currentStyles|
        invariant styleValue == Joined(currentStyles[keptStyles..next])
      {
        styleValue := styleValue + [';'] + currentStyles[next];
        next := next + 1;
        var part := currentStyles[keptStyles..next];
        assert part[..|part| - 1] == currentStyles[keptStyles..next - 1];
      }
      assert currentStyles[keptStyles..next] == currentStyles[keptStyles..];
      doc := Inside(doc, Attrs(SPAN, "", styleValue, ""), [], []);
    }

    method AdjustStyle()
      modifies this`adjustStyleNeeded, this`doc
      ensures Contents() == old(Contents()).(pending := false, doc := Adjusted(old(doc), old(currentStyles)))
    {
      hide Match, Properties, Pop, Joined;
      adjustStyleNeeded := false;
      var parentStyles := StylesAround();
      var keptStyles, popCount := Compare(parentStyles);
      ghost var pops: nat := popCount;
      assert keptStyles == Kept(old(doc), currentStyles) && pops == Popped(old(doc), currentStyles);
      while popCount > 0
        invariant 0 <= popCount <= Depth(doc) && pops <= Depth(old(doc))
        invariant PopN(doc, popCount) == PopN(old(doc), pops)
        invariant unchanged(this`currentStyles, this`insertMode, this`wrapOnLongLines) && !adjustStyleNeeded
      {
        popCount := popCount - 1;
        PopStyle();
      }
      if keptStyles < |currentStyles| {
        OpenSpan(keptStyles);
      }
    }

    method InsertSimpleOutput(str: string, beginIndex: nat, endIndex: nat, kind: char, column: nat, endColumn: int)
      requires beginIndex <= endIndex <= |str|
      modifies this`adjustStyleNeeded, this`doc
      ensures Contents() ==
              Step(old(Contents()), Print(str[beginIndex..endIndex], kind == 'E', column, endColumn - column), trim)
    {
      hide Adjusted, ErasedFrom;
      var text := str[beginIndex..endIndex];
      if beginIndex == endIndex {
        return;
      }
      if adjustStyleNeeded {
        AdjustStyle();
      }
      assert doc == Prepared(old(Contents()));
      var widthInColumns := endColumn - column;
      if !insertMode {
        EraseCharactersRight(widthInColumns, column);
      } else if wrapOnLongLines {
        doc := trim(doc, column, widthInColumns);
      }
      if kind == 'E' {
        doc := With(doc, doc.before + [Elem(ERROR, [Text(text)])], doc.after);
      } else {
        InsertRawOutput(text);
      }
    }

    /** eraseCharactersRight(count, true); a negative count is the rest of the line. */
    method EraseCharactersRight(count: int, column: nat)
      modifies this`doc
      ensures doc == ErasedFrom(old(doc), Columns(count), column, 0)
    {
      var limit := if count < 0 then 0x7fff_ffff else count;
      doc := EraseFrom(doc, limit, column, 0);
    }

    /** insertWrapBreak: the text is inserted as it is, whatever adjustment is due. */
    method InsertWrapBreak()
      modifies this`doc
      ensures Contents() == Step(old(Contents()), WrapBreak, trim)
    {
      InsertRawOutput(WRAP_STRING);
    }

    /** One output of the parser. */
    method Do(e: Output)
      modifies this
      ensures Contents() == Step(old(Contents()), e, trim)
    {
      hide Adjusted, ErasedFrom, Inserted, SelectAll;
      match e
      case Sgr(vals) =>
        if |vals| > 0 {
          assert vals == vals[..|vals| - 1] + [vals[|vals| - 1]];
          SelectGraphicRendition(vals[..|vals| - 1], vals[|vals| - 1]);
        } else {
          NoCodes(currentStyles);
          adjustStyleNeeded := true;
        }
      case Print(text, error, column, width) =>
        assert text[0..|text|] == text;
        InsertSimpleOutput(text, 0, |text|, if error then 'E' else 'O', column, column + width);
      case WrapBreak => InsertWrapBreak();
      case Delete(count, column) => EraseCharactersRight(count, column);
      case InsertMode(on) => SetInsertMode(on);
    }

    lemma NoCodes(styles: seq<string>)
      ensures SelectAll(styles, [], FOREGROUND, BACKGROUND_COLOR) == styles
    {
    }

    method SetInsertMode(enable: bool)
      modifies this`insertMode
      ensures Contents() == Step(old(Contents()), InsertMode(enable), trim)
    {
      insertMode := enable;
    }

    method InsertRawOutput(str: string)
      modifies this`doc
      ensures doc == Inserted(old(doc), str, false)
    {
      var before := doc.before;
      if |before| > 0 && before[|before| - 1].Text? {
        var previous := before[|before| - 1];
        doc := With(doc, before[..|before| - 1] + [Text(previous.data + str)], doc.after);
      } else {
        doc := With(doc, before + [Text(str)], doc.after);
      }
    }
  }

  /** The traversal of eraseCharactersRight out of the elements around the cursor. */
  method EraseFrom(p: Place, count: nat, column: nat, seen: nat) returns (q: Place)
    ensures q == ErasedFrom(p, count, column, seen)
    decreases p
  {
    var r := EraseNodes(p.after, count, column, seen);
    if r.over || p.Body? {
      q := With(p, p.before, r.nodes);
    } else {
      var outer := EraseFrom(p.outer, r.count, column, r.seen);
      q := Inside(outer, p.attrs, p.before, r.nodes);
    }
  }

  /** The traversal of eraseCharactersRight along siblings and into them. */
  method EraseNodes(nodes: seq<Node>, count: nat, column: nat, seen: nat) returns (r: Rest)
    ensures r == Erased(nodes, count, column, seen)
    decreases nodes, 1
  {
    if seen >= count || |nodes| == 0 {
      return Rest(nodes, seen, count, seen >= count);
    }
    match nodes[0] {
      case Text(text) =>
        var i, now := EraseText(text, count, column, seen);
        if i == |text| {
          r := EraseNodes(nodes[1..], count, column, now);
        } else {
          r := Rest([Text(text[i..])] + nodes[1..], now, count, true);
        }
      case Elem(attrs, kids) =>
        r := EraseElement(nodes, count, column, seen);
    }
  }

  method EraseElement(nodes: seq<Node>, count: nat, column: nat, seen: nat) returns (r: Rest)
    requires |nodes| > 0 && nodes[0].Elem? && seen < count
    ensures r == Erased(nodes, count, column, seen)
    decreases nodes, 0
  {
    var attrs, kids := nodes[0].attrs, nodes[0].kids;
    if IsBreak(attrs.tag) {
      r := Rest(nodes, seen, count, true);
    } else if IsObject(attrs.tag) {
      r := EraseNodes(nodes[1..], count - 1, column, seen);
    } else if |kids| == 0 {
      if IsBlock(attrs.tag) && |nodes| == 1 {
        r := Rest(nodes, seen, count, true);
      } else {
        var more := EraseNodes(nodes[1..], count, column, seen);
        r := After1([nodes[0]], more);
      }
    } else {
      var inner := EraseNodes(kids, count, column, seen);
      if inner.over {
        r := inner.(nodes := [Elem(attrs, inner.nodes)] + nodes[1..]);
      } else {
        var more := EraseNodes(nodes[1..], inner.count, column, inner.seen);
        r := After1(if attrs.tag == SPAN && |inner.nodes| == 0 then [] else [Elem(attrs, inner.nodes)], more);
      }
    }
  }

  /** The loop over the characters of one text node: how many of them go. */
  method EraseText(text: string, count: nat, column: nat, seen: nat) returns (i: nat, now: nat)
    ensures i == ScanLine(TextMarks(text), count, column, seen).marks
    ensures now == ScanLine(TextMarks(text), count, column, seen).seen
  {
    i, now := 0, seen;
    ghost var line := TextMarks(text);
    assert line[0..] == line;
    while i < |text| && now < count
      invariant i <= |text|
      invariant ScanLine(line, count, column, seen).marks == i + ScanLine(line[i..], count, column, now).marks
      invariant ScanLine(line, count, column, seen).seen == ScanLine(line[i..], count, column, now).seen
      decreases |text| - i
    {
      var ch := text[i];
      assert line[i..][0] == Ch(ch) && line[i..][1..] == line[i + 1..];
      if ' ' <= ch < 127 as char {
        now := now + 1;
      } else if IsLineEnd(ch) {
        return;
      } else {
        now := Advance(ch, column, now);
      }
      i := i + 1;
    }
    assert i == |text| ==> line[i..] == [];
  }
}
