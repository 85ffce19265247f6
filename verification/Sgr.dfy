/** The style list of WebTerminal: what pushSimpleStyle and the case of the SGR control sequence do to
    it, and which value it gives to each property. Module GraphicRendition compares that with what
    section 8.3.117 of ECMA-48 says. */
module Sgr {
  import opened Wire
  import opened StyleAttribute

  const WEIGHT: string := "font-weight:"
  const DECORATION: string := "text-decoration:"
  const COLOR: string := "color:"
  const BACKGROUND: string := "background-color:"

  const NAMES: set<string> := {WEIGHT, DECORATION, COLOR, BACKGROUND}

  /** The styles that do not start with the given name. */
  function Without(styles: seq<string>, name: string): (r: seq<string>)
    ensures |r| <= |styles|
    ensures forall i :: 0 <= i < |r| ==> !(name <= r[i]) && r[i] in styles
  {
    if |styles| == 0 then []
    else
      var front, last := Without(styles[..|styles| - 1], name), styles[|styles| - 1];
      if name <= last then front else front + [last]
  }

  function StyleOf(name: string, value: string): string {
    name + " " + value
  }

  /** pushSimpleStyle */
  function Push(styles: seq<string>, name: string, value: Option<string>): seq<string> {
    Without(styles, name) + if value.None? then [] else [StyleOf(name, value.value)]
  }

  /** The table of the SGR case; the two defaults are the terminal's own colours. */
  function Select(styles: seq<string>, val: int, foreground: string, background: string): seq<string> {
    if val <= 0 then []
    else match val
      case 1 => Push(styles, WEIGHT, Some("bold"))
      case 22 => Push(styles, WEIGHT, None)
      case 4 => Push(styles, DECORATION, Some("underline"))
      case 24 => Push(styles, DECORATION, None)
      case 7 => Push(Push(styles, COLOR, Some(background)), BACKGROUND, Some(foreground))
      case 27 => Push(Push(styles, COLOR, None), BACKGROUND, None)
      case 39 => Push(styles, COLOR, None)
      case 49 => Push(styles, BACKGROUND, None)
      case _ =>
        if 30 <= val <= 37 then Push(styles, COLOR, Some(Palette(val - 30)))
        else if 40 <= val <= 47 then Push(styles, BACKGROUND, Some(Palette(val - 40)))
        else styles
  }

  function Palette(i: int): string
    requires 0 <= i < 8
  {
    ["black", "red", "green", "yellow", "blue", "magenta", "cyan", "white"][i]
  }

  function SelectAll(styles: seq<string>, vals: seq<int>, foreground: string, background: string): seq<string> {
    if |vals| == 0 then styles
    else Select(SelectAll(styles, vals[..|vals| - 1], foreground, background), vals[|vals| - 1], foreground, background)
  }

  // ---------- Which property values a style list stands for ----------

  /** A rendition names for every property a value or the default. */
  datatype Rendition = Rendition(
    weight: Option<string>, decoration: Option<string>, color: Option<string>, background: Option<string>)

  const DEFAULT: Rendition := Rendition(None, None, None, None)

  /** The table of the SGR case on renditions: every code sets or resets the properties it names. */
  function Render(r: Rendition, val: int, foreground: string, background: string): Rendition {
    if val <= 0 then DEFAULT
    else if val == 1 then r.(weight := Some("bold"))
    else if val == 22 then r.(weight := None)
    else if val == 4 then r.(decoration := Some("underline"))
    else if val == 24 then r.(decoration := None)
    else if val == 7 then r.(color := Some(background), background := Some(foreground))
    else if val == 27 then r.(color := None, background := None)
    else if 30 <= val <= 37 then r.(color := Some(Palette(val - 30)))
    else if val == 39 then r.(color := None)
    else if 40 <= val <= 47 then r.(background := Some(Palette(val - 40)))
    else if val == 49 then r.(background := None)
    else r
  }

  function RenderAll(r: Rendition, vals: seq<int>, foreground: string, background: string): Rendition {
    if |vals| == 0 then r
    else Render(RenderAll(r, vals[..|vals| - 1], foreground, background), vals[|vals| - 1], foreground, background)
  }

  /** The value a list of nested styles gives to a property: the innermost one wins. */
  function LookUp(styles: seq<string>, name: string): Option<string> {
    if |styles| == 0 then None
    else
      var last := styles[|styles| - 1];
      if name <= last && |last| > |name| then Some(last[|name| + 1..])
      else LookUp(styles[..|styles| - 1], name)
  }

  function RenditionOf(styles: seq<string>): Rendition {
    Rendition(LookUp(styles, WEIGHT), LookUp(styles, DECORATION), LookUp(styles, COLOR), LookUp(styles, BACKGROUND))
  }

  lemma NamesDiffer(a: string, b: string, value: string)
    requires a in NAMES && b in NAMES && a != b
    ensures !(a <= StyleOf(b, value))
  {
    var s := StyleOf(b, value);
    assert s[0] == b[0] && |a| > 0;
    assert WEIGHT[0] != DECORATION[0] && WEIGHT[0] != COLOR[0] && WEIGHT[0] != BACKGROUND[0];
    assert DECORATION[0] != COLOR[0] && DECORATION[0] != BACKGROUND[0] && COLOR[0] != BACKGROUND[0];
  }

  /** Every style of the list sets one of the four properties. */
  ghost predicate IsStyle(s: string) {
    exists name, value :: name in NAMES && s == StyleOf(name, value)
  }

  lemma StyleStarts(s: string, name: string, value: string, other: string)
    requires name in NAMES && other in NAMES && s == StyleOf(name, value)
    ensures other <= s <==> other == name
    ensures |s| > |name| && s[|name| + 1..] == value
  {
    if other != name {
      NamesDiffer(other, name, value);
    }
  }

  lemma StyleStartsOnce(s: string, name: string, other: string)
    requires name in NAMES && other in NAMES && IsStyle(s)
    ensures name <= s && other <= s ==> name == other
    ensures other <= s ==> |s| > |other|
  {
    var n, v :| n in NAMES && s == StyleOf(n, v);
    StyleStarts(s, n, v, name);
    StyleStarts(s, n, v, other);
  }

  lemma {:induction false} LookUpWithout(styles: seq<string>, name: string, other: string)
    requires name in NAMES && other in NAMES
    requires forall i :: 0 <= i < |styles| ==> IsStyle(styles[i])
    ensures LookUp(Without(styles, name), other) == if other == name then None else LookUp(styles, other)
    decreases |styles|
  {
    hide StyleOf, IsStyle;
    if |styles| > 0 {
      var front, last := styles[..|styles| - 1], styles[|styles| - 1];
      LookUpWithout(front, name, other);
      StyleStartsOnce(last, name, other);
      var kept := Without(front, name);
      assert (kept + [last])[..|kept|] == kept;
    }
  }

  /** Pushing a style sets its property and leaves the others as they were. */
  lemma LookUpPush(styles: seq<string>, name: string, value: Option<string>, other: string)
    requires name in NAMES && other in NAMES
    requires forall i :: 0 <= i < |styles| ==> IsStyle(styles[i])
    ensures LookUp(Push(styles, name, value), other) == if other == name then value else LookUp(styles, other)
    ensures forall i :: 0 <= i < |Push(styles, name, value)| ==> IsStyle(Push(styles, name, value)[i])
  {
    LookUpWithout(styles, name, other);
    var kept := Without(styles, name);
    if value.Some? {
      var s := StyleOf(name, value.value);
      StyleStarts(s, name, value.value, other);
      assert (kept + [s])[..|kept|] == kept;
    } else {
      assert kept + [] == kept;
    }
  }

  function Set(r: Rendition, name: string, value: Option<string>): Rendition
    requires name in NAMES
  {
    if name == WEIGHT then r.(weight := value)
    else if name == DECORATION then r.(decoration := value)
    else if name == COLOR then r.(color := value)
    else r.(background := value)
  }

  lemma RenditionOfPush(styles: seq<string>, name: string, value: Option<string>)
    requires name in NAMES
    requires forall i :: 0 <= i < |styles| ==> IsStyle(styles[i])
    ensures RenditionOf(Push(styles, name, value)) == Set(RenditionOf(styles), name, value)
    ensures forall i :: 0 <= i < |Push(styles, name, value)| ==> IsStyle(Push(styles, name, value)[i])
  {
    hide Push, LookUp, IsStyle;
    LookUpPush(styles, name, value, WEIGHT);
    LookUpPush(styles, name, value, DECORATION);
    LookUpPush(styles, name, value, COLOR);
    LookUpPush(styles, name, value, BACKGROUND);
  }

  lemma NamesAreNames()
    ensures WEIGHT in NAMES && DECORATION in NAMES && COLOR in NAMES && BACKGROUND in NAMES
    ensures WEIGHT != DECORATION && WEIGHT != COLOR && WEIGHT != BACKGROUND
    ensures DECORATION != COLOR && DECORATION != BACKGROUND && COLOR != BACKGROUND
  {
    assert WEIGHT[0] != DECORATION[0] && WEIGHT[0] != COLOR[0] && WEIGHT[0] != BACKGROUND[0];
    assert DECORATION[0] != COLOR[0] && DECORATION[0] != BACKGROUND[0] && COLOR[0] != BACKGROUND[0];
  }

  /** One SGR code has the same effect on the style list as on the rendition. */
  lemma SelectIsRender(styles: seq<string>, val: int, fg: string, bg: string)
    requires forall i :: 0 <= i < |styles| ==> IsStyle(styles[i])
    ensures RenditionOf(Select(styles, val, fg, bg)) == Render(RenditionOf(styles), val, fg, bg)
    ensures forall i :: 0 <= i < |Select(styles, val, fg, bg)| ==> IsStyle(Select(styles, val, fg, bg)[i])
  {
    hide Push, RenditionOf, IsStyle, Palette;
    NamesAreNames();
    if val <= 0 {
      NothingSet();
    } else if val == 1 || val == 22 {
      RenditionOfPush(styles, WEIGHT, if val == 1 then Some("bold") else None);
    } else if val == 4 || val == 24 {
      RenditionOfPush(styles, DECORATION, if val == 4 then Some("underline") else None);
    } else if val == 7 || val == 27 {
      var c, b := if val == 7 then Some(bg) else None, if val == 7 then Some(fg) else None;
      RenditionOfPush(styles, COLOR, c);
      RenditionOfPush(Push(styles, COLOR, c), BACKGROUND, b);
    } else if 30 <= val <= 37 || val == 39 {
      RenditionOfPush(styles, COLOR, if val == 39 then None else Some(Palette(val - 30)));
    } else if 40 <= val <= 47 || val == 49 {
      RenditionOfPush(styles, BACKGROUND, if val == 49 then None else Some(Palette(val - 40)));
    }
  }

  lemma NothingSet()
    ensures RenditionOf([]) == DEFAULT
  {
  }

  /** Any run of SGR codes: the list of style strings stands for exactly the rendition
      that the codes select. */
  lemma {:induction false} SelectAllIsRenderAll(styles: seq<string>, vals: seq<int>, fg: string, bg: string)
    requires forall i :: 0 <= i < |styles| ==> IsStyle(styles[i])
    ensures RenditionOf(SelectAll(styles, vals, fg, bg)) == RenderAll(RenditionOf(styles), vals, fg, bg)
    ensures forall i :: 0 <= i < |SelectAll(styles, vals, fg, bg)| ==> IsStyle(SelectAll(styles, vals, fg, bg)[i])
    decreases |vals|
  {
    hide Select, Render, RenditionOf, IsStyle;
    if |vals| > 0 {
      SelectAllIsRenderAll(styles, vals[..|vals| - 1], fg, bg);
      SelectIsRender(SelectAll(styles, vals[..|vals| - 1], fg, bg), vals[|vals| - 1], fg, bg);
    }
  }

  // ---------- What reaches the document ----------

  lemma PushProperty(styles: seq<string>, name: string, value: Option<string>)
    requires name in NAMES && AreProperties(styles)
    requires value.Some? ==> IsProperty(value.value)
    ensures AreProperties(Push(styles, name, value))
  {
    if value.Some? {
      var s := StyleOf(name, value.value);
      assert ';' !in s by { NoSemicolon(name); }
      assert s[0] == name[0] && s[|s| - 1] == value.value[|value.value| - 1];
    }
  }

  lemma NoSemicolon(name: string)
    requires name in NAMES
    ensures |name| > 0 && name[0] > ' ' && ';' !in name
  {
  }

  /** SGR only ever puts single properties on the list. */
  lemma {:induction false} SelectAllProperties(styles: seq<string>, vals: seq<int>, fg: string, bg: string)
    requires AreProperties(styles) && IsProperty(fg) && IsProperty(bg)
    ensures AreProperties(SelectAll(styles, vals, fg, bg))
    decreases |vals|
  {
    hide Push, IsProperty, Select;
    if |vals| > 0 {
      var front, val := vals[..|vals| - 1], vals[|vals| - 1];
      SelectAllProperties(styles, front, fg, bg);
      SelectProperties(SelectAll(styles, front, fg, bg), val, fg, bg);
    }
  }

  lemma SelectProperties(styles: seq<string>, val: int, fg: string, bg: string)
    requires AreProperties(styles) && IsProperty(fg) && IsProperty(bg)
    ensures AreProperties(Select(styles, val, fg, bg))
  {
    hide Push, IsProperty, Palette, AreProperties;
    NamesAreNames();
    WordsAreProperties();
    var name := if val in {1, 22} then WEIGHT else if val in {4, 24} then DECORATION
                else if val in {7, 27, 39} || 30 <= val <= 37 then COLOR else BACKGROUND;
    var value := if val == 1 then Some("bold") else if val == 4 then Some("underline")
                 else if val == 7 then Some(bg)
                 else if 30 <= val <= 37 then Some(Palette(val - 30))
                 else if 40 <= val <= 47 then Some(Palette(val - 40)) else None;
    PushProperty(styles, name, value);
    if val in {7, 27} {
      PushProperty(Push(styles, COLOR, value), BACKGROUND, if val == 7 then Some(fg) else None);
    }
    NoneIsProperty();
  }

  lemma NoneIsProperty()
    ensures AreProperties([])
  {
  }

  lemma WordsAreProperties()
    ensures IsProperty("bold") && IsProperty("underline")
    ensures forall i :: 0 <= i < 8 ==> IsProperty(Palette(i))
  {
    assert IsProperty("black") && IsProperty("red") && IsProperty("green") && IsProperty("yellow");
    assert IsProperty("blue") && IsProperty("magenta") && IsProperty("cyan") && IsProperty("white");
  }
}
