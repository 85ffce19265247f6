/** The graphic rendition of section 8.3.117 of ECMA-48: which aspects a list of SGR parameters puts in
    force, what they look like, and for which lists WebTerminal's styles look the same. */
module GraphicRendition {
  import opened Wire
  import opened Sgr

  const FONTS: set<int> := {11, 12, 13, 14, 15, 16, 17, 18, 19}
  const COLOURS: set<int> := {30, 31, 32, 33, 34, 35, 36, 37}
  const BACKGROUNDS: set<int> := {40, 41, 42, 43, 44, 45, 46, 47}
  const IDEOGRAMS: set<int> := {60, 61, 62, 63, 64}

  /** The parameters that put an aspect in force. */
  predicate Sets(val: int) {
    1 <= val <= 9 || val in FONTS || val in {20, 21, 26, 51, 52, 53} || val in COLOURS || val in BACKGROUNDS
    || val in IDEOGRAMS
  }

  /** The aspects that a parameter ends. */
  function Ends(val: int): set<int> {
    if val == 22 then {1, 2}
    else if val == 23 then {3, 20}
    else if val == 24 then {4, 21}
    else if val == 25 then {5, 6}
    else if val == 27 then {7}
    else if val == 28 then {8}
    else if val == 29 then {9}
    else if 10 <= val <= 19 then FONTS
    else if 30 <= val <= 37 || val == 39 then COLOURS
    else if 40 <= val <= 47 || val == 49 then BACKGROUNDS
    else if val == 50 then {26}
    else if val == 54 then {51, 52}
    else if val == 55 then {53}
    else if val == 65 then IDEOGRAMS
    else {}
  }

  /** The aspects in force after a list of parameters, starting from the default rendition; an omitted
      parameter counts as 0. */
  function InForce(vals: seq<int>): set<int> {
    if |vals| == 0 then {} else Enter(InForce(vals[..|vals| - 1]), vals[|vals| - 1])
  }

  function Enter(before: set<int>, val: int): set<int> {
    if val <= 0 then {} else (before - Ends(val)) + if Sets(val) then {val} else {}
  }

  // ---------- What one sees ----------

  /** Weight, line, the two colours as they appear, and the aspects that these do not show. */
  datatype Appearance = Appearance(bold: bool, underlined: bool, color: string, background: string, more: set<int>)

  /** The colours of section 8.3.117, in the order of their parameters from 30 and from 40 on. */
  function Colour(n: nat): string {
    match n
    case 0 => "black"
    case 1 => "red"
    case 2 => "green"
    case 3 => "yellow"
    case 4 => "blue"
    case 5 => "magenta"
    case 6 => "cyan"
    case _ => "white"
  }

  lemma PaletteIsColours(n: nat)
    requires n < 8
    ensures Palette(n) == Colour(n)
  {
  }

  /** The colour in force among base..base+7. */
  function ColourIn(active: set<int>, base: int, otherwise: string): string {
    if base in active then Colour(0)
    else if base + 1 in active then Colour(1)
    else if base + 2 in active then Colour(2)
    else if base + 3 in active then Colour(3)
    else if base + 4 in active then Colour(4)
    else if base + 5 in active then Colour(5)
    else if base + 6 in active then Colour(6)
    else if base + 7 in active then Colour(7)
    else otherwise
  }

  /** The negative image shows each colour in place of the other. */
  function Appears(active: set<int>, fg: string, bg: string): Appearance {
    var front, back := ColourIn(active, 30, fg), ColourIn(active, 40, bg);
    Appearance(1 in active, 4 in active,
               if 7 in active then back else front, if 7 in active then front else back,
               active - ({1, 4, 7} + COLOURS + BACKGROUNDS))
  }

  /** The same of property values. */
  function Shows(r: Rendition, fg: string, bg: string): Appearance {
    Appearance(r.weight == Some("bold"), r.decoration == Some("underline"),
               if r.color.None? then fg else r.color.value, if r.background.None? then bg else r.background.value, {})
  }

  // ---------- The last parameter of a kind ----------

  /** The last parameter that is in s, or 0; everything that is not positive counts as 0. */
  function Last(vals: seq<int>, s: set<int>): int {
    if |vals| == 0 then 0
    else
      var val := vals[|vals| - 1];
      if val <= 0 then 0 else if val in s then val else Last(vals[..|vals| - 1], s)
  }

  /** The colour that a parameter names; 7 stands for the given one, anything else for the default. */
  function Named(val: int, base: int, otherwise: string, seven: string): string {
    if base <= val < base + 8 then Colour(val - base) else if val == 7 then seven else otherwise
  }

  /** The colours that the list selects for front and back, and whether they are to be exchanged. */
  function Front(vals: seq<int>, fg: string): string {
    Named(Last(vals, COLOURS + {39}), 30, fg, fg)
  }

  function Back(vals: seq<int>, bg: string): string {
    Named(Last(vals, BACKGROUNDS + {49}), 40, bg, bg)
  }

  predicate Negative(vals: seq<int>) {
    Last(vals, {7, 27}) == 7
  }

  /** WebTerminal looks at the last parameter among those for the colour, 7 and 27 only: 7 is the other
      default colour, and 27 its own. */
  function LastColour(vals: seq<int>, fg: string, bg: string): string {
    Named(Last(vals, COLOURS + {39, 7, 27}), 30, fg, bg)
  }

  function LastBackground(vals: seq<int>, fg: string, bg: string): string {
    Named(Last(vals, BACKGROUNDS + {49, 7, 27}), 40, bg, fg)
  }

  /** No aspect is in force that has no style, and the last parameters name the colours that the
      selected colours and the image make. */
  predicate Faithful(vals: seq<int>, fg: string, bg: string) {
    && InForce(vals) <= {1, 4, 7} + COLOURS + BACKGROUNDS
    && LastColour(vals, fg, bg) == (if Negative(vals) then Back(vals, bg) else Front(vals, fg))
    && LastBackground(vals, fg, bg) == (if Negative(vals) then Front(vals, fg) else Back(vals, bg))
  }

  // ---------- Both sides by their last parameters ----------

  /** A parameter of one kind decides about the aspects of that kind. */
  lemma EnterOne(before: set<int>, val: int, c: int)
    ensures c in COLOURS ==> (c in Enter(before, val) <==>
              if val <= 0 then false else if val in COLOURS + {39} then val == c else c in before)
    ensures c in BACKGROUNDS ==> (c in Enter(before, val) <==>
              if val <= 0 then false else if val in BACKGROUNDS + {49} then val == c else c in before)
    ensures 7 in Enter(before, val) <==> if val <= 0 then false else if val in {7, 27} then val == 7 else 7 in before
    ensures 1 in Enter(before, val) <==> if val <= 0 then false else if val in {1, 22} then val == 1 else 1 in before
    ensures 4 in Enter(before, val) <==> if val <= 0 then false else if val in {4, 24} then val == 4 else 4 in before
  {
    hide Enter, Ends, Sets;
    InEnter(before, val, c);
    InEnter(before, val, 1);
    InEnter(before, val, 4);
    InEnter(before, val, 7);
    EndsColours(val, c);
    EndsBackgrounds(val, c);
    EndsOthers(val);
  }

  lemma InEnter(before: set<int>, val: int, c: int)
    ensures c in Enter(before, val) <==> val > 0 && ((c in before && c !in Ends(val)) || (Sets(val) && c == val))
  {
    hide Ends, Sets;
  }

  lemma EndsColours(val: int, c: int)
    ensures c in COLOURS ==> (c in Ends(val) <==> val in COLOURS + {39})
    ensures val in COLOURS ==> Sets(val) && val > 0
    ensures !Sets(39)
  {
    InRange(val);
    InRange(c);
    EndsInRange(val, c);
  }

  lemma EndsBackgrounds(val: int, c: int)
    ensures c in BACKGROUNDS ==> (c in Ends(val) <==> val in BACKGROUNDS + {49})
    ensures val in BACKGROUNDS ==> Sets(val) && val > 0
    ensures !Sets(49)
  {
    InRange(val);
    InRange(c);
    EndsInRange(val, c);
  }

  lemma InRange(c: int)
    ensures c in COLOURS <==> 30 <= c <= 37
    ensures c in BACKGROUNDS <==> 40 <= c <= 47
  {
  }

  lemma EndsInRange(val: int, c: int)
    ensures 30 <= c <= 37 ==> (c in Ends(val) <==> 30 <= val <= 37 || val == 39)
    ensures 40 <= c <= 47 ==> (c in Ends(val) <==> 40 <= val <= 47 || val == 49)
  {
  }

  lemma EndsOthers(val: int)
    ensures 7 in Ends(val) <==> val == 27
    ensures 1 in Ends(val) <==> val == 22
    ensures 4 in Ends(val) <==> val == 24
    ensures Sets(1) && Sets(4) && Sets(7) && !Sets(22) && !Sets(24) && !Sets(27)
  {
  }

  lemma {:induction false} InForceByLast(vals: seq<int>, c: int)
    ensures c in COLOURS ==> (c in InForce(vals) <==> Last(vals, COLOURS + {39}) == c)
    ensures c in BACKGROUNDS ==> (c in InForce(vals) <==> Last(vals, BACKGROUNDS + {49}) == c)
    ensures 7 in InForce(vals) <==> Negative(vals)
    decreases |vals|
  {
    hide Enter;
    if |vals| > 0 {
      InForceByLast(vals[..|vals| - 1], c);
      EnterOne(InForce(vals[..|vals| - 1]), vals[|vals| - 1], c);
    }
  }

  lemma ColoursByLast(vals: seq<int>, fg: string, bg: string)
    ensures ColourIn(InForce(vals), 30, fg) == Front(vals, fg)
    ensures ColourIn(InForce(vals), 40, bg) == Back(vals, bg)
  {
    hide InForce, Colour, Last;
    forall c ensures c in COLOURS ==> (c in InForce(vals) <==> Last(vals, COLOURS + {39}) == c)
             ensures c in BACKGROUNDS ==> (c in InForce(vals) <==> Last(vals, BACKGROUNDS + {49}) == c)
    {
      InForceByLast(vals, c);
    }
    LastIn(vals, COLOURS + {39});
    LastIn(vals, BACKGROUNDS + {49});
  }

  lemma {:induction false} LastIn(vals: seq<int>, s: set<int>)
    ensures Last(vals, s) in s || Last(vals, s) == 0
    decreases |vals|
  {
    if |vals| > 0 { LastIn(vals[..|vals| - 1], s); }
  }

  lemma {:induction false} RenderByLast(vals: seq<int>, fg: string, bg: string)
    ensures var r := RenderAll(DEFAULT, vals, fg, bg);
            && (if r.color.None? then fg else r.color.value) == LastColour(vals, fg, bg)
            && (if r.background.None? then bg else r.background.value) == LastBackground(vals, fg, bg)
    decreases |vals|
  {
    hide Colour, Palette, Render;
    if |vals| > 0 {
      RenderByLast(vals[..|vals| - 1], fg, bg);
      RenderOne(RenderAll(DEFAULT, vals[..|vals| - 1], fg, bg), vals[|vals| - 1], fg, bg);
    }
  }

  /** What one parameter does to the four properties. */
  lemma RenderOne(r: Rendition, val: int, fg: string, bg: string)
    ensures Render(r, val, fg, bg).weight ==
            if val <= 0 || val == 22 then None else if val == 1 then Some("bold") else r.weight
    ensures Render(r, val, fg, bg).decoration ==
            if val <= 0 || val == 24 then None else if val == 4 then Some("underline") else r.decoration
    ensures Render(r, val, fg, bg).color ==
            if val <= 0 || val == 27 || val == 39 then None else if val == 7 then Some(bg)
            else if 30 <= val <= 37 then Some(Colour(val - 30)) else r.color
    ensures Render(r, val, fg, bg).background ==
            if val <= 0 || val == 27 || val == 49 then None else if val == 7 then Some(fg)
            else if 40 <= val <= 47 then Some(Colour(val - 40)) else r.background
  {
    hide Palette, Colour;
    if 30 <= val <= 37 { PaletteIsColours(val - 30); }
    if 40 <= val <= 47 { PaletteIsColours(val - 40); }
  }

  lemma {:induction false} WeightAndLine(vals: seq<int>, fg: string, bg: string)
    ensures RenderAll(DEFAULT, vals, fg, bg).weight == Some("bold") <==> 1 in InForce(vals)
    ensures RenderAll(DEFAULT, vals, fg, bg).decoration == Some("underline") <==> 4 in InForce(vals)
    decreases |vals|
  {
    hide Colour, Palette, Render, Enter;
    if |vals| > 0 {
      WeightAndLine(vals[..|vals| - 1], fg, bg);
      RenderOne(RenderAll(DEFAULT, vals[..|vals| - 1], fg, bg), vals[|vals| - 1], fg, bg);
      EnterOne(InForce(vals[..|vals| - 1]), vals[|vals| - 1], 0);
    }
  }

  /** The styles that WebTerminal selects for a list of SGR parameters look like the graphic rendition
      of ECMA-48, if and only if the list is faithful. */
  lemma LooksTheSame(vals: seq<int>, fg: string, bg: string)
    ensures Shows(RenderAll(DEFAULT, vals, fg, bg), fg, bg) == Appears(InForce(vals), fg, bg) <==> Faithful(vals, fg,
        bg)
  {
    hide RenderAll, InForce, Last, ColourIn, LastColour, LastBackground, Front, Back;
    RenderByLast(vals, fg, bg);
    WeightAndLine(vals, fg, bg);
    ColoursByLast(vals, fg, bg);
    InForceByLast(vals, 7);
  }

  // ---------- Which lists these are ----------

  /** Parameters that WebTerminal implements, other than those for the image. */
  predicate Ordinary(val: int) {
    val <= 0 || val in {1, 22, 4, 24, 39, 49} || val in COLOURS || val in BACKGROUNDS
  }

  /** Without the image parameters all that is implemented comes out right. */
  lemma OrdinaryIsFaithful(vals: seq<int>, fg: string, bg: string)
    requires forall i :: 0 <= i < |vals| ==> Ordinary(vals[i])
    ensures Faithful(vals, fg, bg)
  {
    hide Colour, Last, InForce;
    LastIn(vals, COLOURS + {39});
    LastIn(vals, BACKGROUNDS + {49});
    OrdinaryLast(vals);
    OrdinaryInForce(vals);
  }

  lemma {:induction false} OrdinaryLast(vals: seq<int>)
    requires forall i :: 0 <= i < |vals| ==> Ordinary(vals[i])
    ensures Last(vals, COLOURS + {39, 7, 27}) == Last(vals, COLOURS + {39})
    ensures Last(vals, BACKGROUNDS + {49, 7, 27}) == Last(vals, BACKGROUNDS + {49})
    ensures !Negative(vals)
    decreases |vals|
  {
    if |vals| > 0 { OrdinaryLast(vals[..|vals| - 1]); }
  }

  lemma {:induction false} OrdinaryInForce(vals: seq<int>)
    requires forall i :: 0 <= i < |vals| ==> Ordinary(vals[i])
    ensures InForce(vals) <= {1, 4, 7} + COLOURS + BACKGROUNDS
    decreases |vals|
  {
    hide Enter;
    if |vals| > 0 {
      OrdinaryInForce(vals[..|vals| - 1]);
      EnterOrdinary(InForce(vals[..|vals| - 1]), vals[|vals| - 1]);
    }
  }

  lemma EnterOrdinary(before: set<int>, val: int)
    requires Ordinary(val) && before <= {1, 4, 7} + COLOURS + BACKGROUNDS
    ensures Enter(before, val) <= {1, 4, 7} + COLOURS + BACKGROUNDS
  {
  }

  /** Negative and then positive image lose a colour that was selected before, and a colour selected
      under the negative image shows on the wrong side. */
  lemma ImageLosesColours()
    ensures !Faithful([31, 7, 27], "black", "white") && !Faithful([7, 31], "black", "white")
  {
    var a, b := [31, 7, 27], [7, 31];
    assert a[..2] == [31, 7] && [31, 7][..1] == [31] && [31][..0] == [];
    assert b[..1] == [7] && [7][..0] == [];
    assert Last(a, COLOURS + {39, 7, 27}) == 27 && Last(a, {7, 27}) == 27;
    assert Last(a, COLOURS + {39}) == Last([31, 7], COLOURS + {39}) == Last([31], COLOURS + {39}) == 31;
    assert Last(b, COLOURS + {39, 7, 27}) == 31 && Last(b, {7, 27}) == Last([7], {7, 27}) == 7;
    assert Last(b, BACKGROUNDS + {49}) == Last([7], BACKGROUNDS + {49}) == Last([], BACKGROUNDS + {49}) == 0;
    assert Colour(1) == "red" && "red"[0] != "black"[0] && "red"[0] != "white"[0];
  }
}
