/** The style engine of WebTerminal: SGR changes a list of styles, and the next text that is
    printed first brings the spans around the cursor into line with that list. */
module StyledOutput {
  import opened StyleAttribute
  import opened Dom

  const FOREGROUND: string := "black"
  const BACKGROUND_COLOR: string := "white"

  // ---------- adjustStyle, on values ----------

  /** The style attributes around the cursor, innermost first. */
  function ParentStyles(p: Place): (r: seq<string>)
    ensures |r| <= Depth(p)
    ensures "" !in r
  {
    if p.Body? then []
    else if p.attrs.style == "" then ParentStyles(p.outer)
    else [p.attrs.style] + ParentStyles(p.outer)
  }

  /** What to keep of the wanted styles, and how many of the n innermost styled elements to leave,
      when the first `kept` wanted styles are matched already. */
  function Match(parents: seq<string>, n: nat, styles: seq<string>, kept: nat): (r: (nat, nat))
    requires n <= |parents| && kept <= |styles|
    ensures r.0 <= |styles| && r.1 <= n
    decreases n
  {
    if n == 0 || kept == |styles| then (kept, n)
    else
      var props := Properties(parents[n - 1]);
      if props <= styles[kept..] then Match(parents, n - 1, styles, kept + |props|) else (kept, n)
  }

  function Kept(p: Place, styles: seq<string>): (r: nat)
    ensures r <= |styles|
  {
    Match(ParentStyles(p), |ParentStyles(p)|, styles, 0).0
  }

  function Popped(p: Place, styles: seq<string>): (r: nat)
    ensures r <= |ParentStyles(p)|
  {
    Match(ParentStyles(p), |ParentStyles(p)|, styles, 0).1
  }

  function Span(style: string): Attrs {
    Attrs(SPAN, "", style, "")
  }

  function Adjusted(p: Place, styles: seq<string>): Place {
    var q := PopN(p, Popped(p, styles));
    if Kept(p, styles) < |styles| then Inside(q, Span(Joined(styles[Kept(p, styles)..])), [], []) else q
  }

  // ---------- What it is for ----------

  /** The properties of a list of style attributes, outermost first. */
  function Listed(parents: seq<string>): seq<string> {
    if |parents| == 0 then [] else Listed(parents[1..]) + Properties(parents[0])
  }

  lemma {:induction false} AroundIsListed(p: Place)
    ensures StylesOf(Around(p)) == Listed(ParentStyles(p))
  {
    if p.Inside? {
      AroundIsListed(p.outer);
      var a := Around(p);
      assert a[..|a| - 1] == Around(p.outer);
      assert p.attrs.style == "" ==> Properties(p.attrs.style) == [];
      assert ([p.attrs.style] + ParentStyles(p.outer))[1..] == ParentStyles(p.outer);
    }
  }

  lemma {:induction false} ListedAppend(a: seq<string>, b: seq<string>)
    ensures Listed(a + b) == Listed(b) + Listed(a)
    decreases |a|
  {
    hide Properties;
    if |a| == 0 {
      assert a + b == b;
    } else {
      assert (a + b)[1..] == a[1..] + b;
      ListedAppend(a[1..], b);
    }
  }

  /** The elements that match hold exactly the kept styles. */
  lemma {:induction false} MatchIsListed(parents: seq<string>, n: nat, styles: seq<string>, kept: nat)
    requires n <= |parents| && kept <= |styles|
    requires Listed(parents[n..]) == styles[..kept]
    ensures Listed(parents[Match(parents, n, styles, kept).1..]) == styles[..Match(parents, n, styles, kept).0]
    decreases n
  {
    hide Properties;
    if n > 0 && kept < |styles| {
      var props := Properties(parents[n - 1]);
      if props <= styles[kept..] {
        assert parents[n - 1..] == [parents[n - 1]] + parents[n..];
        assert styles[..kept + |props|] == styles[..kept] + styles[kept..][..|props|];
        MatchIsListed(parents, n - 1, styles, kept + |props|);
      }
    }
  }

  predicate EndsWith(a: seq<string>, b: seq<string>) {
    |b| <= |a| && a[|a| - |b|..] == b
  }

  /** After leaving the n innermost elements, all but the n innermost style attributes are still
      around the cursor. */
  lemma {:induction false} PopNParents(p: Place, n: nat)
    requires n <= |ParentStyles(p)|
    ensures EndsWith(ParentStyles(PopN(p, n)), ParentStyles(p)[n..])
    decreases n
  {
    hide Pop, EndsWith;
    if n == 0 {
      EndsItself(ParentStyles(p));
    } else {
      PopParents(p);
      var below := ParentStyles(Pop(p));
      PopNParents(Pop(p), n - 1);
      EndsSooner(ParentStyles(PopN(p, n)), ParentStyles(p), below, n);
    }
  }

  lemma EndsItself(a: seq<string>)
    ensures EndsWith(a, a[0..])
  {
  }

  lemma EndsSooner(left: seq<string>, parents: seq<string>, below: seq<string>, n: nat)
    requires 0 < n <= |parents| && n - 1 <= |below| && EndsWith(left, below[n - 1..])
    requires parents == below || (|parents| == |below| + 1 && parents[1..] == below)
    ensures EndsWith(left, parents[n..])
  {
    if parents == below {
      assert parents[n..] == below[n - 1..][1..];
    } else {
      assert parents[n..] == below[n - 1..];
    }
  }

  /** If styled elements stand directly around the cursor, no more than these are. */
  lemma {:induction false} PopNNeat(p: Place, n: nat)
    requires n <= |ParentStyles(p)| && Neat(p)
    ensures ParentStyles(PopN(p, n)) == ParentStyles(p)[n..] && Neat(PopN(p, n))
    decreases n
  {
    hide Pop;
    if n > 0 {
      PopParents(p);
      PopNNeat(Pop(p), n - 1);
    }
  }

  /** Styled elements stand directly around the cursor, and only there. */
  predicate Neat(p: Place) {
    p.Body? || if p.attrs.style == "" then ParentStyles(p.outer) == [] else Neat(p.outer)
  }

  lemma PopParents(p: Place)
    requires p.Inside?
    ensures ParentStyles(Pop(p)) == ParentStyles(p.outer)
    ensures Neat(Pop(p)) == Neat(p.outer)
  {
  }

  /** adjustStyle never changes the text, its styles or its classes. */
  lemma AdjustPreserves(p: Place, styles: seq<string>)
    ensures Before(Adjusted(p, styles)) == Before(p)
    ensures Look(After(Adjusted(p, styles))) == Look(After(p))
  {
    hide Look, Flat, Match, Joined;
    var q := PopN(p, Popped(p, styles));
    PopNPreserves(p, Popped(p, styles));
    FlatNone(Around(Inside(q, Span(Joined(styles[Kept(p, styles)..])), [], [])));
  }

  /** If styled elements stand directly around the cursor, then after adjustStyle the styles around the
      cursor are the wanted ones, and styled elements still stand directly around it; otherwise it
      depends on what the elements hold that are left alone. */
  lemma AdjustReaches(p: Place, styles: seq<string>)
    requires AreProperties(styles)
    ensures StylesOf(Around(Adjusted(p, styles))) == styles <==>
            |StylesOf(Around(PopN(p, Popped(p, styles))))| == Kept(p, styles)
    ensures Neat(p) ==> StylesOf(Around(Adjusted(p, styles))) == styles && Neat(Adjusted(p, styles))
  {
    hide Joined, Match, PopN, Properties, Kept, Popped, StylesOf;
    var kept := Kept(p, styles);
    var q := PopN(p, Popped(p, styles));
    var extra := LeftAround(p, styles);
    var rest := styles[kept..];
    assert styles == styles[..kept] + rest;
    JoinedIsRead(rest);
    if kept < |styles| {
      JoinedSome(rest);
      SpanStyles(q, rest);
      assert StylesOf(Around(Adjusted(p, styles))) == styles[..kept] + extra + rest;
    }
  }

  /** No style attribute around the cursor is blank. */
  predicate Filled(p: Place) {
    forall i :: 0 <= i < |ParentStyles(p)| ==> Properties(ParentStyles(p)[i]) != []
  }

  lemma {:induction false} PopNWithin(p: Place, n: nat)
    requires n <= Depth(p)
    ensures forall s :: s in ParentStyles(PopN(p, n)) ==> s in ParentStyles(p)
    decreases n
  {
    hide Pop;
    if n > 0 {
      PopParents(p);
      PopNWithin(Pop(p), n - 1);
    }
  }

  /** Leaving as many elements as there are styled ones leaves all the styled ones, if and only if they
      stand directly around the cursor. */
  lemma {:induction false} PopAllNeat(p: Place)
    ensures ParentStyles(PopN(p, |ParentStyles(p)|)) == [] <==> Neat(p)
    decreases Depth(p)
  {
    hide Pop;
    var n := |ParentStyles(p)|;
    if n > 0 {
      PopParents(p);
      if p.attrs.style == "" {
        PopNParents(Pop(p), n - 1);
      } else {
        PopAllNeat(Pop(p));
      }
    } else {
      NoneIsNeat(p);
    }
  }

  lemma NoneIsNeat(p: Place)
    requires ParentStyles(p) == []
    ensures Neat(p)
  {
  }

  /** With no style wanted adjustStyle leaves as many elements as there are styled ones. */
  lemma AdjustedToNothing(p: Place)
    ensures Adjusted(p, []) == PopN(p, |ParentStyles(p)|)
  {
  }

  lemma ListedSome(parents: seq<string>)
    requires |parents| > 0 && Properties(parents[0]) != []
    ensures Listed(parents) != []
  {
    hide Properties;
  }

  lemma {:induction false} ListedShorter(parents: seq<string>, k: nat, n: nat)
    requires k <= n <= |parents|
    ensures Listed(parents[n..]) <= Listed(parents[k..])
    ensures Filled1(parents) && k < n ==> |Listed(parents[n..])| < |Listed(parents[k..])|
    decreases n - k
  {
    hide Properties;
    if k < n {
      assert parents[k..][1..] == parents[k + 1..];
      assert Listed(parents[k..]) == Listed(parents[k + 1..]) + Properties(parents[k]);
      ListedShorter(parents, k + 1, n);
    }
  }

  predicate Filled1(parents: seq<string>) {
    forall i :: 0 <= i < |parents| ==> Properties(parents[i]) != []
  }

  lemma {:induction false} MatchIsLongest(parents: seq<string>, n: nat, styles: seq<string>, kept: nat, k: nat)
    requires Filled1(parents) && n <= |parents| && kept <= |styles| && Listed(parents[n..]) == styles[..kept]
    requires k < Match(parents, n, styles, kept).1
    ensures !(Listed(parents[k..]) <= styles)
    decreases n
  {
    hide Properties;
    if kept == |styles| {
      ListedShorter(parents, k, n);
    } else {
      var props := Properties(parents[n - 1]);
      assert parents[n - 1..][1..] == parents[n..];
      assert Listed(parents[n - 1..]) == styles[..kept] + props;
      if props <= styles[kept..] {
        assert styles[..kept + |props|] == styles[..kept] + styles[kept..][..|props|];
        MatchIsLongest(parents, n - 1, styles, kept + |props|, k);
      } else {
        ListedShorter(parents, k, n - 1);
      }
    }
  }

  /** The outermost styled elements, all but the k innermost, hold a prefix of the wanted styles, and one
      more would not. */
  predicate LongestPrefix(parents: seq<string>, styles: seq<string>, k: nat) {
    k <= |parents| && Listed(parents[k..]) <= styles && (k > 0 ==> !(Listed(parents[k - 1..]) <= styles))
  }

  lemma PoppedIsLongest(p: Place, styles: seq<string>, k: nat)
    requires Filled(p) && LongestPrefix(ParentStyles(p), styles, k)
    ensures k == Popped(p, styles) && Listed(ParentStyles(p)[k..]) == styles[..Kept(p, styles)]
  {
    hide Properties, Match, Listed;
    var parents := ParentStyles(p);
    var n, left, kept := |parents|, Popped(p, styles), Kept(p, styles);
    NoneListed();
    assert parents[n..] == [] && styles[..0] == [];
    MatchIsListed(parents, n, styles, 0);
    if k < left {
      MatchIsLongest(parents, n, styles, 0, k);
    } else if left < k {
      ListedShorter(parents, left, k - 1);
      PrefixOfPrefix(Listed(parents[k - 1..]), Listed(parents[left..]), styles);
    }
  }

  lemma NoneListed()
    ensures Listed([]) == []
  {
  }

  /** adjustStyle leaves as few elements as it can, and opens one span, if and only if the styles of those
      that stay are not all the wanted ones. */
  lemma LeavesAsFewAsPossible(p: Place, styles: seq<string>, k: nat)
    requires Filled(p) && LongestPrefix(ParentStyles(p), styles, k)
    ensures Depth(Adjusted(p, styles)) == Depth(p) - k + if Listed(ParentStyles(p)[k..]) == styles then 0 else 1
  {
    hide Properties, Match, Listed, Filled, LongestPrefix, ParentStyles, Kept, Popped, PopN;
    PoppedIsLongest(p, styles, k);
    PopNPreserves(p, k);
    var kept := Kept(p, styles);
    assert kept == |styles| <==> styles[..kept] == styles;
  }

  lemma PrefixOfPrefix(a: seq<string>, b: seq<string>, c: seq<string>)
    requires a <= b <= c
    ensures a <= c
  {
  }

  /** adjustStyle reaches every list of wanted styles, if and only if the styled elements stand directly
      around the cursor. */
  lemma AdjustExactly(p: Place)
    requires Filled(p)
    ensures (forall styles | AreProperties(styles) :: StylesOf(Around(Adjusted(p, styles))) == styles) <==> Neat(p)
  {
    hide Properties, Adjusted, StylesOf, ParentStyles, Neat, PopN, AreProperties;
    if Neat(p) {
      forall styles | AreProperties(styles) ensures StylesOf(Around(Adjusted(p, styles))) == styles {
        AdjustReaches(p, styles);
      }
    } else {
      var q := PopN(p, |ParentStyles(p)|);
      AdjustedToNothing(p);
      PopAllNeat(p);
      PopNWithin(p, |ParentStyles(p)|);
      AroundIsListed(q);
      assert ParentStyles(q)[0] in ParentStyles(p);
      ListedSome(ParentStyles(q));
      NothingWanted();
    }
  }

  lemma NothingWanted()
    ensures AreProperties([])
  {
  }

  lemma SpanStyles(q: Place, rest: seq<string>)
    requires AreProperties(rest)
    ensures StylesOf(Around(Inside(q, Span(Joined(rest)), [], []))) == StylesOf(Around(q)) + rest
  {
    hide Properties, Joined;
    JoinedIsRead(rest);
    var a := Around(Inside(q, Span(Joined(rest)), [], []));
    assert a[..|a| - 1] == Around(q);
  }

  /** What stays around the cursor: the kept styles, outermost, and possibly more. */
  lemma LeftAround(p: Place, styles: seq<string>) returns (extra: seq<string>)
    ensures StylesOf(Around(PopN(p, Popped(p, styles)))) == styles[..Kept(p, styles)] + extra
    ensures Neat(p) ==> extra == [] && Neat(PopN(p, Popped(p, styles)))
  {
    hide Match, PopN, Properties;
    var parents, kept, pops := ParentStyles(p), Kept(p, styles), Popped(p, styles);
    var q := PopN(p, pops);
    assert parents[|parents|..] == [] && styles[..0] == [];
    MatchIsListed(parents, |parents|, styles, 0);
    PopNParents(p, pops);
    if Neat(p) { PopNNeat(p, pops); }
    AroundIsListed(q);
    var left := ParentStyles(q);
    var cut := |left| - (|parents| - pops);
    assert left == left[..cut] + left[cut..];
    ListedAppend(left[..cut], left[cut..]);
    extra := Listed(left[..cut]);
  }

  lemma JoinedSome(ss: seq<string>)
    requires |ss| > 0 && AreProperties(ss)
    ensures Joined(ss) != ""
  {
    JoinedEnds(ss);
  }

  /** An unstyled element inside a styled one is left in place of it: no style is wanted, one
      element is left, and the colour stays. */
  lemma UnstyledInsideStyledFails()
    ensures exists p: Place :: !Neat(p) && Filled(p) && StylesOf(Around(Adjusted(p, []))) == ["color: red"]
  {
    hide Properties, StylesOf, Around, Adjusted, Neat, ParentStyles;
    var outer := Inside(Body([], []), Span("color: red"), [], []);
    var p := Inside(outer, Span(""), [], []);
    UnstyledIsLeft(outer, p);
    RedIsRed(outer);
    assert Filled(p);
  }

  lemma UnstyledIsLeft(outer: Place, p: Place)
    requires outer == Inside(Body([], []), Span("color: red"), [], []) && p == Inside(outer, Span(""), [], [])
    ensures !Neat(p) && Around(Adjusted(p, [])) == Around(outer) && ParentStyles(p) == ["color: red"]
  {
    hide Properties, StylesOf;
    assert ParentStyles(outer) == ["color: red"];
    assert ParentStyles(p) == ["color: red"];
    AdjustedToNothing(p);
    assert PopN(p, 1) == PopN(Pop(p), 0) == Pop(p);
  }

  lemma RedIsRed(outer: Place)
    requires outer == Inside(Body([], []), Span("color: red"), [], [])
    ensures StylesOf(Around(outer)) == ["color: red"] == Properties("color: red")
  {
    hide Properties;
    JoinedIsRead(["color: red"]);
    assert Joined(["color: red"]) == "color: red";
    assert Around(outer) == [Span("color: red")] && Around(outer)[..0] == [];
    assert StylesOf(Around(outer)) == StylesOf([]) + ["color: red"];
  }
}
