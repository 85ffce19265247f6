/** The style attribute of a span: several properties in one string, written by adjustStyle
    with ';' between them and taken apart again by the matching loop of the same method. */
module StyleAttribute {

  function TrimLeft(s: string): (r: string)
    ensures |r| <= |s|
    ensures |r| > 0 ==> r[0] > ' '
    ensures |s| > 0 && s[0] > ' ' ==> r == s
  {
    if |s| > 0 && s[0] <= ' ' then TrimLeft(s[1..]) else s
  }

  function TrimRight(s: string): (r: string)
    ensures |r| <= |s| && r == s[..|r|]
    ensures |r| > 0 ==> r[|r| - 1] > ' '
    ensures |s| > 0 && s[|s| - 1] > ' ' ==> r == s
  {
    if |s| > 0 && s[|s| - 1] <= ' ' then TrimRight(s[..|s| - 1]) else s
  }

  /** String.trim */
  function Trim(s: string): (r: string)
    ensures |r| <= |s|
    ensures |r| > 0 ==> r[0] > ' ' && r[|r| - 1] > ' '
    ensures |s| > 0 && s[0] > ' ' && s[|s| - 1] > ' ' ==> r == s
  {
    TrimRight(TrimLeft(s))
  }

  /** The first position of c in s, or |s|. */
  function IndexOf(s: string, c: char): (i: nat)
    ensures i <= |s|
    ensures c !in s[..i]
    ensures i < |s| ==> s[i] == c
  {
    if |s| == 0 || s[0] == c then 0 else 1 + IndexOf(s[1..], c)
  }

  /** One property specifier: not empty, no blank at either end, no semicolon. */
  predicate IsProperty(s: string) {
    |s| > 0 && s[0] > ' ' && s[|s| - 1] > ' ' && ';' !in s
  }

  predicate AreProperties(ss: seq<string>) {
    forall i :: 0 <= i < |ss| ==> IsProperty(ss[i])
  }

  /** The properties that the matching loop finds in a style attribute. */
  function Properties(style: string): (r: seq<string>)
    ensures AreProperties(r)
    decreases |style|
  {
    var t := Trim(style);
    if |t| == 0 then []
    else
      var semi := IndexOf(t, ';');
      if semi == |t| then
        assert t[..semi] == t;
        [t]
      else
        var s := Trim(t[..semi]);
        TrimAdds(t[..semi], ';');
        (if |s| == 0 then [] else [s]) + Properties(t[semi + 1..])
  }

  /** What the matching loop finds first in a trimmed attribute, and what it leaves to look at. */
  lemma FirstProperty(t: string)
    requires t == Trim(t) && |t| > 0
    ensures IndexOf(t, ';') == |t| ==> Properties(t) == [t]
    ensures IndexOf(t, ';') < |t| && Trim(t[..IndexOf(t, ';')]) == "" ==>
              Properties(t) == Properties(t[IndexOf(t, ';') + 1..])
    ensures IndexOf(t, ';') < |t| && Trim(t[..IndexOf(t, ';')]) != "" ==>
              Properties(t) == [Trim(t[..IndexOf(t, ';')])] + Properties(t[IndexOf(t, ';') + 1..])
  {
    hide Trim, IndexOf, AreProperties;
  }

  lemma PropertiesOfTrim(s: string)
    ensures Properties(Trim(s)) == Properties(s) && Trim(Trim(s)) == Trim(s)
    ensures Trim("") == "" && Properties("") == []
  {
    hide IndexOf;
  }

  lemma TrimAdds(s: string, c: char)
    requires c !in s
    ensures c !in Trim(s)
  {
    assert forall x :: x in TrimLeft(s) ==> x in s by { LeftIsPart(s); }
    assert TrimRight(TrimLeft(s)) == TrimLeft(s)[..|Trim(s)|];
  }

  lemma {:induction false} LeftIsPart(s: string)
    ensures forall x :: x in TrimLeft(s) ==> x in s
  {
    if |s| > 0 && s[0] <= ' ' { LeftIsPart(s[1..]); }
  }

  /** The style attribute that adjustStyle writes for a list of styles. */
  function Joined(ss: seq<string>): string {
    if |ss| == 0 then ""
    else if |ss| == 1 then ss[0]
    else Joined(ss[..|ss| - 1]) + [';'] + ss[|ss| - 1]
  }

  lemma {:induction false} JoinedFront(ss: seq<string>)
    requires |ss| >= 2
    ensures Joined(ss) == ss[0] + [';'] + Joined(ss[1..])
    decreases |ss|
  {
    var front, last := ss[..|ss| - 1], ss[|ss| - 1];
    if |ss| == 2 {
      assert ss[1..] == [last] && front == [ss[0]];
    } else {
      JoinedFront(front);
      assert front[1..] == ss[1..][..|ss| - 2];
      assert Joined(ss[1..]) == Joined(front[1..]) + [';'] + last;
      assert Joined(ss) == (ss[0] + [';'] + Joined(front[1..])) + [';'] + last;
    }
  }

  lemma {:induction false} JoinedEnds(ss: seq<string>)
    requires |ss| > 0 && AreProperties(ss)
    ensures |Joined(ss)| > 0 && Joined(ss)[0] > ' ' && Joined(ss)[|Joined(ss)| - 1] > ' '
    decreases |ss|
  {
    if |ss| > 1 { JoinedEnds(ss[..|ss| - 1]); }
  }

  lemma FirstSemicolon(a: string, b: string)
    requires ';' !in a
    ensures IndexOf(a + [';'] + b, ';') == |a|
  {
    var s := a + [';'] + b;
    assert s[|a|] == ';';
    assert forall k :: 0 <= k < |a| ==> s[k] == a[k];
  }

  lemma {:induction false} JoinedIsRead(ss: seq<string>)
    requires AreProperties(ss)
    ensures Properties(Joined(ss)) == ss
    decreases |ss|
  {
    hide Trim, IndexOf, Properties;
    PropertiesOfTrim("");
    if |ss| == 1 {
      NoSemicolonAt(ss[0]);
      FirstProperty(ss[0]);
      assert ss == [ss[0]];
    } else if |ss| >= 2 {
      JoinedFront(ss);
      JoinedEnds(ss);
      FirstSemicolon(ss[0], Joined(ss[1..]));
      FirstProperty(Joined(ss));
      var t := Joined(ss);
      assert t[..|ss[0]|] == ss[0];
      assert t[|ss[0]| + 1..] == Joined(ss[1..]);
      JoinedIsRead(ss[1..]);
      assert ss == [ss[0]] + ss[1..];
    }
  }

  lemma NoSemicolonAt(s: string)
    requires ';' !in s
    ensures IndexOf(s, ';') == |s|
  {
  }

  /** What adjustStyle writes into a style attribute is what it reads back from it, if and only
      if every style is a single property without blanks at its ends. */
  lemma ReadBackIffProperties(ss: seq<string>)
    ensures Properties(Joined(ss)) == ss <==> AreProperties(ss)
  {
    if AreProperties(ss) { JoinedIsRead(ss); }
  }
}
