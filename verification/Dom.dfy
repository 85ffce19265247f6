/** The document around the cursor (the input line) of WebTerminal, as a zipper: the elements that
    enclose the cursor, and at every level what stands before and after it.
    popStyle moves the cursor out of the innermost element. */
module Dom {
  import opened StyleAttribute

  /** The tag of an element and the attributes that the style engine looks at; "" stands for an
      absent one. */
  datatype Attrs = Attrs(tag: string, cls: string, style: string, std: string)

  const SPAN: string := "span"

  datatype Node =
    | Text(data: string)
    | Elem(attrs: Attrs, kids: seq<Node>)

  datatype Place =
    | Body(before: seq<Node>, after: seq<Node>)
    | Inside(outer: Place, attrs: Attrs, before: seq<Node>, after: seq<Node>)

  // ---------- What the document says about every character ----------

  /** A character and the elements around it, outermost first. */
  datatype Cell = Cell(ch: char, around: seq<Attrs>)

  function Cells(s: string, around: seq<Attrs>): (r: seq<Cell>)
    ensures |r| == |s|
    ensures forall i :: 0 <= i < |s| ==> r[i] == Cell(s[i], around)
  {
    seq(|s|, i requires 0 <= i < |s| => Cell(s[i], around))
  }

  function Flat(nodes: seq<Node>, around: seq<Attrs>): seq<Cell>
    decreases nodes
  {
    if |nodes| == 0 then []
    else
      Flat(nodes[..|nodes| - 1], around) +
      match nodes[|nodes| - 1]
      case Text(s) => Cells(s, around)
      case Elem(attrs, kids) => Flat(kids, around + [attrs])
  }

  /** The elements around the cursor, outermost first. */
  function Around(p: Place): (r: seq<Attrs>)
    ensures |r| == Depth(p)
  {
    match p
    case Body(_, _) => []
    case Inside(outer, attrs, _, _) => Around(outer) + [attrs]
  }

  function Depth(p: Place): nat {
    if p.Body? then 0 else 1 + Depth(p.outer)
  }

  /** The same place with other neighbours. */
  function With(p: Place, before: seq<Node>, after: seq<Node>): (r: Place)
    ensures r.before == before && r.after == after && Depth(r) == Depth(p) && Around(r) == Around(p)
    ensures r.Body? == p.Body? && (p.Inside? ==> r.outer == p.outer)
  {
    if p.Body? then Body(before, after) else Inside(p.outer, p.attrs, before, after)
  }

  /** The characters before the cursor, and those after it. */
  function Before(p: Place): seq<Cell> {
    (if p.Body? then [] else Before(p.outer)) + Flat(p.before, Around(p))
  }

  function After(p: Place): seq<Cell> {
    Flat(p.after, Around(p)) + if p.Body? then [] else After(p.outer)
  }

  /** The document as a plain tree. */
  function Whole(p: Place): seq<Node>
    decreases Depth(p)
  {
    if p.Body? then p.before + p.after else Whole(Closed(p))
  }

  /** The place just behind the innermost element. */
  function Closed(p: Place): Place
    requires p.Inside?
  {
    With(p.outer, p.outer.before + [Elem(p.attrs, p.before + p.after)], p.outer.after)
  }

  function FlatNode(n: Node, around: seq<Attrs>): seq<Cell> {
    match n
    case Text(s) => Cells(s, around)
    case Elem(attrs, kids) => Flat(kids, around + [attrs])
  }

  lemma FlatLast(front: seq<Node>, last: Node, around: seq<Attrs>)
    ensures Flat(front + [last], around) == Flat(front, around) + FlatNode(last, around)
  {
    assert (front + [last])[..|front|] == front;
  }

  lemma {:induction false} FlatAppend(a: seq<Node>, b: seq<Node>, around: seq<Attrs>)
    ensures Flat(a + b, around) == Flat(a, around) + Flat(b, around)
    decreases |b|
  {
    hide Flat, FlatNode;
    FlatNone(around);
    if |b| == 0 {
      assert a + b == a && b == [];
    } else {
      var front := b[..|b| - 1];
      FlatAppend(a, front, around);
      FlatLast(a + front, b[|b| - 1], around);
      FlatLast(front, b[|b| - 1], around);
      assert a + b == a + front + [b[|b| - 1]] && b == front + [b[|b| - 1]];
    }
  }

  lemma FlatOne(n: Node, around: seq<Attrs>)
    ensures n.Text? ==> Flat([n], around) == Cells(n.data, around)
    ensures n.Elem? ==> Flat([n], around) == Flat(n.kids, around + [n.attrs])
  {
    assert [n][..0] == [];
    assert Flat([n][..0], around) == [];
  }

  lemma FlatNone(around: seq<Attrs>)
    ensures Flat([], around) == []
  {
  }

  /** Reading the zipper from the cursor to both sides is reading the whole tree. */
  lemma {:induction false} FlatIsWhole(p: Place)
    ensures Flat(Whole(p), []) == Before(p) + After(p)
    decreases Depth(p)
  {
    hide Flat;
    if p.Body? {
      FlatAppend(p.before, p.after, []);
    } else {
      FlatIsWhole(Closed(p));
      BeforeAppend(p.outer, p.outer.before, [Elem(p.attrs, p.before + p.after)], p.outer.after);
      FlatOne(Elem(p.attrs, p.before + p.after), Around(p.outer));
      FlatAppend(p.before, p.after, Around(p));
      assert Before(Closed(p)) == Before(p.outer) + (Flat(p.before, Around(p)) + Flat(p.after, Around(p)));
      assert After(Closed(p)) == After(p.outer);
    }
  }

  /** The neighbours of a place count as they do in their lists. */
  lemma BeforeAppend(p: Place, before: seq<Node>, more: seq<Node>, after: seq<Node>)
    requires before == p.before
    ensures Before(With(p, before + more, after)) == Before(p) + Flat(more, Around(p))
    ensures after == p.after ==> After(With(p, before + more, after)) == After(p)
  {
    hide Flat, Around;
    FlatAppend(before, more, Around(p));
  }

  lemma AfterPrepend(p: Place, before: seq<Node>, more: seq<Node>)
    ensures After(With(p, before, more + p.after)) == Flat(more, Around(p)) + After(p)
  {
    hide Flat, Around;
    FlatAppend(more, p.after, Around(p));
  }

  // ---------- popStyle ----------

  /** The cursor leaves the innermost element. The element keeps what stood before the cursor;
      what stood after it, if anything, goes to a span with the same class and style. */
  function Pop(p: Place): (q: Place)
    requires p.Inside?
    ensures Depth(q) == Depth(p) - 1 && Around(q) == Around(p.outer)
  {
    With(p.outer, p.outer.before + [Elem(p.attrs, p.before)], RightHalf(p) + p.outer.after)
  }

  function RightHalf(p: Place): seq<Node>
    requires p.Inside?
  {
    if |p.after| == 0 then [] else [Elem(Copied(p.attrs), p.after)]
  }

  function Copied(attrs: Attrs): Attrs {
    attrs.(tag := SPAN, std := "")
  }

  function PopN(p: Place, n: nat): Place
    requires n <= Depth(p)
    decreases n
  {
    if n == 0 then p else PopN(Pop(p), n - 1)
  }

  /** What stands before the cursor keeps everything around it; what stands after it has a span
      without std in place of the element that was split. */
  lemma PopCells(p: Place)
    requires p.Inside?
    ensures Before(Pop(p)) == Before(p)
    ensures After(Pop(p)) == Flat(p.after, Around(p.outer) + [Copied(p.attrs)]) + After(p.outer)
  {
    hide Flat;
    BeforeAppend(p.outer, p.outer.before, [Elem(p.attrs, p.before)], RightHalf(p) + p.outer.after);
    AfterPrepend(p.outer, Pop(p).before, RightHalf(p));
    FlatOne(Elem(p.attrs, p.before), Around(p.outer));
    FlatNone(Around(p.outer) + [Copied(p.attrs)]);
    FlatNone(Around(p.outer));
    if |p.after| > 0 { FlatOne(Elem(Copied(p.attrs), p.after), Around(p.outer)); }
  }

  // ---------- The styles around a character ----------

  function StylesOf(around: seq<Attrs>): seq<string> {
    if |around| == 0 then [] else StylesOf(around[..|around| - 1]) + Properties(around[|around| - 1].style)
  }

  /** A character with the list of style properties around it, and its class names. */
  datatype Glyph = Glyph(ch: char, styles: seq<string>, classes: seq<string>)

  function ClassesOf(around: seq<Attrs>): seq<string> {
    seq(|around|, i requires 0 <= i < |around| => around[i].cls)
  }

  function Look(cells: seq<Cell>): (r: seq<Glyph>)
    ensures |r| == |cells|
    ensures forall i :: 0 <= i < |r| ==>
      r[i] == Glyph(cells[i].ch, StylesOf(cells[i].around), ClassesOf(cells[i].around))
  {
    seq(|cells|, i requires 0 <= i < |cells| =>
      Glyph(cells[i].ch, StylesOf(cells[i].around), ClassesOf(cells[i].around)))
  }

  /** Two lists of enclosing elements that differ in tag and std only. */
  predicate Alike(a: seq<Attrs>, b: seq<Attrs>) {
    |a| == |b| && forall i :: 0 <= i < |a| ==> Copied(a[i]) == Copied(b[i])
  }

  lemma {:induction false} AlikeStyles(a: seq<Attrs>, b: seq<Attrs>)
    requires Alike(a, b)
    ensures StylesOf(a) == StylesOf(b) && ClassesOf(a) == ClassesOf(b)
    decreases |a|
  {
    if |a| > 0 {
      assert Copied(a[|a| - 1]) == Copied(b[|b| - 1]);
      AlikeStyles(a[..|a| - 1], b[..|b| - 1]);
    }
    assert forall i :: 0 <= i < |a| ==> Copied(a[i]) == Copied(b[i]) ==> a[i].cls == b[i].cls;
  }

  lemma {:induction false} AlikeLook(nodes: seq<Node>, a: seq<Attrs>, b: seq<Attrs>)
    requires Alike(a, b)
    ensures Look(Flat(nodes, a)) == Look(Flat(nodes, b))
    decreases nodes
  {
    if |nodes| > 0 {
      var front, last := nodes[..|nodes| - 1], nodes[|nodes| - 1];
      AlikeLook(front, a, b);
      AlikeStyles(a, b);
      match last
      case Text(s) =>
        LookAppend(Flat(front, a), Cells(s, a));
        LookAppend(Flat(front, b), Cells(s, b));
        assert Look(Cells(s, a)) == Look(Cells(s, b));
      case Elem(attrs, kids) =>
        AlikeLook(kids, a + [attrs], b + [attrs]);
        LookAppend(Flat(front, a), Flat(kids, a + [attrs]));
        LookAppend(Flat(front, b), Flat(kids, b + [attrs]));
    }
  }

  lemma LookAppend(a: seq<Cell>, b: seq<Cell>)
    ensures Look(a + b) == Look(a) + Look(b)
  {
  }

  /** popStyle changes no character, no style and no class of the document. */
  lemma PopPreserves(p: Place)
    requires p.Inside?
    ensures Before(Pop(p)) == Before(p)
    ensures Look(After(Pop(p))) == Look(After(p))
  {
    PopCells(p);
    var copied := Around(p.outer) + [Copied(p.attrs)];
    AlikeLook(p.after, Around(p), copied);
    LookAppend(Flat(p.after, Around(p)), After(p.outer));
    LookAppend(Flat(p.after, copied), After(p.outer));
  }

  lemma {:induction false} PopNPreserves(p: Place, n: nat)
    requires n <= Depth(p)
    ensures Before(PopN(p, n)) == Before(p)
    ensures Look(After(PopN(p, n))) == Look(After(p))
    ensures Around(PopN(p, n)) == Around(p)[..|Around(p)| - n]
    decreases n
  {
    hide Flat, Before, After, Look;
    if n > 0 {
      PopPreserves(p);
      PopNPreserves(Pop(p), n - 1);
    }
  }

  /** Everything around every character survives popStyle, if and only if the split element is a
      span without std attribute or no character stands between the cursor and its end. */
  lemma PopKeepsAll(p: Place)
    requires p.Inside?
    ensures After(Pop(p)) == After(p) <==> p.attrs == Copied(p.attrs) || Flat(p.after, Around(p)) == []
  {
    PopCells(p);
    var was, now := Around(p), Around(p.outer) + [Copied(p.attrs)];
    var f, g := Flat(p.after, was), Flat(p.after, now);
    var d := |was| - 1;
    FlatAround(p.after, was);
    FlatAround(p.after, now);
    FlatSize(p.after, was, now);
    if p.attrs != Copied(p.attrs) && f != [] {
      assert f[0].around[..|was|][d] == p.attrs && g[0].around[..|now|][d] == Copied(p.attrs);
      assert After(p)[0] == f[0] && After(Pop(p))[0] == g[0];
    }
  }

  lemma {:induction false} FlatAround(nodes: seq<Node>, around: seq<Attrs>)
    ensures forall c :: c in Flat(nodes, around) ==> around <= c.around
    decreases nodes
  {
    if |nodes| > 0 {
      FlatAround(nodes[..|nodes| - 1], around);
      var last := nodes[|nodes| - 1];
      if last.Elem? { FlatAround(last.kids, around + [last.attrs]); }
    }
  }

  lemma {:induction false} FlatSize(nodes: seq<Node>, a: seq<Attrs>, b: seq<Attrs>)
    ensures |Flat(nodes, a)| == |Flat(nodes, b)|
    decreases nodes
  {
    if |nodes| > 0 {
      FlatSize(nodes[..|nodes| - 1], a, b);
      var last := nodes[|nodes| - 1];
      if last.Elem? { FlatSize(last.kids, a + [last.attrs], b + [last.attrs]); }
    }
  }
}
