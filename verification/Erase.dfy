/** eraseCharactersRight of WebTerminal, deleting: what goes is counted in columns along the line,
    whatever elements the characters stand in. */
module Erase {
  import opened Dom

  predicate IsLineEnd(ch: char) {
    ch == '\n' || ch == '\r' || ch == 12 as char
  }

  predicate IsBreak(tag: string) {
    tag == "br"
  }

  predicate IsObject(tag: string) {
    tag == "a" || tag == "object" || tag == "img"
  }

  predicate IsBlock(tag: string) {
    tag == "p" || tag == "div" || tag == "pre"
  }

  /** The columns up to the end of ch; column is the cursor's, seen what lies between. */
  function Advance(ch: char, column: nat, seen: nat): (r: nat) {
    if ' ' <= ch < 127 as char then seen + 1
    else if ch == '\t' then (column + seen) / 8 * 8 + 8 - column
    else if ch == 0x200B as char then seen
    else seen + 1
  }

  // ---------- What the traversal meets ----------

  /** A character, something that ends the deletion, or something that goes in one piece; the latter two
      with the number of characters in them. */
  datatype Mark = Ch(ch: char) | Stop(size: nat) | Thing(size: nat)

  /** How far a deletion gets: marks and characters deleted, columns seen, what is left of the count after
      the things that went, and whether it is over. */
  datatype Scan = Scan(marks: nat, taken: nat, seen: nat, count: nat, over: bool)

  function SizeOf(m: Mark): nat {
    if m.Ch? then 1 else m.size
  }

  function ScanLine(line: seq<Mark>, count: nat, column: nat, seen: nat): (r: Scan)
    ensures r.marks <= |line| && (!r.over ==> r.marks == |line|)
  {
    if seen >= count then Scan(0, 0, seen, count, true)
    else if |line| == 0 then Scan(0, 0, seen, count, false)
    else match line[0]
      case Stop(_) => Scan(0, 0, seen, count, true)
      case Thing(size) => Past(ScanLine(line[1..], count - 1, column, seen), size)
      case Ch(ch) =>
        if IsLineEnd(ch) then Scan(0, 0, seen, count, true)
        else Past(ScanLine(line[1..], count, column, Advance(ch, column, seen)), 1)
  }

  function Past(s: Scan, size: nat): Scan {
    s.(marks := s.marks + 1, taken := s.taken + size)
  }

  function TextMarks(s: string): (r: seq<Mark>)
    ensures |r| == |s| && forall i :: 0 <= i < |s| ==> r[i] == Ch(s[i])
  {
    seq(|s|, i requires 0 <= i < |s| => Ch(s[i]))
  }

  /** The marks of a node, given those of the nodes in it; last tells whether a sibling follows. */
  function NodeMarks(n: Node, last: bool, inside: seq<Mark>): seq<Mark> {
    match n
    case Text(s) => TextMarks(s)
    case Elem(attrs, kids) =>
      if IsBreak(attrs.tag) then [Stop(|Flat(kids, [])|)]
      else if IsObject(attrs.tag) then [Thing(|Flat(kids, [])|)]
      else if |kids| > 0 then inside
      else if IsBlock(attrs.tag) && last then [Stop(0)]
      else []
  }

  function Marks(nodes: seq<Node>): seq<Mark>
    decreases nodes
  {
    if |nodes| == 0 then []
    else
      var inside := match nodes[0] case Text(_) => [] case Elem(_, kids) => Marks(kids);
      NodeMarks(nodes[0], |nodes| == 1, inside) + Marks(nodes[1..])
  }

  function MarksFrom(p: Place): seq<Mark> {
    Marks(p.after) + if p.Body? then [] else MarksFrom(p.outer)
  }

  function Columns(count: int): nat {
    if count < 0 then 0x7fff_ffff else count
  }

  // ---------- On the tree ----------

  /** The nodes after deleting from the front of a list of siblings, and how far it got. */
  datatype Rest = Rest(nodes: seq<Node>, seen: nat, count: nat, over: bool)

  function Erased(nodes: seq<Node>, count: nat, column: nat, seen: nat): (r: Rest)
    decreases nodes
  {
    if seen >= count || |nodes| == 0 then Rest(nodes, seen, count, seen >= count)
    else match nodes[0]
      case Text(s) =>
        var scan := ScanLine(TextMarks(s), count, column, seen);
        if scan.marks == |s| then Erased(nodes[1..], count, column, scan.seen)
        else Rest([Text(s[scan.marks..])] + nodes[1..], scan.seen, count, true)
      case Elem(attrs, kids) =>
        if IsBreak(attrs.tag) then Rest(nodes, seen, count, true)
        else if IsObject(attrs.tag) then Erased(nodes[1..], count - 1, column, seen)
        else if |kids| == 0 then
          if IsBlock(attrs.tag) && |nodes| == 1 then Rest(nodes, seen, count, true)
          else After1([nodes[0]], Erased(nodes[1..], count, column, seen))
        else
          var inner := Erased(kids, count, column, seen);
          if inner.over then inner.(nodes := [Elem(attrs, inner.nodes)] + nodes[1..])
          else
            After1(if attrs.tag == SPAN && |inner.nodes| == 0 then [] else [Elem(attrs, inner.nodes)],
                   Erased(nodes[1..], inner.count, column, inner.seen))
  }

  function After1(front: seq<Node>, r: Rest): Rest {
    r.(nodes := front + r.nodes)
  }

  /** From the cursor on, out of one element after the other. */
  function ErasedFrom(p: Place, count: nat, column: nat, seen: nat): Place {
    var r := Erased(p.after, count, column, seen);
    if r.over || p.Body? then With(p, p.before, r.nodes)
    else Inside(ErasedFrom(p.outer, r.count, column, r.seen), p.attrs, p.before, r.nodes)
  }

  // ---------- On the text ----------

  lemma {:induction false} ScanAppend(a: seq<Mark>, b: seq<Mark>, count: nat, column: nat, seen: nat)
    ensures ScanLine(a + b, count, column, seen) == ScanOn(ScanLine(a, count, column, seen), b, column)
    decreases |a|
  {
    hide Advance, IsLineEnd;
    if |a| == 0 {
      assert a + b == b;
    } else if seen < count {
      assert (a + b)[0] == a[0] && (a + b)[1..] == a[1..] + b;
      match a[0]
      case Stop(_) =>
      case Thing(_) => ScanAppend(a[1..], b, count - 1, column, seen);
      case Ch(ch) => ScanAppend(a[1..], b, count, column, Advance(ch, column, seen));
    }
  }

  /** A scan that goes on with b where it has not stopped before. */
  function ScanOn(first: Scan, b: seq<Mark>, column: nat): Scan {
    if first.over then first
    else
      var second := ScanLine(b, first.count, column, first.seen);
      second.(marks := first.marks + second.marks, taken := first.taken + second.taken)
  }

  /** What deleting leaves: all but the scanned part of the cells, and of the marks unless a block is
      among them, which can come to stand last. */
  predicate Leaves(cells: seq<Cell>, marks: seq<Mark>, left: seq<Cell>, leftMarks: seq<Mark>, r: Rest, blocks: bool,
                   count: nat, column: nat, seen: nat)
  {
    var scan := ScanLine(marks, count, column, seen);
    && scan.taken <= |cells| && left == cells[scan.taken..]
    && (!scan.over ==> scan.taken == |cells|)
    && (r.seen, r.count, r.over) == (scan.seen, scan.count, scan.over)
    && (!blocks ==> leftMarks == marks[scan.marks..])
  }

  /** A block stands among the nodes or in them. */
  predicate HasBlock(nodes: seq<Node>)
    decreases nodes
  {
    |nodes| > 0 &&
    (HasBlock(nodes[1..]) || (nodes[0].Elem? && (IsBlock(nodes[0].attrs.tag) || HasBlock(nodes[0].kids))))
  }

  lemma LeavesFirst(a: seq<Cell>, ma: seq<Mark>, b: seq<Cell>, mb: seq<Mark>, left: seq<Cell>, leftMarks: seq<Mark>,
                    r: Rest,
                    blocks: bool, count: nat, column: nat, seen: nat)
    requires Leaves(a, ma, left, leftMarks, r, blocks, count, column, seen) && r.over
    ensures Leaves(a + b, ma + mb, left + b, leftMarks + mb, r, blocks, count, column, seen)
  {
    hide ScanLine;
    ScanAppend(ma, mb, count, column, seen);
    var scan := ScanLine(ma, count, column, seen);
    assert (a + b)[scan.taken..] == a[scan.taken..] + b;
    assert (ma + mb)[scan.marks..] == ma[scan.marks..] + mb;
  }

  lemma LeavesBoth(a: seq<Cell>, ma: seq<Mark>, b: seq<Cell>, mb: seq<Mark>, mid: Rest, none: seq<Mark>,
                   left: seq<Cell>, leftMarks: seq<Mark>, r: Rest, blocks: bool, count: nat, column: nat, seen: nat)
    requires Leaves(a, ma, [], none, mid, blocks, count, column, seen) && !mid.over
    requires Leaves(b, mb, left, leftMarks, r, blocks, mid.count, column, mid.seen)
    ensures Leaves(a + b, ma + mb, left, leftMarks, r, blocks, count, column, seen)
    ensures !blocks ==> none == []
  {
    hide ScanLine;
    ScanAppend(ma, mb, count, column, seen);
    var scan, more := ScanLine(ma, count, column, seen), ScanLine(mb, mid.count, column, mid.seen);
    assert (a + b)[|a| + more.taken..] == b[more.taken..];
    assert (ma + mb)[|ma| + more.marks..] == mb[more.marks..];
  }

  lemma NothingLeft(cells: seq<Cell>, marks: seq<Mark>, left: seq<Cell>, leftMarks: seq<Mark>, r: Rest, blocks: bool,
                    count: nat, column: nat, seen: nat)
    requires Leaves(cells, marks, left, leftMarks, r, blocks, count, column, seen) && !r.over
    ensures left == [] && (!blocks ==> leftMarks == [])
  {
  }

  // ---------- Lists of siblings ----------

  predicate LeavesNodes(nodes: seq<Node>, around: seq<Attrs>, r: Rest, count: nat, column: nat, seen: nat) {
    Leaves(Flat(nodes, around), Marks(nodes), Flat(r.nodes, around), Marks(r.nodes), r, HasBlock(nodes), count, column,
           seen)
  }

  /** The cells and marks of the first node. */
  function HeadMarks(n: Node, last: bool): seq<Mark> {
    NodeMarks(n, last, if n.Text? then [] else Marks(n.kids))
  }

  lemma MarksHead(n: Node, tail: seq<Node>)
    ensures Marks([n] + tail) == HeadMarks(n, |tail| == 0) + Marks(tail)
  {
    MarksByHead([n] + tail);
    assert ([n] + tail)[1..] == tail;
  }

  lemma MarksByHead(nodes: seq<Node>)
    requires |nodes| > 0
    ensures Marks(nodes) == HeadMarks(nodes[0], |nodes| == 1) + Marks(nodes[1..])
  {
    hide NodeMarks;
  }

  lemma FlatHead(n: Node, tail: seq<Node>, around: seq<Attrs>)
    ensures Flat([n] + tail, around) == FlatNode(n, around) + Flat(tail, around)
    ensures n.Text? ==> FlatNode(n, around) == Cells(n.data, around)
    ensures n.Elem? ==> FlatNode(n, around) == Flat(n.kids, around + [n.attrs])
  {
    FlatHeadOnly(n, tail, around);
  }

  lemma FlatHeadOnly(n: Node, tail: seq<Node>, around: seq<Attrs>)
    ensures Flat([n] + tail, around) == FlatNode(n, around) + Flat(tail, around)
  {
    hide Flat, FlatNode;
    FlatAppend([n], tail, around);
    assert [] + [n] == [n];
    FlatLast([], n, around);
    FlatNone(around);
    assert [] + FlatNode(n, around) == FlatNode(n, around);
  }

  lemma HeadOf(nodes: seq<Node>)
    requires |nodes| > 0
    ensures nodes == [nodes[0]] + nodes[1..]
  {
  }

  lemma MarksNone()
    ensures Marks([]) == []
  {
  }

  lemma NoMoreBlocks(nodes: seq<Node>)
    requires |nodes| > 0 && !HasBlock(nodes)
    ensures !HasBlock(nodes[1..])
    ensures nodes[0].Elem? ==> !IsBlock(nodes[0].attrs.tag) && !HasBlock(nodes[0].kids)
  {
  }

  /** Nothing goes. */
  lemma AllStays(cells: seq<Cell>, marks: seq<Mark>, blocks: bool, count: nat, column: nat, seen: nat, nodes: seq<Node>)
    requires seen >= count || (|marks| > 0 && marks[0].Stop?)
    ensures Leaves(cells, marks, cells, marks, Rest(nodes, seen, count, true), blocks, count, column, seen)
  {
  }

  lemma NothingThere(blocks: bool, count: nat, column: nat, seen: nat)
    requires seen < count
    ensures Leaves([], [], [], [], Rest([], seen, count, false), blocks, count, column, seen)
  {
  }

  /** The deletion ends in the first node, of which `left` is left. */
  lemma EndsAtHead(nodes: seq<Node>, around: seq<Attrs>, left: seq<Node>, inner: Rest, count: nat, column: nat,
                   seen: nat)
    requires |nodes| > 0 && inner.over
    requires Leaves(FlatNode(nodes[0], around), HeadMarks(nodes[0], |nodes| == 1), Flat(left, around), Marks(left),
                    inner,
                    HasBlock(nodes), count, column, seen)
    requires |left| == 0 || (|left| == 1 && (HasBlock(nodes) || HeadMarks(left[0], |nodes| == 1) == Marks(left)))
    ensures LeavesNodes(nodes, around, inner.(nodes := left + nodes[1..]), count, column, seen)
  {
    hide Leaves, Flat, Marks, HeadMarks, FlatNode, HasBlock;
    var tail := nodes[1..];
    HeadOf(nodes);
    FlatHead(nodes[0], tail, around);
    MarksHead(nodes[0], tail);
    LeavesFirst(FlatNode(nodes[0], around), HeadMarks(nodes[0], |nodes| == 1), Flat(tail, around), Marks(tail),
                Flat(left, around), Marks(left), inner, HasBlock(nodes), count, column, seen);
    FlatAppend(left, tail, around);
    if |left| == 0 {
      assert left + tail == tail;
      MarksNone();
      assert [] + Marks(tail) == Marks(tail);
    } else {
      assert left == [left[0]];
      MarksHead(left[0], tail);
    }
    LeavesAlike(Flat(nodes, around), Marks(nodes), Flat(left + tail, around), Marks(left) + Marks(tail),
                Marks(left + tail),
                inner, inner.(nodes := left + tail), HasBlock(nodes), count, column, seen);
  }

  lemma LeavesAlike(cells: seq<Cell>, marks: seq<Mark>, left: seq<Cell>, m1: seq<Mark>, m2: seq<Mark>, r1: Rest,
                    r2: Rest,
                    blocks: bool, count: nat, column: nat, seen: nat)
    requires Leaves(cells, marks, left, m1, r1, blocks, count, column, seen)
    requires (r1.seen, r1.count, r1.over) == (r2.seen, r2.count, r2.over) && (blocks || m1 == m2)
    ensures Leaves(cells, marks, left, m2, r2, blocks, count, column, seen)
  {
  }

  /** The deletion goes on behind the first node, of which an empty element may stay. */
  lemma GoesOn(nodes: seq<Node>, around: seq<Attrs>, keep: seq<Node>, inner: Rest, none: seq<Mark>, count: nat,
               column: nat, seen: nat)
    requires |nodes| > 0 && !inner.over
    requires Leaves(FlatNode(nodes[0], around), HeadMarks(nodes[0], |nodes| == 1), [], none, inner,
                    HasBlock(nodes), count, column, seen)
    requires LeavesNodes(nodes[1..], around, Erased(nodes[1..], inner.count, column, inner.seen), inner.count, column,
                         inner.seen)
    requires |keep| == 0 || (|keep| == 1 && FlatNode(keep[0], around) == [])
    requires |keep| == 1 && !HasBlock(nodes) ==> HeadMarks(keep[0], true) == HeadMarks(keep[0], false) == []
    ensures LeavesNodes(nodes, around, After1(keep, Erased(nodes[1..], inner.count, column, inner.seen)), count,
                        column, seen)
  {
    hide Leaves, Flat, Marks, HeadMarks, FlatNode, HasBlock, Erased;
    var tail := nodes[1..];
    var r := Erased(tail, inner.count, column, inner.seen);
    var blocks := HasBlock(nodes);
    HeadOf(nodes);
    FlatHead(nodes[0], tail, around);
    MarksHead(nodes[0], tail);
    if !blocks { NoMoreBlocks(nodes); }
    LeavesMore(Flat(tail, around), Marks(tail), Flat(r.nodes, around), Marks(r.nodes), r, HasBlock(tail), blocks,
               inner.count, column, inner.seen);
    LeavesBoth(FlatNode(nodes[0], around), HeadMarks(nodes[0], |nodes| == 1), Flat(tail, around), Marks(tail), inner,
               none,
               Flat(r.nodes, around), Marks(r.nodes), r, blocks, count, column, seen);
    if |keep| == 0 {
      assert keep + r.nodes == r.nodes;
    } else {
      assert keep == [keep[0]];
      FlatHead(keep[0], r.nodes, around);
      MarksHead(keep[0], r.nodes);
      assert [] + Flat(r.nodes, around) == Flat(r.nodes, around);
      assert [] + Marks(r.nodes) == Marks(r.nodes);
    }
    LeavesAlike(Flat(nodes, around), Marks(nodes), Flat(r.nodes, around), Marks(r.nodes), Marks(keep + r.nodes),
                r, After1(keep, r), blocks, count, column, seen);
  }

  lemma LeavesMore(cells: seq<Cell>, marks: seq<Mark>, left: seq<Cell>, leftMarks: seq<Mark>, r: Rest, some: bool,
                   more: bool,
                   count: nat, column: nat, seen: nat)
    requires Leaves(cells, marks, left, leftMarks, r, some, count, column, seen) && (some ==> more)
    ensures Leaves(cells, marks, left, leftMarks, r, more, count, column, seen)
  {
  }

  // ---------- The kinds of first nodes ----------

  lemma {:induction false} TextScan(s: string, count: nat, column: nat, seen: nat)
    ensures var scan := ScanLine(TextMarks(s), count, column, seen);
            && scan.taken == scan.marks <= |s| && scan.count == count
            && (scan.marks == |s| ==> scan.over == (scan.seen >= count))
    decreases |s|
  {
    hide Advance, IsLineEnd;
    if |s| > 0 && seen < count {
      assert TextMarks(s)[1..] == TextMarks(s[1..]);
      TextScan(s[1..], count, column, Advance(s[0], column, seen));
    }
  }

  lemma LeavesText(s: string, around: seq<Attrs>, blocks: bool, count: nat, column: nat, seen: nat)
    ensures var scan := ScanLine(TextMarks(s), count, column, seen);
            Leaves(Cells(s, around), TextMarks(s), Cells(s[scan.marks..], around), TextMarks(s[scan.marks..]),
                   Rest([], scan.seen, count, scan.over), blocks, count, column, seen)
  {
    hide ScanLine;
    TextScan(s, count, column, seen);
    var k := ScanLine(TextMarks(s), count, column, seen).marks;
    assert Cells(s, around)[k..] == Cells(s[k..], around);
    assert TextMarks(s)[k..] == TextMarks(s[k..]);
  }

  lemma TextFirst(nodes: seq<Node>, around: seq<Attrs>, count: nat, column: nat, seen: nat)
    requires |nodes| > 0 && nodes[0].Text? && seen < count
    requires var scan := ScanLine(TextMarks(nodes[0].data), count, column, seen);
             scan.marks == |nodes[0].data| ==>
               LeavesNodes(nodes[1..], around, Erased(nodes[1..], count, column, scan.seen), count, column, scan.seen)
    ensures LeavesNodes(nodes, around, Erased(nodes, count, column, seen), count, column, seen)
  {
    hide Leaves, ScanLine, Flat, Marks, HasBlock;
    var s := nodes[0].data;
    var scan := ScanLine(TextMarks(s), count, column, seen);
    LeavesText(s, around, HasBlock(nodes), count, column, seen);
    TextScan(s, count, column, seen);
    FlatHead(nodes[0], nodes[1..], around);
    NoText(around);
    var inner := Rest([], scan.seen, count, scan.over);
    if scan.marks < |s| {
      var rest := Text(s[scan.marks..]);
      OneText(rest, around);
      ScanStops(TextMarks(s), count, column, seen);
      EndsAtHead(nodes, around, [rest], inner, count, column, seen);
    } else {
      assert s[scan.marks..] == "";
      if scan.over {
        EndsAtHead(nodes, around, [], inner, count, column, seen);
        assert [] + nodes[1..] == nodes[1..];
      } else {
        GoesOn(nodes, around, [], inner, [], count, column, seen);
        assert [] + Erased(nodes[1..], count, column, scan.seen).nodes == Erased(nodes[1..], count, column,
            scan.seen).nodes;
      }
    }
  }

  lemma ScanStops(line: seq<Mark>, count: nat, column: nat, seen: nat)
    ensures ScanLine(line, count, column, seen).marks < |line| ==> ScanLine(line, count, column, seen).over
  {
  }

  lemma NoText(around: seq<Attrs>)
    ensures Cells("", around) == [] == Flat([], around) && TextMarks("") == [] == Marks([])
  {
  }

  lemma OneText(n: Node, around: seq<Attrs>)
    requires n.Text?
    ensures Flat([n], around) == Cells(n.data, around) && Marks([n]) == TextMarks(n.data)
    ensures HeadMarks(n, true) == HeadMarks(n, false) == TextMarks(n.data)
  {
    FlatOne(n, around);
    assert [n][1..] == [];
    MarksNone();
    assert TextMarks(n.data) + [] == TextMarks(n.data);
  }

  lemma ObjectFirst(nodes: seq<Node>, around: seq<Attrs>, count: nat, column: nat, seen: nat)
    requires |nodes| > 0 && nodes[0].Elem? && IsObject(nodes[0].attrs.tag) && seen < count
    requires LeavesNodes(nodes[1..], around, Erased(nodes[1..], count - 1, column, seen), count - 1, column, seen)
    ensures LeavesNodes(nodes, around, Erased(nodes, count, column, seen), count, column, seen)
  {
    hide Leaves, Flat, Marks, HasBlock, ScanLine;
    var kids, inside := nodes[0].kids, Flat(nodes[0].kids, around + [nodes[0].attrs]);
    FlatHead(nodes[0], nodes[1..], around);
    FlatSize(kids, [], around + [nodes[0].attrs]);
    NoText(around);
    var inner := Rest([], seen, count - 1, seen >= count - 1);
    LeavesThing(inside, HasBlock(nodes), count, column, seen);
    var r := Erased(nodes[1..], count - 1, column, seen);
    if inner.over {
      EndsAtHead(nodes, around, [], inner, count, column, seen);
      assert [] + nodes[1..] == nodes[1..];
    } else {
      GoesOn(nodes, around, [], inner, [], count, column, seen);
      assert [] + r.nodes == r.nodes;
    }
  }

  lemma LeavesThing(cells: seq<Cell>, blocks: bool, count: nat, column: nat, seen: nat)
    requires seen < count
    ensures Leaves(cells, [Thing(|cells|)], [], [], Rest([], seen, count - 1, seen >= count - 1), blocks, count,
                   column, seen)
  {
    assert [Thing(|cells|)][1..] == [];
  }

  lemma ElementFirst(nodes: seq<Node>, around: seq<Attrs>, count: nat, column: nat, seen: nat)
    requires |nodes| > 0 && nodes[0].Elem? && seen < count && |nodes[0].kids| > 0
    requires !IsBreak(nodes[0].attrs.tag) && !IsObject(nodes[0].attrs.tag)
    requires var inner := Erased(nodes[0].kids, count, column, seen);
             && LeavesNodes(nodes[0].kids, around + [nodes[0].attrs], inner, count, column, seen)
             && (!inner.over ==>
                   LeavesNodes(nodes[1..], around, Erased(nodes[1..], inner.count, column, inner.seen),
                               inner.count, column, inner.seen))
    ensures LeavesNodes(nodes, around, Erased(nodes, count, column, seen), count, column, seen)
  {
    hide Leaves, Flat, Marks, HasBlock, ScanLine, FlatNode;
    var attrs, kids := nodes[0].attrs, nodes[0].kids;
    var inner := Erased(kids, count, column, seen);
    var there := around + [attrs];
    FlatHead(nodes[0], nodes[1..], around);
    if !HasBlock(nodes) { NoMoreBlocks(nodes); }
    LeavesMore(Flat(kids, there), Marks(kids), Flat(inner.nodes, there), Marks(inner.nodes), inner, HasBlock(kids),
               HasBlock(nodes), count, column, seen);
    var stays := Elem(attrs, inner.nodes);
    OneElement(stays, around);
    if inner.over {
      LeavesAlike(Flat(kids, there), Marks(kids), Flat([stays], around), Marks(inner.nodes), Marks([stays]), inner,
                  inner,
                  HasBlock(nodes), count, column, seen);
      EndsAtHead(nodes, around, [stays], inner, count, column, seen);
    } else {
      NothingLeft(Flat(kids, there), Marks(kids), Flat(inner.nodes, there), Marks(inner.nodes), inner, HasBlock(nodes),
                  count, column, seen);
      var keep := if attrs.tag == SPAN && |inner.nodes| == 0 then [] else [stays];
      GoesOn(nodes, around, keep, inner, Marks(inner.nodes), count, column, seen);
    }
  }

  lemma OneElement(n: Node, around: seq<Attrs>)
    requires n.Elem? && !IsBreak(n.attrs.tag) && !IsObject(n.attrs.tag)
    ensures Flat([n], around) == FlatNode(n, around) == Flat(n.kids, around + [n.attrs])
    ensures !IsBlock(n.attrs.tag) ==> Marks([n]) == HeadMarks(n, true) == HeadMarks(n, false) == Marks(n.kids)
  {
    FlatOne(n, around);
    if !IsBlock(n.attrs.tag) { OneElementMarks(n); }
  }

  lemma OneElementMarks(n: Node)
    requires n.Elem? && !IsBreak(n.attrs.tag) && !IsObject(n.attrs.tag) && !IsBlock(n.attrs.tag)
    ensures Marks([n]) == HeadMarks(n, true) == HeadMarks(n, false) == Marks(n.kids)
  {
    assert [n][1..] == [];
    MarksNone();
    if |n.kids| == 0 { assert n.kids == []; }
    assert Marks(n.kids) + [] == Marks(n.kids);
  }

  lemma ChildlessFirst(nodes: seq<Node>, around: seq<Attrs>, count: nat, column: nat, seen: nat)
    requires |nodes| > 0 && nodes[0].Elem? && seen < count && |nodes[0].kids| == 0
    requires !IsBreak(nodes[0].attrs.tag) && !IsObject(nodes[0].attrs.tag)
    requires !(IsBlock(nodes[0].attrs.tag) && |nodes| == 1)
    requires LeavesNodes(nodes[1..], around, Erased(nodes[1..], count, column, seen), count, column, seen)
    ensures LeavesNodes(nodes, around, Erased(nodes, count, column, seen), count, column, seen)
  {
    hide Leaves, Flat, Marks, HasBlock, ScanLine, FlatNode;
    FlatHead(nodes[0], nodes[1..], around);
    assert nodes[0].kids == [];
    FlatNone(around + [nodes[0].attrs]);
    if !HasBlock(nodes) { NoMoreBlocks(nodes); }
    NothingThere(HasBlock(nodes), count, column, seen);
    GoesOn(nodes, around, [nodes[0]], Rest([], seen, count, false), [], count, column, seen);
  }

  lemma StopsFirst(nodes: seq<Node>, around: seq<Attrs>, count: nat, column: nat, seen: nat)
    requires |nodes| > 0 && nodes[0].Elem? && seen < count
    requires IsBreak(nodes[0].attrs.tag) ||
             (!IsObject(nodes[0].attrs.tag) && |nodes[0].kids| == 0 && IsBlock(nodes[0].attrs.tag) && |nodes| == 1)
    ensures LeavesNodes(nodes, around, Erased(nodes, count, column, seen), count, column, seen)
  {
    hide Leaves, Flat, HasBlock, ScanLine;
    assert |Marks(nodes)| > 0 && Marks(nodes)[0].Stop?;
    AllStays(Flat(nodes, around), Marks(nodes), HasBlock(nodes), count, column, seen, nodes);
  }

  /** Deleting among a list of siblings deletes the scanned part of what stands there. */
  lemma {:induction false} ErasedIsScan(nodes: seq<Node>, around: seq<Attrs>, count: nat, column: nat, seen: nat)
    ensures LeavesNodes(nodes, around, Erased(nodes, count, column, seen), count, column, seen)
    decreases nodes
  {
    hide Flat, ScanLine, Leaves, LeavesNodes, Marks, HasBlock;
    if seen >= count || |nodes| == 0 {
      StaysOrEmpty(nodes, around, count, column, seen);
    } else {
      match nodes[0]
      case Text(s) =>
        var scan := ScanLine(TextMarks(s), count, column, seen);
        ErasedIsScan(nodes[1..], around, count, column, scan.seen);
        TextFirst(nodes, around, count, column, seen);
      case Elem(attrs, kids) =>
        if IsBreak(attrs.tag) || (!IsObject(attrs.tag) && |kids| == 0 && IsBlock(attrs.tag) && |nodes| == 1) {
          StopsFirst(nodes, around, count, column, seen);
        } else if IsObject(attrs.tag) {
          ErasedIsScan(nodes[1..], around, count - 1, column, seen);
          ObjectFirst(nodes, around, count, column, seen);
        } else if |kids| == 0 {
          ErasedIsScan(nodes[1..], around, count, column, seen);
          ChildlessFirst(nodes, around, count, column, seen);
        } else {
          ErasedIsScan(kids, around + [attrs], count, column, seen);
          var inner := Erased(kids, count, column, seen);
          ErasedIsScan(nodes[1..], around, inner.count, column, inner.seen);
          ElementFirst(nodes, around, count, column, seen);
        }
    }
  }

  lemma StaysOrEmpty(nodes: seq<Node>, around: seq<Attrs>, count: nat, column: nat, seen: nat)
    requires seen >= count || |nodes| == 0
    ensures LeavesNodes(nodes, around, Erased(nodes, count, column, seen), count, column, seen)
  {
    hide Leaves, Flat, ScanLine, HasBlock, Marks;
    if seen >= count {
      AllStays(Flat(nodes, around), Marks(nodes), HasBlock(nodes), count, column, seen, nodes);
    } else {
      assert nodes == [];
      NoText(around);
      NothingThere(HasBlock(nodes), count, column, seen);
    }
  }

  // ---------- From the cursor on ----------

  /** A block element stands somewhere after the cursor. */
  predicate BlockAhead(p: Place) {
    HasBlock(p.after) || (p.Inside? && BlockAhead(p.outer))
  }

  predicate LeavesAfter(p: Place, q: Place, count: nat, column: nat, seen: nat) {
    var scan := ScanLine(MarksFrom(p), count, column, seen);
    && scan.taken <= |After(p)| && After(q) == After(p)[scan.taken..]
    && (!BlockAhead(p) ==> MarksFrom(q) == MarksFrom(p)[scan.marks..])
  }

  /** eraseCharactersRight, deleting, takes away what lies within the given columns of the line after the
      cursor, and nothing else, in whatever elements it stands; nothing before the cursor changes. */
  lemma {:induction false} ErasedFromIsScan(p: Place, count: nat, column: nat, seen: nat)
    ensures LeavesAfter(p, ErasedFrom(p, count, column, seen), count, column, seen)
    ensures Before(ErasedFrom(p, count, column, seen)) == Before(p)
    ensures Around(ErasedFrom(p, count, column, seen)) == Around(p)
    decreases Depth(p)
  {
    hide Flat, ScanLine, Erased, Marks, HasBlock, Leaves;
    ErasedIsScan(p.after, Around(p), count, column, seen);
    var r := Erased(p.after, count, column, seen);
    if p.Body? {
      LeavesAtBody(p, r, count, column, seen);
    } else if r.over {
      LeavesInside(p, r, count, column, seen);
    } else {
      ErasedFromIsScan(p.outer, r.count, column, r.seen);
      LeavesOutside(p, r, ErasedFrom(p.outer, r.count, column, r.seen), count, column, seen);
    }
  }

  lemma LeavesAtBody(p: Place, r: Rest, count: nat, column: nat, seen: nat)
    requires p.Body? && LeavesNodes(p.after, Around(p), r, count, column, seen)
    ensures LeavesAfter(p, With(p, p.before, r.nodes), count, column, seen)
  {
    hide Flat, ScanLine, Marks, HasBlock;
    assert Flat(p.after, []) + [] == Flat(p.after, []) && Flat(r.nodes, []) + [] == Flat(r.nodes, []);
    assert Marks(p.after) + [] == Marks(p.after) && Marks(r.nodes) + [] == Marks(r.nodes);
  }

  lemma LeavesInside(p: Place, r: Rest, count: nat, column: nat, seen: nat)
    requires p.Inside? && LeavesNodes(p.after, Around(p), r, count, column, seen) && r.over
    ensures LeavesAfter(p, With(p, p.before, r.nodes), count, column, seen)
  {
    hide Flat, ScanLine, Marks, HasBlock, Leaves;
    var here, outside := Flat(p.after, Around(p)), After(p.outer);
    LeavesFirst(here, Marks(p.after), outside, MarksFrom(p.outer), Flat(r.nodes, Around(p)), Marks(r.nodes), r,
                HasBlock(p.after), count, column, seen);
    LeavesIs(here + outside, Marks(p.after) + MarksFrom(p.outer), Flat(r.nodes, Around(p)) + outside,
             Marks(r.nodes) + MarksFrom(p.outer), r, HasBlock(p.after), count, column, seen);
  }

  lemma LeavesOutside(p: Place, r: Rest, q: Place, count: nat, column: nat, seen: nat)
    requires p.Inside? && LeavesNodes(p.after, Around(p), r, count, column, seen) && !r.over
    requires LeavesAfter(p.outer, q, r.count, column, r.seen) && Around(q) == Around(p.outer)
    ensures LeavesAfter(p, Inside(q, p.attrs, p.before, r.nodes), count, column, seen)
  {
    hide Flat, ScanLine, Marks, HasBlock, Leaves, After, MarksFrom, Around;
    var here, mh := Flat(p.after, Around(p)), Marks(p.after);
    var next := Inside(q, p.attrs, p.before, r.nodes);
    var left, leftMarks := Flat(r.nodes, Around(p)), Marks(r.nodes);
    var blocks := BlockAhead(p);
    LeavesMore(here, mh, left, leftMarks, r, HasBlock(p.after), blocks, count, column, seen);
    NothingLeft(here, mh, left, leftMarks, r, blocks, count, column, seen);
    LeavesIs(here, mh, left, leftMarks, r, blocks, count, column, seen);
    ScanAppend(mh, MarksFrom(p.outer), count, column, seen);
    AfterInside(p);
    AfterInside(next);
    SameAround(p, next);
    var more := ScanLine(MarksFrom(p.outer), r.count, column, r.seen);
    DropBoth(here, After(p.outer), more.taken, After(q));
    if !blocks {
      DropBoth(mh, MarksFrom(p.outer), more.marks, MarksFrom(q));
    }
  }

  lemma SameAround(p: Place, q: Place)
    requires p.Inside? && q.Inside? && p.attrs == q.attrs && Around(p.outer) == Around(q.outer)
    ensures Around(p) == Around(q)
  {
  }

  lemma DropBoth<T>(a: seq<T>, b: seq<T>, n: nat, c: seq<T>)
    requires n <= |b| && c == b[n..]
    ensures (a + b)[|a| + n..] == [] + c
  {
  }

  lemma AfterInside(p: Place)
    requires p.Inside?
    ensures After(p) == Flat(p.after, Around(p)) + After(p.outer)
    ensures MarksFrom(p) == Marks(p.after) + MarksFrom(p.outer)
  {
  }

  /** What Leaves says. */
  lemma LeavesIs(cells: seq<Cell>, marks: seq<Mark>, left: seq<Cell>, leftMarks: seq<Mark>, r: Rest, blocks: bool,
                 count: nat, column: nat, seen: nat)
    requires Leaves(cells, marks, left, leftMarks, r, blocks, count, column, seen)
    ensures var scan := ScanLine(marks, count, column, seen);
            && scan.taken <= |cells| && left == cells[scan.taken..]
            && (r.seen, r.count, r.over) == (scan.seen, scan.count, scan.over)
            && (!scan.over ==> scan.taken == |cells| && scan.marks == |marks|)
            && (!blocks ==> leftMarks == marks[scan.marks..])
  {
  }

  lemma {:induction false} ErasedHasNoBlock(nodes: seq<Node>, count: nat, column: nat, seen: nat)
    requires !HasBlock(nodes)
    ensures !HasBlock(Erased(nodes, count, column, seen).nodes)
    decreases nodes
  {
    hide ScanLine, IsBreak, IsObject;
    if seen < count && |nodes| > 0 {
      NoMoreBlocks(nodes);
      match nodes[0]
      case Text(s) =>
        var scan := ScanLine(TextMarks(s), count, column, seen);
        ErasedHasNoBlock(nodes[1..], count, column, scan.seen);
        assert scan.marks < |s| ==> ([Text(s[scan.marks..])] + nodes[1..])[1..] == nodes[1..];
      case Elem(attrs, kids) =>
        ErasedHasNoBlock(nodes[1..], count, column, seen);
        ErasedHasNoBlock(nodes[1..], count - 1, column, seen);
        ErasedHasNoBlock(kids, count, column, seen);
        var inner := Erased(kids, count, column, seen);
        ErasedHasNoBlock(nodes[1..], inner.count, column, inner.seen);
        NoBlockInFront(nodes[0], Erased(nodes[1..], count, column, seen).nodes);
        NoBlockInFront(Elem(attrs, inner.nodes), nodes[1..]);
        NoBlockInFront(Elem(attrs, inner.nodes), Erased(nodes[1..], inner.count, column, inner.seen).nodes);
        assert [] + Erased(nodes[1..], inner.count, column, inner.seen).nodes
            == Erased(nodes[1..], inner.count, column, inner.seen).nodes;
    }
  }

  lemma NoBlockInFront(n: Node, tail: seq<Node>)
    requires !HasBlock(tail) && (n.Elem? ==> !IsBlock(n.attrs.tag) && !HasBlock(n.kids))
    ensures !HasBlock([n] + tail)
  {
    assert ([n] + tail)[1..] == tail;
  }

  /** Deleting brings no block after the cursor. */
  lemma {:induction false} ErasedFromHasNoBlock(p: Place, count: nat, column: nat, seen: nat)
    requires !BlockAhead(p)
    ensures !BlockAhead(ErasedFrom(p, count, column, seen))
    decreases Depth(p)
  {
    hide Erased, HasBlock;
    ErasedHasNoBlock(p.after, count, column, seen);
    var r := Erased(p.after, count, column, seen);
    if p.Inside? && !r.over { ErasedFromHasNoBlock(p.outer, r.count, column, r.seen); }
  }

  // ---------- Ordinary lines ----------

  /** On a line of ordinary characters just as many go as there are columns to delete, or all of them. */
  lemma {:induction false} OrdinaryLine(line: string, rest: seq<Mark>, count: nat, column: nat, seen: nat)
    requires forall i :: 0 <= i < |line| ==> ' ' <= line[i] < 127 as char
    requires |rest| == 0 || rest[0].Stop? || (rest[0].Ch? && IsLineEnd(rest[0].ch))
    requires seen <= count
    ensures ScanLine(TextMarks(line) + rest, count, column, seen).taken ==
            if count - seen <= |line| then count - seen else |line|
    ensures ScanLine(TextMarks(line) + rest, count, column, seen).marks ==
            ScanLine(TextMarks(line) + rest, count, column, seen).taken
    decreases |line|
  {
    var all := TextMarks(line) + rest;
    if |line| == 0 {
      assert all == rest;
    } else if seen < count {
      assert all[0] == Ch(line[0]) && all[1..] == TextMarks(line[1..]) + rest;
      OrdinaryLine(line[1..], rest, count, column, seen + 1);
    }
  }

  /** An object counts like an ordinary character, however much text it holds. */
  lemma {:induction false} ObjectsCountOne(line: seq<Mark>, rest: seq<Mark>, count: nat, column: nat, seen: nat)
    requires forall i :: 0 <= i < |line| ==>
               line[i].Thing? || (line[i].Ch? && ' ' <= line[i].ch < 127 as char)
    requires |rest| == 0 || rest[0].Stop? || (rest[0].Ch? && IsLineEnd(rest[0].ch))
    requires seen <= count
    ensures ScanLine(line + rest, count, column, seen).marks == if count - seen <= |line| then count - seen else |line|
    decreases |line|
  {
    var all := line + rest;
    if |line| == 0 {
      assert all == rest;
    } else if seen < count {
      assert all[0] == line[0] && all[1..] == line[1..] + rest;
      if line[0].Thing? {
        ObjectsCountOne(line[1..], rest, count - 1, column, seen);
      } else {
        ObjectsCountOne(line[1..], rest, count, column, seen + 1);
      }
    }
  }

  // ---------- Documents of text and styles ----------

  function Chars(cells: seq<Cell>): (r: string)
    ensures |r| == |cells| && forall i :: 0 <= i < |r| ==> r[i] == cells[i].ch
  {
    seq(|cells|, i requires 0 <= i < |cells| => cells[i].ch)
  }

  /** Only text stands there, in elements that a deletion has no rule of its own for. */
  predicate IsProse(nodes: seq<Node>)
    decreases nodes
  {
    |nodes| > 0 ==>
      && IsProse(nodes[1..])
      && (nodes[0].Elem? ==>
            nodes[0].attrs.tag !in {"br", "a", "object", "img", "p", "div", "pre"} && IsProse(nodes[0].kids))
  }

  predicate ProseAhead(p: Place) {
    IsProse(p.after) && (p.Inside? ==> ProseAhead(p.outer))
  }

  lemma MarksOfChars(a: seq<Cell>, b: seq<Cell>)
    ensures TextMarks(Chars(a + b)) == TextMarks(Chars(a)) + TextMarks(Chars(b))
  {
  }

  /** A deletion then meets just the characters. */
  lemma {:induction false} ProseMarks(nodes: seq<Node>, around: seq<Attrs>)
    requires IsProse(nodes)
    ensures Marks(nodes) == TextMarks(Chars(Flat(nodes, around))) && !HasBlock(nodes)
    decreases nodes
  {
    hide Flat, Marks;
    if |nodes| == 0 {
      MarksNone();
      FlatNone(around);
    } else {
      var n, tail := nodes[0], nodes[1..];
      HeadOf(nodes);
      ProseMarks(tail, around);
      FlatHead(n, tail, around);
      MarksHead(n, tail);
      MarksOfChars(FlatNode(n, around), Flat(tail, around));
      match n
      case Text(s) =>
        assert Chars(Cells(s, around)) == s;
      case Elem(attrs, kids) =>
        ProseMarks(kids, around + [attrs]);
        EmptyKids(kids, around + [attrs]);
    }
  }

  lemma EmptyKids(kids: seq<Node>, around: seq<Attrs>)
    ensures |kids| == 0 ==> TextMarks(Chars(Flat(kids, around))) == []
  {
  }

  lemma {:induction false} ProseAheadMarks(p: Place)
    requires ProseAhead(p)
    ensures MarksFrom(p) == TextMarks(Chars(After(p))) && !BlockAhead(p)
    decreases Depth(p)
  {
    hide Flat, Marks, HasBlock, IsProse;
    ProseMarks(p.after, Around(p));
    if p.Inside? {
      ProseAheadMarks(p.outer);
      MarksOfChars(Flat(p.after, Around(p)), After(p.outer));
    } else {
      assert Marks(p.after) + [] == Marks(p.after) && Flat(p.after, Around(p)) + [] == Flat(p.after, Around(p));
    }
  }
}
