/** The grid mesh of PNTMeshViewer: points, normals and faces in flat arrays, built in one go by
    BuildTriangleMesh and brought up to date for a new surface by ComputeMesh. The coordinates and
    the normal of three points are functions that nothing is known about. */
module Mesh {
  import opened Arithmetic

  datatype Vec<F> = Vec(x: F, y: F, z: F)

  /** The surface over the grid: coordinates by column, by row and by both, texture coordinates,
      and the normal of a triangle. */
  datatype Surface<!F> = Surface(
    x: nat -> F, y: nat -> F, z: (nat, nat) -> F, u: nat -> F, v: nat -> F,
    normal: (Vec<F>, Vec<F>, Vec<F>) -> Vec<F>, zero: F)

  function Part<F>(p: Vec<F>, k: nat): F {
    if k == 0 then p.x else if k == 1 then p.y else p.z
  }

  // ---------- The grid ----------

  /** A grid point, by column and row. */
  datatype Corner = Corner(x: nat, y: nat)

  /** The number of a grid point, and back; n is the number of points in a row. */
  function Number(n: nat, c: Corner): nat {
    c.y * n + c.x
  }

  function CornerAt(n: nat, i: nat): Corner
    requires n > 0
  {
    Corner(i % n, i / n)
  }

  /** Two triangles a cell: the first below the diagonal, the second above it. */
  datatype Triangle = Triangle(x: nat, y: nat, second: bool)

  function TriangleNumber(subDivX: nat, t: Triangle): nat {
    2 * Number(subDivX, Corner(t.x, t.y)) + if t.second then 1 else 0
  }

  function TriangleAt(subDivX: nat, i: nat): Triangle
    requires subDivX > 0
  {
    var cell := CornerAt(subDivX, i / 2);
    Triangle(cell.x, cell.y, i % 2 == 1)
  }

  function CornerOf(t: Triangle, k: nat): Corner
    requires k < 3
  {
    if t.second then
      if k == 0 then Corner(t.x + 1, t.y + 1) else if k == 1 then Corner(t.x + 1, t.y) else Corner(t.x, t.y)
    else
      if k == 0 then Corner(t.x, t.y) else if k == 1 then Corner(t.x, t.y + 1) else Corner(t.x + 1, t.y + 1)
  }

  predicate InGrid(subDivX: nat, subDivY: nat, t: Triangle) {
    t.x < subDivX && t.y < subDivY
  }

  // ---------- Arithmetic of the grid ----------

  lemma NumberAndBack(n: nat, c: Corner)
    requires c.x < n
    ensures CornerAt(n, Number(n, c)) == c
  {
    var i := Number(n, c);
    assert i == c.y * n + c.x;
    DivMod(i, c.y, c.x, n);
  }

  lemma BackAndNumber(n: nat, i: nat, rows: nat)
    requires n > 0 && i < rows * n
    ensures Number(n, CornerAt(n, i)) == i && CornerAt(n, i).x < n && CornerAt(n, i).y < rows
  {
    if i / n >= rows {
      assert (i / n - rows) * n >= 0;
    }
  }

  lemma NumberBound(n: nat, c: Corner, rows: nat)
    requires c.x < n && c.y < rows
    ensures Number(n, c) + 1 <= rows * n
    ensures c.y + 1 < rows ==> Number(n, c) + n + 1 <= rows * n
  {
    Apart(c.y, rows, n);
    if c.y + 1 < rows { Apart(c.y + 1, rows, n); Apart(c.y, c.y + 1, n); }
  }

  // ---------- What the arrays should hold ----------

  function Points<F>(subDivX: nat, subDivY: nat, s: Surface<F>): (r: seq<F>)
    ensures |r| == (subDivY + 1) * (subDivX + 1) * 3
  {
    seq((subDivY + 1) * (subDivX + 1) * 3, i requires i >= 0 => Part(PointOf(s, CornerAt(subDivX + 1, i / 3)), i % 3))
  }

  function PointOf<F>(s: Surface<F>, c: Corner): Vec<F> {
    Vec(s.x(c.x), s.y(c.y), s.z(c.x, c.y))
  }

  function TexCoords<F>(subDivX: nat, subDivY: nat, s: Surface<F>): (r: seq<F>)
    ensures |r| == (subDivY + 1) * (subDivX + 1) * 2
  {
    seq((subDivY + 1) * (subDivX + 1) * 2, i requires i >= 0 =>
      if i % 2 == 0 then s.u(CornerAt(subDivX + 1, i / 2).x) else s.v(CornerAt(subDivX + 1, i / 2).y))
  }

  function Normals<F>(subDivX: nat, subDivY: nat, s: Surface<F>): (r: seq<F>)
    ensures |r| == subDivX * subDivY * 2 * 3
  {
    seq(subDivX * subDivY * 2 * 3, i requires 0 <= i < subDivX * subDivY * 2 * 3 =>
      CountIsPositive(subDivX, subDivY, i); Part(NormalOf(s, TriangleAt(subDivX, i / 3)), i % 3))
  }

  lemma CountIsPositive(a: nat, b: nat, i: nat)
    requires i < a * b * 9 * 2 || i < a * b * 2 * 3
    ensures a > 0 && b > 0
  {
  }

  function NormalOf<F>(s: Surface<F>, t: Triangle): Vec<F> {
    s.normal(PointOf(s, CornerOf(t, 0)), PointOf(s, CornerOf(t, 1)), PointOf(s, CornerOf(t, 2)))
  }

  /** Per triangle three times the numbers of a point, of the normal and of a texture coordinate. */
  function Faces(subDivX: nat, subDivY: nat): (r: seq<nat>)
    ensures |r| == subDivX * subDivY * 2 * 9
  {
    seq(subDivX * subDivY * 2 * 9, i requires 0 <= i < subDivX * subDivY * 2 * 9 =>
      CountIsPositive(subDivX, subDivY, i); FaceSlot(subDivX, i / 9, i % 9))
  }

  function FaceSlot(subDivX: nat, t: nat, j: nat): nat
    requires subDivX > 0 && j < 9
  {
    if j % 3 == 1 then t else Number(subDivX + 1, CornerOf(TriangleAt(subDivX, t), j / 3))
  }

  // ---------- Consistent orientation ----------

  /** The edge from corner k to the next. */
  function Edge(t: Triangle, k: nat): (Corner, Corner)
    requires k < 3
  {
    (CornerOf(t, k), CornerOf(t, (k + 1) % 3))
  }

  /** Both ends on the same side of the grid. */
  predicate OnBorder(subDivX: nat, subDivY: nat, e: (Corner, Corner)) {
    || e.0.x == e.1.x == 0
    || e.0.x == e.1.x == subDivX
    || e.0.y == e.1.y == 0
    || e.0.y == e.1.y == subDivY
  }

  /** The triangle on the other side of edge k, and the number of the edge there. */
  function Mate(t: Triangle, k: nat): (Triangle, nat)
    requires k < 3
    requires !t.second && k == 0 ==> t.x > 0
    requires t.second && k == 1 ==> t.y > 0
  {
    if k == 2 then (Triangle(t.x, t.y, !t.second), 2)
    else if t.second then if k == 0 then (Triangle(t.x + 1, t.y, false), 0) else (Triangle(t.x, t.y - 1, false), 1)
    else if k == 0 then (Triangle(t.x - 1, t.y, true), 0) else (Triangle(t.x, t.y + 1, true), 1)
  }

  lemma EdgesDiffer(t: Triangle, k: nat, t': Triangle, k': nat)
    requires k < 3 && k' < 3
    ensures Edge(t, k) == Edge(t', k') <==> t == t' && k == k'
  {
  }

  ghost predicate HasReverse(subDivX: nat, subDivY: nat, t: Triangle, k: nat)
    requires k < 3
  {
    exists t', k': nat :: k' < 3 && InGrid(subDivX, subDivY, t') && Edge(t', k') == (Edge(t, k).1, Edge(t, k).0)
  }

  lemma ReverseIffInside(subDivX: nat, subDivY: nat, t: Triangle, k: nat)
    requires k < 3 && InGrid(subDivX, subDivY, t)
    ensures HasReverse(subDivX, subDivY, t, k) <==> !OnBorder(subDivX, subDivY, Edge(t, k))
  {
    var e := Edge(t, k);
    if !OnBorder(subDivX, subDivY, e) {
      var (t', k') := Mate(t, k);
      assert InGrid(subDivX, subDivY, t') && Edge(t', k') == (e.1, e.0);
    }
  }

  /** The end points of an edge as the face array has them. */
  function EdgeInArray(faces: seq<nat>, t: nat, k: nat): (nat, nat)
    requires k < 3 && 9 * t + 9 <= |faces|
  {
    (faces[9 * t + 3 * k], faces[9 * t + 3 * ((k + 1) % 3)])
  }

  lemma TriangleInGrid(subDivX: nat, subDivY: nat, i: nat)
    requires i < subDivX * subDivY * 2
    ensures subDivX > 0
    ensures InGrid(subDivX, subDivY, TriangleAt(subDivX, i)) && TriangleNumber(subDivX, TriangleAt(subDivX, i)) == i
  {
    assert subDivX * subDivY == subDivY * subDivX;
    BackAndNumber(subDivX, i / 2, subDivY);
  }

  lemma GridTriangle(subDivX: nat, subDivY: nat, t: Triangle)
    requires InGrid(subDivX, subDivY, t)
    ensures TriangleNumber(subDivX, t) < subDivX * subDivY * 2
    ensures TriangleAt(subDivX, TriangleNumber(subDivX, t)) == t
  {
    NumberBound(subDivX, Corner(t.x, t.y), subDivY);
    assert subDivX * subDivY == subDivY * subDivX;
    NumberAndBack(subDivX, Corner(t.x, t.y));
    assert TriangleNumber(subDivX, t) / 2 == Number(subDivX, Corner(t.x, t.y));
  }

  /** All numbers in the face array are in range. */
  lemma FaceInRange(subDivX: nat, subDivY: nat, t: nat, k: nat)
    requires t < subDivX * subDivY * 2 && k < 3
    ensures 9 * t + 9 <= |Faces(subDivX, subDivY)|
    ensures Faces(subDivX, subDivY)[9 * t + 3 * k] == Faces(subDivX, subDivY)[9 * t + 3 * k + 2]
         == Number(subDivX + 1, CornerOf(TriangleAt(subDivX, t), k)) < (subDivY + 1) * (subDivX + 1)
    ensures Faces(subDivX, subDivY)[9 * t + 3 * k + 1] == t < subDivX * subDivY * 2
  {
    hide TriangleAt, CornerOf, Number;
    FacePart(subDivX, subDivY, t, k, 0);
    FacePart(subDivX, subDivY, t, k, 1);
    FacePart(subDivX, subDivY, t, k, 2);
    TriangleInGrid(subDivX, subDivY, t);
    CornerInGrid(subDivX, subDivY, TriangleAt(subDivX, t), k);
    NumberBound(subDivX + 1, CornerOf(TriangleAt(subDivX, t), k), subDivY + 1);
  }

  lemma CornerInGrid(subDivX: nat, subDivY: nat, t: Triangle, k: nat)
    requires InGrid(subDivX, subDivY, t) && k < 3
    ensures CornerOf(t, k).x <= subDivX && CornerOf(t, k).y <= subDivY
  {
  }

  /** Part j of corner k of triangle t stands in slot 9t + 3k + j. */
  lemma SlotOf(t: nat, k: nat, j: nat)
    requires k < 3 && j < 3
    ensures (9 * t + 3 * k + j) / 9 == t && (9 * t + 3 * k + j) % 9 == 3 * k + j
    ensures (3 * k + j) % 3 == j && (3 * k + j) / 3 == k
  {
  }

  lemma FacePart(subDivX: nat, subDivY: nat, t: nat, k: nat, j: nat)
    requires t < subDivX * subDivY * 2 && k < 3 && j < 3
    ensures subDivX > 0 && 9 * t + 9 <= |Faces(subDivX, subDivY)|
    ensures Faces(subDivX, subDivY)[9 * t + 3 * k + j] ==
            if j == 1 then t else Number(subDivX + 1, CornerOf(TriangleAt(subDivX, t), k))
  {
    hide TriangleAt, CornerOf, Number;
    CountIsPositive(subDivX, subDivY, t);
    SlotOf(t, k, j);
  }

  lemma EdgeIsEdge(subDivX: nat, subDivY: nat, t: nat, k: nat)
    requires t < subDivX * subDivY * 2 && k < 3
    ensures 9 * t + 9 <= |Faces(subDivX, subDivY)| && subDivX > 0
    ensures EdgeInArray(Faces(subDivX, subDivY), t, k)
         == (Number(subDivX + 1, Edge(TriangleAt(subDivX, t), k).0),
             Number(subDivX + 1, Edge(TriangleAt(subDivX, t), k).1))
    ensures Edge(TriangleAt(subDivX, t), k).0.x <= subDivX && Edge(TriangleAt(subDivX, t), k).1.x <= subDivX
  {
    TriangleInGrid(subDivX, subDivY, t);
    FaceInRange(subDivX, subDivY, t, k);
    FaceInRange(subDivX, subDivY, t, (k + 1) % 3);
  }

  lemma SameNumber(n: nat, a: Corner, b: Corner)
    requires a.x < n && b.x < n
    ensures Number(n, a) == Number(n, b) <==> a == b
  {
    NumberAndBack(n, a);
    NumberAndBack(n, b);
  }

  /** No directed edge occurs twice in the face array. */
  lemma DirectedEdgeOnce(subDivX: nat, subDivY: nat, t: nat, k: nat, t': nat, k': nat)
    requires t < subDivX * subDivY * 2 && k < 3 && t' < subDivX * subDivY * 2 && k' < 3
    ensures 9 * t + 9 <= |Faces(subDivX, subDivY)| && 9 * t' + 9 <= |Faces(subDivX, subDivY)|
    ensures EdgeInArray(Faces(subDivX, subDivY), t, k) == EdgeInArray(Faces(subDivX, subDivY), t', k')
       <==> t == t' && k == k'
  {
    hide Faces, EdgeInArray, CornerOf, TriangleAt, Number;
    EdgeIsEdge(subDivX, subDivY, t, k);
    EdgeIsEdge(subDivX, subDivY, t', k');
    var e, e' := Edge(TriangleAt(subDivX, t), k), Edge(TriangleAt(subDivX, t'), k');
    SameNumber(subDivX + 1, e.0, e'.0);
    SameNumber(subDivX + 1, e.1, e'.1);
    EdgesDiffer(TriangleAt(subDivX, t), k, TriangleAt(subDivX, t'), k');
    TriangleInGrid(subDivX, subDivY, t);
    TriangleInGrid(subDivX, subDivY, t');
  }

  ghost predicate ReverseInArray(subDivX: nat, subDivY: nat, t: nat, k: nat)
    requires t < subDivX * subDivY * 2 && k < 3
  {
    var faces := Faces(subDivX, subDivY);
    exists t': nat, k': nat :: t' < subDivX * subDivY * 2 && k' < 3 &&
      EdgeInArray(faces, t', k') == (EdgeInArray(faces, t, k).1, EdgeInArray(faces, t, k).0)
  }

  /** Every edge is met once in the other direction, unless it lies on the border of the grid. */
  lemma ReverseEdgeOnce(subDivX: nat, subDivY: nat, t: nat, k: nat)
    requires t < subDivX * subDivY * 2 && k < 3
    ensures subDivX > 0
    ensures ReverseInArray(subDivX, subDivY, t, k) <==> !OnBorder(subDivX, subDivY, Edge(TriangleAt(subDivX, t), k))
  {
    hide Faces, EdgeInArray, CornerOf, TriangleAt, Number, TriangleNumber, OnBorder;
    EdgeIsEdge(subDivX, subDivY, t, k);
    TriangleInGrid(subDivX, subDivY, t);
    var tri := TriangleAt(subDivX, t);
    var e := Edge(tri, k);
    ReverseIffInside(subDivX, subDivY, tri, k);
    if HasReverse(subDivX, subDivY, tri, k) {
      var tri', k' :| k' < 3 && InGrid(subDivX, subDivY, tri') && Edge(tri', k') == (e.1, e.0);
      GridTriangle(subDivX, subDivY, tri');
      EdgeIsEdge(subDivX, subDivY, TriangleNumber(subDivX, tri'), k');
    }
    if ReverseInArray(subDivX, subDivY, t, k) {
      var faces := Faces(subDivX, subDivY);
      var t': nat, k': nat :| t' < subDivX * subDivY * 2 && k' < 3 &&
        EdgeInArray(faces, t', k') == (EdgeInArray(faces, t, k).1, EdgeInArray(faces, t, k).0);
      EdgeIsEdge(subDivX, subDivY, t', k');
      TriangleInGrid(subDivX, subDivY, t');
      var e' := Edge(TriangleAt(subDivX, t'), k');
      SameNumber(subDivX + 1, e'.0, e.1);
      SameNumber(subDivX + 1, e'.1, e.0);
    }
  }
}
