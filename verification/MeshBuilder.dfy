/** The loops of PNTMeshViewer that fill the arrays of the grid mesh. */
module MeshBuilder {
  import opened Mesh

  /** The first k slots of an array hold what they should. */
  predicate UpTo<F(==)>(a: seq<F>, wanted: seq<F>, k: nat) {
    k <= |a| == |wanted| && a[..k] == wanted[..k]
  }

  class TriangleMesh<F(0, ==)> {
    var points: seq<F>
    var normals: seq<F>
    var texCoords: seq<F>
    var faces: seq<nat>

    constructor (points: seq<F>, normals: seq<F>, texCoords: seq<F>, faces: seq<nat>)
      ensures this.points == points && this.normals == normals && this.texCoords == texCoords && this.faces == faces
    {
      this.points, this.normals, this.texCoords, this.faces := points, normals, texCoords, faces;
    }

    ghost predicate Shows(subDivX: nat, subDivY: nat, s: Surface<F>)
      reads this
    {
      && points == Points(subDivX, subDivY, s)
      && normals == Normals(subDivX, subDivY, s)
      && texCoords == TexCoords(subDivX, subDivY, s)
      && faces == Faces(subDivX, subDivY)
    }
  }

  // ---------- Slots ----------

  function Parts<F>(v: Vec<F>): seq<F> {
    [v.x, v.y, v.z]
  }

  lemma PointSlots<F>(subDivX: nat, subDivY: nat, s: Surface<F>, c: Corner)
    requires c.x <= subDivX && c.y <= subDivY
    ensures 3 * Number(subDivX + 1, c) + 3 <= |Points(subDivX, subDivY, s)|
    ensures Points(subDivX, subDivY, s)[3 * Number(subDivX + 1, c)..3 * Number(subDivX + 1, c) + 3] == Parts(PointOf(s,
        c))
  {
    hide Number, CornerAt, PointOf;
    NumberBound(subDivX + 1, c, subDivY + 1);
    NumberAndBack(subDivX + 1, c);
    var v := Number(subDivX + 1, c);
    assert (3 * v) / 3 == v && (3 * v + 1) / 3 == v && (3 * v + 2) / 3 == v;
  }

  lemma TexSlots<F>(subDivX: nat, subDivY: nat, s: Surface<F>, c: Corner)
    requires c.x <= subDivX && c.y <= subDivY
    ensures 2 * Number(subDivX + 1, c) + 2 <= |TexCoords(subDivX, subDivY, s)|
    ensures TexCoords(subDivX, subDivY, s)[2 * Number(subDivX + 1, c)] == s.u(c.x)
    ensures TexCoords(subDivX, subDivY, s)[2 * Number(subDivX + 1, c) + 1] == s.v(c.y)
  {
    hide Number, CornerAt;
    NumberBound(subDivX + 1, c, subDivY + 1);
    NumberAndBack(subDivX + 1, c);
    var v := Number(subDivX + 1, c);
    assert (2 * v) / 2 == v && (2 * v + 1) / 2 == v && (2 * v) % 2 == 0 && (2 * v + 1) % 2 == 1;
  }

  lemma NormalSlots<F>(subDivX: nat, subDivY: nat, s: Surface<F>, t: nat)
    requires t < subDivX * subDivY * 2
    ensures subDivX > 0 && 3 * t + 3 <= |Normals(subDivX, subDivY, s)|
    ensures Normals(subDivX, subDivY, s)[3 * t..3 * t + 3] == Parts(NormalOf(s, TriangleAt(subDivX, t)))
  {
    hide TriangleAt, NormalOf;
    CountIsPositive(subDivX, subDivY, t);
    assert (3 * t) / 3 == t && (3 * t + 1) / 3 == t && (3 * t + 2) / 3 == t;
  }

  lemma CellTriangles(subDivX: nat, subDivY: nat, x: nat, y: nat)
    requires x < subDivX && y < subDivY
    ensures 2 * Number(subDivX, Corner(x, y)) + 2 <= subDivX * subDivY * 2
    ensures TriangleAt(subDivX, 2 * Number(subDivX, Corner(x, y))) == Triangle(x, y, false)
    ensures TriangleAt(subDivX, 2 * Number(subDivX, Corner(x, y)) + 1) == Triangle(x, y, true)
  {
    GridTriangle(subDivX, subDivY, Triangle(x, y, false));
    GridTriangle(subDivX, subDivY, Triangle(x, y, true));
    NumberBound(subDivX, Corner(x, y), subDivY);
    assert subDivX * subDivY == subDivY * subDivX;
  }

  /** The numbers of the four points of a cell, and the place of its faces in their array. */
  lemma CellNumbers(subDivX: nat, x: nat, y: nat)
    ensures 2 * Number(subDivX, Corner(x, y)) == 2 * (y * subDivX + x)
    ensures (y * subDivX * 9 + x * 9) * 2 == 9 * (2 * (y * subDivX + x))
    ensures forall second :: Number(subDivX + 1, CornerOf(Triangle(x, y, second), if second then 2 else 0))
                             == y * (subDivX + 1) + x
    ensures forall second :: Number(subDivX + 1, CornerOf(Triangle(x, y, second), if second then 0 else 2))
                             == y * (subDivX + 1) + x + (subDivX + 1) + 1
    ensures Number(subDivX + 1, CornerOf(Triangle(x, y, false), 1)) == y * (subDivX + 1) + x + (subDivX + 1)
    ensures Number(subDivX + 1, CornerOf(Triangle(x, y, true), 1)) == y * (subDivX + 1) + x + 1
  {
    assert (y + 1) * (subDivX + 1) == y * (subDivX + 1) + (subDivX + 1);
  }

  // ---------- The arrays in numbers ----------

  /** The grid point in column x and row y has its coordinates and its texture coordinates in these slots. */
  lemma PointsInNumbers<F>(subDivX: nat, subDivY: nat, s: Surface<F>, x: nat, y: nat)
    requires x <= subDivX && y <= subDivY
    ensures var v := y * (subDivX + 1) + x;
            && 3 * v + 3 <= |Points(subDivX, subDivY, s)| && 2 * v + 2 <= |TexCoords(subDivX, subDivY, s)|
            && Points(subDivX, subDivY, s)[3 * v..3 * v + 3] == [s.x(x), s.y(y), s.z(x, y)]
            && TexCoords(subDivX, subDivY, s)[2 * v] == s.u(x) && TexCoords(subDivX, subDivY, s)[2 * v + 1] == s.v(y)
  {
    hide Points, TexCoords;
    PointSlots(subDivX, subDivY, s, Corner(x, y));
    TexSlots(subDivX, subDivY, s, Corner(x, y));
  }

  /** The cell in column x and row y has two triangles in the face array, with these points in this order. */
  lemma FacesInNumbers(subDivX: nat, subDivY: nat, x: nat, y: nat)
    requires x < subDivX && y < subDivY
    ensures var t, p, below := 2 * (y * subDivX + x), y * (subDivX + 1) + x, subDivX + 1;
            var q := p + below + 1;
            && 9 * t + 18 <= |Faces(subDivX, subDivY)|
            && Faces(subDivX, subDivY)[9 * t..9 * t + 9] == [p, t, p, p + below, t, p + below, q, t, q]
            && Faces(subDivX, subDivY)[9 * t + 9..9 * t + 18] == [q, t + 1, q, p + 1, t + 1, p + 1, p, t + 1, p]
  {
    hide Faces, TriangleAt, Number, CornerOf;
    var t, p, below := 2 * (y * subDivX + x), y * (subDivX + 1) + x, subDivX + 1;
    CellNumbers(subDivX, x, y);
    CellTriangles(subDivX, subDivY, x, y);
    NumbersOf(subDivX, x, y, false, [p, p + below, p + below + 1]);
    NumbersOf(subDivX, x, y, true, [p + below + 1, p + 1, p]);
    FaceSlots(subDivX, subDivY, t, [p, p + below, p + below + 1]);
    FaceSlots(subDivX, subDivY, t + 1, [p + below + 1, p + 1, p]);
  }

  lemma NumbersOf(subDivX: nat, x: nat, y: nat, second: bool, p: seq<nat>)
    requires |p| == 3 && p[0] == Number(subDivX + 1, CornerOf(Triangle(x, y, second), 0))
    requires p[1] == Number(subDivX + 1, CornerOf(Triangle(x, y, second), 1))
    requires p[2] == Number(subDivX + 1, CornerOf(Triangle(x, y, second), 2))
    ensures forall k :: 0 <= k < 3 ==> p[k] == Number(subDivX + 1, CornerOf(Triangle(x, y, second), k))
  {
  }

  /** Point number p of an array of coordinates. */
  function PointIn<F>(points: seq<F>, p: nat): Vec<F>
    requires 3 * p + 3 <= |points|
  {
    Vec(points[3 * p], points[3 * p + 1], points[3 * p + 2])
  }

  /** The normal of every triangle is that of the three points which the face array gives it. */
  lemma NormalsInNumbers<F>(subDivX: nat, subDivY: nat, s: Surface<F>, t: nat)
    requires t < subDivX * subDivY * 2
    ensures var points, faces := Points(subDivX, subDivY, s), Faces(subDivX, subDivY);
            && 9 * t + 9 <= |faces| && 3 * t + 3 <= |Normals(subDivX, subDivY, s)|
            && 3 * faces[9 * t] + 3 <= |points| && 3 * faces[9 * t + 3] + 3 <= |points|
            && 3 * faces[9 * t + 6] + 3 <= |points|
            && Normals(subDivX, subDivY, s)[3 * t..3 * t + 3]
               == Parts(s.normal(PointIn(points, faces[9 * t]), PointIn(points, faces[9 * t + 3]),
                                 PointIn(points, faces[9 * t + 6])))
  {
    hide Faces, TriangleAt, Number, CornerOf, Points, Normals, Parts, PointOf;
    TriangleInGrid(subDivX, subDivY, t);
    NormalSlots(subDivX, subDivY, s, t);
    CornerIn(subDivX, subDivY, s, t, 0);
    CornerIn(subDivX, subDivY, s, t, 1);
    CornerIn(subDivX, subDivY, s, t, 2);
  }

  lemma CornerIn<F>(subDivX: nat, subDivY: nat, s: Surface<F>, t: nat, k: nat)
    requires t < subDivX * subDivY * 2 && k < 3 && subDivX > 0 && InGrid(subDivX, subDivY, TriangleAt(subDivX, t))
    ensures 9 * t + 9 <= |Faces(subDivX, subDivY)|
    ensures 3 * Faces(subDivX, subDivY)[9 * t + 3 * k] + 3 <= |Points(subDivX, subDivY, s)|
    ensures PointIn(Points(subDivX, subDivY, s), Faces(subDivX, subDivY)[9 * t + 3 * k])
         == PointOf(s, CornerOf(TriangleAt(subDivX, t), k))
  {
    hide Faces, TriangleAt, Number, Points, PointOf;
    FaceInRange(subDivX, subDivY, t, k);
    var c := CornerOf(TriangleAt(subDivX, t), k);
    PointSlots(subDivX, subDivY, s, c);
    var p, points := Number(subDivX + 1, c), Points(subDivX, subDivY, s);
    assert points[3 * p..3 * p + 3] == [points[3 * p], points[3 * p + 1], points[3 * p + 2]];
  }

  // ---------- Points ----------

  method PutPoint<F(==)>(points: array<F>, index: nat, s: Surface<F>, x: nat, y: nat, ghost wanted: seq<F>)
    requires index + 3 <= points.Length && UpTo(points[..], wanted, index)
    requires wanted[index..index + 3] == Parts(PointOf(s, Corner(x, y)))
    modifies points
    ensures UpTo(points[..], wanted, index + 3)
  {
    points[index] := s.x(x);
    points[index + 1] := s.y(y);
    points[index + 2] := s.z(x, y);
    assert points[..index] == wanted[..index];
    assert points[..][..index + 3] == points[..index] + [points[index], points[index + 1], points[index + 2]];
    assert wanted[..index + 3] == wanted[..index] + wanted[index..index + 3];
  }

  /** The first loop of computeMesh: every point anew. */
  method FillPoints<F(==)>(subDivX: nat, subDivY: nat, s: Surface<F>, points: array<F>)
    requires points.Length == (subDivY + 1) * (subDivX + 1) * 3
    modifies points
    ensures points[..] == Points(subDivX, subDivY, s)
  {
    hide UpTo, Points, Parts, PointOf;
    var numDivX := subDivX + 1;
    ghost var wanted := Points(subDivX, subDivY, s);
    Nothing(points[..], wanted);
    for y := 0 to subDivY + 1
      invariant UpTo(points[..], wanted, y * numDivX * 3)
    {
      for x := 0 to subDivX + 1
        invariant UpTo(points[..], wanted, y * numDivX * 3 + x * 3)
      {
        var index := y * numDivX * 3 + x * 3;
        PointSlots(subDivX, subDivY, s, Corner(x, y));
        PutPoint(points, index, s, x, y, wanted);
      }
      assert (y + 1) * numDivX == y * numDivX + numDivX;
    }
    Everything(points[..], wanted);
  }

  lemma Nothing<F>(a: seq<F>, wanted: seq<F>)
    requires |a| == |wanted|
    ensures UpTo(a, wanted, 0)
  {
  }

  lemma Everything<F>(a: seq<F>, wanted: seq<F>)
    requires UpTo(a, wanted, |a|)
    ensures a == wanted
  {
    assert a[..|a|] == a && wanted[..|a|] == wanted;
  }

  method PutTexCoord<F(==)>(texCoords: array<F>, index: nat, s: Surface<F>, x: nat, y: nat, ghost wanted: seq<F>)
    requires index + 2 <= texCoords.Length && UpTo(texCoords[..], wanted, index)
    requires wanted[index] == s.u(x) && wanted[index + 1] == s.v(y)
    modifies texCoords
    ensures UpTo(texCoords[..], wanted, index + 2)
  {
    texCoords[index] := s.u(x);
    texCoords[index + 1] := s.v(y);
    assert texCoords[..index] == wanted[..index];
    assert texCoords[..][..index + 2] == texCoords[..index] + [texCoords[index], texCoords[index + 1]];
    assert wanted[..index + 2] == wanted[..index] + [wanted[index], wanted[index + 1]];
  }

  /** The first loop of buildTriangleMesh: points and texture coordinates. */
  method CreatePoints<F(==)>(subDivX: nat, subDivY: nat, s: Surface<F>, points: array<F>, texCoords: array<F>)
    requires points != texCoords
    requires points.Length == (subDivY + 1) * (subDivX + 1) * 3
    requires texCoords.Length == (subDivY + 1) * (subDivX + 1) * 2
    modifies points, texCoords
    ensures points[..] == Points(subDivX, subDivY, s) && texCoords[..] == TexCoords(subDivX, subDivY, s)
  {
    hide UpTo, Points, TexCoords, Parts, PointOf;
    var numDivX := subDivX + 1;
    ghost var wanted, wantedTex := Points(subDivX, subDivY, s), TexCoords(subDivX, subDivY, s);
    Nothing(points[..], wanted);
    Nothing(texCoords[..], wantedTex);
    for y := 0 to subDivY + 1
      invariant UpTo(points[..], wanted, y * numDivX * 3)
      invariant UpTo(texCoords[..], wantedTex, y * numDivX * 2)
    {
      for x := 0 to subDivX + 1
        invariant UpTo(points[..], wanted, y * numDivX * 3 + x * 3)
        invariant UpTo(texCoords[..], wantedTex, y * numDivX * 2 + x * 2)
      {
        var index := y * numDivX * 3 + x * 3;
        PointSlots(subDivX, subDivY, s, Corner(x, y));
        PutPoint(points, index, s, x, y, wanted);
        index := y * numDivX * 2 + x * 2;
        TexSlots(subDivX, subDivY, s, Corner(x, y));
        PutTexCoord(texCoords, index, s, x, y, wantedTex);
      }
      assert (y + 1) * numDivX == y * numDivX + numDivX;
    }
    Everything(points[..], wanted);
    Everything(texCoords[..], wantedTex);
  }

  // ---------- Normals and faces ----------

  method ReadPoint<F(==)>(points: array<F>, p: nat, ghost subDivX: nat, ghost subDivY: nat, ghost s: Surface<F>,
                          ghost c: Corner)
    returns (v: Vec<F>)
    requires points[..] == Points(subDivX, subDivY, s)
    requires c.x <= subDivX && c.y <= subDivY && p == Number(subDivX + 1, c)
    ensures v == PointOf(s, c)
  {
    hide Points, Number, PointOf;
    PointSlots(subDivX, subDivY, s, c);
    var ii := p * 3;
    v := Vec(points[ii], points[ii + 1], points[ii + 2]);
    assert points[..][ii..ii + 3] == Parts(v);
  }

  method PutNormal<F(==)>(normals: array<F>, t: nat, n: Vec<F>, ghost wanted: seq<F>)
    requires 3 * t + 3 <= normals.Length && UpTo(normals[..], wanted, 3 * t)
    requires wanted[3 * t..3 * t + 3] == Parts(n)
    modifies normals
    ensures UpTo(normals[..], wanted, 3 * t + 3)
  {
    var normalIndex := t * 3;
    normals[normalIndex] := n.x;
    normals[normalIndex + 1] := n.y;
    normals[normalIndex + 2] := n.z;
    assert normals[..3 * t] == wanted[..3 * t];
    assert normals[..][..3 * t + 3] == normals[..3 * t] + [n.x, n.y, n.z];
    assert wanted[..3 * t + 3] == wanted[..3 * t] + wanted[3 * t..3 * t + 3];
  }

  lemma FaceSlots(subDivX: nat, subDivY: nat, t: nat, p: seq<nat>)
    requires t < subDivX * subDivY * 2 && |p| == 3
    requires subDivX > 0 && forall k :: 0 <= k < 3 ==> p[k] == Number(subDivX + 1, CornerOf(TriangleAt(subDivX, t), k))
    ensures 9 * t + 9 <= |Faces(subDivX, subDivY)|
    ensures Faces(subDivX, subDivY)[9 * t..9 * t + 9] == [p[0], t, p[0], p[1], t, p[1], p[2], t, p[2]]
  {
    hide Faces, TriangleAt, Number, CornerOf;
    FaceInRange(subDivX, subDivY, t, 0);
    FaceInRange(subDivX, subDivY, t, 1);
    FaceInRange(subDivX, subDivY, t, 2);
  }

  method PutFace(faces: array<nat>, index: nat, t: nat, p0: nat, p1: nat, p2: nat, ghost wanted: seq<nat>)
    requires index + 9 <= faces.Length == |wanted| && UpTo(faces[..], wanted, index)
    requires wanted[index..index + 9] == [p0, t, p0, p1, t, p1, p2, t, p2]
    modifies faces
    ensures UpTo(faces[..], wanted, index + 9)
  {
    faces[index + 0] := p0;
    faces[index + 1] := t;
    faces[index + 2] := p0;
    faces[index + 3] := p1;
    faces[index + 4] := t;
    faces[index + 5] := p1;
    faces[index + 6] := p2;
    faces[index + 7] := t;
    faces[index + 8] := p2;
    assert faces[..index] == wanted[..index];
    assert faces[index..index + 9] == wanted[index..index + 9];
    assert faces[..][..index + 9] == faces[..index] + faces[index..index + 9];
    assert wanted[..index + 9] == wanted[..index] + wanted[index..index + 9];
  }

  /** One triangle: its normal and its face. */
  method PutTriangle<F(==)>(subDivX: nat, ghost subDivY: nat, s: Surface<F>, ghost tri: Triangle, index: nat,
                            t: nat, p0: nat, p1: nat, p2: nat,
                            points: array<F>, normals: array<F>, faces: array<nat>)
    requires points != normals && points as object != faces && normals as object != faces
    requires points[..] == Points(subDivX, subDivY, s)
    requires normals.Length == |Normals(subDivX, subDivY, s)| && faces.Length == |Faces(subDivX, subDivY)|
    requires t < subDivX * subDivY * 2 && index == 9 * t
    requires subDivX > 0 && tri == TriangleAt(subDivX, t) && InGrid(subDivX, subDivY, tri)
    requires p0 == Number(subDivX + 1, CornerOf(tri, 0))
    requires p1 == Number(subDivX + 1, CornerOf(tri, 1))
    requires p2 == Number(subDivX + 1, CornerOf(tri, 2))
    requires UpTo(normals[..], Normals(subDivX, subDivY, s), 3 * t) && UpTo(faces[..], Faces(subDivX, subDivY), 9 * t)
    modifies normals, faces
    ensures UpTo(normals[..], Normals(subDivX, subDivY, s), 3 * t + 3)
    ensures UpTo(faces[..], Faces(subDivX, subDivY), 9 * t + 9)
  {
    hide UpTo, Points, Normals, Faces, Number, TriangleAt, PointOf, Parts;
    var a := ReadPoint(points, p0, subDivX, subDivY, s, CornerOf(tri, 0));
    var b := ReadPoint(points, p1, subDivX, subDivY, s, CornerOf(tri, 1));
    var c := ReadPoint(points, p2, subDivX, subDivY, s, CornerOf(tri, 2));
    NormalSlots(subDivX, subDivY, s, t);
    PutNormal(normals, t, s.normal(a, b, c), Normals(subDivX, subDivY, s));
    FaceSlots(subDivX, subDivY, t, [p0, p1, p2]);
    PutFace(faces, index, t, p0, p1, p2, Faces(subDivX, subDivY));
  }

  /** The turn of buildTriangleMesh's second loop for one cell of the grid: both its triangles. */
  method CreateCell<F(==)>(subDivX: nat, ghost subDivY: nat, s: Surface<F>, x: nat, y: nat, count: nat,
                           points: array<F>, normals: array<F>, faces: array<nat>) returns (normalCount: nat)
    requires points != normals && points as object != faces && normals as object != faces
    requires points[..] == Points(subDivX, subDivY, s)
    requires normals.Length == |Normals(subDivX, subDivY, s)| && faces.Length == |Faces(subDivX, subDivY)|
    requires x < subDivX && y < subDivY && count == 2 * (y * subDivX + x)
    requires UpTo(normals[..], Normals(subDivX, subDivY, s), 3 * count)
    requires UpTo(faces[..], Faces(subDivX, subDivY), 9 * count)
    modifies normals, faces
    ensures normalCount == count + 2
    ensures UpTo(normals[..], Normals(subDivX, subDivY, s), 3 * normalCount)
    ensures UpTo(faces[..], Faces(subDivX, subDivY), 9 * normalCount)
  {
    hide UpTo, Points, Normals, Faces, TriangleAt, PointOf, Parts, Number, CornerOf;
    CellTriangles(subDivX, subDivY, x, y);
    CellNumbers(subDivX, x, y);
    var numDivX := subDivX + 1;
    var p00 := y * numDivX + x;
    var p01 := p00 + 1;
    var p10 := p00 + numDivX;
    var p11 := p10 + 1;
    normalCount := count;
    var index := (y * subDivX * 9 + x * 9) * 2;
    PutTriangle(subDivX, subDivY, s, Triangle(x, y, false), index, normalCount, p00, p10, p11, points,
                normals, faces);
    index := index + 9;
    normalCount := normalCount + 1;
    PutTriangle(subDivX, subDivY, s, Triangle(x, y, true), index, normalCount, p11, p01, p00, points,
                normals, faces);
    normalCount := normalCount + 1;
  }

  /** The second loop of buildTriangleMesh. */
  method CreateFaces<F(==)>(subDivX: nat, subDivY: nat, s: Surface<F>, points: array<F>, normals: array<F>,
                            faces: array<nat>)
    requires points != normals && points as object != faces && normals as object != faces
    requires points[..] == Points(subDivX, subDivY, s)
    requires normals.Length == |Normals(subDivX, subDivY, s)| && faces.Length == |Faces(subDivX, subDivY)|
    modifies normals, faces
    ensures normals[..] == Normals(subDivX, subDivY, s) && faces[..] == Faces(subDivX, subDivY)
    ensures points[..] == old(points[..])
  {
    hide UpTo, Points, Normals, Faces, TriangleAt, PointOf, Parts;
    ghost var wantedN, wantedF := Normals(subDivX, subDivY, s), Faces(subDivX, subDivY);
    Nothing(normals[..], wantedN);
    Nothing(faces[..], wantedF);
    var normalCount := 0;
    for y := 0 to subDivY
      invariant normalCount == 2 * (y * subDivX)
      invariant UpTo(normals[..], wantedN, 3 * normalCount) && UpTo(faces[..], wantedF, 9 * normalCount)
    {
      for x := 0 to subDivX
        invariant normalCount == 2 * (y * subDivX + x)
        invariant UpTo(normals[..], wantedN, 3 * normalCount) && UpTo(faces[..], wantedF, 9 * normalCount)
      {
        normalCount := CreateCell(subDivX, subDivY, s, x, y, normalCount, points, normals, faces);
      }
      assert (y + 1) * subDivX == y * subDivX + subDivX;
    }
    assert subDivY * subDivX == subDivX * subDivY;
    Everything(normals[..], wantedN);
    Everything(faces[..], wantedF);
  }

  method BuildTriangleMesh<F(0, ==)>(subDivX: nat, subDivY: nat, s: Surface<F>) returns (mesh: TriangleMesh<F>)
    ensures fresh(mesh) && mesh.Shows(subDivX, subDivY, s)
  {
    hide Points, Normals, Faces, TexCoords;
    var numDivX := subDivX + 1;
    var numVerts := (subDivY + 1) * numDivX;
    var points := new F[numVerts * 3];
    var texCoords := new F[numVerts * 2];
    var faceCount := subDivX * subDivY * 2;
    var normals := new F[faceCount * 3];
    var faces := new nat[faceCount * 9];
    CreatePoints(subDivX, subDivY, s, points, texCoords);
    CreateFaces(subDivX, subDivY, s, points, normals, faces);
    mesh := new TriangleMesh(points[..], normals[..], texCoords[..], faces[..]);
  }

  // ---------- Bringing the mesh up to date ----------

  /** The second loop of computeMesh: normals by the numbers in the face array. */
  method RecomputeNormals<F(==)>(subDivX: nat, subDivY: nat, s: Surface<F>, points: array<F>, normals: array<F>,
                                 faces: seq<nat>)
    requires points != normals
    requires points[..] == Points(subDivX, subDivY, s) && faces == Faces(subDivX, subDivY)
    requires normals.Length == |Normals(subDivX, subDivY, s)|
    modifies normals
    ensures normals[..] == Normals(subDivX, subDivY, s)
    ensures points[..] == old(points[..])
  {
    hide UpTo, Points, Normals, Faces, TriangleAt, PointOf, Parts, Number;
    ghost var wanted := Normals(subDivX, subDivY, s);
    Nothing(normals[..], wanted);
    var index := 0;
    ghost var t: nat := 0;
    while index < |faces|
      invariant index == 9 * t && t <= subDivX * subDivY * 2
      invariant UpTo(normals[..], wanted, 3 * t)
    {
      TriangleInGrid(subDivX, subDivY, t);
      FaceInRange(subDivX, subDivY, t, 0);
      FaceInRange(subDivX, subDivY, t, 1);
      FaceInRange(subDivX, subDivY, t, 2);
      ghost var tri := TriangleAt(subDivX, t);
      var a := ReadPoint(points, faces[index], subDivX, subDivY, s, CornerOf(tri, 0));
      var b := ReadPoint(points, faces[index + 3], subDivX, subDivY, s, CornerOf(tri, 1));
      var c := ReadPoint(points, faces[index + 6], subDivX, subDivY, s, CornerOf(tri, 2));
      assert faces[index + 1] == faces[index + 4] == faces[index + 7];
      NormalSlots(subDivX, subDivY, s, t);
      PutNormal(normals, faces[index + 1], s.normal(a, b, c), wanted);
      index := index + 9;
      t := t + 1;
    }
    Everything(normals[..], wanted);
  }

  /** On a mesh of these divisions, whatever surface it showed before, computeMesh leaves what
      BuildTriangleMesh would build for the surface, with the old texture coordinates. */
  method ComputeMesh<F(0, ==)>(mesh: TriangleMesh<F>, subDivX: nat, subDivY: nat, s: Surface<F>, ghost was: Surface<F>)
    requires mesh.Shows(subDivX, subDivY, was)
    modifies mesh
    ensures mesh.points == Points(subDivX, subDivY, s) && mesh.normals == Normals(subDivX, subDivY, s)
    ensures mesh.faces == old(mesh.faces) && mesh.texCoords == old(mesh.texCoords)
    ensures s.u == was.u && s.v == was.v ==> mesh.Shows(subDivX, subDivY, s)
  {
    hide Points, Normals, Faces;
    var points := Copied(mesh.points);
    var normals := Copied(mesh.normals);
    FillPoints(subDivX, subDivY, s, points);
    mesh.points := points[..];
    RecomputeNormals(subDivX, subDivY, s, points, normals, mesh.faces);
    mesh.normals := normals[..];
  }

  method Copied<F(0)>(values: seq<F>) returns (a: array<F>)
    ensures fresh(a) && a[..] == values
  {
    if |values| == 0 {
      a := new F[0];
    } else {
      a := new F[|values|](i requires 0 <= i < |values| => values[i]);
    }
  }
}
