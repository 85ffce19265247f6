/** The calls of an application as the OpenGL ES 2.0 specification reads them, by themselves: the widths of
    the component types, what lies in the client's memory, and the state that the calls so far leave. None
    of it uses what the recorder computes for the same calls. */
module Client {
  import opened Wire
  import opened Calls
  import Opcodes

  // ---------- Client memory ----------

  /** The bytes of one component, by the numbers of the types in table 2.4 of the specification; 0 for any
      other type. */
  function Width(typ: word): nat {
    if typ == 0x1400 || typ == 0x1401 then 1       // BYTE, UNSIGNED_BYTE
    else if typ == 0x1402 || typ == 0x1403 then 2  // SHORT, UNSIGNED_SHORT
    else if typ == 0x1404 || typ == 0x1405 then 4  // INT, UNSIGNED_INT
    else if typ == 0x1406 then 4                   // FLOAT
    else 0
  }

  /** A C int that is positive. */
  predicate Positive(w: word) {
    0 < w < 0x8000_0000
  }

  /** The bytes of one vertex of an array. */
  function VertexBytes(size: word, typ: word): nat {
    if Positive(size) then Width(typ) * size else 0
  }

  /** Byte k of vertex j, which section 2.8 finds stride bytes after vertex j-1, or right behind it. */
  function VertexByte(a: VertexAttrib, j: nat, k: nat): byte {
    var at := j * (if Positive(a.stride) then a.stride else VertexBytes(a.size, a.typ)) + k;
    if at < |a.pointer.mem| then a.pointer.mem[at] else 0
  }

  /** The unsigned number of w bytes that stands at place i of an array, if the array goes so far. */
  function NumberAt(mem: seq<byte>, w: nat, i: nat): Option<nat> {
    if w == 1 && i < |mem| then Some(mem[i])
    else if w == 2 && 2 * i + 1 < |mem| then Some(mem[2 * i] as int + 0x100 * mem[2 * i + 1] as int)
    else if w == 4 && 4 * i + 3 < |mem| then
      Some(mem[4 * i] as int + 0x100 * mem[4 * i + 1] as int + 0x1_0000 * mem[4 * i + 2] as int
           + 0x100_0000 * mem[4 * i + 3] as int)
    else None
  }

  /** The vertices that the recorder takes count indices to be about: four for every six. */
  function QuadVertices(count: word): nat {
    if Positive(count) then 4 * (count / 6) else 0
  }

  // ---------- The state after the calls so far ----------

  /** The buffer that the last glBindBuffer for the target named. */
  function BoundTo(calls: seq<Call>, target: word): word {
    if |calls| == 0 then 0
    else
      match calls[|calls| - 1]
      case BindBuffer(t, buffer) => if t == target then buffer else BoundTo(calls[..|calls| - 1], target)
      case _ => BoundTo(calls[..|calls| - 1], target)
  }

  /** What the last of glEnableVertexAttribArray and glDisableVertexAttribArray for index i was. */
  function IsEnabled(calls: seq<Call>, i: nat): bool {
    if |calls| == 0 then false
    else
      match calls[|calls| - 1]
      case EnableArray(index) => index == i || IsEnabled(calls[..|calls| - 1], i)
      case DisableArray(index) => index != i && IsEnabled(calls[..|calls| - 1], i)
      case _ => IsEnabled(calls[..|calls| - 1], i)
  }

  /** The last glVertexAttribPointer for index i. */
  function PointerCall(calls: seq<Call>, i: nat): (r: Option<Call>)
    ensures r.Some? ==> r.value.AttribPointer?
  {
    if |calls| == 0 then None
    else if calls[|calls| - 1].AttribPointer? && calls[|calls| - 1].index == i then Some(calls[|calls| - 1])
    else PointerCall(calls[..|calls| - 1], i)
  }

  function ArrayAt(calls: seq<Call>, i: nat): VertexAttrib {
    match PointerCall(calls, i)
    case None => VertexAttrib(IsEnabled(calls, i), 0, 0, 0, 0, ClientPtr(0, []))
    case Some(c) => VertexAttrib(IsEnabled(calls, i), c.size, c.typ, c.normalized, c.stride, c.pointer)
  }

  /** st is the state that the calls leave. */
  ghost predicate Leaves(calls: seq<Call>, st: RecorderState) {
    && |st.attribs| == 128
    && st.arrayBuffer == BoundTo(calls, 0x8892)
    && st.elementBuffer == BoundTo(calls, 0x8893)
    && forall i :: 0 <= i < 128 ==> st.attribs[i] == ArrayAt(calls, i)
  }

  lemma NoCallsLeave()
    ensures Leaves([], INITIAL)
  {
  }

  /** The recorder's variables are the state that the calls leave. */
  lemma CallLeaves(calls: seq<Call>, st: RecorderState, c: Call, wsize: nat)
    requires Leaves(calls, st) && CanCall(st, c, wsize)
    ensures Leaves(calls + [c], After(st, c))
  {
    assert (calls + [c])[..|calls|] == calls;
    forall i | 0 <= i < 128 ensures After(st, c).attribs[i] == ArrayAt(calls + [c], i) {
      assert st.attribs[i] == ArrayAt(calls, i);
    }
  }

  // ---------- The recorder's own arithmetic ----------

  lemma SizeOfIsWidth(typ: word)
    ensures Opcodes.SizeOf(typ) == if 0x1400 <= typ <= 0x1406 then Some(Width(typ)) else None
  {
  }

  lemma ElementSizeIsBytes(a: VertexAttrib)
    requires Opcodes.SizeOf(a.typ).Some?
    ensures ElementSize(a) == VertexBytes(a.size, a.typ)
  {
    SizeOfIsWidth(a.typ);
  }

  lemma FetchIsByte(a: VertexAttrib, j: nat, k: nat)
    requires Opcodes.SizeOf(a.typ).Some?
    ensures Fetch(a.pointer.mem, a.stride, ElementSize(a), j, k) == VertexByte(a, j, k)
  {
    hide ElementSize, VertexBytes;
    ElementSizeIsBytes(a);
  }

  lemma CountIsQuads(count: word)
    ensures VertexCount(count) == QuadVertices(count)
  {
    if count >= 0x8000_0000 {
      assert -Signed(count) / 6 >= 0;
    }
  }

  /** The indices of q quads, each drawn as two triangles: every six of them name the four vertices of
      one quad, and nothing else. */
  ghost predicate AreQuads(indices: seq<nat>, q: nat) {
    && |indices| == 6 * q
    && (forall i :: 0 <= i < 6 * q ==> indices[i] / 4 == i / 6)
    && forall j :: 0 <= j < 4 * q ==> exists i :: j / 4 * 6 <= i < j / 4 * 6 + 6 && i < 6 * q && indices[i] == j
  }

  /** Quads need just the vertices that the recorder counts. */
  lemma QuadsNeedTheirVertices(indices: seq<nat>, q: nat, count: word)
    requires AreQuads(indices, q) && count == 6 * q < 0x8000_0000
    ensures forall j: nat :: j in indices <==> j < VertexCount(count)
  {
    CountIsQuads(count);
    assert QuadVertices(count) == 4 * q;
    forall j: nat | j in indices ensures j < 4 * q {
      var i :| 0 <= i < 6 * q && indices[i] == j;
      assert j / 4 == i / 6 < q;
    }
    forall j: nat | j < 4 * q ensures j in indices {
      var i :| j / 4 * 6 <= i < j / 4 * 6 + 6 && i < 6 * q && indices[i] == j;
    }
  }
}
