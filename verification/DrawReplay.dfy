/** What a replayed glDrawElements draws: the indices of its record, and what these fetch from its arrays,
    read by the formats that the replayer keeps (getVertexAttrib of tools/gltrace/retrace.c), against what
    the application's call draws and fetches from the client's memory. */
module DrawReplay {
  import opened Wire
  import opened Opcodes
  import opened Records
  import opened Calls
  import opened Client

  /** The array of attribute i in a draw record. */
  function ArrayOf(arrays: List<(nat, Value)>, i: nat): Option<Value> {
    match arrays
    case Nil => None
    case Cons((j, v), rest) => if j == i then Some(v) else ArrayOf(rest, i)
  }

  /** Byte k of vertex j as the replayed call finds it: the array starts at the recorded bytes and has
      no stride; None outside them. */
  function Replayed(arrays: List<(nat, Value)>, f: Format, i: nat, j: nat, k: nat): Option<byte> {
    var at := j * VertexBytes(f.size, f.typ) + k;
    match ArrayOf(arrays, i)
    case Some(Blob(Some(d))) => if at < |d| then Some(d[at]) else None
    case _ => None
  }

  lemma {:induction false} ArrayIsPacked(attribs: seq<VertexAttrib>, n: nat, from: nat, i: nat)
    requires from <= i < |attribs| && ArraysReadable(attribs, n) && !UnknownType(attribs) && attribs[i].enabled
    ensures SizeOf(attribs[i].typ).Some? && ArrayReadable(attribs[i], n)
    ensures ArrayOf(ArraysFrom(attribs, n, from), i) == Some(Blob(Some(PackedArray(attribs[i], n))))
    decreases i - from
  {
    assert SizeOf(attribs[i].typ).Some? && ArrayReadable(attribs[i], n);
    if from < i { ArrayIsPacked(attribs, n, from + 1, i); }
  }

  lemma {:induction false} ArrayOfCanon(arrays: List<(nat, Value)>, i: nat, wsize: nat)
    ensures ArrayOf(CanonArrays(arrays, wsize), i)
         == if ArrayOf(arrays, i).None? then None else Some(Canon(ArrayOf(arrays, i).value, wsize))
    decreases arrays
  {
    if arrays.Cons? { ArrayOfCanon(arrays.tail, i, wsize); }
  }

  /** Vertex j lies outside n packed vertices from n on. */
  lemma OutsideFrom(j: nat, n: nat, elemsz: nat, k: nat)
    requires n <= j
    ensures j * elemsz + k >= n * elemsz
  {
    Monotone(n, j, elemsz);
  }

  predicate DrawsClientArrays(st: RecorderState, c: Call, wsize: nat) {
    IsState(st) && c.DrawElements? && CanCall(st, c, wsize) && !Aborts(st, c) && st.arrayBuffer == 0
  }

  /** The record that the replayer gets to see. */
  function SeenDraw(st: RecorderState, c: Call, wsize: nat): (r: Record)
    requires c.DrawElements? && CanCall(st, c, wsize) && !Aborts(st, c)
    ensures r.Draw?
  {
    CanonRecord(RecordOf(st, c, wsize), wsize)
  }

  /** Attribute i is drawn from an array, and its vertices have a byte k. */
  predicate Fetches(st: RecorderState, i: nat, k: nat)
    requires IsState(st)
  {
    i < MAX_VERTEX_ATTRIBS && st.attribs[i].enabled && k < VertexBytes(st.attribs[i].size, st.attribs[i].typ)
  }

  /** The replayed call finds the byte that the application's call finds, as long as the vertex is among
      those of the quads that the recorder counts, and no byte at all from there on. */
  lemma ReplayedFetch(st: RecorderState, c: Call, wsize: nat, i: nat, j: nat, k: nat)
    requires DrawsClientArrays(st, c, wsize) && Fetches(st, i, k)
    ensures Replayed(SeenDraw(st, c, wsize).arrays, BindingsOf(st).formats[i], i, j, k)
         == if j < QuadVertices(c.count) then Some(VertexByte(st.attribs[i], j, k)) else None
  {
    hide Packed, CanonArrays, ArraysFrom, VertexBytes, VertexByte, VertexCount, QuadVertices, Fetch, ElementSize;
    var a, n := st.attribs[i], VertexCount(c.count);
    CountIsQuads(c.count);
    assert SizeOf(a.typ).Some?;
    var elemsz := ElementSize(a);
    ElementSizeIsBytes(a);
    ArrayIsPacked(st.attribs, n, 0, i);
    ArrayOfCanon(ArraysFrom(st.attribs, n, 0), i, wsize);
    if j < n {
      PackedPreservesFetch(a.pointer.mem, a.stride, elemsz, n, j, k);
      FetchPacked(PackedArray(a, n), elemsz, j, k);
      FetchIsByte(a, j, k);
    } else {
      OutsideFrom(j, n, elemsz, k);
    }
  }

  lemma FetchPacked(d: seq<byte>, elemsz: nat, j: nat, k: nat)
    requires j * elemsz + k < |d|
    ensures Fetch(d, 0, elemsz, j, k) == d[j * elemsz + k]
  {
  }

  // ---------- Indices ----------

  /** Index number i of the application's call, if it draws so many: from the bound buffer, which holds
      the indices `bound`, or from its own memory. */
  function DrawnIndex(st: RecorderState, c: Call, bound: seq<nat>, i: nat): Option<nat>
    requires c.DrawElements?
  {
    if !Positive(c.count) || i >= c.count then None
    else if st.elementBuffer != 0 then if i < |bound| then Some(bound[i]) else None
    else if c.indices.addr == 0 then None
    else NumberAt(c.indices.mem, Width(c.typ), i)
  }

  /** Index number i of the replayed call. */
  function ReplayedIndex(r: Record, bound: seq<nat>, i: nat): Option<nat>
    requires r.Draw?
  {
    if !Positive(r.count) || i >= r.count then None
    else
      match r.index
      case Ptr(_) => if i < |bound| then Some(bound[i]) else None
      case Blob(Some(d)) => NumberAt(d, Width(r.typ), i)
      case _ => None
  }

  /** The replayed call draws the application's indices. */
  lemma IndicesAreReplayed(st: RecorderState, c: Call, wsize: nat, bound: seq<nat>, i: nat)
    requires c.DrawElements? && CanCall(st, c, wsize) && !Aborts(st, c)
    ensures ReplayedIndex(SeenDraw(st, c, wsize), bound, i) == DrawnIndex(st, c, bound, i)
  {
    hide ArraysFrom, CanonArrays, NumberAt;
    SizeOfIsWidth(c.typ);
    if st.elementBuffer == 0 && c.indices.addr != 0 && Positive(c.count) && i < c.count {
      assert Signed(c.count) == c.count;
      PrefixNumber(c.indices.mem, Width(c.typ), c.count, i);
    }
  }

  /** The client's memory holds number i of n, and n numbers are enough to read it. */
  lemma PrefixNumber(mem: seq<byte>, w: nat, n: nat, i: nat)
    requires i < n && w in {1, 2, 4} && n * w <= |mem|
    ensures n * w > 0 && NumberAt(mem[..n * w], w, i) == NumberAt(mem, w, i) && NumberAt(mem, w, i).Some?
  {
    assert i * w + w <= n * w by { Monotone(i + 1, n, w); }
  }

  // ---------- Draws ----------

  /** The replayed call draws as many indices, and each fetches, from every array, every byte that the
      application's index fetches from the client's memory. */
  ghost predicate SameDraw(st: RecorderState, c: Call, wsize: nat, bound: seq<nat>)
    requires DrawsClientArrays(st, c, wsize)
  {
    var r := SeenDraw(st, c, wsize);
    && (forall n: nat :: ReplayedIndex(r, bound, n).Some? <==> DrawnIndex(st, c, bound, n).Some?)
    && forall n: nat, i: nat, k: nat :: DrawnIndex(st, c, bound, n).Some? && Fetches(st, i, k) ==>
         ReplayedIndex(r, bound, n).Some?
         && Replayed(r.arrays, BindingsOf(st).formats[i], i, ReplayedIndex(r, bound, n).value, k)
            == Some(VertexByte(st.attribs[i], DrawnIndex(st, c, bound, n).value, k))
  }

  ghost predicate DrawsOnlyQuads(st: RecorderState, c: Call, bound: seq<nat>)
    requires c.DrawElements?
  {
    forall n: nat :: DrawnIndex(st, c, bound, n).Some? ==>
      DrawnIndex(st, c, bound, n).value < QuadVertices(c.count)
  }

  /** A replayed draw from client arrays is the recorded one, if and only if every index drawn is below
      four for every six indices, or no array delivers anything. */
  lemma DrawIsFaithful(st: RecorderState, c: Call, wsize: nat, bound: seq<nat>)
    requires DrawsClientArrays(st, c, wsize)
    ensures SameDraw(st, c, wsize, bound) <==> DrawsOnlyQuads(st, c, bound) || !exists i: nat :: Fetches(st, i, 0)
  {
    hide Replayed, VertexByte, SeenDraw, QuadVertices, DrawnIndex, ReplayedIndex, VertexBytes;
    var r := SeenDraw(st, c, wsize);
    forall n: nat ensures ReplayedIndex(r, bound, n) == DrawnIndex(st, c, bound, n) {
      IndicesAreReplayed(st, c, wsize, bound, n);
    }
    forall i: nat, j: nat, k: nat | Fetches(st, i, k)
      ensures Replayed(r.arrays, BindingsOf(st).formats[i], i, j, k)
           == if j < QuadVertices(c.count) then Some(VertexByte(st.attribs[i], j, k)) else None
      ensures Fetches(st, i, 0)
    {
      ReplayedFetch(st, c, wsize, i, j, k);
    }
  }

  /** So it is for quads, each drawn as two triangles. */
  lemma QuadsAreFaithful(st: RecorderState, c: Call, wsize: nat, bound: seq<nat>, indices: seq<nat>, q: nat)
    requires DrawsClientArrays(st, c, wsize)
    requires AreQuads(indices, q) && c.count == 6 * q < 0x8000_0000
    requires forall n :: 0 <= n < 6 * q ==> DrawnIndex(st, c, bound, n) == Some(indices[n])
    ensures SameDraw(st, c, wsize, bound)
  {
    hide SameDraw, AreQuads, QuadVertices, Fetches;
    QuadsNeedTheirVertices(indices, q, c.count);
    CountIsQuads(c.count);
    forall n: nat | DrawnIndex(st, c, bound, n).Some?
      ensures DrawnIndex(st, c, bound, n).value < QuadVertices(c.count)
    {
      assert n < 6 * q;
      QuadsLength(indices, q);
      assert indices[n] in indices;
    }
    DrawIsFaithful(st, c, wsize, bound);
  }

  lemma QuadsLength(indices: seq<nat>, q: nat)
    requires AreQuads(indices, q)
    ensures |indices| == 6 * q
  {
  }
}
