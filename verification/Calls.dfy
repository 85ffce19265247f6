/** The calls an application makes, the state the recorder keeps beside the trace
    (tools/gltrace/gles.c), and the record it writes for each call. */
module Calls {
  import opened Wire
  import opened Opcodes
  import opened Records

  // ---------- Client memory and vertex arrays ----------

  /** A client-side pointer: its address and the bytes found there. */
  datatype ClientPtr = ClientPtr(addr: quad, mem: seq<byte>)

  const NULL: ClientPtr := ClientPtr(0, [])

  datatype VertexAttrib = VertexAttrib(
    enabled: bool, size: word, typ: word, normalized: byte, stride: word, pointer: ClientPtr)

  /** The bytes of one vertex of an attribute whose component type is known. */
  function ElementSize(a: VertexAttrib): (n: nat)
    requires SizeOf(a.typ).Some?
    ensures n == 0 || n == SizeOf(a.typ).value * Signed(a.size)
  {
    if Signed(a.size) > 0 then SizeOf(a.typ).value * Signed(a.size) else 0
  }

  /** The distance between consecutive vertices of an attribute. */
  function Step(stride: word, elemsz: nat): nat {
    if Signed(stride) > 0 then Signed(stride) else elemsz
  }

  /** Byte k of vertex j of an array at mem (section 2.8 of the OpenGL ES 2.0 specification). */
  function Fetch(mem: seq<byte>, stride: word, elemsz: nat, j: nat, k: nat): byte {
    var i := j * Step(stride, elemsz) + k;
    if i < |mem| then mem[i] else 0
  }

  /** The memory holds n vertices. */
  predicate Holds(mem: seq<byte>, stride: word, elemsz: nat, n: nat) {
    n == 0 || elemsz == 0 || (n - 1) * Step(stride, elemsz) + elemsz <= |mem|
  }

  /** n vertices without the gaps between them. */
  function Packed(mem: seq<byte>, stride: word, elemsz: nat, n: nat): (s: seq<byte>)
    requires Holds(mem, stride, elemsz, n)
    ensures |s| == n * elemsz
  {
    if n == 0 || elemsz == 0 then []
    else
      var at := (n - 1) * Step(stride, elemsz);
      HoldsFewer(mem, stride, elemsz, n);
      Packed(mem, stride, elemsz, n - 1) + mem[at..at + elemsz]
  }

  lemma HoldsFewer(mem: seq<byte>, stride: word, elemsz: nat, n: nat)
    requires n > 0 && Holds(mem, stride, elemsz, n)
    ensures Holds(mem, stride, elemsz, n - 1)
  {
    if n > 1 && elemsz > 0 {
      var step := Step(stride, elemsz);
      assert (n - 1) * step == (n - 2) * step + step;
    }
  }

  /** Repacking preserves every fetch: read without a stride, the packed copy gives
      what the original gives when read with its stride. */
  lemma {:induction false} PackedPreservesFetch(mem: seq<byte>, stride: word, elemsz: nat, n: nat, j: nat, k: nat)
    requires Holds(mem, stride, elemsz, n)
    requires j < n && k < elemsz
    ensures j * elemsz + k < |Packed(mem, stride, elemsz, n)|
    ensures Fetch(Packed(mem, stride, elemsz, n), 0, elemsz, j, k) == Fetch(mem, stride, elemsz, j, k)
    decreases n
  {
    var step := Step(stride, elemsz);
    HoldsFewer(mem, stride, elemsz, n);
    var at, front := (n - 1) * step, Packed(mem, stride, elemsz, n - 1);
    assert Packed(mem, stride, elemsz, n) == front + mem[at..at + elemsz];
    IndexBound(j, n, elemsz, k);
    if j < n - 1 {
      PackedPreservesFetch(mem, stride, elemsz, n - 1, j, k);
      IndexBefore(j, n - 1, step, k, elemsz);
    }
  }

  /** Vertex j of n packed vertices lies within them. */
  lemma IndexBound(j: nat, n: nat, elemsz: nat, k: nat)
    requires j < n && k < elemsz
    ensures j * elemsz + k < n * elemsz
    ensures j < n - 1 ==> j * elemsz + k < (n - 1) * elemsz
  {
    Monotone(j + 1, n, elemsz);
    if j < n - 1 {
      Monotone(j + 1, n - 1, elemsz);
    }
  }

  lemma Monotone(a: nat, b: nat, c: nat)
    requires a <= b
    ensures a * c <= b * c
  {
  }

  /** Vertex j lies before the end of vertex m. */
  lemma IndexBefore(j: nat, m: nat, step: nat, k: nat, elemsz: nat)
    requires j < m && k < elemsz
    ensures j * step + k < m * step + elemsz
  {
    assert m * step == j * step + (m - j) * step;
  }

  /** C division, which truncates. */
  function TruncDiv(a: int, b: int): int
    requires b > 0
  {
    if a >= 0 then a / b else -(-a / b)
  }

  /** getVertexCount: the recorder assumes quads, each drawn as two triangles; no loop runs for a
      negative number. */
  function VertexCount(count: word): nat {
    var n := TruncDiv(Signed(count), 6) * 4;
    if n > 0 then n else 0
  }

  // ---------- The recorder's state ----------

  datatype RecorderState = RecorderState(arrayBuffer: word, elementBuffer: word, attribs: seq<VertexAttrib>)

  predicate IsState(st: RecorderState) {
    |st.attribs| == MAX_VERTEX_ATTRIBS
  }

  function EnabledOf(attribs: seq<VertexAttrib>): (r: seq<bool>)
    ensures |r| == |attribs| && forall i :: 0 <= i < |r| ==> r[i] == attribs[i].enabled
  {
    seq(|attribs|, i requires 0 <= i < |attribs| => attribs[i].enabled)
  }

  function FormatOf(a: VertexAttrib): Format {
    Format(a.size, a.typ, a.normalized)
  }

  function FormatsOf(attribs: seq<VertexAttrib>): (r: seq<Format>)
    ensures |r| == |attribs| && forall i :: 0 <= i < |r| ==> r[i] == FormatOf(attribs[i])
  {
    seq(|attribs|, i requires 0 <= i < |attribs| => FormatOf(attribs[i]))
  }

  function BindingsOf(st: RecorderState): Bindings {
    Bindings(st.arrayBuffer, st.elementBuffer, EnabledOf(st.attribs), FormatsOf(st.attribs))
  }

  const UNSET: VertexAttrib := VertexAttrib(false, 0, 0, 0, 0, NULL)

  const INITIAL: RecorderState := RecorderState(0, 0, Repeat(UNSET, MAX_VERTEX_ATTRIBS))

  // ---------- Calls ----------

  datatype Call =
    | Simple(op: word, args: List<Value>)
    | BindBuffer(target: word, buffer: word)
    | EnableArray(index: word)
    | DisableArray(index: word)
    | AttribPointer(index: word, size: word, typ: word, normalized: byte, stride: word, pointer: ClientPtr)
    | DrawElements(mode: word, count: word, typ: word, indices: ClientPtr)
    | Names(op: word, names: List<word>)
    | ShaderSource(shader: word, strings: List<Option<seq<byte>>>, lengths: Option<List<word>>)
    | Create(op: word, handles: List<Value>, attribs: List<(word, word)>, res: quad)
    | ChooseConfig(dpy: quad, attribs: List<(word, word)>, configs: Option<seq<quad>>, size: word, num: word, ok: word)

  /** The commands after which the recorder or the replayer updates its own state. */
  const STATEFUL: set<word> :=
    {GL_BIND_BUFFER, GL_ENABLE_VERTEX_ATTRIB_ARRAY, GL_DISABLE_VERTEX_ATTRIB_ARRAY, GL_VERTEX_ATTRIB_POINTER}

  /** The client memory behind every enabled attribute holds the vertices drawn. */
  predicate ArraysReadable(attribs: seq<VertexAttrib>, n: nat) {
    forall i :: 0 <= i < |attribs| && attribs[i].enabled && SizeOf(attribs[i].typ).Some? ==>
      ArrayReadable(attribs[i], n)
  }

  predicate ArrayReadable(a: VertexAttrib, n: nat)
    requires SizeOf(a.typ).Some?
  {
    && Holds(a.pointer.mem, a.stride, ElementSize(a), n)
    && n * ElementSize(a) < 0x7fff_fff0
  }

  predicate AreStrings(strings: List<Option<seq<byte>>>, lengths: Option<List<word>>) {
    && (lengths.Some? ==> Length(lengths.value) == Length(strings))
    && (strings.Cons? ==>
          && StringReadable(strings.head, LengthAt(lengths))
          && AreStrings(strings.tail, RestOf(lengths)))
  }

  /** The length entry that belongs to the first string: 0 when there is no array of lengths. */
  function LengthAt(lengths: Option<List<word>>): word {
    if lengths.None? || lengths.value.Nil? then 0 else lengths.value.head
  }

  function RestOf(lengths: Option<List<word>>): Option<List<word>> {
    if lengths.None? || lengths.value.Nil? then lengths else Some(lengths.value.tail)
  }

  /** A string with a positive length has that many bytes; any other is NUL-terminated,
      and its terminator is not part of text. */
  predicate StringReadable(text: Option<seq<byte>>, len: word) {
    text.Some? ==>
      if Signed(len) > 0 then |text.value| >= Signed(len) && Signed(len) < 0x7fff_fff0 else IsCString(text.value)
  }

  /** What the C code demands of its caller in state st. */
  predicate CanCall(st: RecorderState, c: Call, wsize: nat) {
    match c
    case Simple(op, args) => PutShape(op) == Some(Kinds(args)) && AreValues(args, wsize) && op !in STATEFUL
    case BindBuffer(_, _) => true
    case EnableArray(index) => index < MAX_VERTEX_ATTRIBS
    case DisableArray(index) => index < MAX_VERTEX_ATTRIBS
    case AttribPointer(index, _, _, _, _, pointer) => index < MAX_VERTEX_ATTRIBS && IsAddress(wsize, pointer.addr)
    case DrawElements(_, count, typ, indices) =>
      && IsAddress(wsize, indices.addr)
      && (st.elementBuffer == 0 && SizeOf(typ).Some? && indices.addr != 0 ==> IndicesReadable(count, typ, indices))
      && (st.arrayBuffer == 0 ==> ArraysReadable(st.attribs, VertexCount(count)))
    case Names(op, names) => IsCounted(op) && Length(names) < 0x8000_0000
    case ShaderSource(_, strings, lengths) => Length(strings) < 0x8000_0000 && AreStrings(strings, lengths)
    case Create(op, handles, attribs, res) =>
      && HasAttribs(op) && AreValues(handles, wsize) && Kinds(handles) == P3 && IsAddress(wsize, res)
      && AreAttribs(attribs)
    case ChooseConfig(dpy, attribs, configs, size, num, _) =>
      && IsAddress(wsize, dpy) && AreAttribs(attribs)
      && ConfigCount(num, size) <= (if configs.None? then 0 else |configs.value|)
      && (configs.Some? ==> forall i :: 0 <= i < |configs.value| ==> IsAddress(wsize, configs.value[i]))
  }

  /** The client's indices are there, and their size is an int. */
  predicate IndicesReadable(count: word, typ: word, indices: ClientPtr)
    requires SizeOf(typ).Some?
  {
    -0x8000_0000 <= Signed(count) * SizeOf(typ).value <= |indices.mem| < 0x7fff_fff0
  }

  // ---------- The record of a call ----------

  /** Some attribute that would be copied has a component type glSizeof does not know. */
  predicate UnknownType(attribs: seq<VertexAttrib>) {
    exists i :: 0 <= i < |attribs| && attribs[i].enabled && SizeOf(attribs[i].typ).None?
  }

  /** glSizeof meets a type it does not know and ends the process. */
  predicate Aborts(st: RecorderState, c: Call) {
    && c.DrawElements?
    && (|| (st.elementBuffer == 0 && SizeOf(c.typ).None?)
        || (st.arrayBuffer == 0 && UnknownType(st.attribs)))
  }

  function PackedArray(a: VertexAttrib, n: nat): seq<byte>
    requires SizeOf(a.typ).Some? && ArrayReadable(a, n)
  {
    Packed(a.pointer.mem, a.stride, ElementSize(a), n)
  }

  function ArraysFrom(attribs: seq<VertexAttrib>, n: nat, i: nat): List<(nat, Value)>
    requires i <= |attribs| && ArraysReadable(attribs, n) && !UnknownType(attribs)
    decreases |attribs| - i
  {
    if i == |attribs| then Nil
    else if !attribs[i].enabled then ArraysFrom(attribs, n, i + 1)
    else
      var a := attribs[i];
      Cons((i, Blob(Some(PackedArray(a, n)))), ArraysFrom(attribs, n, i + 1))
  }

  function SourceOf(text: Option<seq<byte>>, len: word): Source
    requires StringReadable(text, len)
  {
    Source(len, if text.Some? && Signed(len) > 0 then Some(text.value[..Signed(len)]) else text)
  }

  function SourcesOf(strings: List<Option<seq<byte>>>, lengths: Option<List<word>>): List<Source>
    requires AreStrings(strings, lengths)
  {
    if strings.Nil? then Nil
    else
      Cons(SourceOf(strings.head, LengthAt(lengths)), SourcesOf(strings.tail, RestOf(lengths)))
  }

  function IndexValue(st: RecorderState, c: Call): Value
    requires c.DrawElements?
    requires st.elementBuffer == 0 ==> SizeOf(c.typ).Some?
    requires st.elementBuffer == 0 && c.indices.addr != 0 ==> IndicesReadable(c.count, c.typ, c.indices)
  {
    if st.elementBuffer != 0 then Ptr(c.indices.addr)
    else if c.indices.addr == 0 then Blob(None)
    else
      var size := Signed(c.count) * SizeOf(c.typ).value;
      if size < 0 then NoBytes(size + 0x1_0000_0000) else Blob(Some(c.indices.mem[..size]))
  }

  /** The configurations that eglChooseConfig has filled in. */
  function Chosen(configs: seq<quad>): List<quad> {
    if |configs| == 0 then Nil else Cons(configs[0], Chosen(configs[1..]))
  }

  function ChosenOf(c: Call): List<quad>
    requires c.ChooseConfig? && ConfigCount(c.num, c.size) <= (if c.configs.None? then 0 else |c.configs.value|)
  {
    if c.configs.None? then Nil else Chosen(c.configs.value[..ConfigCount(c.num, c.size)])
  }

  /** The record the recorder writes for the call c in state st. */
  function RecordOf(st: RecorderState, c: Call, wsize: nat): Record
    requires CanCall(st, c, wsize) && !Aborts(st, c)
  {
    match c
    case Simple(op, args) => Plain(op, args)
    case BindBuffer(target, buffer) => Plain(GL_BIND_BUFFER, Cons(Int(target), Cons(Int(buffer), Nil)))
    case EnableArray(index) => Plain(GL_ENABLE_VERTEX_ATTRIB_ARRAY, Cons(Int(index), Nil))
    case DisableArray(index) => Plain(GL_DISABLE_VERTEX_ATTRIB_ARRAY, Cons(Int(index), Nil))
    case AttribPointer(index, size, typ, normalized, stride, pointer) =>
      Plain(GL_VERTEX_ATTRIB_POINTER,
            Cons(Int(index), Cons(Int(size), Cons(Int(typ), Cons(Flag(normalized), Cons(Int(stride),
              Cons(Ptr(pointer.addr), Nil)))))))
    case DrawElements(mode, count, typ, _) =>
      Draw(mode, count, typ, IndexValue(st, c),
           if st.arrayBuffer == 0 then ArraysFrom(st.attribs, VertexCount(count), 0) else Nil)
    case Names(op, names) => Ids(op, names)
    case ShaderSource(shader, strings, lengths) => Sources(shader, SourcesOf(strings, lengths))
    case Create(op, handles, attribs, res) => Attribs(op, handles, attribs, res)
    case ChooseConfig(dpy, attribs, configs, size, num, ok) =>
      Choose(dpy, attribs, if configs.None? then 0 else size, num, ChosenOf(c), ok)
  }

  /** The recorder's state after the call. */
  function After(st: RecorderState, c: Call): (r: RecorderState)
    ensures IsState(st) ==> IsState(r)
  {
    match c
    case BindBuffer(target, buffer) =>
      if target == GL_ARRAY_BUFFER then st.(arrayBuffer := buffer)
      else if target == GL_ELEMENT_ARRAY_BUFFER then st.(elementBuffer := buffer)
      else st
    case EnableArray(index) => SetAttrib(st, index,
                                         if index < |st.attribs| then st.attribs[index].(enabled := true) else UNSET)
    case DisableArray(index) => SetAttrib(st, index,
                                          if index < |st.attribs| then st.attribs[index].(enabled := false) else UNSET)
    case AttribPointer(index, size, typ, normalized, stride, pointer) =>
      SetAttrib(st, index,
                if index < |st.attribs| then VertexAttrib(st.attribs[index].enabled, size, typ, normalized, stride,
                                                          pointer)
                else UNSET)
    case _ => st
  }

  function SetAttrib(st: RecorderState, i: nat, a: VertexAttrib): (r: RecorderState)
    ensures |r.attribs| == |st.attribs|
  {
    if i < |st.attribs| then st.(attribs := st.attribs[i := a]) else st
  }

  // ---------- Every call's record fits the bindings it is written under ----------

  lemma {:induction false} ArraysFit(attribs: seq<VertexAttrib>, n: nat, i: nat, wsize: nat)
    requires i <= |attribs| && ArraysReadable(attribs, n) && !UnknownType(attribs)
    ensures AreArrays(ArraysFrom(attribs, n, i), EnabledFrom(EnabledOf(attribs), i), wsize)
    decreases |attribs| - i
  {
    if i < |attribs| {
      ArraysFit(attribs, n, i + 1, wsize);
      if attribs[i].enabled {
        assert SizeOf(attribs[i].typ).Some? && ArrayReadable(attribs[i], n);
      }
    }
  }

  lemma {:induction false} SourcesFit(strings: List<Option<seq<byte>>>, lengths: Option<List<word>>)
    requires AreStrings(strings, lengths)
    ensures AreSources(SourcesOf(strings, lengths)) && Length(SourcesOf(strings, lengths)) == Length(strings)
    decreases strings
  {
    if strings.Cons? {
      SourcesFit(strings.tail, RestOf(lengths));
    }
  }

  lemma {:induction false} ChosenFit(configs: seq<quad>, wsize: nat)
    requires forall i :: 0 <= i < |configs| ==> IsAddress(wsize, configs[i])
    ensures AreAddresses(Chosen(configs), wsize) && Length(Chosen(configs)) == |configs|
    decreases |configs|
  {
    if |configs| > 0 { ChosenFit(configs[1..], wsize); }
  }

  lemma DrawFits(st: RecorderState, c: Call, wsize: nat)
    requires c.DrawElements? && CanCall(st, c, wsize) && !Aborts(st, c)
    ensures IsRecord(RecordOf(st, c, wsize), BindingsOf(st), wsize)
  {
    hide ArraysFrom;
    if st.arrayBuffer == 0 {
      ArraysFit(st.attribs, VertexCount(c.count), 0, wsize);
    }
    if st.elementBuffer == 0 && c.indices.addr != 0 {
      var size := Signed(c.count) * SizeOf(c.typ).value;
      assert size < 0 ==> Signed(size + 0x1_0000_0000) == size;
    }
  }

  lemma RecordFits(st: RecorderState, c: Call, wsize: nat)
    requires CanCall(st, c, wsize) && !Aborts(st, c)
    ensures IsRecord(RecordOf(st, c, wsize), BindingsOf(st), wsize)
  {
    match c
    case DrawElements(mode, count, typ, indices) =>
      DrawFits(st, c, wsize);
    case ChooseConfig(_, _, configs, size, num, _) =>
      if configs.Some? {
        ChosenFit(configs.value[..ConfigCount(num, size)], wsize);
      }
    case ShaderSource(shader, strings, lengths) =>
      SourcesFit(strings, lengths);
    case AttribPointer(index, size, typ, normalized, stride, pointer) =>
      var last := Cons(Int(stride), Cons(Ptr(pointer.addr), Nil));
      assert Kinds(last.tail) == Cons(P, Nil) && AreValues(last.tail, wsize);
      var flag := Cons(Flag(normalized), last);
      assert Kinds(flag) == Cons(Z, Cons(I, Cons(P, Nil))) && AreValues(flag, wsize);
      var args := Cons(Int(size), Cons(Int(typ), flag));
      assert Kinds(args.tail) == Cons(I, Kinds(flag)) && AreValues(args.tail, wsize);
    case BindBuffer(target, buffer) =>
      assert Kinds(Cons(Int(buffer), Nil)) == I1;
    case _ =>
  }

  // ---------- What a replayed shader source means ----------

  /** The text that section 2.10.1 of the OpenGL ES 2.0 specification assigns to a
      string of glShaderSource: without a length, or with a negative one, the
      string is NUL-terminated; otherwise it has exactly that many bytes. */
  function ShaderText(text: Option<seq<byte>>, len: Option<word>): seq<byte>
    requires text.Some? && len.Some? && Signed(len.value) > 0 ==> |text.value| >= Signed(len.value)
  {
    if text.None? then []
    else if len.None? || Signed(len.value) < 0 then text.value
    else if Signed(len.value) == 0 then []
    else text.value[..Signed(len.value)]
  }

  /** The text of the replayed call: retrace.c passes the recorded length when it is
      positive and -1 otherwise. */
  function ReplayedText(src: Source): seq<byte> {
    if src.text.None? then [] else src.text.value
  }

  /** A string keeps its text across the trace exactly when it is not a nonempty
      string given with an explicit length of zero: the recorder writes such a
      string as if it were NUL-terminated. */
  lemma ShaderTextSurvives(text: Option<seq<byte>>, lengths: Option<List<word>>)
    requires AreStrings(Cons(text, Nil), lengths)
    ensures var len := if lengths.None? then None else Some(lengths.value.head);
            ReplayedText(CanonSource(SourcesOf(Cons(text, Nil), lengths).head)) == ShaderText(text, len)
            <==> !(len == Some(0) && text.Some? && |text.value| > 0)
  {
    assert lengths.Some? ==> lengths.value.Cons?;
    assert StringReadable(text, LengthAt(lengths));
    var src := SourcesOf(Cons(text, Nil), lengths).head;
    if text.Some? && Signed(src.len) > 0 {
      assert |text.value[..Signed(src.len)]| > 0;
    }
  }
}
