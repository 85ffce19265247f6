/** The recorder of tools/gltrace/gles.c and egl.c: intercepted calls update the
    recorder's own variables and write their records through the trace writer.
    The results of the original calls and the clock readings are parameters. */
module Recorder {
  import opened Wire
  import opened Stream
  import opened Opcodes
  import opened Records
  import opened Calls
  import opened Trace
  import opened Encoding
  import opened TraceWriter

  class Recorder {
    const w: Writer
    var arrayBufferBinding: word
    var elementArrayBufferBinding: word
    const vertexAttrib: array<VertexAttrib>

    /** The invariant between calls of a single, non-nesting caller. */
    ghost predicate Valid()
      reads this, w, w.window, vertexAttrib
    {
      w.Ready() && w.reentrance == 0 && vertexAttrib.Length == MAX_VERTEX_ATTRIBS
    }

    ghost function State(): RecorderState
      reads this, vertexAttrib
    {
      RecorderState(arrayBufferBinding, elementArrayBufferBinding, vertexAttrib[..])
    }

    constructor (chunk: nat, ptrSize: nat)
      requires chunk > 0 && chunk % 4 == 0
      requires ptrSize == 4 || ptrSize == 8
      ensures Valid() && fresh(w) && fresh(w.window) && fresh(vertexAttrib)
      ensures State() == INITIAL
      ensures w.log == Header(ptrSize) && w.wsize == ptrSize && w.curThread == 0
    {
      w := new Writer(chunk, ptrSize);
      arrayBufferBinding, elementArrayBufferBinding := 0, 0;
      vertexAttrib := new VertexAttrib[MAX_VERTEX_ATTRIBS](_ => UNSET);
      new;
      assert vertexAttrib[..] == INITIAL.attribs;
    }

    /** The call was recorded: its event's bytes, and nothing else, were appended,
        and the recorder's variables were updated. */
    twostate predicate Recorded(c: Call, thread: quad, bgn: quad, end: quad)
      requires old(Valid()) && IsEvent(old(State()), Event(thread, c, bgn, end), w.wsize)
      reads this, w, w.window, vertexAttrib
    {
      && Valid() && (w.window == old(w.window) || fresh(w.window))
      && w.log == old(w.log)
                  + BytesOf(PutEvent(w.wsize, old(w.curThread), old(State()), Event(thread, c, bgn, end), Nil))
      && w.curThread == thread
      && State() == After(old(State()), c)
    }

    // ---------- Parts of a record ----------

    /** Between putCmd and putTime: the body written so far. */
    twostate predicate Wrote(body: seq<byte>)
      reads this, w, w.window, vertexAttrib
    {
      && w.Ready() && (w.window == old(w.window) || fresh(w.window))
      && w.log == old(w.log) + body
      && w.reentrance == 1 == old(w.reentrance)
      && w.curThread == old(w.curThread)
      && State() == old(State())
    }

    method PutValue(v: Value)
      requires w.Ready() && w.reentrance == 1 && IsValue(v, w.wsize)
      modifies w, w.window
      ensures Wrote(ValueBytes(v, w.wsize))
    {
      match v
      case Int(i) => w.PutInt(i);
      case Flag(b) => w.PutInt(b);
      case Ptr(p) => w.PutPtr(p);
      case Str(s) => w.PutString(s);
      case Blob(d) =>
        if d.Some? {
          w.PutBytes(d, |d.value|);
          assert d.value[..|d.value|] == d.value;
        } else {
          w.PutBytes(None, 0);
        }
      case NoBytes(size) =>
        w.PutBytes(Some([]), Signed(size));
      case NullableInt(i) => w.PutNullable(i, MARKER);
      case NullableFloat(f) => w.PutNullable(f, FLOAT_MARKER);
    }

    /** The fixed fields of a command, in the recorder's order. */
    method PutArgs(args: List<Value>)
      requires w.Ready() && w.reentrance == 1 && AreValues(args, w.wsize)
      modifies w, w.window
      ensures Wrote(BytesOf(PutValues(args, w.wsize, Nil)))
    {
      hide Records.PutValue, ValueBytes;
      var rest := args;
      ghost var done := [];
      while rest.Cons?
        invariant AreValues(rest, w.wsize) && Wrote(done)
        invariant done + BytesOf(PutValues(rest, w.wsize, Nil)) == BytesOf(PutValues(args, w.wsize, Nil))
        decreases rest
      {
        BytesOfValue(rest.head, w.wsize, PutValues(rest.tail, w.wsize, Nil));
        ghost var bytes, more := ValueBytes(rest.head, w.wsize), BytesOf(PutValues(rest.tail, w.wsize, Nil));
        PutValue(rest.head);
        Assoc(done, bytes, more);
        Assoc(old(w.log), done, bytes);
        done := done + bytes;
        rest := rest.tail;
      }
      assert done + BytesOf(Nil) == done;
    }

    /** The loops of glGen* and glDelete*. */
    method PutNames(names: List<word>)
      requires w.Ready() && w.reentrance == 1
      modifies w, w.window
      ensures Wrote(BytesOf(PutIds(names, Nil)))
    {
      var rest := names;
      ghost var done := [];
      while rest.Cons?
        invariant Wrote(done)
        invariant done + BytesOf(PutIds(rest, Nil)) == BytesOf(PutIds(names, Nil))
        decreases rest
      {
        ghost var more := BytesOf(PutIds(rest.tail, Nil));
        w.PutInt(rest.head);
        Assoc(done, Int4(rest.head), more);
        Assoc(old(w.log), done, Int4(rest.head));
        done := done + Int4(rest.head);
        rest := rest.tail;
      }
      assert done + BytesOf(Nil) == done;
    }

    /** The loop of glShaderSource. */
    method PutStrings(strings: List<Option<seq<byte>>>, lengths: Option<List<word>>)
      requires w.Ready() && w.reentrance == 1 && AreStrings(strings, lengths)
      modifies w, w.window
      ensures AreSources(SourcesOf(strings, lengths))
      ensures Wrote(BytesOf(PutSources(SourcesOf(strings, lengths), Nil)))
    {
      hide PutSource;
      SourcesFit(strings, lengths);
      ghost var all := SourcesOf(strings, lengths);
      var restS, restL := strings, lengths;
      ghost var done := [];
      while restS.Cons?
        invariant AreStrings(restS, restL) && AreSources(SourcesOf(restS, restL)) && Wrote(done)
        invariant done + BytesOf(PutSources(SourcesOf(restS, restL), Nil)) == BytesOf(PutSources(all, Nil))
        decreases restS
      {
        ghost var src, more := SourcesOf(restS, restL).head, SourcesOf(restS, restL).tail;
        SourcesFit(restS.tail, RestOf(restL));
        BytesOfSource(src, PutSources(more, Nil));
        PutShaderString(restS.head, LengthAt(restL));
        ghost var bytes := BytesOf(PutSource(src, Nil));
        Assoc(done, bytes, BytesOf(PutSources(more, Nil)));
        Assoc(old(w.log), done, bytes);
        done := done + bytes;
        restS, restL := restS.tail, RestOf(restL);
      }
      assert done + BytesOf(Nil) == done;
    }

    method PutShaderString(text: Option<seq<byte>>, len: word)
      requires w.Ready() && w.reentrance == 1 && StringReadable(text, len)
      modifies w, w.window
      ensures IsSource(SourceOf(text, len))
      ensures Wrote(BytesOf(PutSource(SourceOf(text, len), Nil)))
    {
      hide PutBlob, PutString;
      w.PutInt(len);
      ghost var src := SourceOf(text, len);
      if Signed(len) > 0 {
        w.PutBytes(text, Signed(len));
        BytesOfBlob(src.text, Nil);
        Assoc(old(w.log), Int4(len), BlobBytes(src.text));
        assert BlobBytes(src.text) + BytesOf(Nil) == BlobBytes(src.text);
      } else {
        w.PutString(text);
        BytesOfString(text, Nil);
        Assoc(old(w.log), Int4(len), StringBytes(text));
        assert StringBytes(text) + BytesOf(Nil) == StringBytes(text);
      }
    }

    /** The loops over attrib_list of eglCreateContext and eglCreateWindowSurface. */
    method PutAttribList(attribs: List<(word, word)>)
      requires w.Ready() && w.reentrance == 1
      modifies w, w.window
      ensures Wrote(BytesOf(PutAttribs(attribs, Nil)))
    {
      var ptr := attribs;
      ghost var done := [];
      while ptr.Cons?
        invariant Wrote(done)
        invariant done + BytesOf(PutAttribs(ptr, Nil)) == BytesOf(PutAttribs(attribs, Nil))
        decreases ptr
      {
        ghost var name, val, more := Int4(ptr.head.0), Int4(ptr.head.1), BytesOf(PutAttribs(ptr.tail, Nil));
        w.PutInt(ptr.head.0);
        w.PutInt(ptr.head.1);
        PairStep(old(w.log), done, name, val, more);
        done := done + (name + val);
        ptr := ptr.tail;
      }
      w.PutInt(EGL_NONE);
      assert BytesOf(PutAttribs(Nil, Nil)) == Int4(EGL_NONE) + [] == Int4(EGL_NONE);
      Assoc(old(w.log), done, Int4(EGL_NONE));
    }

    // ---------- Vertex arrays ----------

    /** putVertexAttrib: one blob of packed vertices for each enabled attribute; false
        when a component type is unknown. */
    method PutVertexAttrib(count: word) returns (ok: bool)
      requires w.Ready() && w.reentrance == 1 && vertexAttrib.Length == MAX_VERTEX_ATTRIBS
      requires ArraysReadable(vertexAttrib[..], VertexCount(count))
      modifies w, w.window
      ensures ok <==> !UnknownType(vertexAttrib[..])
      ensures ok ==> AreArrays(Arrays(VertexCount(count), 0), EnabledFrom(EnabledOf(vertexAttrib[..]), 0), w.wsize)
      ensures ok ==> Wrote(ArraysBytes(VertexCount(count), 0))
    {
      var n := VertexCount(count);
      var size;
      ok, size := MaxSize(n);
      if !ok { return; }
      var buf := new byte[size];
      ghost var done := [];
      ArraysFit(vertexAttrib[..], n, 0, w.wsize);
      var i := 0;
      while i < MAX_VERTEX_ATTRIBS
        invariant 0 <= i <= MAX_VERTEX_ATTRIBS && Wrote(done)
        invariant vertexAttrib[..] == old(vertexAttrib[..]) && fresh(buf) && w.window != buf
        invariant done + ArraysBytes(n, i) == ArraysBytes(n, 0)
      {
        ghost var bytes := PutArray(i, n, buf);
        Assoc(done, bytes, ArraysBytes(n, i + 1));
        Assoc(old(w.log), done, bytes);
        done := done + bytes;
        i := i + 1;
      }
      assert done + ArraysBytes(n, MAX_VERTEX_ATTRIBS) == done;
    }

    /** One turn of putVertexAttrib's second loop. */
    method PutArray(i: nat, n: nat, buf: array<byte>) returns (ghost bytes: seq<byte>)
      requires w.Ready() && w.reentrance == 1 && i < vertexAttrib.Length && w.window != buf
      requires ArraysReadable(vertexAttrib[..], n) && !UnknownType(vertexAttrib[..])
      requires vertexAttrib[i].enabled ==>
                 SizeOf(vertexAttrib[i].typ).Some? && n * ElementSize(vertexAttrib[i]) <= buf.Length
      modifies w, w.window, buf
      ensures Wrote(bytes) && vertexAttrib[..] == old(vertexAttrib[..])
      ensures bytes + ArraysBytes(n, i + 1) == ArraysBytes(n, i)
    {
      bytes := [];
      ArraysBytesStep(n, i);
      ghost var attribs := vertexAttrib[..];
      if vertexAttrib[i].enabled {
        var a := vertexAttrib[i];
        bytes := BlobBytes(Some(PackedArray(a, n)));
        var dst := PackInto(buf, a, n);
        assert vertexAttrib[..] == attribs;
        w.PutBytes(Some(buf[..]), dst);
        assert buf[..][..dst] == buf[..dst];
        assert vertexAttrib[..] == attribs;
      }
    }

    ghost function Arrays(n: nat, i: nat): List<(nat, Value)>
      reads this, vertexAttrib
      requires i <= vertexAttrib.Length && ArraysReadable(vertexAttrib[..], n) && !UnknownType(vertexAttrib[..])
    {
      ArraysFrom(vertexAttrib[..], n, i)
    }

    ghost function ArraysBytes(n: nat, i: nat): seq<byte>
      reads this, vertexAttrib
      requires i <= vertexAttrib.Length && ArraysReadable(vertexAttrib[..], n) && !UnknownType(vertexAttrib[..])
    {
      ArraysFit(vertexAttrib[..], n, i, w.wsize);
      BytesOf(PutArrays(Arrays(n, i), EnabledFrom(EnabledOf(vertexAttrib[..]), i), w.wsize, Nil))
    }

    lemma ArraysBytesStep(n: nat, i: nat)
      requires i < vertexAttrib.Length && ArraysReadable(vertexAttrib[..], n) && !UnknownType(vertexAttrib[..])
      ensures !vertexAttrib[i].enabled ==> ArraysBytes(n, i) == ArraysBytes(n, i + 1)
      ensures vertexAttrib[i].enabled ==>
                && SizeOf(vertexAttrib[i].typ).Some? && ArrayReadable(vertexAttrib[i], n)
                && ArraysBytes(n, i) == BlobBytes(Some(PackedArray(vertexAttrib[i], n))) + ArraysBytes(n, i + 1)
    {
      var attribs := vertexAttrib[..];
      ArraysFit(attribs, n, i, w.wsize);
      ArraysFit(attribs, n, i + 1, w.wsize);
      if attribs[i].enabled {
        assert SizeOf(attribs[i].typ).Some? && ArrayReadable(attribs[i], n);
        var d := Blob(Some(PackedArray(attribs[i], n)));
        assert Arrays(n, i) == Cons((i, d), Arrays(n, i + 1));
        BytesOfValue(d, w.wsize, PutArrays(Arrays(n, i + 1), EnabledFrom(EnabledOf(attribs), i + 1), w.wsize, Nil));
      }
    }

    /** The size of the largest packed array. */
    method MaxSize(n: nat) returns (ok: bool, maxsz: nat)
      requires vertexAttrib.Length == MAX_VERTEX_ATTRIBS && ArraysReadable(vertexAttrib[..], n)
      ensures ok <==> !UnknownType(vertexAttrib[..])
      ensures ok ==> forall i :: 0 <= i < MAX_VERTEX_ATTRIBS && vertexAttrib[i].enabled ==>
                       SizeOf(vertexAttrib[i].typ).Some? && n * ElementSize(vertexAttrib[i]) <= maxsz
    {
      ok, maxsz := true, 0;
      for i := 0 to MAX_VERTEX_ATTRIBS
        invariant forall j :: 0 <= j < i && vertexAttrib[j].enabled ==>
                    SizeOf(vertexAttrib[j].typ).Some? && n * ElementSize(vertexAttrib[j]) <= maxsz
      {
        if vertexAttrib[i].enabled {
          var sz := SizeOf(vertexAttrib[i].typ);
          if sz == None {
            assert vertexAttrib[..][i].enabled;
            return false, 0;
          }
          var total := n * ElementSize(vertexAttrib[i]);
          if maxsz < total { maxsz := total; }
        }
      }
    }

    /** The copying loops of putVertexAttrib: n vertices, packed at the start of buf,
        and none beyond it. */
    method PackInto(buf: array<byte>, a: VertexAttrib, n: nat) returns (dst: nat)
      requires SizeOf(a.typ).Some? && Holds(a.pointer.mem, a.stride, ElementSize(a), n)
      requires n * ElementSize(a) <= buf.Length
      modifies buf
      ensures dst == n * ElementSize(a) && buf[..dst] == Packed(a.pointer.mem, a.stride, ElementSize(a), n)
    {
      var mem, elemsz, step := a.pointer.mem, ElementSize(a), Step(a.stride, ElementSize(a));
      var src := 0;
      dst := 0;
      for j := 0 to n
        invariant dst == j * elemsz && src == j * step
        invariant dst <= buf.Length && Holds(mem, a.stride, elemsz, j)
        invariant buf[..dst] == Packed(mem, a.stride, elemsz, j)
      {
        VertexWithin(mem, a.stride, elemsz, n, j);
        CopyElement(buf, dst, mem, src, elemsz);
        dst, src := dst + elemsz, src + elemsz;
        if Signed(a.stride) > 0 {
          src := src + (Signed(a.stride) - elemsz);
        }
        Distribute(j, elemsz);
        Distribute(j, step);
      }
    }

    /** The inner loop: one vertex. */
    method CopyElement(buf: array<byte>, dst: nat, mem: seq<byte>, src: nat, elemsz: nat)
      requires dst + elemsz <= buf.Length && (elemsz > 0 ==> src + elemsz <= |mem|)
      modifies buf
      ensures elemsz == 0 ==> buf[..] == old(buf[..])
      ensures elemsz > 0 ==> buf[..dst + elemsz] == old(buf[..dst]) + mem[src..src + elemsz]
    {
      for k := 0 to elemsz
        invariant buf[..dst] == old(buf[..dst])
        invariant k == 0 ==> buf[..] == old(buf[..])
        invariant elemsz > 0 ==> buf[dst..dst + k] == mem[src..src + k]
      {
        buf[dst + k] := mem[src + k];
        assert buf[dst..dst + k + 1] == buf[dst..dst + k] + [mem[src + k]];
        assert mem[src..src + k + 1] == mem[src..src + k] + [mem[src + k]];
      }
      if elemsz > 0 {
        assert buf[..dst + elemsz] == buf[..dst] + buf[dst..dst + elemsz];
      }
    }

    // ---------- The intercepted calls ----------

    /** A command whose fields are all fixed. */
    method Fixed(op: word, args: List<Value>, thread: quad, bgn: quad, end: quad, ghost c: Call)
      requires Valid()
      requires IsEvent(State(), Event(thread, c, bgn, end), w.wsize)
      requires AreValues(args, w.wsize)
      requires RecordOf(State(), c, w.wsize) == Plain(op, args)
      modifies w, w.window
      ensures Valid() && (w.window == old(w.window) || fresh(w.window)) && State() == old(State())
      ensures w.log == old(w.log)
                  + BytesOf(PutEvent(w.wsize, old(w.curThread), old(State()), Event(thread, c, bgn, end), Nil))
      ensures w.curThread == thread
    {
      hide PutEvent, PutBody, PutValues, AreValues, CanCall, IsRecord, RecordOf, BindingsOf;
      PlainBody(State(), c, op, args, w.wsize);
      w.PutCmd(op, thread);
      PutArgs(args);
      w.PutTime(bgn, end);
      Complete(w.wsize, old(w.curThread), old(State()), Event(thread, c, bgn, end), old(w.log),
               BytesOf(PutValues(args, w.wsize, Nil)));
    }

    method Simple(op: word, args: List<Value>, thread: quad, bgn: quad, end: quad)
      requires Valid() && IsEvent(State(), Event(thread, Call.Simple(op, args), bgn, end), w.wsize)
      modifies this, w, w.window
      ensures Recorded(Call.Simple(op, args), thread, bgn, end)
    {
      Fixed(op, args, thread, bgn, end, Call.Simple(op, args));
    }

    method BindBuffer(target: word, buffer: word, thread: quad, bgn: quad, end: quad)
      requires Valid() && IsAddress(w.wsize, thread)
      modifies this, w, w.window
      ensures Recorded(Call.BindBuffer(target, buffer), thread, bgn, end)
    {
      var args := Cons(Int(target), Cons(Int(buffer), Nil));
      assert AreValues(args.tail, w.wsize);
      Fixed(GL_BIND_BUFFER, args, thread, bgn, end, Call.BindBuffer(target, buffer));
      if target == GL_ARRAY_BUFFER {
        arrayBufferBinding := buffer;
      } else if target == GL_ELEMENT_ARRAY_BUFFER {
        elementArrayBufferBinding := buffer;
      }
    }

    method EnableVertexAttribArray(index: word, thread: quad, bgn: quad, end: quad)
      requires Valid() && IsAddress(w.wsize, thread) && index < MAX_VERTEX_ATTRIBS
      modifies this, w, w.window, vertexAttrib
      ensures Recorded(EnableArray(index), thread, bgn, end)
    {
      Fixed(GL_ENABLE_VERTEX_ATTRIB_ARRAY, Cons(Int(index), Nil), thread, bgn, end, EnableArray(index));
      SetAttribAt(index, vertexAttrib[index].(enabled := true));
    }

    method DisableVertexAttribArray(index: word, thread: quad, bgn: quad, end: quad)
      requires Valid() && IsAddress(w.wsize, thread) && index < MAX_VERTEX_ATTRIBS
      modifies this, w, w.window, vertexAttrib
      ensures Recorded(DisableArray(index), thread, bgn, end)
    {
      Fixed(GL_DISABLE_VERTEX_ATTRIB_ARRAY, Cons(Int(index), Nil), thread, bgn, end, DisableArray(index));
      SetAttribAt(index, vertexAttrib[index].(enabled := false));
    }

    method VertexAttribPointer(index: word, size: word, typ: word, normalized: byte, stride: word, pointer: ClientPtr,
                               thread: quad, bgn: quad, end: quad)
      requires Valid() && IsAddress(w.wsize, thread) && index < MAX_VERTEX_ATTRIBS && IsAddress(w.wsize, pointer.addr)
      modifies this, w, w.window, vertexAttrib
      ensures Recorded(AttribPointer(index, size, typ, normalized, stride, pointer), thread, bgn, end)
    {
      ghost var c := AttribPointer(index, size, typ, normalized, stride, pointer);
      RecordFits(State(), c, w.wsize);
      var args := Cons(Int(index), Cons(Int(size), Cons(Int(typ), Cons(Flag(normalized), Cons(Int(stride),
                    Cons(Ptr(pointer.addr), Nil))))));
      Fixed(GL_VERTEX_ATTRIB_POINTER, args, thread, bgn, end, c);
      SetAttribAt(index, VertexAttrib(vertexAttrib[index].enabled, size, typ, normalized, stride, pointer));
    }

    method SetAttribAt(i: nat, a: VertexAttrib)
      requires i < vertexAttrib.Length
      modifies vertexAttrib
      ensures State() == SetAttrib(old(State()), i, a)
    {
      vertexAttrib[i] := a;
    }

    /** The opcode putCmd gets from a call that changes no variable and is not written field by field. */
    static function OwnOpcode(c: Call): Option<word> {
      match c
      case Names(op, _) => Some(op)
      case ShaderSource(_, _, _) => Some(GL_SHADER_SOURCE)
      case Create(op, _, _, _) => Some(op)
      case ChooseConfig(_, _, _, _, _, _) => Some(EGL_CHOOSE_CONFIG)
      case DrawElements(_, _, _, _) => Some(GL_DRAW_ELEMENTS)
      case _ => None
    }

    static lemma OpcodeIsOwn(st: RecorderState, c: Call, wsize: nat)
      requires CanCall(st, c, wsize) && !Aborts(st, c) && OwnOpcode(c).Some?
      ensures OpcodeOf(RecordOf(st, c, wsize)) == OwnOpcode(c).value && After(st, c) == st
    {
    }

    /** The body of call c's record in the current state. */
    twostate predicate WroteBody(c: Call)
      requires IsState(old(State())) && CanCall(old(State()), c, w.wsize) && !Aborts(old(State()), c)
      reads this, w, w.window, vertexAttrib
    {
      && IsRecord(RecordOf(old(State()), c, w.wsize), BindingsOf(old(State())), w.wsize)
      && Wrote(BytesOf(PutBody(RecordOf(old(State()), c, w.wsize), BindingsOf(old(State())), w.wsize, Nil)))
    }

    /** The end of a call that changes none of the recorder's variables: with the times the
        event is complete. */
    method PutTime(ghost c: Call, ghost thread: quad, bgn: quad, end: quad, ghost cur: quad, ghost log: seq<byte>)
      requires w.Ready() && w.reentrance == 1 && vertexAttrib.Length == MAX_VERTEX_ATTRIBS
      requires w.curThread == thread && IsEvent(State(), Event(thread, c, bgn, end), w.wsize) && IsState(State())
      requires OwnOpcode(c).Some? && IsRecord(RecordOf(State(), c, w.wsize), BindingsOf(State()), w.wsize)
      requires w.log == log + (ThreadPrefix(w.wsize, cur, thread) + Int4(OwnOpcode(c).value))
                      + BytesOf(PutBody(RecordOf(State(), c, w.wsize), BindingsOf(State()), w.wsize, Nil))
      modifies w, w.window
      ensures Valid() && (w.window == old(w.window) || fresh(w.window)) && w.curThread == thread
      ensures w.log == log + BytesOf(PutEvent(w.wsize, cur, old(State()), Event(thread, c, bgn, end), Nil))
      ensures State() == old(State()) == After(old(State()), c)
    {
      hide PutEvent, PutBody, CanCall, IsRecord, RecordOf, BindingsOf, After;
      OpcodeIsOwn(State(), c, w.wsize);
      Complete(w.wsize, cur, State(), Event(thread, c, bgn, end), log,
               BytesOf(PutBody(RecordOf(State(), c, w.wsize), BindingsOf(State()), w.wsize, Nil)));
      w.PutTime(bgn, end);
    }

    /** glGen* and glDelete*. */
    method Names(op: word, names: List<word>, thread: quad, bgn: quad, end: quad)
      requires Valid() && IsEvent(State(), Event(thread, Call.Names(op, names), bgn, end), w.wsize)
      modifies this, w, w.window
      ensures Recorded(Call.Names(op, names), thread, bgn, end)
    {
      hide PutEvent, PutBody, CanCall, IsRecord, RecordOf, BindingsOf, After;
      ghost var c := Call.Names(op, names);
      w.PutCmd(op, thread);
      PutNamesBody(op, names);
      PutTime(c, thread, bgn, end, old(w.curThread), old(w.log));
    }

    method PutNamesBody(op: word, names: List<word>)
      requires w.Ready() && w.reentrance == 1 && IsState(State()) && CanCall(State(), Call.Names(op, names), w.wsize)
      modifies w, w.window
      ensures WroteBody(Call.Names(op, names))
    {
      RecordFits(State(), Call.Names(op, names), w.wsize);
      w.PutInt(Length(names));
      PutNames(names);
      Assoc(old(w.log), Int4(Length(names)), BytesOf(PutIds(names, Nil)));
    }

    method ShaderSource(shader: word, strings: List<Option<seq<byte>>>, lengths: Option<List<word>>,
                        thread: quad, bgn: quad, end: quad)
      requires Valid() && IsEvent(State(), Event(thread, Call.ShaderSource(shader, strings, lengths), bgn, end),
                                  w.wsize)
      modifies this, w, w.window
      ensures Recorded(Call.ShaderSource(shader, strings, lengths), thread, bgn, end)
    {
      hide PutEvent, PutBody, CanCall, IsRecord, RecordOf, BindingsOf, After;
      ghost var c := Call.ShaderSource(shader, strings, lengths);
      w.PutCmd(GL_SHADER_SOURCE, thread);
      PutSourcesBody(shader, strings, lengths);
      PutTime(c, thread, bgn, end, old(w.curThread), old(w.log));
    }

    method PutSourcesBody(shader: word, strings: List<Option<seq<byte>>>, lengths: Option<List<word>>)
      requires w.Ready() && w.reentrance == 1 && IsState(State())
      requires CanCall(State(), Call.ShaderSource(shader, strings, lengths), w.wsize)
      modifies w, w.window
      ensures WroteBody(Call.ShaderSource(shader, strings, lengths))
    {
      hide PutSources, PutBody, RecordOf, IsRecord, CanonRecord;
      SourcesBody(State(), Call.ShaderSource(shader, strings, lengths), w.wsize);
      var count := Length(strings);
      w.PutInt(shader);
      w.PutInt(count);
      PutStrings(strings, lengths);
      Triple(old(w.log), Int4(shader), Int4(count), BytesOf(PutSources(SourcesOf(strings, lengths), Nil)));
    }

    /** eglCreateContext and eglCreateWindowSurface. */
    method Create(op: word, handles: List<Value>, attribs: List<(word, word)>, res: quad, thread: quad, bgn: quad,
                  end: quad)
      requires Valid() && IsEvent(State(), Event(thread, Call.Create(op, handles, attribs, res), bgn, end), w.wsize)
      modifies this, w, w.window
      ensures Recorded(Call.Create(op, handles, attribs, res), thread, bgn, end)
    {
      hide PutEvent, PutBody, CanCall, IsRecord, RecordOf, BindingsOf, After;
      ghost var c := Call.Create(op, handles, attribs, res);
      w.PutCmd(op, thread);
      PutCreateBody(op, handles, attribs, res);
      PutTime(c, thread, bgn, end, old(w.curThread), old(w.log));
    }

    method PutCreateBody(op: word, handles: List<Value>, attribs: List<(word, word)>, res: quad)
      requires w.Ready() && w.reentrance == 1 && IsState(State())
      requires CanCall(State(), Call.Create(op, handles, attribs, res), w.wsize)
      modifies w, w.window
      ensures WroteBody(Call.Create(op, handles, attribs, res))
    {
      hide PutValues, PutAttribs, PutBody, RecordOf, IsRecord, BindingsOf, CanCall;
      CreateRecordBody(State(), Call.Create(op, handles, attribs, res), w.wsize);
      PutArgs(handles);
      PutAttribList(attribs);
      w.PutPtr(res);
      Triple(old(w.log), BytesOf(PutValues(handles, w.wsize, Nil)), BytesOf(PutAttribs(attribs, Nil)),
             LE(res, w.wsize));
    }

    /** glDrawElements; false when the process ends because a type is unknown. */
    method DrawElements(mode: word, count: word, typ: word, indices: ClientPtr, thread: quad, bgn: quad, end: quad)
      returns (ok: bool)
      requires Valid() && IsAddress(w.wsize, thread)
      requires CanCall(State(), Call.DrawElements(mode, count, typ, indices), w.wsize)
      modifies this, w, w.window
      ensures ok <==> !Aborts(old(State()), Call.DrawElements(mode, count, typ, indices))
      ensures ok ==> Recorded(Call.DrawElements(mode, count, typ, indices), thread, bgn, end)
    {
      hide PutEvent, PutBody, CanCall, IsRecord, RecordOf, BindingsOf, After;
      ghost var c := Call.DrawElements(mode, count, typ, indices);
      w.PutCmd(GL_DRAW_ELEMENTS, thread);
      ok := PutDrawBody(mode, count, typ, indices);
      if ok {
        PutTime(c, thread, bgn, end, old(w.curThread), old(w.log));
      }
    }

    method PutDrawBody(mode: word, count: word, typ: word, indices: ClientPtr) returns (ok: bool)
      requires w.Ready() && w.reentrance == 1 && IsState(State())
      requires CanCall(State(), Call.DrawElements(mode, count, typ, indices), w.wsize)
      modifies w, w.window
      ensures ok <==> !Aborts(old(State()), Call.DrawElements(mode, count, typ, indices))
      ensures ok ==> WroteBody(Call.DrawElements(mode, count, typ, indices))
    {
      hide PutArrays, Records.PutValue, ValueBytes, PutBody, RecordOf, IsRecord;
      ghost var c := Call.DrawElements(mode, count, typ, indices);
      ghost var st := State();
      PutDrawHead(mode, count, typ);
      if elementArrayBufferBinding == 0 && SizeOf(typ) == None {
        return false;
      }
      ghost var index := IndexValue(st, c);
      PutIndices(count, typ, indices, index);
      ghost var arrays;
      ok, arrays := PutDrawArrays(count);
      if ok {
        DrawRecordBody(st, c, w.wsize);
        Triple(old(w.log), Int4(mode) + Int4(count) + Int4(typ), ValueBytes(index, w.wsize), arrays);
      }
    }

    /** eglChooseConfig. */
    method ChooseConfig(dpy: quad, attribs: List<(word, word)>, configs: Option<seq<quad>>, size: word, num: word,
                        res: word,
                        thread: quad, bgn: quad, end: quad)
      requires Valid()
      requires IsEvent(State(), Event(thread, Call.ChooseConfig(dpy, attribs, configs, size, num, res), bgn, end),
                       w.wsize)
      modifies this, w, w.window
      ensures Recorded(Call.ChooseConfig(dpy, attribs, configs, size, num, res), thread, bgn, end)
    {
      hide PutEvent, PutBody, CanCall, IsRecord, RecordOf, BindingsOf, After;
      ghost var c := Call.ChooseConfig(dpy, attribs, configs, size, num, res);
      w.PutCmd(EGL_CHOOSE_CONFIG, thread);
      PutChooseBody(dpy, attribs, configs, size, num, res);
      PutTime(c, thread, bgn, end, old(w.curThread), old(w.log));
    }

    method PutChooseBody(dpy: quad, attribs: List<(word, word)>, configs: Option<seq<quad>>, size: word, num: word,
                         res: word)
      requires w.Ready() && w.reentrance == 1 && IsState(State())
      requires CanCall(State(), Call.ChooseConfig(dpy, attribs, configs, size, num, res), w.wsize)
      modifies w, w.window
      ensures WroteBody(Call.ChooseConfig(dpy, attribs, configs, size, num, res))
    {
      hide PutAttribs, PutPtrs, PutBody, RecordOf, IsRecord, BindingsOf, CanCall;
      ghost var c := Call.ChooseConfig(dpy, attribs, configs, size, num, res);
      ChooseRecordBody(State(), c, w.wsize);
      var given := if configs == None then 0 else size;
      PutChooseHead(dpy, attribs, given, num);
      var got := if configs == None then [] else configs.value[..ConfigCount(num, size)];
      PutConfigs(got);
      w.PutInt(res);
      Triple(old(w.log), ChooseHead(dpy, attribs, given, num, w.wsize), BytesOf(PutPtrs(Chosen(got), w.wsize, Nil)),
             Int4(res));
    }

    method PutChooseHead(dpy: quad, attribs: List<(word, word)>, size: word, num: word)
      requires w.Ready() && w.reentrance == 1 && IsAddress(w.wsize, dpy)
      modifies w, w.window
      ensures Wrote(LE(dpy, w.wsize) + BytesOf(PutAttribs(attribs, Nil)) + (Int4(size) + Int4(num)))
    {
      hide PutAttribs;
      w.PutPtr(dpy);
      PutAttribList(attribs);
      w.PutInt(size);
      w.PutInt(num);
      ghost var p, a := LE(dpy, w.wsize), BytesOf(PutAttribs(attribs, Nil));
      Assoc(old(w.log), p, a);
      Triple(old(w.log), p + a, Int4(size), Int4(num));
    }

    /** The loop over the configurations. */
    method PutConfigs(configs: seq<quad>)
      requires w.Ready() && w.reentrance == 1
      requires forall i :: 0 <= i < |configs| ==> IsAddress(w.wsize, configs[i])
      modifies w, w.window
      ensures AreAddresses(Chosen(configs), w.wsize)
      ensures Wrote(BytesOf(PutPtrs(Chosen(configs), w.wsize, Nil)))
    {
      hide PutPtr;
      ChosenFit(configs, w.wsize);
      ghost var done := [];
      var i := 0;
      assert configs[0..] == configs;
      while i < |configs|
        invariant 0 <= i <= |configs| && Wrote(done)
        invariant AreAddresses(Chosen(configs[i..]), w.wsize)
        invariant done + BytesOf(PutPtrs(Chosen(configs[i..]), w.wsize, Nil))
               == BytesOf(PutPtrs(Chosen(configs), w.wsize, Nil))
      {
        assert configs[i..][1..] == configs[i + 1..] && configs[i..][0] == configs[i];
        ghost var more := PutPtrs(Chosen(configs[i + 1..]), w.wsize, Nil);
        BytesOfPtr(configs[i], w.wsize, more);
        w.PutPtr(configs[i]);
        ghost var bytes := LE(configs[i], w.wsize);
        Assoc(done, bytes, BytesOf(more));
        Assoc(old(w.log), done, bytes);
        done := done + bytes;
        i := i + 1;
      }
      assert done + BytesOf(Nil) == done;
    }

    method PutDrawHead(mode: word, count: word, typ: word)
      requires w.Ready() && w.reentrance == 1
      modifies w, w.window
      ensures Wrote(Int4(mode) + Int4(count) + Int4(typ))
    {
      w.PutInt(mode);
      w.PutInt(count);
      w.PutInt(typ);
      Triple(old(w.log), Int4(mode), Int4(count), Int4(typ));
      assert Int4(mode) + (Int4(count) + Int4(typ)) == Int4(mode) + Int4(count) + Int4(typ);
    }

    method PutDrawArrays(count: word) returns (ok: bool, ghost arrays: seq<byte>)
      requires w.Ready() && w.reentrance == 1 && IsState(State())
      requires arrayBufferBinding == 0 ==> ArraysReadable(vertexAttrib[..], VertexCount(count))
      modifies w, w.window
      ensures ok <==> !(arrayBufferBinding == 0 && UnknownType(vertexAttrib[..]))
      ensures ok ==> Wrote(arrays)
      ensures ok ==> arrays == if arrayBufferBinding == 0 then ArraysBytes(VertexCount(count), 0) else []
    {
      ok, arrays := true, [];
      if arrayBufferBinding == 0 {
        ok := PutVertexAttrib(count);
        if ok { arrays := ArraysBytes(VertexCount(count), 0); }
      }
    }

    method PutIndices(count: word, typ: word, indices: ClientPtr, ghost index: Value)
      requires w.Ready() && w.reentrance == 1 && IsAddress(w.wsize, indices.addr)
      requires elementArrayBufferBinding == 0 ==> SizeOf(typ).Some?
      requires elementArrayBufferBinding == 0 && indices.addr != 0 ==> IndicesReadable(count, typ, indices)
      requires index == IndexValue(State(), Call.DrawElements(0, count, typ, indices))
      modifies w, w.window
      ensures IsValue(index, w.wsize) && Wrote(ValueBytes(index, w.wsize))
    {
      if elementArrayBufferBinding != 0 {
        w.PutPtr(indices.addr);
      } else if indices.addr == 0 {
        w.PutBytes(None, 0);
      } else {
        w.PutBytes(Some(indices.mem), Signed(count) * SizeOf(typ).value);
      }
    }

    /** One intercepted call of any kind; false when the recorder ends the process. */
    method Perform(e: Event) returns (ok: bool)
      requires Valid() && IsAddress(w.wsize, e.thread) && CanCall(State(), e.call, w.wsize)
      modifies this, w, w.window, vertexAttrib
      ensures ok <==> !Aborts(old(State()), e.call)
      ensures ok ==> Recorded(e.call, e.thread, e.bgn, e.end)
    {
      ok := true;
      match e.call
      case Simple(op, args) => Simple(op, args, e.thread, e.bgn, e.end);
      case BindBuffer(target, buffer) => BindBuffer(target, buffer, e.thread, e.bgn, e.end);
      case EnableArray(index) => EnableVertexAttribArray(index, e.thread, e.bgn, e.end);
      case DisableArray(index) => DisableVertexAttribArray(index, e.thread, e.bgn, e.end);
      case AttribPointer(index, size, typ, normalized, stride, pointer) =>
        VertexAttribPointer(index, size, typ, normalized, stride, pointer, e.thread, e.bgn, e.end);
      case DrawElements(mode, count, typ, indices) =>
        ok := DrawElements(mode, count, typ, indices, e.thread, e.bgn, e.end);
      case Names(op, names) => Names(op, names, e.thread, e.bgn, e.end);
      case ShaderSource(shader, strings, lengths) => ShaderSource(shader, strings, lengths, e.thread, e.bgn, e.end);
      case Create(op, handles, attribs, res) => Create(op, handles, attribs, res, e.thread, e.bgn, e.end);
      case ChooseConfig(dpy, attribs, configs, size, num, res) =>
        ChooseConfig(dpy, attribs, configs, size, num, res, e.thread, e.bgn, e.end);
    }
  }

  /** The pieces that putCmd, the body and putTime append are the event's bytes. */
  lemma Complete(wsize: nat, cur: quad, st: RecorderState, e: Event, log: seq<byte>, body: seq<byte>)
    requires IsEvent(st, e, wsize)
    requires IsRecord(RecordOf(st, e.call, wsize), BindingsOf(st), wsize)
    requires body == BytesOf(PutBody(RecordOf(st, e.call, wsize), BindingsOf(st), wsize, Nil))
    ensures ((log + (ThreadPrefix(wsize, cur, e.thread) + Int4(OpcodeOf(RecordOf(st, e.call, wsize))))) + body)
              + (Long8(e.bgn) + Long8(e.end))
         == log + BytesOf(PutEvent(wsize, cur, st, e, Nil))
  {
    hide PutEvent, RecordOf, PutBody, CanCall, IsRecord;
    BytesOfEvent(wsize, cur, st, e, Nil);
    Group(log, ThreadPrefix(wsize, cur, e.thread), Int4(OpcodeOf(RecordOf(st, e.call, wsize))), body,
          Long8(e.bgn) + Long8(e.end));
  }

  lemma PlainBody(st: RecorderState, c: Call, op: word, args: List<Value>, wsize: nat)
    requires CanCall(st, c, wsize) && !Aborts(st, c) && AreValues(args, wsize)
    requires RecordOf(st, c, wsize) == Plain(op, args)
    ensures IsRecord(RecordOf(st, c, wsize), BindingsOf(st), wsize)
    ensures OpcodeOf(RecordOf(st, c, wsize)) == op
    ensures PutBody(RecordOf(st, c, wsize), BindingsOf(st), wsize, Nil) == PutValues(args, wsize, Nil)
  {
    RecordFits(st, c, wsize);
  }

  lemma Group(log: seq<byte>, p: seq<byte>, o: seq<byte>, y: seq<byte>, t: seq<byte>)
    ensures ((log + (p + o)) + y) + t == log + (p + o + y + t)
  {
  }

  lemma Triple(log: seq<byte>, a: seq<byte>, b: seq<byte>, c: seq<byte>)
    ensures ((log + a) + b) + c == log + (a + (b + c))
  {
  }

  lemma ChooseGroup(p: seq<byte>, a: seq<byte>, n: seq<byte>, c: seq<byte>, o: seq<byte>)
    ensures p + (a + (n + (c + (o + BytesOf(Nil))))) == (p + a + n) + (c + o)
  {
  }

  function ChooseHead(dpy: quad, attribs: List<(word, word)>, given: word, num: word, wsize: nat): seq<byte>
    requires IsAddress(wsize, dpy)
  {
    LE(dpy, wsize) + BytesOf(PutAttribs(attribs, Nil)) + (Int4(given) + Int4(num))
  }

  lemma ChooseRecordBody(st: RecorderState, c: Call, wsize: nat)
    requires c.ChooseConfig? && CanCall(st, c, wsize) && IsState(st)
    ensures IsAddress(wsize, c.dpy) && IsRecord(RecordOf(st, c, wsize), BindingsOf(st), wsize)
    ensures c.configs.Some? ==> ConfigCount(c.num, c.size) <= |c.configs.value|
    ensures var given := if c.configs == None then 0 else c.size;
            var got := if c.configs == None then [] else c.configs.value[..ConfigCount(c.num, c.size)];
            && (forall i :: 0 <= i < |got| ==> IsAddress(wsize, got[i])) && AreAddresses(Chosen(got), wsize)
            && BytesOf(PutBody(RecordOf(st, c, wsize), BindingsOf(st), wsize, Nil))
               == ChooseHead(c.dpy, c.attribs, given, c.num, wsize)
                  + (BytesOf(PutPtrs(Chosen(got), wsize, Nil)) + Int4(c.ok))
  {
    hide PutAttribs, PutPtrs, PutBody;
    RecordFits(st, c, wsize);
    var r := RecordOf(st, c, wsize);
    ChooseBody(r, BindingsOf(st), wsize, Nil);
    ChooseGroup(LE(r.dpy, wsize), BytesOf(PutAttribs(r.attribs, Nil)), Int4(r.size) + Int4(r.num),
                BytesOf(PutPtrs(r.configs, wsize, Nil)), Int4(r.ok));
  }

  lemma CreateRecordBody(st: RecorderState, c: Call, wsize: nat)
    requires c.Create? && CanCall(st, c, wsize) && IsState(st)
    ensures IsRecord(RecordOf(st, c, wsize), BindingsOf(st), wsize)
    ensures AreValues(c.handles, wsize) && IsAddress(wsize, c.res)
    ensures BytesOf(PutBody(RecordOf(st, c, wsize), BindingsOf(st), wsize, Nil))
         == BytesOf(PutValues(c.handles, wsize, Nil)) + (BytesOf(PutAttribs(c.attribs, Nil)) + LE(c.res, wsize))
  {
    hide PutValues, PutAttribs, PutBody;
    RecordFits(st, c, wsize);
    AttribsBody(RecordOf(st, c, wsize), BindingsOf(st), wsize, Nil);
    NoTail(BytesOf(PutValues(c.handles, wsize, Nil)), BytesOf(PutAttribs(c.attribs, Nil)), LE(c.res, wsize));
  }

  lemma SourcesBody(st: RecorderState, c: Call, wsize: nat)
    requires c.ShaderSource? && CanCall(st, c, wsize)
    ensures AreSources(SourcesOf(c.strings, c.lengths))
    ensures IsRecord(RecordOf(st, c, wsize), BindingsOf(st), wsize)
    ensures BytesOf(PutBody(RecordOf(st, c, wsize), BindingsOf(st), wsize, Nil))
         == Int4(c.shader) + (Int4(Length(c.strings)) + BytesOf(PutSources(SourcesOf(c.strings, c.lengths), Nil)))
  {
    hide PutSources;
    RecordFits(st, c, wsize);
    SourcesFit(c.strings, c.lengths);
  }

  lemma DrawRecordBody(st: RecorderState, c: Call, wsize: nat)
    requires c.DrawElements? && CanCall(st, c, wsize) && !Aborts(st, c) && IsState(st)
    ensures var index, n := IndexValue(st, c), VertexCount(c.count);
            && IsRecord(RecordOf(st, c, wsize), BindingsOf(st), wsize) && IsValue(index, wsize)
            && (st.arrayBuffer == 0 ==> AreArrays(ArraysFrom(st.attribs, n, 0), EnabledFrom(EnabledOf(st.attribs), 0),
                                                  wsize))
            && BytesOf(PutBody(RecordOf(st, c, wsize), BindingsOf(st), wsize, Nil))
               == Int4(c.mode) + Int4(c.count) + Int4(c.typ) + (ValueBytes(index, wsize)
                  + if st.arrayBuffer != 0 then []
                    else BytesOf(PutArrays(ArraysFrom(st.attribs, n, 0), EnabledFrom(EnabledOf(st.attribs), 0), wsize,
                                           Nil)))
  {
    RecordFits(st, c, wsize);
    var index := IndexValue(st, c);
    var r := RecordOf(st, c, wsize);
    DrawBody(r, BindingsOf(st), wsize, Nil);
    BytesOfValue(index, wsize, Nil);
    NoTail(Int4(c.mode) + Int4(c.count) + Int4(c.typ), ValueBytes(index, wsize),
           BytesOf(PutArrays(r.arrays, DrawnArrays(BindingsOf(st)), wsize, Nil)));
  }

  lemma NoTail(a: seq<byte>, b: seq<byte>, c: seq<byte>)
    ensures a + b + c + BytesOf(Nil) == a + b + c == a + (b + c)
  {
  }

  lemma PairStep(log: seq<byte>, done: seq<byte>, a: seq<byte>, b: seq<byte>, more: seq<byte>)
    ensures ((log + done) + a) + b == log + (done + (a + b))
    ensures done + (a + (b + more)) == (done + (a + b)) + more
  {
  }

  lemma Distribute(j: int, c: int)
    ensures (j + 1) * c == j * c + c
  {
  }

  /** Vertex j of n lies within the memory, and its packed copy within n packed vertices. */
  lemma VertexWithin(mem: seq<byte>, stride: word, elemsz: nat, n: nat, j: nat)
    requires Holds(mem, stride, elemsz, n) && j < n
    ensures Holds(mem, stride, elemsz, j) && Holds(mem, stride, elemsz, j + 1)
    ensures elemsz > 0 ==> 0 <= j * Step(stride, elemsz) && j * Step(stride, elemsz) + elemsz <= |mem|
    ensures j * elemsz + elemsz <= n * elemsz
  {
    var step := Step(stride, elemsz);
    Monotone(j, n - 1, step);
    Monotone(j + 1, n, elemsz);
    Distribute(j, elemsz);
    if j > 0 {
      Monotone(j - 1, n - 1, step);
    }
  }
}
