/** `process` of tools/gltrace/retrace.c: a loop over a moving read cursor that
    keeps its own copy of the bindings and shows one command after another. */
module Replayer {
  import opened Wire
  import opened Stream
  import opened Opcodes
  import opened Records
  import opened Trace
  import opened TraceReader
  import TraceWriter

  /** What the switch of `process` came to. */
  datatype Outcome = Command(rec: Record) | Unknown(op: word) | Overflow | Beyond(op: word)

  /** The method's outcome and the words it left are the decoder's. */
  predicate Agrees(o: Outcome, rest: Words, d: Decoded) {
    match d
    case Done(rec, ws) => o == Command(rec) && rest == ws
    case NotImplemented(op) => o == Unknown(op)
    case TooManyAttributes => o == Overflow
    case LeftOut(op) => o == Beyond(op)
  }

  function Reverse<T>(xs: List<T>, onto: List<T>): List<T> {
    if xs.Nil? then onto else Reverse(xs.tail, Cons(xs.head, onto))
  }

  lemma {:induction false} ReverseIsConcat<T>(xs: List<T>, onto: List<T>)
    ensures Reverse(xs, onto) == Concat(Reverse(xs, Nil), onto)
  {
    if xs.Cons? {
      ReverseIsConcat(xs.tail, Cons(xs.head, onto));
      ReverseIsConcat(xs.tail, Cons(xs.head, Nil));
      ConcatAssoc(Reverse(xs.tail, Nil), Cons(xs.head, Nil), onto);
    }
  }

  class Replayer {
    const r: Reader
    var arrayBufferBinding: word
    var elementArrayBufferBinding: word
    const enabled: array<bool>
    const formats: array<Format>
    var curThread: quad
    var curFrame: nat

    ghost predicate Valid()
      reads this, r, enabled, formats
    {
      r.Valid() && enabled.Length == formats.Length == MAX_VERTEX_ATTRIBS
    }

    ghost function Bound(): Bindings
      reads this, enabled, formats
    {
      Bindings(arrayBufferBinding, elementArrayBufferBinding, enabled[..], formats[..])
    }

    ghost function State(): ReplayState
      reads this, enabled, formats
    {
      ReplayState(Bound(), curThread, curFrame)
    }

    constructor (reader: Reader)
      requires reader.Valid()
      ensures Valid() && r == reader && fresh(enabled) && fresh(formats)
      ensures State() == START
    {
      r := reader;
      arrayBufferBinding, elementArrayBufferBinding, curThread, curFrame := 0, 0, 0, 0;
      enabled := new bool[MAX_VERTEX_ATTRIBS](_ => false);
      formats := new Format[MAX_VERTEX_ATTRIBS](_ => Format(0, 0, 0));
      new;
      assert enabled[..] == START.b.enabled && formats[..] == START.b.formats;
    }

    // ---------- Fields ----------

    method GetValue(k: Kind) returns (v: Value)
      requires r.Valid()
      modifies r
      ensures r.Valid() && r.curPtr >= old(r.curPtr)
      ensures (v, r.Rest()) == Records.GetValue(old(r.Rest()), k, r.wsize)
    {
      hide WordsFrom;
      match k
      case I => var w := r.GetInt(); v := Int(w);
      case Z => var w := r.GetInt(); v := Flag(w % 256);
      case P => var p := r.GetPtr(); v := Ptr(p);
      case S => var s := r.GetString(); v := Str(s);
      case B => var d := r.GetBytes(); v := Blob(d);
      case N => var w := r.GetIntPtr(); v := NullableInt(w);
      case F => var f := r.GetFloatPtr(); v := NullableFloat(f);
    }

    /** The fields of a case of the switch, in its order. */
    method GetFields(ks: List<Kind>) returns (vs: List<Value>)
      requires r.Valid()
      modifies r
      ensures r.Valid() && r.curPtr >= old(r.curPtr)
      ensures (vs, r.Rest()) == GetValues(old(r.Rest()), ks, r.wsize)
      decreases ks
    {
      hide WordsFrom, Records.GetValue;
      if ks == Nil { return Nil; }
      var v := GetValue(ks.head);
      var rest := GetFields(ks.tail);
      vs := Cons(v, rest);
    }

    /** The loops that fill a local array with n ints. */
    method GetNames(n: nat) returns (ids: List<word>)
      requires r.Valid()
      modifies r
      ensures r.Valid() && r.curPtr >= old(r.curPtr)
      ensures (ids, r.Rest()) == GetIds(old(r.Rest()), n)
    {
      hide WordsFrom, Stream.GetInt;
      var i, got := 0, Nil;
      while i < n
        invariant 0 <= i <= n && r.Valid() && r.curPtr >= old(r.curPtr)
        invariant GetIds(old(r.Rest()), n)
               == (Reverse(got, GetIds(r.Rest(), n - i).0), GetIds(r.Rest(), n - i).1)
      {
        var w := r.GetInt();
        got := Cons(w, got);
        i := i + 1;
      }
      ids := Reverse(got, Nil);
    }

    method GetSource() returns (src: Source)
      requires r.Valid()
      modifies r
      ensures r.Valid() && r.curPtr >= old(r.curPtr)
      ensures (src, r.Rest()) == Records.GetSource(old(r.Rest()))
    {
      hide WordsFrom, Stream.GetBlob, Stream.GetString;
      var len := r.GetInt();
      if Signed(len) > 0 {
        var text := r.GetBytes();
        src := Source(len, text);
      } else {
        var text := r.GetString();
        src := Source(0xffffffff, text);
      }
    }

    /** The loop of the glShaderSource case. */
    method GetStrings(n: nat) returns (sources: List<Source>)
      requires r.Valid()
      modifies r
      ensures r.Valid() && r.curPtr >= old(r.curPtr)
      ensures (sources, r.Rest()) == GetSources(old(r.Rest()), n)
    {
      hide WordsFrom, Records.GetSource;
      var i, got := 0, Nil;
      while i < n
        invariant 0 <= i <= n && r.Valid() && r.curPtr >= old(r.curPtr)
        invariant GetSources(old(r.Rest()), n)
               == (Reverse(got, GetSources(r.Rest(), n - i).0), GetSources(r.Rest(), n - i).1)
      {
        var src := GetSource();
        got := Cons(src, got);
        i := i + 1;
      }
      sources := Reverse(got, Nil);
    }

    /** The loop that fills attrib_list, which has room for ATTRIB_CAPACITY ints; None
        when it would run over. */
    method GetAttribList() returns (res: Option<List<(word, word)>>)
      requires r.Valid()
      modifies r
      ensures r.Valid() && r.curPtr >= old(r.curPtr)
      ensures match GetAttribs(old(r.Rest()), 0)
              case None => res == None
              case Some((attribs, rest)) => res == Some(attribs) && r.Rest() == rest
    {
      hide WordsFrom, Stream.GetInt;
      var list := new word[ATTRIB_CAPACITY];
      var i, got := 0, Nil;
      ghost var was := r.Rest();
      while true
        invariant 0 <= i <= ATTRIB_CAPACITY && i % 2 == 0 && r.Valid() && r.curPtr >= old(r.curPtr)
        invariant match GetAttribs(r.Rest(), i)
                  case None => GetAttribs(was, 0) == None
                  case Some((attribs, rest)) => GetAttribs(was, 0) == Some((Reverse(got, attribs), rest))
        decreases ATTRIB_CAPACITY - i
      {
        if i >= ATTRIB_CAPACITY { return None; }
        list[i] := r.GetInt();
        i := i + 1;
        if list[i - 1] == EGL_NONE { break; }
        list[i] := r.GetInt();
        got := Cons((list[i - 1], list[i]), got);
        i := i + 1;
      }
      res := Some(Reverse(got, Nil));
    }

    /** The loop over vertexAttrib of the glDrawElements case. */
    method GetVertexArrays() returns (arrays: List<(nat, Value)>)
      requires Valid()
      modifies r
      ensures Valid() && r.curPtr >= old(r.curPtr)
      ensures (arrays, r.Rest()) == GetArrays(old(r.Rest()), enabled[..], 0)
    {
      hide WordsFrom, Stream.GetBlob;
      var i, got := 0, Nil;
      while i < MAX_VERTEX_ATTRIBS
        invariant 0 <= i <= MAX_VERTEX_ATTRIBS && Valid() && r.curPtr >= old(r.curPtr)
        invariant GetArrays(old(r.Rest()), enabled[..], 0)
               == (Reverse(got, GetArrays(r.Rest(), enabled[..], i).0), GetArrays(r.Rest(), enabled[..], i).1)
      {
        if enabled[i] {
          var pointer := r.GetBytes();
          got := Cons((i, Blob(pointer)), got);
        }
        i := i + 1;
      }
      arrays := Reverse(got, Nil);
    }

    // ---------- The switch ----------

    method GetSourcesRecord() returns (rec: Record)
      requires Valid()
      modifies r
      ensures Valid() && r.curPtr >= old(r.curPtr)
      ensures Decode(old(r.Rest()), GL_SHADER_SOURCE, Bound(), r.wsize) == Done(rec, r.Rest())
    {
      hide WordsFrom, GetSources, GetShape, Stream.GetInt;
      var shader := r.GetInt();
      var n := r.GetInt();
      var sources := GetStrings(CountOf(n));
      NoSharedOpcodes(GL_SHADER_SOURCE);
      rec := Sources(shader, sources);
    }

    method GetAttribsRecord(op: word) returns (o: Outcome)
      requires Valid() && HasAttribs(op)
      modifies r
      ensures Valid() && r.curPtr >= old(r.curPtr)
      ensures Agrees(o, r.Rest(), Decode(old(r.Rest()), op, Bound(), r.wsize))
    {
      hide WordsFrom, GetAttribs, GetValues, GetShape, Stream.GetPtr;
      NoSharedOpcodes(op);
      var handles := GetFields(P3);
      var attribs := GetAttribList();
      if attribs == None { return Overflow; }
      var res := r.GetPtr();
      o := Command(Attribs(op, handles, attribs.value, res));
    }

    /** The loop over the configurations of eglChooseConfig. */
    method GetConfigs(n: nat) returns (ps: List<quad>)
      requires r.Valid()
      modifies r
      ensures r.Valid() && r.curPtr >= old(r.curPtr)
      ensures (ps, r.Rest()) == GetPtrs(old(r.Rest()), n, r.wsize)
    {
      hide WordsFrom, Stream.GetPtr;
      var i, got := 0, Nil;
      while i < n
        invariant 0 <= i <= n && r.Valid() && r.curPtr >= old(r.curPtr)
        invariant GetPtrs(old(r.Rest()), n, r.wsize)
               == (Reverse(got, GetPtrs(r.Rest(), n - i, r.wsize).0), GetPtrs(r.Rest(), n - i, r.wsize).1)
      {
        var p := r.GetPtr();
        got := Cons(p, got);
        i := i + 1;
      }
      ps := Reverse(got, Nil);
    }

    method GetChooseRecord() returns (o: Outcome)
      requires Valid()
      modifies r
      ensures Valid() && r.curPtr >= old(r.curPtr)
      ensures Agrees(o, r.Rest(), DecodeChoose(old(r.Rest()), r.wsize))
    {
      hide WordsFrom, GetAttribs, GetPtrs, Stream.GetPtr, Stream.GetInt;
      var dpy := r.GetPtr();
      var attribs := GetAttribList();
      if attribs == None { return Overflow; }
      var size := r.GetInt();
      var num := r.GetInt();
      var configs := GetConfigs(ConfigCount(num, size));
      var ok := r.GetInt();
      o := Command(Choose(dpy, attribs.value, size, num, configs, ok));
    }

    method GetDrawRecord() returns (rec: Record)
      requires Valid()
      modifies r
      ensures Valid() && r.curPtr >= old(r.curPtr)
      ensures Decode(old(r.Rest()), GL_DRAW_ELEMENTS, Bound(), r.wsize) == Done(rec, r.Rest())
    {
      hide WordsFrom, GetArrays, Records.GetValue, GetShape, Stream.GetInt;
      NoSharedOpcodes(GL_DRAW_ELEMENTS);
      var mode := r.GetInt();
      var count := r.GetInt();
      var typ := r.GetInt();
      var index := GetValue(if elementArrayBufferBinding != 0 then P else B);
      var arrays := Nil;
      if arrayBufferBinding == 0 {
        arrays := GetVertexArrays();
      }
      rec := Draw(mode, count, typ, index, arrays);
    }

    /** The switch on the opcode. */
    method Switch(op: word) returns (o: Outcome)
      requires Valid()
      modifies r
      ensures Valid() && r.curPtr >= old(r.curPtr)
      ensures Agrees(o, r.Rest(), Decode(old(r.Rest()), op, Bound(), r.wsize))
    {
      hide WordsFrom, GetValues, GetIds, GetSources, GetAttribs, GetArrays, GetShape, DecodeChoose, Stream.GetInt;
      NoSharedOpcodes(op);
      if GetShape(op).Some? {
        var args := GetFields(GetShape(op).value);
        o := Command(Plain(op, args));
      } else if IsCounted(op) {
        var n := r.GetInt();
        var ids := GetNames(CountOf(n));
        o := Command(Ids(op, ids));
      } else if op == GL_SHADER_SOURCE {
        var rec := GetSourcesRecord();
        o := Command(rec);
      } else if HasAttribs(op) {
        o := GetAttribsRecord(op);
      } else if op == EGL_CHOOSE_CONFIG {
        o := GetChooseRecord();
      } else if op == GL_DRAW_ELEMENTS {
        var rec := GetDrawRecord();
        o := Command(rec);
      } else {
        o := if op in APART then Beyond(op) else Unknown(op);
      }
    }

    /** The replayer's own variables after a command. */
    method Apply(rec: Record)
      requires Valid()
      modifies this`arrayBufferBinding, this`elementArrayBufferBinding, enabled, formats
      ensures Valid() && Bound() == Update(old(Bound()), rec)
    {
      if rec.Plain? && rec.args.Cons? && rec.args.head.Int? {
        var first := rec.args.head.w;
        if rec.op == GL_BIND_BUFFER && rec.args.tail.Cons? && rec.args.tail.head.Int? {
          var buffer := rec.args.tail.head.w;
          if first == GL_ARRAY_BUFFER {
            arrayBufferBinding := buffer;
          } else if first == GL_ELEMENT_ARRAY_BUFFER {
            elementArrayBufferBinding := buffer;
          }
        } else if rec.op == GL_ENABLE_VERTEX_ATTRIB_ARRAY && first < enabled.Length {
          enabled[first] := true;
        } else if rec.op == GL_DISABLE_VERTEX_ATTRIB_ARRAY && first < enabled.Length {
          enabled[first] := false;
        } else if rec.op == GL_VERTEX_ATTRIB_POINTER {
          ApplyFormat(first, rec.args.tail);
        }
      }
    }

    /** The assignments of proc_glVertexAttribPointer. */
    method ApplyFormat(index: word, args: List<Value>)
      requires Valid()
      modifies formats
      ensures Bound() == Update(old(Bound()), Plain(GL_VERTEX_ATTRIB_POINTER, Cons(Int(index), args)))
    {
      match args
      case Cons(Int(size), Cons(Int(typ), Cons(Flag(normalized), _))) =>
        if index < formats.Length {
          formats[index] := Format(size, typ, normalized);
        }
      case _ =>
    }

    // ---------- The loop ----------

    /** getCmd, after an optional thread prefix. */
    method GetOpcode() returns (cmd: word)
      requires Valid()
      modifies this`curThread, r
      ensures Valid() && r.curPtr >= old(r.curPtr)
      ensures (cmd, curThread, r.Rest()) == Trace.GetOpcode(old(r.Rest()), old(curThread), r.wsize)
    {
      hide WordsFrom, Stream.GetPtr;
      cmd := r.GetCmd();
      if cmd == TraceWriter.OPC_THREAD {
        curThread := r.GetPtr();
        cmd := r.GetCmd();
      }
    }

    /** One turn of the loop; no command when it is the last one. */
    method Turn() returns (seen: Option<Seen>, stop: Stop, swap: bool)
      requires Valid()
      modifies this, r, enabled, formats
      ensures Valid() && r.curPtr >= old(r.curPtr)
      ensures match Turn1(old(r.Rest()), old(State()), r.wsize)
              case Halt(st, rest, why) =>
                && seen == None && stop == why && State() == st
                && (why == EndOfTrace ==> r.Rest() == rest)
              case Show(s, st, rest, sw) => seen == Some(s) && swap == sw && State() == st && r.Rest() == rest
    {
      hide WordsFrom, Decode, Update, Stream.GetLong, Trace.GetOpcode;
      seen, stop, swap := None, EndOfTrace, false;
      var op := GetOpcode();
      if op == OPC_NONE || op == OPC_EOF { return; }
      var o := Switch(op);
      match o
      case Unknown(u) => stop := Unimplemented(u);
      case Overflow => stop := AttribOverflow;
      case Beyond(u) => stop := NotFollowed(u);
      case Command(rec) =>
        var bgn := r.GetLongLong();
        var end := r.GetLongLong();
        Apply(rec);
        swap := op == EGL_SWAP_BUFFERS;
        if swap { curFrame := curFrame + 1; }
        seen := Some(Seen(curThread, rec, bgn, end));
    }

    /** `process`: what it shows, why it ends, and the state it ends in are those of
        the function Process on the words before the cursor. */
    method Run(frames: int) returns (shown: List<Seen>, stop: Stop)
      requires Valid()
      modifies this, r, enabled, formats
      ensures Valid()
      ensures shown == Process(old(r.Rest()), old(State()), frames, r.wsize).seen
      ensures stop == Process(old(r.Rest()), old(State()), frames, r.wsize).stop
      ensures State() == Process(old(r.Rest()), old(State()), frames, r.wsize).st
      ensures stop == FramesDone || stop == EndOfTrace ==>
                r.Rest() == Process(old(r.Rest()), old(State()), frames, r.wsize).rest
    {
      hide Turn1, Decode, WordsFrom;
      var left, got := frames, Nil;
      ghost var was := Process(r.Rest(), State(), frames, r.wsize);
      while left != 0
        invariant Valid()
        invariant was == Result(Reverse(got, Process(r.Rest(), State(), left, r.wsize).seen),
                                Process(r.Rest(), State(), left, r.wsize).st,
                                Process(r.Rest(), State(), left, r.wsize).rest,
                                Process(r.Rest(), State(), left, r.wsize).stop)
        decreases Length(r.Rest())
      {
        var seen, why, swap := Turn();
        if seen == None { return Reverse(got, Nil), why; }
        got := Cons(seen.value, got);
        if swap { left := left - 1; }
      }
      return Reverse(got, Nil), FramesDone;
    }
  }
}
