/** What a command that the replayer shows says about the call that was recorded, field by field from the
    call and the calls before it. Neither the record that the recorder makes nor the layouts of the trace
    occur in it. */
module Shown {
  import opened Wire
  import opened Opcodes
  import opened Records
  import opened Calls
  import opened Client
  import opened DrawReplay
  import opened Trace

  function At<T(0)>(xs: List<T>, i: nat): T
    requires i < Length(xs)
  {
    if i == 0 then xs.head else At(xs.tail, i - 1)
  }

  // ---------- Values ----------

  /** An address of a machine with wsize bytes to the pointer, widened to 64 bits by its sign. */
  predicate SameAddress(p: quad, seen: quad, wsize: nat) {
    if wsize == 8 || p < 0x8000_0000 then seen == p
    else seen == 0xffff_ffff_0000_0000 + p
  }

  /** NULL strings are shown empty, empty memory as NULL. */
  predicate SameValue(v: Value, seen: Value, wsize: nat) {
    match v
    case Int(_) => seen == v
    case Flag(_) => seen == v
    case Ptr(p) => seen.Ptr? && SameAddress(p, seen.p, wsize)
    case Str(None) => seen == Str(Some([]))
    case Str(Some(_)) => seen == v
    case Blob(None) => seen == Blob(None)
    case Blob(Some(d)) => seen == if d == [] then Blob(None) else v
    case NoBytes(_) => seen == Blob(None)
    case NullableInt(_) => seen == v
    case NullableFloat(_) => seen == v
  }

  predicate SameValues(vs: List<Value>, seen: List<Value>, wsize: nat) {
    if vs.Nil? || seen.Nil? then vs.Nil? && seen.Nil?
    else SameValue(vs.head, seen.head, wsize) && SameValues(vs.tail, seen.tail, wsize)
  }

  /** The given number of bytes of a string, if it is positive, or else the string up to its NUL. */
  predicate SameSource(text: Option<seq<byte>>, len: word, seen: Source) {
    if Positive(len) then
      && seen.len == len
      && seen.text == match text case None => None case Some(s) => if len <= |s| then Some(s[..len]) else None
    else
      && seen.len == 0xffff_ffff
      && seen.text == Some(match text case None => [] case Some(s) => s)
  }

  // ---------- Calls ----------

  /** The bytes of glDrawElements' indices that the client's memory holds. */
  predicate SameIndices(c: Call, elementBuffer: word, seen: Value, wsize: nat)
    requires c.DrawElements?
  {
    if elementBuffer != 0 then seen.Ptr? && SameAddress(c.indices.addr, seen.p, wsize)
    else if c.indices.addr == 0 || !Positive(c.count) then seen == Blob(None)
    else c.count * Width(c.typ) <= |c.indices.mem|
         && seen == Blob(Some(c.indices.mem[..c.count * Width(c.typ)]))
  }

  /** One array for each enabled attribute, in ascending order, if no buffer is bound; each holds exactly
      the vertices of the quads drawn. */
  ghost predicate SameArrays(calls: seq<Call>, c: Call, seen: List<(nat, Value)>)
    requires c.DrawElements?
  {
    && Ascending(seen, 0)
    && (forall i: nat :: ArrayOf(seen, i).Some? <==>
          i < 128 && BoundTo(calls, 0x8892) == 0 && IsEnabled(calls, i))
    && forall i: nat, j: nat, k: nat ::
         ArrayOf(seen, i).Some? && k < VertexBytes(ArrayAt(calls, i).size, ArrayAt(calls, i).typ) ==>
         Replayed(seen, FormatOf(ArrayAt(calls, i)), i, j, k)
         == if j < QuadVertices(c.count) then Some(VertexByte(ArrayAt(calls, i), j, k)) else None
  }

  predicate Ascending(arrays: List<(nat, Value)>, from: nat) {
    arrays.Cons? ==> arrays.head.0 >= from && Ascending(arrays.tail, arrays.head.0 + 1)
  }

  /** The smaller of two C ints, if it is positive. */
  function Smaller(a: word, b: word): nat {
    if !Positive(a) || !Positive(b) then 0 else if a < b then a else b
  }

  /** The record shown is that of call c after the given calls. */
  ghost predicate Tells(calls: seq<Call>, c: Call, seen: Record, wsize: nat) {
    match c
    case Simple(op, args) => seen.Plain? && seen.op == op && SameValues(args, seen.args, wsize)
    case BindBuffer(target, buffer) => seen == Plain(GL_BIND_BUFFER, Cons(Int(target), Cons(Int(buffer), Nil)))
    case EnableArray(index) => seen == Plain(GL_ENABLE_VERTEX_ATTRIB_ARRAY, Cons(Int(index), Nil))
    case DisableArray(index) => seen == Plain(GL_DISABLE_VERTEX_ATTRIB_ARRAY, Cons(Int(index), Nil))
    case AttribPointer(index, size, typ, normalized, stride, pointer) =>
      exists p: quad :: SameAddress(pointer.addr, p, wsize) &&
        seen == Plain(GL_VERTEX_ATTRIB_POINTER, Cons(Int(index), Cons(Int(size), Cons(Int(typ),
                  Cons(Flag(normalized), Cons(Int(stride), Cons(Ptr(p), Nil)))))))
    case DrawElements(mode, count, typ, _) =>
      && seen.Draw? && seen.mode == mode && seen.count == count && seen.typ == typ
      && SameIndices(c, BoundTo(calls, 0x8893), seen.index, wsize)
      && SameArrays(calls, c, seen.arrays)
    case Names(op, names) => seen == Ids(op, names)
    case ShaderSource(shader, strings, lengths) =>
      && seen.Sources? && seen.shader == shader && Length(seen.sources) == Length(strings)
      && (lengths.Some? ==> Length(lengths.value) == Length(strings))
      && forall i: nat :: i < Length(strings) ==>
           SameSource(At(strings, i), if lengths.None? then 0 else At(lengths.value, i), At(seen.sources, i))
    case Create(op, handles, attribs, res) =>
      && seen.Attribs? && seen.op == op && seen.attribs == attribs
      && SameValues(handles, seen.handles, wsize) && SameAddress(res, seen.res, wsize)
    case ChooseConfig(dpy, attribs, configs, size, num, ok) =>
      && seen.Choose? && SameAddress(dpy, seen.dpy, wsize) && seen.attribs == attribs
      && seen.size == (if configs.None? then 0 else size) && seen.num == num && seen.ok == ok
      && Length(seen.configs) == (if configs.None? then 0 else Smaller(num, size))
      && (configs.Some? ==> |configs.value| >= Length(seen.configs))
      && forall i: nat :: i < Length(seen.configs) && configs.Some? ==>
           SameAddress(configs.value[i], At(seen.configs, i), wsize)
  }

  /** The commands shown are those of the events after the given calls, in order, each with its thread and
      its times. */
  ghost predicate TellsAll(calls: seq<Call>, es: List<Event>, seen: List<Seen>, wsize: nat)
    decreases es
  {
    if es.Nil? || seen.Nil? then es.Nil? && seen.Nil?
    else
      && SameAddress(es.head.thread, seen.head.thread, wsize)
      && seen.head.bgn == es.head.bgn && seen.head.end == es.head.end
      && Tells(calls, es.head.call, seen.head.rec, wsize)
      && TellsAll(calls + [es.head.call], es.tail, seen.tail, wsize)
  }

  // ---------- The replayer's commands tell the calls ----------

  lemma WidenIsSame(p: quad, wsize: nat)
    requires IsAddress(wsize, p) && (wsize == 4 || wsize == 8)
    ensures SameAddress(p, Widen(wsize, p), wsize)
  {
  }

  lemma CanonIsSame(v: Value, wsize: nat)
    requires IsValue(v, wsize) && (wsize == 4 || wsize == 8)
    ensures SameValue(v, Canon(v, wsize), wsize)
  {
    if v.Ptr? { WidenIsSame(v.p, wsize); }
  }

  lemma {:induction false} CanonsAreSame(vs: List<Value>, wsize: nat)
    requires AreValues(vs, wsize) && (wsize == 4 || wsize == 8)
    ensures SameValues(vs, CanonValues(vs, wsize), wsize)
    decreases vs
  {
    if vs.Cons? {
      CanonIsSame(vs.head, wsize);
      CanonsAreSame(vs.tail, wsize);
    }
  }

  lemma SourceIsSame(text: Option<seq<byte>>, len: word)
    requires StringReadable(text, len)
    ensures SameSource(text, len, CanonSource(SourceOf(text, len)))
  {
  }

  lemma {:induction false} SourcesAreSame(strings: List<Option<seq<byte>>>, lengths: Option<List<word>>, i: nat)
    requires AreStrings(strings, lengths) && i < Length(strings)
    ensures Length(CanonSources(SourcesOf(strings, lengths))) == Length(strings)
    ensures SameSource(At(strings, i), if lengths.None? then 0 else At(lengths.value, i),
                       At(CanonSources(SourcesOf(strings, lengths)), i))
    decreases strings
  {
    SourceIsSame(strings.head, LengthAt(lengths));
    if strings.tail.Cons? { SourcesAreSame(strings.tail, RestOf(lengths), if i > 0 then i - 1 else 0); }
  }

  lemma {:induction false} ConfigsAreSame(configs: seq<quad>, i: nat, wsize: nat)
    requires i < |configs| && (wsize == 4 || wsize == 8)
    requires forall k :: 0 <= k < |configs| ==> IsAddress(wsize, configs[k])
    ensures Length(CanonPtrs(Chosen(configs), wsize)) == |configs|
    ensures SameAddress(configs[i], At(CanonPtrs(Chosen(configs), wsize), i), wsize)
    decreases |configs|
  {
    WidenIsSame(configs[0], wsize);
    if |configs| > 1 { ConfigsAreSame(configs[1..], if i > 0 then i - 1 else 0, wsize); }
  }

  lemma PointerTells(calls: seq<Call>, c: Call, st: RecorderState, wsize: nat)
    requires c.AttribPointer? && CanCall(st, c, wsize) && (wsize == 4 || wsize == 8)
    ensures Tells(calls, c, CanonRecord(RecordOf(st, c, wsize), wsize), wsize)
  {
    hide Widen, SameAddress;
    WidenIsSame(c.pointer.addr, wsize);
    var p := Widen(wsize, c.pointer.addr);
    var end := Cons(Int(c.stride), Cons(Ptr(c.pointer.addr), Nil));
    assert CanonValues(end.tail, wsize) == Cons(Ptr(p), Nil);
    assert CanonValues(end, wsize) == Cons(Int(c.stride), Cons(Ptr(p), Nil));
    var mid := Cons(Int(c.typ), Cons(Flag(c.normalized), end));
    assert CanonValues(mid, wsize) == Cons(Int(c.typ), Cons(Flag(c.normalized), CanonValues(end, wsize)));
    var all := Cons(Int(c.index), Cons(Int(c.size), mid));
    assert CanonValues(all, wsize) == Cons(Int(c.index), Cons(Int(c.size), CanonValues(mid, wsize)));
  }

  lemma SourcesTell(calls: seq<Call>, c: Call, st: RecorderState, wsize: nat)
    requires c.ShaderSource? && CanCall(st, c, wsize)
    ensures Tells(calls, c, CanonRecord(RecordOf(st, c, wsize), wsize), wsize)
  {
    hide SameSource;
    if c.strings.Cons? { SourcesAreSame(c.strings, c.lengths, 0); }
    forall i: nat | i < Length(c.strings)
      ensures Length(CanonSources(SourcesOf(c.strings, c.lengths))) == Length(c.strings)
      ensures SameSource(At(c.strings, i), if c.lengths.None? then 0 else At(c.lengths.value, i),
                         At(CanonSources(SourcesOf(c.strings, c.lengths)), i))
    {
      SourcesAreSame(c.strings, c.lengths, i);
    }
  }

  lemma ConfigsTell(calls: seq<Call>, c: Call, st: RecorderState, wsize: nat)
    requires c.ChooseConfig? && CanCall(st, c, wsize) && (wsize == 4 || wsize == 8)
    ensures Tells(calls, c, CanonRecord(RecordOf(st, c, wsize), wsize), wsize)
  {
    hide SameAddress, Widen;
    WidenIsSame(c.dpy, wsize);
    if c.configs.Some? {
      var n := ConfigCount(c.num, c.size);
      assert n == Smaller(c.num, c.size);
      var got := c.configs.value[..n];
      forall i: nat | i < n
        ensures Length(CanonPtrs(Chosen(got), wsize)) == n
        ensures SameAddress(c.configs.value[i], At(CanonPtrs(Chosen(got), wsize), i), wsize)
      {
        ConfigsAreSame(got, i, wsize);
      }
    }
  }

  lemma IndicesTell(st: RecorderState, c: Call, wsize: nat)
    requires c.DrawElements? && CanCall(st, c, wsize) && !Aborts(st, c) && (wsize == 4 || wsize == 8)
    ensures SameIndices(c, st.elementBuffer, SeenDraw(st, c, wsize).index, wsize)
  {
    hide ArraysFrom, CanonArrays, SameAddress, Widen;
    SizeOfIsWidth(c.typ);
    WidenIsSame(c.indices.addr, wsize);
    if Positive(c.count) {
      assert Signed(c.count) == c.count;
      assert Width(c.typ) >= 1 ==> c.count * Width(c.typ) >= 1;
    } else if st.elementBuffer == 0 {
      NotPositive(c.count, SizeOf(c.typ).value);
    }
  }

  lemma NotPositive(count: word, w: nat)
    requires !Positive(count)
    ensures Signed(count) * w <= 0
  {
  }

  lemma {:induction false} ArraysAscend(attribs: seq<VertexAttrib>, n: nat, i: nat, wsize: nat)
    requires i <= |attribs| && ArraysReadable(attribs, n) && !UnknownType(attribs)
    ensures Ascending(CanonArrays(ArraysFrom(attribs, n, i), wsize), i)
    ensures forall k :: 0 <= k < i ==> ArrayOf(ArraysFrom(attribs, n, i), k).None?
    ensures forall k :: k >= |attribs| ==> ArrayOf(ArraysFrom(attribs, n, i), k).None?
    ensures forall k :: i <= k < |attribs| && !attribs[k].enabled ==> ArrayOf(ArraysFrom(attribs, n, i), k).None?
    decreases |attribs| - i
  {
    hide Packed;
    if i < |attribs| {
      ArraysAscend(attribs, n, i + 1, wsize);
      AscendingLess(CanonArrays(ArraysFrom(attribs, n, i + 1), wsize), i);
    }
  }

  lemma AscendingLess(arrays: List<(nat, Value)>, from: nat)
    requires Ascending(arrays, from + 1)
    ensures Ascending(arrays, from)
  {
  }

  lemma ArraysTell(calls: seq<Call>, st: RecorderState, c: Call, wsize: nat)
    requires c.DrawElements? && CanCall(st, c, wsize) && !Aborts(st, c) && Leaves(calls, st)
    ensures SameArrays(calls, c, SeenDraw(st, c, wsize).arrays)
  {
    hide Replayed, VertexByte, VertexBytes, VertexCount, QuadVertices, ArraysFrom, CanonArrays, IndexValue, SizeOf;
    var seen := SeenDraw(st, c, wsize).arrays;
    if st.arrayBuffer == 0 {
      var n := VertexCount(c.count);
      ArraysAscend(st.attribs, n, 0, wsize);
      forall i: nat
        ensures ArrayOf(seen, i).Some? <==> i < 128 && IsEnabled(calls, i)
      {
        ArrayOfCanon(ArraysFrom(st.attribs, n, 0), i, wsize);
        assert i < 128 ==> st.attribs[i].enabled == ArrayAt(calls, i).enabled == IsEnabled(calls, i);
        if i < 128 && st.attribs[i].enabled { ArrayIsPacked(st.attribs, n, 0, i); }
      }
      forall i: nat, j: nat, k: nat |
        ArrayOf(seen, i).Some? && k < VertexBytes(ArrayAt(calls, i).size, ArrayAt(calls, i).typ)
        ensures Replayed(seen, FormatOf(ArrayAt(calls, i)), i, j, k)
             == if j < QuadVertices(c.count) then Some(VertexByte(ArrayAt(calls, i), j, k)) else None
      {
        assert st.attribs[i] == ArrayAt(calls, i) && BindingsOf(st).formats[i] == FormatOf(st.attribs[i]);
        ReplayedFetch(st, c, wsize, i, j, k);
      }
    } else {
      NoArrays(calls, st, c, wsize);
    }
  }

  lemma NoArrays(calls: seq<Call>, st: RecorderState, c: Call, wsize: nat)
    requires c.DrawElements? && CanCall(st, c, wsize) && !Aborts(st, c) && Leaves(calls, st) && st.arrayBuffer != 0
    ensures SameArrays(calls, c, SeenDraw(st, c, wsize).arrays)
  {
    assert SeenDraw(st, c, wsize).arrays == Nil;
  }

  /** The command that the replayer should show for a call tells the call. */
  lemma RecordTells(calls: seq<Call>, st: RecorderState, c: Call, wsize: nat)
    requires CanCall(st, c, wsize) && !Aborts(st, c) && Leaves(calls, st) && (wsize == 4 || wsize == 8)
    ensures Tells(calls, c, CanonRecord(RecordOf(st, c, wsize), wsize), wsize)
  {
    hide SameIndices, SameArrays, SameSource, SameAddress, Widen, CanonArrays, Leaves;
    match c
    case Simple(_, args) => CanonsAreSame(args, wsize);
    case BindBuffer(target, buffer) =>
      var last := Cons(Int(buffer), Nil);
      assert CanonValues(last, wsize) == last;
      assert CanonValues(Cons(Int(target), last), wsize) == Cons(Int(target), last);
    case EnableArray(index) =>
      assert CanonValues(Cons(Int(index), Nil), wsize) == Cons(Int(index), Nil);
    case DisableArray(index) =>
      assert CanonValues(Cons(Int(index), Nil), wsize) == Cons(Int(index), Nil);
    case AttribPointer(_, _, _, _, _, _) => PointerTells(calls, c, st, wsize);
    case DrawElements(_, _, _, _) =>
      LeavesBuffers(calls, st);
      IndicesTell(st, c, wsize);
      ArraysTell(calls, st, c, wsize);
    case Names(_, _) =>
    case ShaderSource(_, _, _) => SourcesTell(calls, c, st, wsize);
    case Create(_, handles, _, res) =>
      CanonsAreSame(handles, wsize);
      WidenIsSame(res, wsize);
    case ChooseConfig(_, _, _, _, _, _) => ConfigsTell(calls, c, st, wsize);
  }

  lemma LeavesBuffers(calls: seq<Call>, st: RecorderState)
    requires Leaves(calls, st)
    ensures st.elementBuffer == BoundTo(calls, 0x8893)
  {
  }

  /** So it is for whole runs. */
  lemma {:induction false} RunTells(calls: seq<Call>, st: RecorderState, es: List<Event>, wsize: nat)
    requires IsRun(wsize, st, es) && Leaves(calls, st) && (wsize == 4 || wsize == 8)
    ensures TellsAll(calls, es, SeenRun(wsize, st, es), wsize)
    decreases es
  {
    hide Tells, CanCall, Aborts, After, RecordOf, Leaves, SameAddress, Widen;
    if es.Cons? {
      var e := es.head;
      WidenIsSame(e.thread, wsize);
      RecordTells(calls, st, e.call, wsize);
      CallLeaves(calls, st, e.call, wsize);
      RunTells(calls + [e.call], After(st, e.call), es.tail, wsize);
    }
  }

  // ---------- Which runs are replayed to their end ----------

  /** The replayer implements the command, and has room for the attribute list. */
  predicate Implemented(c: Call) {
    match c
    case Simple(op, _) => op !in WRITE_ONLY
    case Create(_, _, attribs, _) => Length(attribs) < 32
    case ChooseConfig(_, attribs, _, _, _, _) => Length(attribs) < 32
    case _ => true
  }

  predicate AllImplemented(es: List<Event>) {
    es.Cons? ==> Implemented(es.head.call) && AllImplemented(es.tail)
  }

  /** The events before the first that the replayer gives up on. */
  function Played(es: List<Event>): List<Event> {
    if es.Nil? || !Implemented(es.head.call) then Nil else Cons(es.head, Played(es.tail))
  }

  /** A float parameter is neither NULL nor the escape marker. */
  predicate AllFloatsExact(es: List<Event>) {
    es.Cons? ==> (es.head.call.Simple? ==> AllExact(es.head.call.args)) && AllFloatsExact(es.tail)
  }

  lemma ImplementedIsReplayable(wsize: nat, st: RecorderState, e: Event)
    requires IsEvent(st, e, wsize)
    ensures Implemented(e.call) <==> EventReplayable(wsize, st, e)
  {
    hide PutShape, GetShape;
    NoSharedOpcodes(OpcodeOf(RecordOf(st, e.call, wsize)));
    assert GL_BIND_BUFFER !in WRITE_ONLY && GL_VERTEX_ATTRIB_POINTER !in WRITE_ONLY;
    assert GL_ENABLE_VERTEX_ATTRIB_ARRAY !in WRITE_ONLY && GL_DISABLE_VERTEX_ATTRIB_ARRAY !in WRITE_ONLY;
  }

  lemma ExactIsExact(wsize: nat, st: RecorderState, e: Event)
    requires IsEvent(st, e, wsize)
    ensures EventExact(wsize, st, e) <==> (e.call.Simple? ==> AllExact(e.call.args))
  {
    hide AllExact, CanCall, Aborts;
    NothingIsExact();
    match e.call
    case BindBuffer(target, buffer) =>
      ExactThen(Int(buffer), Nil);
      ExactThen(Int(target), Cons(Int(buffer), Nil));
    case EnableArray(index) => ExactThen(Int(index), Nil);
    case DisableArray(index) => ExactThen(Int(index), Nil);
    case AttribPointer(index, size, typ, normalized, stride, pointer) =>
      var end := Cons(Int(stride), Cons(Ptr(pointer.addr), Nil));
      ExactThen(Ptr(pointer.addr), Nil);
      ExactThen(Int(stride), Cons(Ptr(pointer.addr), Nil));
      ExactThen(Flag(normalized), end);
      ExactThen(Int(typ), Cons(Flag(normalized), end));
      ExactThen(Int(size), Cons(Int(typ), Cons(Flag(normalized), end)));
      ExactThen(Int(index), Cons(Int(size), Cons(Int(typ), Cons(Flag(normalized), end))));
    case _ =>
  }

  lemma NothingIsExact()
    ensures AllExact(Nil)
  {
  }

  lemma ExactThen(v: Value, vs: List<Value>)
    requires Exact(v) && AllExact(vs)
    ensures AllExact(Cons(v, vs))
  {
  }

  lemma {:induction false} RunsAreExact(wsize: nat, st: RecorderState, es: List<Event>)
    requires IsRun(wsize, st, es)
    ensures AllFloatsExact(es) <==> RunExact(wsize, st, es)
    ensures AllImplemented(es) <==> RunReplayable(wsize, st, es)
    decreases es
  {
    hide EventExact, EventReplayable, CanCall, Aborts, After, Implemented;
    if es.Cons? {
      ExactIsExact(wsize, st, es.head);
      ImplementedIsReplayable(wsize, st, es.head);
      RunsAreExact(wsize, After(st, es.head.call), es.tail);
    }
  }

  lemma {:induction false} AllArePlayed(es: List<Event>)
    ensures AllImplemented(es) ==> Played(es) == es
    decreases es
  {
    if es.Cons? { AllArePlayed(es.tail); }
  }

  /** Replaying a run shows the calls up to the first that the replayer gives up on, and reaches the end of
      the trace, if and only if there is none. */
  lemma {:induction false} ReplayTells(wsize: nat, cur: quad, calls: seq<Call>, st: RecorderState, es: List<Event>,
                                       frame: nat, frames: int)
    requires (wsize == 4 || wsize == 8) && IsAddress(wsize, cur) && IsRun(wsize, st, es) && AllFloatsExact(es)
    requires Leaves(calls, st) && frames < 0
    ensures var r := Process(PutRun(wsize, cur, st, es, Nil), InStep(wsize, st, cur, frame), frames, wsize);
            && TellsAll(calls, Played(es), r.seen, wsize)
            && (r.stop == EndOfTrace <==> AllImplemented(es))
    decreases es
  {
    hide Turn1, After, CanCall, Aborts, PutEvent, EventReplayable, EventExact, InStep, Leaves, SameAddress, Widen,
      Tells, RecordOf, Implemented;
    LeavesState(calls, st);
    if es.Nil? {
      ReplayEnd(InStep(wsize, st, cur, frame), frames, wsize);
    } else {
      var e := es.head;
      var st1, n := After(st, e.call), Ticks(IsSwap(e.call));
      ExactIsExact(wsize, st, e);
      ImplementedIsReplayable(wsize, st, e);
      ReplayEvent(wsize, cur, st, e, PutRun(wsize, e.thread, st1, es.tail, Nil), frame);
      if Implemented(e.call) {
        WidenIsSame(e.thread, wsize);
        RecordTells(calls, st, e.call, wsize);
        CallLeaves(calls, st, e.call, wsize);
        ReplayTells(wsize, e.thread, calls + [e.call], st1, es.tail, frame + n, frames - n);
      }
    }
  }

  lemma LeavesState(calls: seq<Call>, st: RecorderState)
    requires Leaves(calls, st)
    ensures IsState(st)
  {
  }
}
