/** The bytes of a record: the words that module Trace puts into the trace for an
    event are what putCmd, the put primitives and putTime append, one after another. */
module Encoding {
  import opened Wire
  import opened Stream
  import opened Records
  import opened Calls
  import opened Trace
  import TraceWriter

  // ---------- The bytes of an event ----------

  /** What the put primitive of a value appends. */
  function ValueBytes(v: Value, wsize: nat): seq<byte>
    requires IsValue(v, wsize)
  {
    match v
    case Int(w) => Int4(w)
    case Flag(b) => Int4(b)
    case Ptr(p) => LE(p, wsize)
    case Str(s) => StringBytes(s)
    case Blob(d) => BlobBytes(d)
    case NoBytes(size) => Int4(size)
    case NullableInt(w) => NullableBytes(w, MARKER)
    case NullableFloat(w) => NullableBytes(w, FLOAT_MARKER)
  }

  lemma BytesAreValueBytes(v: Value, wsize: nat, rest: Words)
    requires IsValue(v, wsize)
    ensures BytesOf(PutValue(v, wsize, rest)) == ValueBytes(v, wsize) + BytesOf(rest)
  {
    hide PutPtr, PutString, PutBlob, PutNullable, StringBytes, BlobBytes, NullableBytes;
    match v
    case Int(_) =>
    case Flag(_) =>
    case Ptr(p) => BytesOfPtr(p, wsize, rest);
    case Str(s) => BytesOfString(s, rest);
    case Blob(d) => BytesOfBlob(d, rest);
    case NoBytes(_) =>
    case NullableInt(w) => BytesOfNullable(w, MARKER, rest);
    case NullableFloat(w) => BytesOfNullable(w, FLOAT_MARKER, rest);
  }

  lemma BytesOfValue(v: Value, wsize: nat, rest: Words)
    requires IsValue(v, wsize)
    ensures BytesOf(PutValue(v, wsize, Nil)) == ValueBytes(v, wsize)
    ensures BytesOf(PutValue(v, wsize, rest)) == BytesOf(PutValue(v, wsize, Nil)) + BytesOf(rest)
  {
    hide PutValue, ValueBytes;
    BytesAreValueBytes(v, wsize, Nil);
    assert ValueBytes(v, wsize) + BytesOf(Nil) == ValueBytes(v, wsize);
    BytesAreValueBytes(v, wsize, rest);
  }

  lemma {:induction false} BytesOfValues(vs: List<Value>, wsize: nat, rest: Words)
    requires AreValues(vs, wsize)
    ensures BytesOf(PutValues(vs, wsize, rest)) == BytesOf(PutValues(vs, wsize, Nil)) + BytesOf(rest)
    decreases vs
  {
    if vs.Cons? {
      hide PutValue;
      BytesOfValues(vs.tail, wsize, rest);
      BytesOfValue(vs.head, wsize, PutValues(vs.tail, wsize, rest));
      BytesOfValue(vs.head, wsize, PutValues(vs.tail, wsize, Nil));
      Assoc(BytesOf(PutValue(vs.head, wsize, Nil)), BytesOf(PutValues(vs.tail, wsize, Nil)), BytesOf(rest));
    }
  }

  lemma {:induction false} BytesOfIds(ids: List<word>, rest: Words)
    ensures BytesOf(PutIds(ids, rest)) == BytesOf(PutIds(ids, Nil)) + BytesOf(rest)
  {
    if ids.Cons? {
      BytesOfIds(ids.tail, rest);
      Assoc(Int4(ids.head), BytesOf(PutIds(ids.tail, Nil)), BytesOf(rest));
    }
  }

  lemma BytesOfSource(src: Source, rest: Words)
    requires IsSource(src)
    ensures BytesOf(PutSource(src, rest)) == BytesOf(PutSource(src, Nil)) + BytesOf(rest)
  {
    hide PutBlob, PutString;
    if Signed(src.len) > 0 {
      BytesOfBlob(src.text, rest);
      BytesOfBlob(src.text, Nil);
      Assoc(Int4(src.len), BlobBytes(src.text), BytesOf(rest));
    } else {
      BytesOfString(src.text, rest);
      BytesOfString(src.text, Nil);
      Assoc(Int4(src.len), StringBytes(src.text), BytesOf(rest));
    }
  }

  lemma {:induction false} BytesOfSources(sources: List<Source>, rest: Words)
    requires AreSources(sources)
    ensures BytesOf(PutSources(sources, rest)) == BytesOf(PutSources(sources, Nil)) + BytesOf(rest)
  {
    if sources.Cons? {
      hide PutSource;
      BytesOfSources(sources.tail, rest);
      BytesOfSource(sources.head, PutSources(sources.tail, rest));
      BytesOfSource(sources.head, PutSources(sources.tail, Nil));
      Assoc(BytesOf(PutSource(sources.head, Nil)), BytesOf(PutSources(sources.tail, Nil)), BytesOf(rest));
    }
  }

  lemma {:induction false} BytesOfAttribs(attribs: List<(word, word)>, rest: Words)
    ensures BytesOf(PutAttribs(attribs, rest)) == BytesOf(PutAttribs(attribs, Nil)) + BytesOf(rest)
  {
    if attribs.Cons? {
      BytesOfAttribs(attribs.tail, rest);
      var tail := BytesOf(PutAttribs(attribs.tail, Nil));
      Assoc(Int4(attribs.head.1), tail, BytesOf(rest));
      Assoc(Int4(attribs.head.0), Int4(attribs.head.1) + tail, BytesOf(rest));
    }
  }

  lemma {:induction false} BytesOfArrays(arrays: List<(nat, Value)>, indices: List<nat>, wsize: nat, rest: Words)
    requires AreArrays(arrays, indices, wsize)
    ensures BytesOf(PutArrays(arrays, indices, wsize, rest))
         == BytesOf(PutArrays(arrays, indices, wsize, Nil)) + BytesOf(rest)
    decreases arrays
  {
    if arrays.Cons? {
      hide PutValue;
      BytesOfArrays(arrays.tail, indices.tail, wsize, rest);
      BytesOfValue(arrays.head.1, wsize, PutArrays(arrays.tail, indices.tail, wsize, rest));
      BytesOfValue(arrays.head.1, wsize, PutArrays(arrays.tail, indices.tail, wsize, Nil));
      Assoc(BytesOf(PutValue(arrays.head.1, wsize, Nil)), BytesOf(PutArrays(arrays.tail, indices.tail, wsize, Nil)),
            BytesOf(rest));
    }
  }

  /** The bytes of an attribute record's body. */
  lemma AttribsBody(r: Record, b: Bindings, wsize: nat, rest: Words)
    requires IsRecord(r, b, wsize) && r.Attribs?
    ensures BytesOf(PutBody(r, b, wsize, rest))
         == BytesOf(PutValues(r.handles, wsize, Nil)) + BytesOf(PutAttribs(r.attribs, Nil)) + LE(r.res,
             wsize) + BytesOf(rest)
  {
    hide PutValues, PutAttribs, PutPtr;
    var end := PutPtr(r.res, wsize, rest);
    BytesOfValues(r.handles, wsize, PutAttribs(r.attribs, end));
    BytesOfAttribs(r.attribs, end);
    BytesOfPtr(r.res, wsize, rest);
    var h, a, p, t := BytesOf(PutValues(r.handles, wsize, Nil)), BytesOf(PutAttribs(r.attribs, Nil)), LE(r.res,
        wsize), BytesOf(rest);
    Flat4(h, a, p, t);
  }

  lemma {:induction false} BytesOfPtrs(ps: List<quad>, wsize: nat, rest: Words)
    requires AreAddresses(ps, wsize)
    ensures BytesOf(PutPtrs(ps, wsize, rest)) == BytesOf(PutPtrs(ps, wsize, Nil)) + BytesOf(rest)
    decreases ps
  {
    hide PutPtr;
    if ps.Cons? {
      BytesOfPtrs(ps.tail, wsize, rest);
      BytesOfPtr(ps.head, wsize, PutPtrs(ps.tail, wsize, rest));
      BytesOfPtr(ps.head, wsize, PutPtrs(ps.tail, wsize, Nil));
      Assoc(LE(ps.head, wsize), BytesOf(PutPtrs(ps.tail, wsize, Nil)), BytesOf(rest));
    }
  }

  /** The bytes of an eglChooseConfig record's body. */
  lemma ChooseBody(r: Record, b: Bindings, wsize: nat, rest: Words)
    requires IsRecord(r, b, wsize) && r.Choose?
    ensures BytesOf(PutBody(r, b, wsize, rest))
         == LE(r.dpy, wsize) + (BytesOf(PutAttribs(r.attribs, Nil)) + (Int4(r.size) + Int4(r.num)
            + (BytesOf(PutPtrs(r.configs, wsize, Nil)) + (Int4(r.ok) + BytesOf(rest)))))
  {
    hide PutAttribs, PutPtr, PutPtrs;
    var end := Cons(r.ok, rest);
    var mid := Cons(r.size, Cons(r.num, PutPtrs(r.configs, wsize, end)));
    BytesOfPtr(r.dpy, wsize, PutAttribs(r.attribs, mid));
    BytesOfAttribs(r.attribs, mid);
    BytesOfPtrs(r.configs, wsize, end);
    Assoc(Int4(r.size), Int4(r.num), BytesOf(PutPtrs(r.configs, wsize, end)));
  }

  lemma ChooseThenRest(r: Record, b: Bindings, wsize: nat, rest: Words)
    requires IsRecord(r, b, wsize) && r.Choose?
    ensures BytesOf(PutBody(r, b, wsize, rest)) == BytesOf(PutBody(r, b, wsize, Nil)) + BytesOf(rest)
  {
    hide PutAttribs, PutPtrs, PutBody;
    ChooseBody(r, b, wsize, rest);
    ChooseBody(r, b, wsize, Nil);
    var p, a, n, c, o, e := LE(r.dpy, wsize), BytesOf(PutAttribs(r.attribs, Nil)), Int4(r.size) + Int4(r.num),
                            BytesOf(PutPtrs(r.configs, wsize, Nil)), Int4(r.ok), BytesOf(rest);
    assert p + (a + (n + (c + (o + e)))) == (p + (a + (n + (c + (o + []))))) + e;
  }

  /** The bytes of a draw record's body. */
  lemma DrawBody(r: Record, b: Bindings, wsize: nat, rest: Words)
    requires IsRecord(r, b, wsize) && r.Draw?
    ensures BytesOf(PutBody(r, b, wsize, rest))
         == Int4(r.mode) + Int4(r.count) + Int4(r.typ) + BytesOf(PutValue(r.index, wsize, Nil))
            + BytesOf(PutArrays(r.arrays, DrawnArrays(b), wsize, Nil)) + BytesOf(rest)
  {
    hide PutValue, PutArrays;
    var arrays := PutArrays(r.arrays, DrawnArrays(b), wsize, rest);
    BytesOfValue(r.index, wsize, arrays);
    BytesOfArrays(r.arrays, DrawnArrays(b), wsize, rest);
    var m, c, t, x, a, e := Int4(r.mode), Int4(r.count), Int4(r.typ), BytesOf(PutValue(r.index, wsize, Nil)),
                            BytesOf(PutArrays(r.arrays, DrawnArrays(b), wsize, Nil)), BytesOf(rest);
    assert BytesOf(PutValue(r.index, wsize, arrays)) == x + (a + e);
    assert BytesOf(Cons(r.typ, PutValue(r.index, wsize, arrays))) == t + (x + (a + e));
    assert BytesOf(Cons(r.count, Cons(r.typ, PutValue(r.index, wsize, arrays)))) == c + (t + (x + (a + e)));
    Flat6(m, c, t, x, a, e);
  }

  lemma Flat4(h: seq<byte>, a: seq<byte>, p: seq<byte>, t: seq<byte>)
    ensures h + (a + (p + t)) == h + a + p + t
  {
  }

  lemma Flat6(m: seq<byte>, c: seq<byte>, t: seq<byte>, x: seq<byte>, a: seq<byte>, e: seq<byte>)
    ensures m + (c + (t + (x + (a + e)))) == m + c + t + x + a + e
  {
  }

  lemma BytesOfBody(r: Record, b: Bindings, wsize: nat, rest: Words)
    requires IsRecord(r, b, wsize)
    ensures BytesOf(PutBody(r, b, wsize, rest)) == BytesOf(PutBody(r, b, wsize, Nil)) + BytesOf(rest)
  {
    match r
    case Plain(_, args) =>
      BytesOfValues(args, wsize, rest);
    case Ids(_, ids) =>
      BytesOfIds(ids, rest);
      Assoc(Int4(Length(ids)), BytesOf(PutIds(ids, Nil)), BytesOf(rest));
    case Sources(shader, sources) =>
      BytesOfSources(sources, rest);
      Assoc(Int4(Length(sources)), BytesOf(PutSources(sources, Nil)), BytesOf(rest));
      Assoc(Int4(shader), Int4(Length(sources)) + BytesOf(PutSources(sources, Nil)), BytesOf(rest));
    case Attribs(_, _, _, _) =>
      AttribsBody(r, b, wsize, rest);
      AttribsBody(r, b, wsize, Nil);
    case Choose(_, _, _, _, _, _) =>
      ChooseThenRest(r, b, wsize, rest);
    case Draw(_, _, _, _, _) =>
      DrawBody(r, b, wsize, rest);
      DrawBody(r, b, wsize, Nil);
  }

  /** What putCmd, the body and putTime append for a record. */
  ghost function EventBytes(r: Record, b: Bindings, wsize: nat, cur: quad, thread: quad, bgn: quad,
                            end: quad): seq<byte>
    requires IsRecord(r, b, wsize)
  {
    TraceWriter.ThreadPrefix(wsize, cur, thread) + Int4(OpcodeOf(r)) + BytesOf(PutBody(r, b, wsize, Nil))
      + (Long8(bgn) + Long8(end))
  }

  lemma BytesOfThread(wsize: nat, cur: quad, thr: quad, rest: Words)
    requires IsAddress(wsize, thr)
    ensures BytesOf(PutThread(wsize, cur, thr, rest)) == TraceWriter.ThreadPrefix(wsize, cur, thr) + BytesOf(rest)
  {
    if cur != thr {
      hide PutPtr;
      BytesOfPtr(thr, wsize, rest);
      Assoc(Int4(TraceWriter.OPC_THREAD), LE(thr, wsize), BytesOf(rest));
    }
  }

  lemma BytesOfEvent(wsize: nat, cur: quad, st: RecorderState, e: Event, rest: Words)
    requires IsEvent(st, e, wsize)
    ensures IsRecord(RecordOf(st, e.call, wsize), BindingsOf(st), wsize)
    ensures BytesOf(PutEvent(wsize, cur, st, e, rest))
         == EventBytes(RecordOf(st, e.call, wsize), BindingsOf(st), wsize, cur, e.thread, e.bgn, e.end) + BytesOf(rest)
  {
    hide PutBody, RecordOf, IsRecord, PutLong, PutPtr, CanCall, Aborts, BindingsOf, PutThread;
    RecordFits(st, e.call, wsize);
    var r, b := RecordOf(st, e.call, wsize), BindingsOf(st);
    var times := PutLong(e.bgn, PutLong(e.end, rest));
    BytesOfLong(e.bgn, PutLong(e.end, rest));
    BytesOfLong(e.end, rest);
    BytesOfBody(r, b, wsize, times);
    var rec := PutRecord(r, b, wsize, e.bgn, e.end, rest);
    BytesOfThread(wsize, cur, e.thread, rec);
    Regroup(TraceWriter.ThreadPrefix(wsize, cur, e.thread), Int4(OpcodeOf(r)), BytesOf(PutBody(r, b, wsize, Nil)),
            Long8(e.bgn), Long8(e.end), BytesOf(rest));
  }

  lemma Regroup(p: seq<byte>, o: seq<byte>, y: seq<byte>, t1: seq<byte>, t2: seq<byte>, t: seq<byte>)
    ensures p + (o + (y + (t1 + (t2 + t)))) == p + o + y + (t1 + t2) + t
  {
  }

  /** The bytes of a run: those of its events one after another, each with a thread prefix if the
      event before it came from another thread. */
  ghost function RunBytes(wsize: nat, cur: quad, st: RecorderState, es: List<Event>): seq<byte>
    requires IsRun(wsize, st, es)
    decreases es
  {
    if es.Nil? then []
    else
      var e := es.head;
      RecordFits(st, e.call, wsize);
      EventBytes(RecordOf(st, e.call, wsize), BindingsOf(st), wsize, cur, e.thread, e.bgn, e.end)
        + RunBytes(wsize, e.thread, After(st, e.call), es.tail)
  }

  lemma {:induction false} BytesOfRun(wsize: nat, cur: quad, st: RecorderState, es: List<Event>, rest: Words)
    requires IsRun(wsize, st, es)
    ensures BytesOf(PutRun(wsize, cur, st, es, rest)) == RunBytes(wsize, cur, st, es) + BytesOf(rest)
    decreases es
  {
    hide PutEvent, EventBytes, After, RecordOf, IsRecord, CanCall, Aborts;
    if es.Cons? {
      var e, st1 := es.head, After(st, es.head.call);
      BytesOfRun(wsize, e.thread, st1, es.tail, rest);
      BytesOfEvent(wsize, cur, st, e, PutRun(wsize, e.thread, st1, es.tail, rest));
      Assoc(EventBytes(RecordOf(st, e.call, wsize), BindingsOf(st), wsize, cur, e.thread, e.bgn, e.end),
            RunBytes(wsize, e.thread, st1, es.tail), BytesOf(rest));
    }
  }
}
