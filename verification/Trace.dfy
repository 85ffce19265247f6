/** Whole traces: the words a run of calls leaves in the trace, the replayer's
    main loop (`process` in tools/gltrace/retrace.c) as a function of the words it
    has not read yet, and the theorems that relate the two. */
module Trace {
  import opened Wire
  import opened Stream
  import opened Opcodes
  import opened Records
  import opened Calls
  import TraceWriter

  // ---------- Recording ----------

  /** One intercepted call: the thread that made it and the times around the original. */
  datatype Event = Event(thread: quad, call: Call, bgn: quad, end: quad)

  function PutThread(wsize: nat, cur: quad, thr: quad, rest: Words): Words
    requires IsAddress(wsize, thr)
  {
    if thr == cur then rest else Cons(TraceWriter.OPC_THREAD, PutPtr(thr, wsize, rest))
  }

  /** The words of a record: opcode, body, time stamps. */
  ghost function PutRecord(r: Record, b: Bindings, wsize: nat, bgn: quad, end: quad, rest: Words): Words
    requires IsRecord(r, b, wsize)
  {
    Cons(OpcodeOf(r), PutBody(r, b, wsize, PutLong(bgn, PutLong(end, rest))))
  }

  /** The call is legal in state st and does not end the process. */
  predicate IsEvent(st: RecorderState, e: Event, wsize: nat) {
    IsAddress(wsize, e.thread) && CanCall(st, e.call, wsize) && !Aborts(st, e.call)
  }

  /** The words of one event, when cur made the previous one. */
  ghost function PutEvent(wsize: nat, cur: quad, st: RecorderState, e: Event, rest: Words): Words
    requires IsEvent(st, e, wsize)
  {
    RecordFits(st, e.call, wsize);
    PutThread(wsize, cur, e.thread,
              PutRecord(RecordOf(st, e.call, wsize), BindingsOf(st), wsize, e.bgn, e.end, rest))
  }

  predicate IsRun(wsize: nat, st: RecorderState, es: List<Event>)
    decreases es
  {
    es.Cons? ==> IsEvent(st, es.head, wsize) && IsRun(wsize, After(st, es.head.call), es.tail)
  }

  ghost function PutRun(wsize: nat, cur: quad, st: RecorderState, es: List<Event>, rest: Words): Words
    requires IsRun(wsize, st, es)
    decreases es
  {
    if es.Nil? then rest
    else PutEvent(wsize, cur, st, es.head, PutRun(wsize, es.head.thread, After(st, es.head.call), es.tail, rest))
  }

  function AfterRun(st: RecorderState, es: List<Event>): RecorderState
    decreases es
  {
    if es.Nil? then st else AfterRun(After(st, es.head.call), es.tail)
  }

  // ---------- Replaying ----------

  /** A command as the replayer hands it to its proc_ function, with the thread and
      the times it prints beside it. */
  datatype Seen = Seen(thread: quad, rec: Record, bgn: quad, end: quad)

  datatype ReplayState = ReplayState(b: Bindings, thread: quad, frame: nat)

  const START: ReplayState :=
    ReplayState(Bindings(0, 0, Repeat(false, MAX_VERTEX_ATTRIBS), Repeat(Format(0, 0, 0), MAX_VERTEX_ATTRIBS)), 0, 0)

  datatype Stop = EndOfTrace | FramesDone | Unimplemented(op: word) | AttribOverflow | NotFollowed(op: word)

  /** The updates of arrayBufferBinding, elementArrayBufferBinding and vertexAttrib, in the mode that
      executes the commands. */
  function Update(b: Bindings, r: Record): Bindings {
    if !r.Plain? then b
    else if r.op == GL_BIND_BUFFER && r.args.Cons? && r.args.head.Int?
            && r.args.tail.Cons? && r.args.tail.head.Int? then
      var (target, buffer) := (r.args.head.w, r.args.tail.head.w);
      if target == GL_ARRAY_BUFFER then b.(arrayBuffer := buffer)
      else if target == GL_ELEMENT_ARRAY_BUFFER then b.(elementBuffer := buffer)
      else b
    else if r.op == GL_ENABLE_VERTEX_ATTRIB_ARRAY && r.args.Cons? && r.args.head.Int? then
      SetEnabled(b, r.args.head.w, true)
    else if r.op == GL_DISABLE_VERTEX_ATTRIB_ARRAY && r.args.Cons? && r.args.head.Int? then
      SetEnabled(b, r.args.head.w, false)
    else if r.op == GL_VERTEX_ATTRIB_POINTER then
      match r.args
      case Cons(Int(index), Cons(Int(size), Cons(Int(typ), Cons(Flag(normalized), _)))) =>
        SetFormat(b, index, Format(size, typ, normalized))
      case _ => b
    else b
  }

  function SetFormat(b: Bindings, i: nat, f: Format): Bindings {
    if i < |b.formats| then b.(formats := b.formats[i := f]) else b
  }

  function SetEnabled(b: Bindings, i: nat, on: bool): Bindings {
    if i < |b.enabled| then b.(enabled := b.enabled[i := on]) else b
  }

  /** getCmd, with the end of the file as OPC_EOF. */
  function GetCmd(ws: Words): (word, Words) {
    if ws.Nil? then (OPC_EOF, ws) else (ws.head, ws.tail)
  }

  /** getCmd with an optional thread prefix. */
  function GetOpcode(ws: Words, thread: quad, wsize: nat): (r: (word, quad, Words))
    ensures r.0 != OPC_EOF ==> Length(r.2) < Length(ws)
  {
    var (cmd, ws1) := GetCmd(ws);
    if cmd != TraceWriter.OPC_THREAD then (cmd, thread, ws1)
    else
      var (thr, ws2) := GetPtr(ws1, wsize);
      var (cmd2, ws3) := GetCmd(ws2);
      (cmd2, thr, ws3)
  }

  datatype Result = Result(seen: List<Seen>, st: ReplayState, rest: Words, stop: Stop)

  /** What one turn of the loop of `process` does: it ends the loop, or it shows a
      command, which may be a buffer swap. */
  datatype Turn =
    | Halt(st: ReplayState, rest: Words, stop: Stop)
    | Show(seen: Seen, st: ReplayState, rest: Words, swap: bool)

  function Turn1(ws: Words, st: ReplayState, wsize: nat): (r: Turn)
    ensures r.Show? ==> Length(r.rest) < Length(ws)
    ensures r.Halt? ==> r.stop != FramesDone
  {
    var (op, thread, ws1) := GetOpcode(ws, st.thread, wsize);
    var st1 := st.(thread := thread);
    if op == OPC_NONE || op == OPC_EOF then Halt(st1, ws1, EndOfTrace)
    else
      match Decode(ws1, op, st.b, wsize)
      case NotImplemented(o) => Halt(st1, ws1, Unimplemented(o))
      case TooManyAttributes => Halt(st1, ws1, AttribOverflow)
      case LeftOut(o) => Halt(st1, ws1, NotFollowed(o))
      case Done(rec, ws2) =>
        var (bgn, ws3) := GetLong(ws2);
        var (end, ws4) := GetLong(ws3);
        var swap := op == EGL_SWAP_BUFFERS;
        var st2 := ReplayState(Update(st.b, rec), thread, st.frame + Ticks(swap));
        Show(Seen(thread, rec, bgn, end), st2, ws4, swap)
  }

  function Ticks(swap: bool): nat {
    if swap then 1 else 0
  }

  /** The loop of `process`: at most `frames` buffer swaps, or all of them when negative. */
  function Process(ws: Words, st: ReplayState, frames: int, wsize: nat): Result
    decreases Length(ws)
  {
    if frames == 0 then Result(Nil, st, ws, FramesDone)
    else
      match Turn1(ws, st, wsize)
      case Halt(st1, rest, stop) => Result(Nil, st1, rest, stop)
      case Show(seen, st1, rest, swap) => After1(seen, Process(rest, st1, frames - Ticks(swap), wsize))
  }

  function After1(s: Seen, r: Result): Result {
    r.(seen := Cons(s, r.seen))
  }

  function AfterAll(ss: List<Seen>, r: Result): Result {
    r.(seen := Concat(ss, r.seen))
  }

  function Concat<T>(xs: List<T>, ys: List<T>): List<T> {
    if xs.Nil? then ys else Cons(xs.head, Concat(xs.tail, ys))
  }

  // ---------- The replayer keeps in step with the recorder ----------

  /** The updates that the two sides make for one call agree. */
  lemma BindingsInStep(st: RecorderState, c: Call, wsize: nat)
    requires IsState(st) && CanCall(st, c, wsize) && !Aborts(st, c)
    ensures Update(BindingsOf(st), CanonRecord(RecordOf(st, c, wsize), wsize)) == BindingsOf(After(st, c))
  {
    match c
    case BindBuffer(target, buffer) =>
      var last := Cons(Int(buffer), Nil);
      assert CanonValues(last, wsize) == last;
      assert CanonValues(Cons(Int(target), last), wsize) == Cons(Int(target), last);
    case EnableArray(index) =>
      SetEnabledIsSetAttrib(st, index, st.attribs[index].(enabled := true));
    case DisableArray(index) =>
      SetEnabledIsSetAttrib(st, index, st.attribs[index].(enabled := false));
    case AttribPointer(_, _, _, _, _, _) =>
      FormatsInStep(st, c, wsize);
    case _ =>
  }

  lemma FormatsInStep(st: RecorderState, c: Call, wsize: nat)
    requires IsState(st) && CanCall(st, c, wsize) && c.AttribPointer?
    ensures Update(BindingsOf(st), CanonRecord(RecordOf(st, c, wsize), wsize)) == BindingsOf(After(st, c))
  {
    var end := Cons(Int(c.stride), Cons(Ptr(c.pointer.addr), Nil));
    var flag := Cons(Flag(c.normalized), end);
    assert CanonValues(flag, wsize) == Cons(Flag(c.normalized), CanonValues(end, wsize));
    var typ := Cons(Int(c.typ), flag);
    assert CanonValues(typ, wsize) == Cons(Int(c.typ), CanonValues(flag, wsize));
    var size := Cons(Int(c.size), typ);
    assert CanonValues(size, wsize) == Cons(Int(c.size), CanonValues(typ, wsize));
    assert CanonValues(Cons(Int(c.index), size), wsize) == Cons(Int(c.index), CanonValues(size, wsize));
    assert EnabledOf(After(st, c).attribs) == EnabledOf(st.attribs);
    assert FormatsOf(After(st, c).attribs) == FormatsOf(st.attribs)[c.index := Format(c.size, c.typ, c.normalized)];
  }

  lemma SetEnabledIsSetAttrib(st: RecorderState, i: nat, a: VertexAttrib)
    requires i < |st.attribs| && FormatOf(a) == FormatOf(st.attribs[i])
    ensures SetEnabled(BindingsOf(st), i, a.enabled) == BindingsOf(SetAttrib(st, i, a))
  {
    assert EnabledOf(st.attribs[i := a]) == EnabledOf(st.attribs)[i := a.enabled];
    assert FormatsOf(st.attribs[i := a]) == FormatsOf(st.attribs);
  }

  /** No record starts like a thread prefix or like the end of the trace. */
  lemma OpcodeIsCommand(r: Record, b: Bindings, wsize: nat)
    requires IsRecord(r, b, wsize)
    ensures OpcodeOf(r) != TraceWriter.OPC_THREAD && OpcodeOf(r) != OPC_NONE && OpcodeOf(r) != OPC_EOF
  {
  }

  lemma GetOpcodeOfThread(wsize: nat, cur: quad, thr: quad, op: word, rest: Words)
    requires IsAddress(wsize, cur) && IsAddress(wsize, thr) && op != TraceWriter.OPC_THREAD
    ensures GetOpcode(PutThread(wsize, cur, thr, Cons(op, rest)), Widen(wsize, cur), wsize)
         == (op, Widen(wsize, thr), rest)
  {
    if thr != cur {
      GetPutPtr(thr, wsize, Cons(op, rest));
    }
  }

  // ---------- Replaying a recorded run ----------

  function SeenOf(wsize: nat, st: RecorderState, e: Event): Seen
    requires IsEvent(st, e, wsize)
  {
    Seen(Widen(wsize, e.thread), CanonRecord(RecordOf(st, e.call, wsize), wsize), e.bgn, e.end)
  }

  /** Every event of the run with its own thread, fields and times, in order. */
  function SeenRun(wsize: nat, st: RecorderState, es: List<Event>): List<Seen>
    requires IsRun(wsize, st, es)
    decreases es
  {
    if es.Nil? then Nil
    else Cons(SeenOf(wsize, st, es.head), SeenRun(wsize, After(st, es.head.call), es.tail))
  }

  /** The replayer implements the command and has room for its attribute list. */
  predicate Replayable(r: Record) {
    OpcodeOf(r) !in WRITE_ONLY && !TooLong(r)
  }

  predicate EventReplayable(wsize: nat, st: RecorderState, e: Event)
    requires IsEvent(st, e, wsize)
  {
    Replayable(RecordOf(st, e.call, wsize))
  }

  predicate EventExact(wsize: nat, st: RecorderState, e: Event)
    requires IsEvent(st, e, wsize)
  {
    ExactRecord(RecordOf(st, e.call, wsize))
  }

  predicate RunReplayable(wsize: nat, st: RecorderState, es: List<Event>)
    requires IsRun(wsize, st, es)
    decreases es
  {
    es.Cons? ==> EventReplayable(wsize, st, es.head) && RunReplayable(wsize, After(st, es.head.call), es.tail)
  }

  predicate RunExact(wsize: nat, st: RecorderState, es: List<Event>)
    requires IsRun(wsize, st, es)
    decreases es
  {
    es.Cons? ==> EventExact(wsize, st, es.head) && RunExact(wsize, After(st, es.head.call), es.tail)
  }

  predicate IsSwap(c: Call) {
    c.Simple? && c.op == EGL_SWAP_BUFFERS
  }

  function Swaps(es: List<Event>): nat {
    if es.Nil? then 0 else Ticks(IsSwap(es.head.call)) + Swaps(es.tail)
  }

  function LastThread(cur: quad, es: List<Event>): quad
    decreases es
  {
    if es.Nil? then cur else LastThread(es.head.thread, es.tail)
  }

  /** The replayer's state when it has caught up with a recorder in state st. */
  function InStep(wsize: nat, st: RecorderState, cur: quad, frame: nat): ReplayState {
    ReplayState(BindingsOf(st), Widen(wsize, cur), frame)
  }

  lemma GetPutTimes(bgn: quad, end: quad, rest: Words)
    ensures GetLong(PutLong(bgn, PutLong(end, rest))) == (bgn, PutLong(end, rest))
    ensures GetLong(PutLong(end, rest)) == (end, rest)
  {
  }

  lemma SwapOpcode(st: RecorderState, c: Call, wsize: nat)
    requires CanCall(st, c, wsize) && !Aborts(st, c)
    ensures OpcodeOf(RecordOf(st, c, wsize)) == EGL_SWAP_BUFFERS <==> IsSwap(c)
  {
  }

  /** t shows the event and leaves the replayer in step with the recorder, or halts
      because the command is not replayable. */
  predicate IsTurnOf(wsize: nat, st: RecorderState, e: Event, rest: Words, frame: nat, t: Turn)
    requires IsEvent(st, e, wsize)
  {
    if EventReplayable(wsize, st, e) then
      var next := InStep(wsize, After(st, e.call), e.thread, frame + Ticks(IsSwap(e.call)));
      t == Show(SeenOf(wsize, st, e), next, rest, IsSwap(e.call))
    else t.Halt? && t.stop != EndOfTrace
  }

  /** One turn of the loop of `process` on one recorded event: the command that was
      recorded, and a state that again matches the recorder's. */
  lemma ReplayEvent(wsize: nat, cur: quad, st: RecorderState, e: Event, rest: Words, frame: nat)
    requires IsState(st) && IsAddress(wsize, cur) && IsEvent(st, e, wsize) && EventExact(wsize, st, e)
    ensures IsTurnOf(wsize, st, e, rest, frame,
                     Turn1(PutEvent(wsize, cur, st, e, rest), InStep(wsize, st, cur, frame), wsize))
  {
    hide RecordOf, BindingsOf, CanCall, Aborts, After, PutBody, PutLong, Decode, IsRecord, Update, CanonRecord, IsSwap,
      ExactRecord;
    var r, b := RecordOf(st, e.call, wsize), BindingsOf(st);
    RecordFits(st, e.call, wsize);
    SwapOpcode(st, e.call, wsize);
    OpcodeIsCommand(r, b, wsize);
    var times := PutLong(e.bgn, PutLong(e.end, rest));
    GetOpcodeOfThread(wsize, cur, e.thread, OpcodeOf(r), PutBody(r, b, wsize, times));
    DecodeEncode(r, b, wsize, times);
    GetPutTimes(e.bgn, e.end, rest);
    if EventReplayable(wsize, st, e) {
      BindingsInStep(st, e.call, wsize);
    }
  }

  /** Replaying a recorded run delivers every event in order, each with the thread
      that issued it, and goes on with whatever follows the run in the trace in a
      state that matches the recorder's. */
  lemma {:induction false} ReplayRun(wsize: nat, cur: quad, st: RecorderState, es: List<Event>, rest: Words,
                                     frame: nat, frames: int)
    requires IsState(st) && IsAddress(wsize, cur) && IsRun(wsize, st, es)
    requires RunReplayable(wsize, st, es) && RunExact(wsize, st, es)
    requires frames < 0 || Swaps(es) < frames
    ensures Process(PutRun(wsize, cur, st, es, rest), InStep(wsize, st, cur, frame), frames, wsize)
         == AfterAll(SeenRun(wsize, st, es),
                     Process(rest, InStep(wsize, AfterRun(st, es), LastThread(cur, es), frame + Swaps(es)),
                             frames - Swaps(es), wsize))
    decreases es
  {
    hide Turn1, After, CanCall, Aborts, PutEvent, EventReplayable, EventExact, SeenOf, InStep, Widen;
    if es.Cons? {
      var e := es.head;
      var st1, n := After(st, e.call), Ticks(IsSwap(e.call));
      ReplayEvent(wsize, cur, st, e, PutRun(wsize, e.thread, st1, es.tail, rest), frame);
      ReplayRun(wsize, e.thread, st1, es.tail, rest, frame + n, frames - n);
    }
  }

  lemma {:induction false} ConcatAssoc<T>(xs: List<T>, ys: List<T>, zs: List<T>)
    ensures Concat(Concat(xs, ys), zs) == Concat(xs, Concat(ys, zs))
  {
    if xs.Cons? {
      ConcatAssoc(xs.tail, ys, zs);
    }
  }

  lemma {:induction false} ConcatNil<T>(xs: List<T>)
    ensures Concat(xs, Nil) == xs
  {
    if xs.Cons? {
      ConcatNil(xs.tail);
    }
  }

  lemma ReplayEnd(st: ReplayState, frames: int, wsize: nat)
    requires frames != 0
    ensures Process(Nil, st, frames, wsize) == Result(Nil, st, Nil, EndOfTrace)
  {
    assert GetOpcode(Nil, st.thread, wsize) == (OPC_EOF, st.thread, Nil);
  }

  lemma BindingsOfInitial()
    ensures IsState(INITIAL) && BindingsOf(INITIAL) == START.b
  {
    assert EnabledOf(INITIAL.attribs) == START.b.enabled;
    assert FormatsOf(INITIAL.attribs) == START.b.formats;
  }

  /** What replaying the whole trace should deliver. */
  function Delivered(wsize: nat, st: RecorderState, es: List<Event>): Result
    requires IsRun(wsize, st, es)
  {
    Result(SeenRun(wsize, st, es), InStep(wsize, AfterRun(st, es), LastThread(0, es), Swaps(es)), Nil, EndOfTrace)
  }

  /** The whole trace: a run recorded from the start and replayed from the start is
      delivered completely and read to its last byte exactly when the replayer
      implements every command of the run and every attribute list fits. */
  lemma ReplayWholeTrace(wsize: nat, es: List<Event>)
    requires wsize == 4 || wsize == 8
    requires IsRun(wsize, INITIAL, es) && RunExact(wsize, INITIAL, es)
    ensures RunReplayable(wsize, INITIAL, es) <==>
            Process(PutRun(wsize, 0, INITIAL, es, Nil), START, -1, wsize) == Delivered(wsize, INITIAL, es)
    ensures RunReplayable(wsize, INITIAL, es) <==>
            Process(PutRun(wsize, 0, INITIAL, es, Nil), START, -1, wsize).stop == EndOfTrace
  {
    hide Turn1, PutRun, SeenRun, AfterRun, RunReplayable, RunExact, IsRun, Process;
    BindingsOfInitial();
    assert InStep(wsize, INITIAL, 0, 0) == START;
    if RunReplayable(wsize, INITIAL, es) {
      ReplayRun(wsize, 0, INITIAL, es, Nil, 0, -1);
      ReplayEnd(InStep(wsize, AfterRun(INITIAL, es), LastThread(0, es), Swaps(es)), -1 - Swaps(es), wsize);
      ConcatNil(SeenRun(wsize, INITIAL, es));
    } else {
      ReplayStops(wsize, 0, INITIAL, es, Nil, 0, -1);
    }
  }

  /** A run with a command the replayer gives up on is not replayed to its end. */
  lemma {:induction false} ReplayStops(wsize: nat, cur: quad, st: RecorderState, es: List<Event>, rest: Words,
                                       frame: nat, frames: int)
    requires IsState(st) && IsAddress(wsize, cur) && IsRun(wsize, st, es)
    requires RunExact(wsize, st, es) && !RunReplayable(wsize, st, es)
    ensures Process(PutRun(wsize, cur, st, es, rest), InStep(wsize, st, cur, frame), frames, wsize).stop != EndOfTrace
    decreases es
  {
    hide Turn1, After, CanCall, Aborts, PutEvent, EventReplayable, EventExact, SeenOf, InStep, Widen;
    if frames != 0 {
      var e := es.head;
      var st1, n := After(st, e.call), Ticks(IsSwap(e.call));
      ReplayEvent(wsize, cur, st, e, PutRun(wsize, e.thread, st1, es.tail, rest), frame);
      if EventReplayable(wsize, st, e) {
        ReplayStops(wsize, e.thread, st1, es.tail, rest, frame + n, frames - n);
      }
    }
  }

  /** Every negative number of frames means all of them. */
  lemma {:induction false} AnyNegative(ws: Words, st: ReplayState, m: int, n: int, wsize: nat)
    requires m < 0 && n < 0
    ensures Process(ws, st, m, wsize) == Process(ws, st, n, wsize)
    decreases Length(ws)
  {
    hide Turn1;
    var t := Turn1(ws, st, wsize);
    if t.Show? {
      AnyNegative(t.rest, t.st, m - Ticks(t.swap), n - Ticks(t.swap), wsize);
    }
  }

  /** Stepping through k frames first, as the interactive mode does, shows the same
      commands as replaying at once: for every trace, recorded or not. */
  lemma {:induction false} FrameByFrame(ws: Words, st: ReplayState, k: nat, frames: int, wsize: nat)
    requires frames < 0 || k <= frames
    ensures var first := Process(ws, st, k, wsize);
            Process(ws, st, frames, wsize) ==
            if first.stop != FramesDone then first
            else AfterAll(first.seen,
                          Process(first.rest, first.st, if frames < 0 then frames else frames - k, wsize))
    decreases Length(ws)
  {
    hide Turn1;
    if k > 0 {
      var t := Turn1(ws, st, wsize);
      if t.Show? {
        var n := Ticks(t.swap);
        FrameByFrame(t.rest, t.st, k - n, frames - n, wsize);
        var first := Process(t.rest, t.st, k - n, wsize);
        if frames < 0 && first.stop == FramesDone {
          AnyNegative(first.rest, first.st, frames, frames - n, wsize);
        }
      }
    }
  }
}
