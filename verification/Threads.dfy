/** Several threads sharing one trace: putCmd, the put primitives and endCmd of
    tools/gltrace/iolib.c as interleaved steps over a recursive lock and the
    re-entrance counter. */
module Threads {
  import opened Wire
  import opened Stream
  import opened Records
  import opened Calls
  import opened Trace
  import opened Client
  import opened Shown
  import opened Encoding
  import TraceWriter

  /** Where a thread is: between operations, holding the lock before `++reentrance`,
      or after `--reentrance` and about to unlock. */
  datatype Phase = Between | Locked | Leaving

  /** A thread: the calls it has entered and not left, and what it has put into its
      outermost call so far. */
  datatype Local = Local(phase: Phase, open: nat, mine: Words)

  const IDLE: Local := Local(Between, 0, Nil)

  /** The words that a thread put between putCmd and endCmd of an outermost call. */
  datatype Segment = Segment(thread: quad, words: Words)

  /** The shared variables, the threads, and the outermost calls completed so far. */
  datatype Shared = Shared(
    owner: Option<quad>, depth: nat, reentrance: int, curThread: quad, log: Words,
    locals: map<quad, Local>, done: List<Segment>)

  const INIT: Shared := Shared(None, 0, 0, 0, Nil, map[], Nil)

  datatype Step = Lock(t: quad) | Enter(t: quad, cmd: word) | Put(t: quad, ws: Words) | Leave(t: quad) | Unlock(t: quad)

  function Of(s: Shared, t: quad): Local {
    if t in s.locals then s.locals[t] else IDLE
  }

  /** The thread's own program allows the step, and the lock does not block it. */
  predicate Enabled(s: Shared, step: Step) {
    var l := Of(s, step.t);
    match step
    case Lock(t) => l.phase == Between && (s.owner == None || s.owner == Some(t))
    case Enter(_, _) => l.phase == Locked
    case Put(_, _) => l.phase == Between && l.open > 0
    case Leave(_) => l.phase == Between && l.open > 0
    case Unlock(_) => l.phase == Leaving
  }

  function Do(s: Shared, step: Step, wsize: nat): Shared
    requires IsAddress(wsize, step.t)
  {
    var l := Of(s, step.t);
    match step
    case Lock(t) =>
      s.(owner := Some(t), depth := s.depth + 1, locals := s.locals[t := l.(phase := Locked)])
    case Enter(t, cmd) =>
      var n := s.reentrance + 1;
      s.(reentrance := n,
         curThread := if n > 1 then s.curThread else t,
         log := if n > 1 then s.log else Concat(s.log, PutThread(wsize, s.curThread, t, Cons(cmd, Nil))),
         locals := s.locals[t := Local(Between, l.open + 1, if l.open == 0 then Cons(cmd, Nil) else l.mine)])
    case Put(t, ws) =>
      s.(log := if s.reentrance > 1 then s.log else Concat(s.log, ws),
         locals := s.locals[t := if l.open == 1 then l.(mine := Concat(l.mine, ws)) else l])
    case Leave(t) =>
      var last := l.open <= 1;
      s.(reentrance := s.reentrance - 1,
         locals := s.locals[t := Local(Leaving, if last then 0 else l.open - 1, if last then Nil else l.mine)],
         done := if last then Concat(s.done, Cons(Segment(t, l.mine), Nil)) else s.done)
    case Unlock(t) =>
      s.(owner := if s.depth == 1 then None else s.owner,
         depth := if s.depth == 0 then 0 else s.depth - 1,
         locals := s.locals[t := l.(phase := Between)])
  }

  // ---------- What every reachable state satisfies ----------

  /** The words of completed calls, each behind a thread prefix where the thread changes. */
  function Layout(wsize: nat, cur: quad, segs: List<Segment>): Words
    requires AllAddresses(wsize, segs)
    decreases segs
  {
    if segs.Nil? then Nil
    else PutThread(wsize, cur, segs.head.thread, Concat(segs.head.words, Layout(wsize, segs.head.thread, segs.tail)))
  }

  predicate AllAddresses(wsize: nat, segs: List<Segment>) {
    segs.Cons? ==> IsAddress(wsize, segs.head.thread) && AllAddresses(wsize, segs.tail)
  }

  function Last(cur: quad, segs: List<Segment>): quad
    decreases segs
  {
    if segs.Nil? then cur else Last(segs.head.thread, segs.tail)
  }

  /** What the owner has written of its outermost call. */
  function Partial(s: Shared, wsize: nat): Words {
    if s.owner.Some? && IsAddress(wsize, s.owner.value) && Of(s, s.owner.value).open > 0 then
      PutThread(wsize, Last(0, s.done), s.owner.value, Of(s, s.owner.value).mine)
    else Nil
  }

  /** Only the owner of the lock is inside a call; the re-entrance counter is the
      number of calls it is inside of, which is the depth of the lock between
      operations. */
  ghost predicate LockHeld(s: Shared) {
    match s.owner
    case None => s.depth == 0 && s.reentrance == 0 && forall t: quad :: Of(s, t) == IDLE
    case Some(o) =>
      var l := Of(s, o);
      && s.reentrance == l.open
      && s.depth == l.open + (if l.phase == Between then 0 else 1)
      && s.depth > 0
      && (l.open == 0 ==> l.mine == Nil)
      && forall t: quad :: t != o ==> Of(s, t) == IDLE
  }

  /** The trace is the completed calls, one after another and each in one piece, and
      then the part that the owner of the lock has written so far. */
  ghost predicate InOnePiece(s: Shared, wsize: nat) {
    && AllAddresses(wsize, s.done)
    && s.log == Concat(Layout(wsize, 0, s.done), Partial(s, wsize))
    && s.curThread == if s.reentrance > 0 && s.owner.Some? then s.owner.value else Last(0, s.done)
  }

  ghost predicate Inv(s: Shared, wsize: nat) {
    && LockHeld(s)
    && (s.owner.Some? ==> IsAddress(wsize, s.owner.value))
    && InOnePiece(s, wsize)
  }

  // ---------- Appending to the layout ----------

  lemma PutThreadConcat(wsize: nat, cur: quad, t: quad, xs: Words, ys: Words)
    requires IsAddress(wsize, t)
    ensures Concat(PutThread(wsize, cur, t, xs), ys) == PutThread(wsize, cur, t, Concat(xs, ys))
  {
    if t != cur {
      var p := PutPtr(t, wsize, xs);
      assert Concat(p, ys) == PutPtr(t, wsize, Concat(xs, ys)) by {
        if wsize == 8 {
          assert Concat(p.tail, ys) == Cons(p.tail.head, Concat(xs, ys));
        }
      }
    }
  }

  lemma {:induction false} LayoutSnoc(wsize: nat, cur: quad, segs: List<Segment>, seg: Segment)
    requires AllAddresses(wsize, segs) && IsAddress(wsize, seg.thread)
    ensures AllAddresses(wsize, Concat(segs, Cons(seg, Nil)))
    ensures Layout(wsize, cur, Concat(segs, Cons(seg, Nil)))
         == Concat(Layout(wsize, cur, segs), PutThread(wsize, Last(cur, segs), seg.thread, seg.words))
    ensures Last(cur, Concat(segs, Cons(seg, Nil))) == seg.thread
    decreases segs
  {
    if segs.Nil? {
      ConcatNil(seg.words);
    } else {
      var t, ws := segs.head.thread, segs.head.words;
      LayoutSnoc(wsize, t, segs.tail, seg);
      var more := PutThread(wsize, Last(t, segs.tail), seg.thread, seg.words);
      ConcatAssoc(ws, Layout(wsize, t, segs.tail), more);
      PutThreadConcat(wsize, cur, t, Concat(ws, Layout(wsize, t, segs.tail)), more);
    }
  }

  // ---------- Every step keeps the invariant ----------

  lemma InitInv(wsize: nat)
    ensures Inv(INIT, wsize)
  {
  }

  lemma StepKeepsLock(s: Shared, step: Step, wsize: nat)
    requires Inv(s, wsize) && IsAddress(wsize, step.t) && Enabled(s, step)
    ensures LockHeld(Do(s, step, wsize))
    ensures s.owner == Some(step.t) || (s.owner == None && step.Lock?)
  {
    var n := Do(s, step, wsize);
    assert forall t: quad :: t != step.t ==> Of(n, t) == Of(s, t);
  }

  lemma StepKeepsInv(s: Shared, step: Step, wsize: nat)
    requires Inv(s, wsize) && IsAddress(wsize, step.t) && Enabled(s, step)
    ensures Inv(Do(s, step, wsize), wsize)
  {
    StepKeepsLock(s, step, wsize);
    var n, l, before := Do(s, step, wsize), Of(s, step.t), Layout(wsize, 0, s.done);
    match step
    case Lock(t) =>
      assert Of(n, t).open == l.open;
    case Enter(t, cmd) =>
      if l.open == 0 {
        assert Partial(s, wsize) == Nil;
        ConcatNil(before);
      }
    case Put(t, ws) =>
      if l.open == 1 {
        PutThreadConcat(wsize, Last(0, s.done), t, l.mine, ws);
        ConcatAssoc(before, Partial(s, wsize), ws);
      }
    case Leave(t) =>
      if l.open == 1 {
        LayoutSnoc(wsize, 0, s.done, Segment(t, l.mine));
        ConcatNil(Layout(wsize, 0, n.done));
      }
    case Unlock(t) =>
      if s.depth == 1 {
        ConcatNil(before);
      }
  }

  // ---------- Every run ----------

  predicate CanRun(steps: seq<Step>, wsize: nat)
    decreases |steps|, 0
  {
    |steps| == 0 ||
    (var front, step := steps[..|steps| - 1], steps[|steps| - 1];
     CanRun(front, wsize) && IsAddress(wsize, step.t) && Enabled(Run(front, wsize), step))
  }

  function Run(steps: seq<Step>, wsize: nat): Shared
    requires CanRun(steps, wsize)
    decreases |steps|, 1
  {
    if |steps| == 0 then INIT else Do(Run(steps[..|steps| - 1], wsize), steps[|steps| - 1], wsize)
  }

  lemma {:induction false} RunKeepsInv(steps: seq<Step>, wsize: nat)
    requires CanRun(steps, wsize)
    ensures Inv(Run(steps, wsize), wsize)
    decreases |steps|
  {
    hide Inv, Do, Enabled;
    if |steps| > 0 {
      RunKeepsInv(steps[..|steps| - 1], wsize);
      StepKeepsInv(Run(steps[..|steps| - 1], wsize), steps[|steps| - 1], wsize);
    } else {
      InitInv(wsize);
    }
  }

  // ---------- What the steps themselves put ----------

  /** How many calls thread t has entered and not left after the steps. */
  function Depth(steps: seq<Step>, t: quad): nat {
    if |steps| == 0 then 0
    else
      var before := Depth(steps[..|steps| - 1], t);
      match steps[|steps| - 1]
      case Enter(u, _) => if u == t then before + 1 else before
      case Leave(u) => if u == t && before > 0 then before - 1 else before
      case _ => before
  }

  /** The opcode of the outermost call that thread t is in, and the words of its puts at depth one since. */
  function Written(steps: seq<Step>, t: quad): Words {
    if |steps| == 0 then Nil
    else
      var front := steps[..|steps| - 1];
      match steps[|steps| - 1]
      case Enter(u, cmd) => if u == t && Depth(front, t) == 0 then Cons(cmd, Nil) else Written(front, t)
      case Put(u, ws) => if u == t && Depth(front, t) == 1 then Concat(Written(front, t), ws) else Written(front, t)
      case Leave(u) => if u == t && Depth(front, t) <= 1 then Nil else Written(front, t)
      case _ => Written(front, t)
  }

  /** The outermost calls that have been left, in that order, with what was written between. */
  function Completed(steps: seq<Step>): List<Segment> {
    if |steps| == 0 then Nil
    else
      var front := steps[..|steps| - 1];
      match steps[|steps| - 1]
      case Leave(u) =>
        if Depth(front, u) == 1 then Concat(Completed(front), Cons(Segment(u, Written(front, u)), Nil))
        else Completed(front)
      case _ => Completed(front)
  }

  /** The state agrees with the steps. */
  ghost predicate AsStepped(steps: seq<Step>, s: Shared) {
    && s.done == Completed(steps)
    && forall t: quad :: Of(s, t).open == Depth(steps, t) && Of(s, t).mine == Written(steps, t)
  }

  lemma StepIsStepped(front: seq<Step>, step: Step, s: Shared, wsize: nat)
    requires AsStepped(front, s) && Inv(s, wsize) && IsAddress(wsize, step.t) && Enabled(s, step)
    ensures AsStepped(front + [step], Do(s, step, wsize))
  {
    var steps, n := front + [step], Do(s, step, wsize);
    assert steps[..|steps| - 1] == front;
    forall t: quad ensures Of(n, t).open == Depth(steps, t) && Of(n, t).mine == Written(steps, t) {
      assert Of(s, t).open == Depth(front, t) && Of(s, t).mine == Written(front, t);
      assert t != step.t ==> Of(n, t) == Of(s, t);
    }
  }

  lemma {:induction false} RunIsStepped(steps: seq<Step>, wsize: nat)
    requires CanRun(steps, wsize)
    ensures AsStepped(steps, Run(steps, wsize))
    decreases |steps|
  {
    hide Do, Enabled, Inv, AsStepped;
    if |steps| == 0 {
      InitIsStepped();
    } else {
      var front := steps[..|steps| - 1];
      RunIsStepped(front, wsize);
      RunKeepsInv(front, wsize);
      StepIsStepped(front, steps[|steps| - 1], Run(front, wsize), wsize);
      assert front + [steps[|steps| - 1]] == steps;
    }
  }

  lemma InitIsStepped()
    ensures AsStepped([], INIT)
  {
  }

  /** In every state of every interleaving the trace consists of what the steps put for the completed
      outermost calls, each in one piece, and, if a thread is in a call, of what it has put for that one so
      far; it then holds the lock, and no other thread is in a call; and the re-entrance counter is the
      depth of the lock whenever its owner is between operations. */
  lemma Interleavings(steps: seq<Step>, wsize: nat)
    requires CanRun(steps, wsize)
    ensures AllAddresses(wsize, Completed(steps))
    ensures (forall t: quad :: Depth(steps, t) == 0) ==> Run(steps, wsize).log == Layout(wsize, 0, Completed(steps))
    ensures forall t: quad :: Depth(steps, t) > 0 ==>
              && Run(steps, wsize).owner == Some(t) && IsAddress(wsize, t)
              && Run(steps, wsize).log == Concat(Layout(wsize, 0, Completed(steps)),
                                                 PutThread(wsize, Last(0, Completed(steps)), t, Written(steps, t)))
    ensures forall t: quad, u: quad :: Depth(steps, t) > 0 && Depth(steps, u) > 0 ==> t == u
    ensures var s := Run(steps, wsize);
            s.owner.Some? && Of(s, s.owner.value).phase == Between ==> s.reentrance == s.depth
  {
    hide Do, Enabled, Layout, PutThread;
    RunKeepsInv(steps, wsize);
    RunIsStepped(steps, wsize);
    ConcatNil(Layout(wsize, 0, Completed(steps)));
    var s := Run(steps, wsize);
    assert forall t: quad :: Of(s, t).open == Depth(steps, t) && Of(s, t).mine == Written(steps, t);
  }

  /** A nested call leaves no words in the trace: from its putCmd to its endCmd only
      the lock and the counter change. */
  lemma NestedAddsNothing(s: Shared, step: Step, wsize: nat)
    requires Inv(s, wsize) && IsAddress(wsize, step.t) && Enabled(s, step)
    requires Of(s, step.t).open > 1 || (Of(s, step.t).open == 1 && step.Enter?)
    ensures Do(s, step, wsize).log == s.log && Do(s, step, wsize).done == s.done
    ensures Do(s, step, wsize).curThread == s.curThread
    ensures Of(Do(s, step, wsize), step.t).mine == Of(s, step.t).mine
  {
    StepKeepsLock(s, step, wsize);
  }

  // ---------- The bytes of a step ----------

  lemma {:induction false} BytesOfConcat(xs: Words, ys: Words)
    ensures BytesOf(Concat(xs, ys)) == BytesOf(xs) + BytesOf(ys)
  {
    if xs.Cons? {
      BytesOfConcat(xs.tail, ys);
      Assoc(Int4(xs.head), BytesOf(xs.tail), BytesOf(ys));
    }
  }

  /** Entering a call appends what the writer's putCmd appends. */
  lemma EnterIsPutCmd(s: Shared, t: quad, cmd: word, wsize: nat)
    requires IsAddress(wsize, t)
    ensures BytesOf(Do(s, Enter(t, cmd), wsize).log)
         == BytesOf(s.log) + if s.reentrance + 1 > 1 then []
                             else TraceWriter.ThreadPrefix(wsize, s.curThread, t) + Int4(cmd)
  {
    if s.reentrance + 1 <= 1 {
      var one := Cons(cmd, Nil);
      BytesOfConcat(s.log, PutThread(wsize, s.curThread, t, one));
      BytesOfThread(wsize, s.curThread, t, one);
      assert BytesOf(one) == Int4(cmd) + [] == Int4(cmd);
    }
  }

  /** Putting appends the bytes of the words, unless the call is a nested one. */
  lemma PutIsPut(s: Shared, t: quad, ws: Words, wsize: nat)
    requires IsAddress(wsize, t)
    ensures BytesOf(Do(s, Put(t, ws), wsize).log) == BytesOf(s.log) + if s.reentrance > 1 then [] else BytesOf(ws)
  {
    BytesOfConcat(s.log, ws);
  }

  // ---------- Replaying an interleaved trace ----------

  /** What a thread puts for an event. */
  ghost function SegmentOf(wsize: nat, st: RecorderState, e: Event): Segment
    requires IsEvent(st, e, wsize)
  {
    RecordFits(st, e.call, wsize);
    Segment(e.thread, PutRecord(RecordOf(st, e.call, wsize), BindingsOf(st), wsize, e.bgn, e.end, Nil))
  }

  ghost function SegmentsOf(wsize: nat, st: RecorderState, es: List<Event>): (segs: List<Segment>)
    requires IsRun(wsize, st, es)
    ensures AllAddresses(wsize, segs)
    decreases es
  {
    if es.Nil? then Nil else Cons(SegmentOf(wsize, st, es.head), SegmentsOf(wsize, After(st, es.head.call), es.tail))
  }

  lemma {:induction false} BytesInjective(xs: Words, ys: Words)
    requires BytesOf(xs) == BytesOf(ys)
    ensures xs == ys
  {
    WordsOfBytes(BytesOf(xs), 0, xs);
    WordsOfBytes(BytesOf(xs), 0, ys);
  }

  lemma {:induction false} LayoutIsRun(wsize: nat, cur: quad, st: RecorderState, es: List<Event>)
    requires IsRun(wsize, st, es)
    ensures Layout(wsize, cur, SegmentsOf(wsize, st, es)) == PutRun(wsize, cur, st, es, Nil)
    decreases es
  {
    hide After, CanCall, Aborts, RecordOf, PutRecord, BindingsOf;
    if es.Cons? {
      var e, st1 := es.head, After(st, es.head.call);
      LayoutIsRun(wsize, e.thread, st1, es.tail);
      RecordConcat(wsize, st, e, PutRun(wsize, e.thread, st1, es.tail, Nil));
    }
  }

  lemma RecordConcat(wsize: nat, st: RecorderState, e: Event, rest: Words)
    requires IsEvent(st, e, wsize)
    ensures PutThread(wsize, e.thread, e.thread, Concat(SegmentOf(wsize, st, e).words, rest))
         == PutEvent(wsize, e.thread, st, e, rest)
    ensures IsRecord(RecordOf(st, e.call, wsize), BindingsOf(st), wsize)
    ensures Concat(SegmentOf(wsize, st, e).words, rest)
         == PutRecord(RecordOf(st, e.call, wsize), BindingsOf(st), wsize, e.bgn, e.end, rest)
  {
    hide CanCall, Aborts, RecordOf, PutRecord, BindingsOf, IsRecord, EventBytes;
    RecordFits(st, e.call, wsize);
    BytesOfEvent(wsize, e.thread, st, e, rest);
    BytesOfEvent(wsize, e.thread, st, e, Nil);
    var words := SegmentOf(wsize, st, e).words;
    BytesOfConcat(words, rest);
    assert BytesOf(words) + BytesOf(Nil) == BytesOf(words);
    var bytes := EventBytes(RecordOf(st, e.call, wsize), BindingsOf(st), wsize, e.thread, e.thread, e.bgn, e.end);
    assert bytes + BytesOf(Nil) == bytes;
    BytesInjective(Concat(words, rest), PutRecord(RecordOf(st, e.call, wsize), BindingsOf(st), wsize, e.bgn, e.end,
                                                  rest));
  }

  /** Replay after any interleaving: when no thread is in a call, and what the steps put for the completed
      calls are the records of the events es, in the order in which they took the lock, replaying shows each
      event once, told by all its fields, and with the thread that issued it. */
  lemma ReplayInterleaving(steps: seq<Step>, es: List<Event>, wsize: nat)
    requires wsize == 4 || wsize == 8
    requires CanRun(steps, wsize) && IsRun(wsize, INITIAL, es)
    requires AllFloatsExact(es) && AllImplemented(es)
    requires forall t: quad :: Depth(steps, t) == 0
    requires Completed(steps) == SegmentsOf(wsize, INITIAL, es)
    ensures TellsAll([], es, Process(Run(steps, wsize).log, START, -1, wsize).seen, wsize)
    ensures Process(Run(steps, wsize).log, START, -1, wsize) == Delivered(wsize, INITIAL, es)
  {
    hide Process, SegmentsOf, PutRun, IsRun, RunExact, RunReplayable, Layout, TellsAll, AllFloatsExact,
      AllImplemented, Leaves;
    Interleavings(steps, wsize);
    LayoutIsRun(wsize, 0, INITIAL, es);
    RunsAreExact(wsize, INITIAL, es);
    ReplayWholeTrace(wsize, es);
    NoCallsLeave();
    RunTells([], INITIAL, es, wsize);
  }
}
