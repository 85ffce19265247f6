/** The threads of modules/graphics/src/dalvik/native/EventLoop.c: any number of
    threads that push events or stop the queue, and one consumer, as interleaved
    steps over a mutex and a condition variable.  The queue is the sequence that
    class EventQ of module EventQueue keeps as a linked list. */
module EventLoop {
  import opened Wire

  type Ev = nat

  datatype Who = Consumer | Producer(id: nat)

  /** Where a producer is in eventq_push or eventq_stop. */
  datatype Pc =
    | Idle
    | Pushing(e: Ev)   // holds the mutex, the list is unchanged
    | Stopping         // holds the mutex, running is unchanged
    | Updated          // has pushed or stopped, and not signalled
    | Signalled        // has signalled, and not unlocked

  /** Where the consumer is in eventq_loop. */
  datatype Loop =
    | Starting
    | Testing                  // holds the mutex, at the loop test
    | Parked(woken: bool)      // in pthread_cond_wait, with or without a signal for it
    | Processing(e: Ev)        // holds the mutex and an event it has taken
    | Leaving                  // has left the loop, and not unlocked
    | Ended

  datatype State = State(
    owner: Option<Who>, queue: seq<Ev>, size: int, running: bool, loop: Loop, pcs: map<nat, Pc>,
    pushed: seq<Ev>, processed: seq<Ev>)

  /** When the consumer's thread is created, the queue is running and may already
      hold events. */
  function Init(queue: seq<Ev>): State {
    State(None, queue, |queue|, true, Starting, map[], queue, [])
  }

  function PcOf(s: State, id: nat): Pc {
    if id in s.pcs then s.pcs[id] else Idle
  }

  datatype Step =
    | LockToPush(id: nat, e: Ev)
    | LockToStop(id: nat)
    | Update(id: nat)
    | Signal(id: nat)
    | Unlock(id: nat)
    | Start
    | Test
    | Wake
    | Process
    | End

  predicate Enabled(s: State, step: Step) {
    match step
    case LockToPush(id, _) => PcOf(s, id) == Idle && s.owner == None
    case LockToStop(id) => PcOf(s, id) == Idle && s.owner == None
    case Update(id) => PcOf(s, id).Pushing? || PcOf(s, id).Stopping?
    case Signal(id) => PcOf(s, id) == Updated
    case Unlock(id) => PcOf(s, id) == Signalled
    case Start => s.loop == Starting && s.owner == None
    case Test => s.loop == Testing
    case Wake => s.loop.Parked? && s.owner == None      // with or without a signal
    case Process => s.loop.Processing?
    case End => s.loop == Leaving
  }

  function Do(s: State, step: Step): State
    requires Enabled(s, step)
  {
    match step
    case LockToPush(id, e) => s.(owner := Some(Producer(id)), pcs := s.pcs[id := Pushing(e)])
    case LockToStop(id) => s.(owner := Some(Producer(id)), pcs := s.pcs[id := Stopping])
    case Update(id) =>
      if PcOf(s, id).Pushing? then
        var e := PcOf(s, id).e;
        s.(queue := s.queue + [e], size := s.size + 1, pushed := s.pushed + [e], pcs := s.pcs[id := Updated])
      else s.(running := false, pcs := s.pcs[id := Updated])
    case Signal(id) =>
      s.(loop := if s.loop.Parked? then Parked(true) else s.loop, pcs := s.pcs[id := Signalled])
    case Unlock(id) => s.(owner := None, pcs := s.pcs[id := Idle])
    case Start => s.(owner := Some(Consumer), loop := Testing)
    case Test =>
      if s.size == 0 && s.running then s.(owner := None, loop := Parked(false))
      else if !s.running || |s.queue| == 0 then s.(loop := Leaving)
      else s.(queue := s.queue[1..], size := s.size - 1, loop := Processing(s.queue[0]))
    case Wake => s.(owner := Some(Consumer), loop := Testing)
    case Process => s.(processed := s.processed + [s.loop.e], loop := Testing)
    case End => s.(owner := None, loop := Ended)
  }

  // ---------- What every reachable state satisfies ----------

  predicate ConsumerHolds(l: Loop) {
    l.Testing? || l.Processing? || l.Leaving?
  }

  /** The mutex has at most one holder. */
  ghost predicate Mutex(s: State) {
    && (ConsumerHolds(s.loop) <==> s.owner == Some(Consumer))
    && forall id: nat :: PcOf(s, id) != Idle <==> s.owner == Some(Producer(id))
  }

  function InHand(l: Loop): seq<Ev> {
    if l.Processing? then [l.e] else []
  }

  /** Processed events, then the one being processed, then queued ones: the pushed
      events in the order in which their pushes held the lock. */
  predicate Fifo(s: State) {
    s.size == |s.queue| && s.pushed == s.processed + InHand(s.loop) + s.queue
  }

  /** A consumer that waits without a signal has nothing to do, or a producer holds
      the mutex between its update and its signal. */
  ghost predicate NoLostWakeUp(s: State) {
    s.loop == Parked(false) ==>
      (s.size == 0 && s.running)
      || (s.owner.Some? && s.owner.value.Producer? && PcOf(s, s.owner.value.id) == Updated)
  }

  predicate EndsOnlyWhenStopped(s: State) {
    s.loop == Leaving || s.loop == Ended ==> !s.running
  }

  ghost predicate Inv(s: State) {
    Mutex(s) && Fifo(s) && NoLostWakeUp(s) && EndsOnlyWhenStopped(s)
  }

  lemma InitInv(queue: seq<Ev>)
    ensures Inv(Init(queue))
  {
    assert queue == [] + [] + queue;
  }

  lemma StepKeepsMutex(s: State, step: Step)
    requires Mutex(s) && Enabled(s, step)
    ensures Mutex(Do(s, step))
  {
    var n := Do(s, step);
    match step
    case LockToPush(id, _) => assert forall i: nat :: i != id ==> PcOf(n, i) == PcOf(s, i);
    case LockToStop(id) => assert forall i: nat :: i != id ==> PcOf(n, i) == PcOf(s, i);
    case Update(id) => assert forall i: nat :: i != id ==> PcOf(n, i) == PcOf(s, i);
    case Signal(id) => assert forall i: nat :: i != id ==> PcOf(n, i) == PcOf(s, i);
    case Unlock(id) => assert forall i: nat :: i != id ==> PcOf(n, i) == PcOf(s, i);
    case _ => assert forall i: nat :: PcOf(n, i) == PcOf(s, i);
  }

  lemma StepKeepsFifo(s: State, step: Step)
    requires Mutex(s) && Fifo(s) && Enabled(s, step)
    ensures Fifo(Do(s, step))
  {
    match step
    case Update(id) =>
      if PcOf(s, id).Pushing? {
        assert s.processed + InHand(s.loop) + (s.queue + [PcOf(s, id).e])
            == (s.processed + InHand(s.loop) + s.queue) + [PcOf(s, id).e];
      }
    case Test =>
      if s.size > 0 && s.running {
        assert s.queue == [s.queue[0]] + s.queue[1..];
        assert s.processed + [] + s.queue == s.processed + [s.queue[0]] + s.queue[1..];
      }
    case Process =>
      assert s.processed + [s.loop.e] + s.queue == (s.processed + [s.loop.e]) + [] + s.queue;
    case _ =>
  }

  lemma StepKeepsInv(s: State, step: Step)
    requires Inv(s) && Enabled(s, step)
    ensures Inv(Do(s, step))
  {
    StepKeepsMutex(s, step);
    StepKeepsFifo(s, step);
  }

  predicate CanRun(s: State, steps: List<Step>)
    decreases steps
  {
    steps.Cons? ==> Enabled(s, steps.head) && CanRun(Do(s, steps.head), steps.tail)
  }

  function Run(s: State, steps: List<Step>): State
    requires CanRun(s, steps)
    decreases steps
  {
    if steps.Nil? then s else Run(Do(s, steps.head), steps.tail)
  }

  /** Every state of every interleaving: mutual exclusion, FIFO order without loss or
      duplication, and no lost wake-up. */
  lemma {:induction false} Interleavings(s: State, steps: List<Step>)
    requires Inv(s) && CanRun(s, steps)
    ensures Inv(Run(s, steps))
    decreases steps
  {
    hide Inv, Do, Enabled;
    if steps.Cons? {
      StepKeepsInv(s, steps.head);
      Interleavings(Do(s, steps.head), steps.tail);
    }
  }

  // ---------- What the steps themselves say ----------

  /** What each producer that has locked, and not updated, wants: Some(e) for a push of e, None for a stop. */
  type Intents = map<nat, Option<Ev>>

  function Intent(intents: Intents, step: Step): Intents {
    match step
    case LockToPush(id, e) => intents[id := Some(e)]
    case LockToStop(id) => intents[id := None]
    case Update(id) => intents - {id}
    case _ => intents
  }

  function UpdateOf(intents: Intents, step: Step): seq<Option<Ev>> {
    if step.Update? && step.id in intents then [intents[step.id]] else []
  }

  /** What the producers' updates did, in order. */
  function Updates(steps: List<Step>, intents: Intents): seq<Option<Ev>>
    decreases steps
  {
    if steps.Nil? then [] else UpdateOf(intents, steps.head) + Updates(steps.tail, Intent(intents, steps.head))
  }

  function Events(updates: seq<Option<Ev>>): seq<Ev> {
    if |updates| == 0 then []
    else if updates[0].Some? then [updates[0].value] + Events(updates[1..])
    else Events(updates[1..])
  }

  /** How often the consumer has processed an event. */
  function Processings(steps: List<Step>): nat {
    if steps.Nil? then 0 else (if steps.head.Process? then 1 else 0) + Processings(steps.tail)
  }

  ghost predicate Intends(s: State, intents: Intents) {
    forall id: nat ::
      && (PcOf(s, id).Pushing? <==> id in intents && intents[id].Some?)
      && (PcOf(s, id).Pushing? ==> intents[id] == Some(PcOf(s, id).e))
      && (PcOf(s, id).Stopping? <==> id in intents && intents[id].None?)
  }

  lemma NextIntents(s: State, step: Step, intents: Intents)
    requires Intends(s, intents) && Enabled(s, step)
    ensures Intends(Do(s, step), Intent(intents, step))
  {
    var n := Do(s, step);
    if step.Update? || step.LockToPush? || step.LockToStop? || step.Signal? || step.Unlock? {
      assert forall i: nat :: i != step.id ==> PcOf(n, i) == PcOf(s, i);
    } else {
      assert forall i: nat :: PcOf(n, i) == PcOf(s, i);
    }
  }

  /** What a step did to the queue's variables. */
  lemma StepUpdates(s: State, step: Step, intents: Intents)
    requires Intends(s, intents) && Enabled(s, step)
    ensures Do(s, step).running <==> s.running && None !in UpdateOf(intents, step)
    ensures Do(s, step).pushed == s.pushed + Events(UpdateOf(intents, step))
    ensures |Do(s, step).processed| == |s.processed| + (if step.Process? then 1 else 0)
  {
    if step.Update? {
      assert step.id in intents;
      var one := UpdateOf(intents, step);
      assert one == [intents[step.id]] && one[1..] == [];
    }
  }

  lemma EventsAppend(first: seq<Option<Ev>>, more: seq<Option<Ev>>)
    requires |first| <= 1
    ensures Events(first + more) == Events(first) + Events(more)
  {
    if |first| == 1 {
      assert (first + more)[1..] == more && first[1..] == [];
    } else {
      assert first + more == more;
    }
  }

  lemma {:induction false} RunUpdates(s: State, steps: List<Step>, intents: Intents)
    requires Intends(s, intents) && CanRun(s, steps)
    ensures Run(s, steps).running <==> s.running && None !in Updates(steps, intents)
    ensures Run(s, steps).pushed == s.pushed + Events(Updates(steps, intents))
    ensures |Run(s, steps).processed| == |s.processed| + Processings(steps)
    decreases steps
  {
    hide Intends, Do, Enabled, Intent;
    if steps.Cons? {
      var step := steps.head;
      NextIntents(s, step, intents);
      StepUpdates(s, step, intents);
      RunUpdates(Do(s, step), steps.tail, Intent(intents, step));
      EventsAppend(UpdateOf(intents, step), Updates(steps.tail, Intent(intents, step)));
    }
  }

  /** In every run from the start the queue is running exactly until a stop's update, what has been pushed
      is what was there and the events of the pushes' updates in order, and as many events have been
      processed as the consumer took steps for. */
  lemma RunIsAsStepped(queue: seq<Ev>, steps: List<Step>)
    requires CanRun(Init(queue), steps)
    ensures Run(Init(queue), steps).running <==> None !in Updates(steps, map[])
    ensures Run(Init(queue), steps).pushed == queue + Events(Updates(steps, map[]))
    ensures |Run(Init(queue), steps).processed| == Processings(steps)
  {
    RunUpdates(Init(queue), steps, map[]);
  }

  /** What a run from the start has processed is a prefix of what was queued at the start and then pushed,
      one event for each time that the consumer processed one; and all of it, if the consumer waits without
      a signal and nobody holds the mutex. */
  lemma ProcessedInOrder(queue: seq<Ev>, steps: List<Step>)
    requires CanRun(Init(queue), steps)
    ensures var all := queue + Events(Updates(steps, map[]));
            Processings(steps) <= |all| && Run(Init(queue), steps).processed == all[..Processings(steps)]
    ensures Run(Init(queue), steps).loop == Parked(false) && Run(Init(queue), steps).owner == None ==>
              Run(Init(queue), steps).processed == queue + Events(Updates(steps, map[]))
  {
    InitInv(queue);
    Interleavings(Init(queue), steps);
    RunIsAsStepped(queue, steps);
    var s := Run(Init(queue), steps);
    assert s.processed == s.pushed[..|s.processed|];
    if s.loop == Parked(false) {
      assert s.processed + [] + s.queue == s.processed + s.queue;
    }
  }

  // ---------- Progress ----------

  /** The next step of the holder of the mutex or, when it is free, of the consumer;
      never a wake-up without a signal. */
  function Next(s: State): (r: Option<Step>)
    ensures r.Some? ==> !(r == Some(Wake) && s.loop == Parked(false))
  {
    match s.owner
    case Some(Producer(id)) =>
      if PcOf(s, id).Pushing? || PcOf(s, id).Stopping? then Some(Update(id))
      else if PcOf(s, id).Updated? then Some(Signal(id))
      else Some(Unlock(id))
    case Some(Consumer) =>
      if s.loop.Testing? then Some(Test) else if s.loop.Processing? then Some(Process) else Some(End)
    case None =>
      if s.loop.Starting? then Some(Start) else if s.loop == Parked(true) then Some(Wake) else None
  }

  /** While there is something to do, the system is never stuck and needs neither a
      new call nor a spurious wake-up to go on: the next step is enabled. */
  lemma NeverStuck(s: State)
    requires Inv(s) && s.loop != Ended && (s.size > 0 || !s.running || s.owner.Some?)
    ensures Next(s).Some? && Enabled(s, Next(s).value)
  {
  }

  /** The run that follows Next until an event is processed or the consumer ends. */
  function Drive(s: State, fuel: nat): List<Step>
    decreases fuel
  {
    if fuel == 0 || s.loop == Ended || Next(s).None? || !Enabled(s, Next(s).value) then Nil
    else if Next(s) == Some(Process) then Cons(Process, Nil)
    else Cons(Next(s).value, Drive(Do(s, Next(s).value), fuel - 1))
  }

  /** A producer that holds the mutex is about to stop the queue. */
  predicate StopPending(s: State) {
    s.owner.Some? && s.owner.value.Producer? && PcOf(s, s.owner.value.id).Stopping?
  }

  /** How many steps Drive needs at most. */
  function Reach(s: State): (n: nat)
    ensures n <= 6
  {
    var consumer := match s.loop
      case Starting => 3
      case Testing => 2
      case Parked(_) => 3
      case Processing(_) => 1
      case Leaving => 1
      case Ended => 0;
    match s.owner
    case Some(Producer(id)) =>
      consumer + (if PcOf(s, id).Signalled? then 1 else if PcOf(s, id).Updated? then 2 else 3)
    case _ => consumer
  }

  /** The oldest event has been processed between s and n, and nothing else has. */
  predicate OldestDone(s: State, n: State) {
    var waiting := InHand(s.loop) + s.queue;
    |waiting| > 0 && n.processed == s.processed + [waiting[0]]
  }

  /** No event is left behind: from every reachable state with an event in the queue
      or in hand, letting the lock holder and the consumer run, without spurious
      wake-ups, leads within six steps to the processing of the oldest event; only
      a stop can get in the way, and then the consumer ends. */
  lemma {:induction false} OldestIsProcessed(s: State, fuel: nat)
    requires Inv(s) && (s.loop.Processing? || s.size > 0 || !s.running)
    requires Reach(s) <= fuel
    ensures CanRun(s, Drive(s, fuel))
    ensures Run(s, Drive(s, fuel)).loop == Ended || OldestDone(s, Run(s, Drive(s, fuel)))
    ensures s.running && !StopPending(s) && s.loop != Ended ==> Run(s, Drive(s, fuel)).loop != Ended
    ensures !s.running && !s.loop.Processing? ==> Run(s, Drive(s, fuel)).loop == Ended
    decreases fuel
  {
    if s.loop != Ended {
      NeverStuck(s);
      var step := Next(s).value;
      StepKeepsInv(s, step);
      if step != Process {
        StepTowards(s, step);
        DriveStep(s, fuel);
        OldestIsProcessed(Do(s, step), fuel - 1);
      } else {
        assert Run(s, Cons(Process, Nil)) == Do(s, Process);
      }
    }
  }

  lemma DriveStep(s: State, fuel: nat)
    requires fuel > 0 && s.loop != Ended && Next(s).Some? && Enabled(s, Next(s).value) && Next(s) != Some(Process)
    ensures Drive(s, fuel) == Cons(Next(s).value, Drive(Do(s, Next(s).value), fuel - 1))
  {
  }

  /** Each step brings the oldest event nearer to its processing. */
  lemma StepTowards(s: State, step: Step)
    requires Inv(s) && s.loop != Ended && (s.loop.Processing? || s.size > 0 || !s.running)
    requires Next(s) == Some(step) && Enabled(s, step) && step != Process
    ensures var n := Do(s, step);
            && Reach(n) < Reach(s)
            && n.processed == s.processed
            && InHand(s.loop) + s.queue <= InHand(n.loop) + n.queue
            && (n.loop.Processing? || n.size > 0 || !n.running)
            && (|InHand(s.loop) + s.queue| == 0 ==> !n.running && !s.running)
            && (s.running && !StopPending(s) ==> n.running && !StopPending(n) && n.loop != Ended)
            && (!s.running ==> !n.running && (n.loop.Processing? ==> s.loop.Processing?))
  {
    var n := Do(s, step);
    if step.Test? && s.size > 0 && s.running {
      assert [] + s.queue == [s.queue[0]] + s.queue[1..];
    }
  }

  // ---------- Stopping ----------

  /** The run that follows Next until the consumer has ended. */
  function Finish(s: State, fuel: nat): List<Step>
    decreases fuel
  {
    if fuel == 0 || s.loop == Ended || Next(s).None? || !Enabled(s, Next(s).value) then Nil
    else Cons(Next(s).value, Finish(Do(s, Next(s).value), fuel - 1))
  }

  /** How many steps Finish needs at most. */
  function ToEnd(s: State): (n: nat)
    ensures n <= 6
  {
    var consumer := match s.loop
      case Starting => 3
      case Testing => 2
      case Parked(_) => 3
      case Processing(_) => 3
      case Leaving => 1
      case Ended => 0;
    match s.owner
    case Some(Producer(id)) =>
      consumer + (if PcOf(s, id).Signalled? then 1 else if PcOf(s, id).Updated? then 2 else 3)
    case _ => consumer
  }

  /** From a stop on, letting the lock holder and the consumer run ends the consumer; an event that it has
      in hand is still processed, and no other. */
  lemma {:induction false} StopEnds(s: State, fuel: nat)
    requires Inv(s) && (!s.running || StopPending(s)) && ToEnd(s) <= fuel
    ensures CanRun(s, Finish(s, fuel))
    ensures Run(s, Finish(s, fuel)).loop == Ended
    ensures Run(s, Finish(s, fuel)).processed == s.processed + InHand(s.loop)
    decreases fuel
  {
    if s.loop != Ended {
      NeverStuck(s);
      var step := Next(s).value;
      StepKeepsInv(s, step);
      StepTowardsEnd(s, step);
      StopEnds(Do(s, step), fuel - 1);
      assert Finish(s, fuel) == Cons(step, Finish(Do(s, step), fuel - 1));
    } else {
      assert s.processed + [] == s.processed;
    }
  }

  lemma StepTowardsEnd(s: State, step: Step)
    requires Inv(s) && s.loop != Ended && (!s.running || StopPending(s))
    requires Next(s) == Some(step) && Enabled(s, step)
    ensures var n := Do(s, step);
            && ToEnd(n) < ToEnd(s) && (!n.running || StopPending(n))
            && n.processed + InHand(n.loop) == s.processed + InHand(s.loop)
  {
  }

  function Then(first: List<Step>, next: List<Step>): List<Step> {
    if first.Nil? then next else Cons(first.head, Then(first.tail, next))
  }

  lemma {:induction false} RunThen(s: State, first: List<Step>, next: List<Step>)
    requires CanRun(s, first) && CanRun(Run(s, first), next)
    ensures CanRun(s, Then(first, next)) && Run(s, Then(first, next)) == Run(Run(s, first), next)
    decreases first
  {
    hide Do, Enabled;
    if first.Cons? { RunThen(Do(s, first.head), first.tail, next); }
  }

  /** After any run in which a stop has made its update, six more steps of the lock holder and the consumer
      are enough to end the consumer; and it ends in no run without such an update. */
  lemma StopIsHeeded(queue: seq<Ev>, steps: List<Step>)
    requires CanRun(Init(queue), steps)
    ensures None in Updates(steps, map[]) ==>
              var more := Then(steps, Finish(Run(Init(queue), steps), 6));
              CanRun(Init(queue), more) && Run(Init(queue), more).loop == Ended
    ensures Run(Init(queue), steps).loop == Ended ==> None in Updates(steps, map[])
  {
    InitInv(queue);
    Interleavings(Init(queue), steps);
    RunIsAsStepped(queue, steps);
    var s := Run(Init(queue), steps);
    if None in Updates(steps, map[]) {
      StopEnds(s, 6);
      RunThen(Init(queue), steps, Finish(s, 6));
    }
  }
}
