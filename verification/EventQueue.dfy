/** The native event queue of modules/graphics/src/dalvik/native: an intrusive doubly
    linked list (EventLoop.c) whose events are dispatched to Java callbacks and freed
    (activity.c).  Module EventLoop models its threads. */
module EventQueue {
  import opened Wire

  const JFX_SIGNAL_EVENT: nat := 1
  const JFX_SIGNAL_STARTUP: nat := 2
  const JFX_SIGNAL_SHUTDOWN: nat := 3
  const JFX_SIGNAL_SHOW_IME: nat := 4
  const JFX_SIGNAL_HIDE_IME: nat := 5

  datatype Callback = GlassStartup | GlassShutdown | ShowIME | HideIME

  /** The static Java method that eventHandler_process calls, if any. */
  function CallbackOf(event: nat, signal: nat): Option<Callback> {
    if event != JFX_SIGNAL_EVENT then None
    else if signal == JFX_SIGNAL_STARTUP then Some(GlassStartup)
    else if signal == JFX_SIGNAL_SHUTDOWN then Some(GlassShutdown)
    else if signal == JFX_SIGNAL_SHOW_IME then Some(ShowIME)
    else if signal == JFX_SIGNAL_HIDE_IME then Some(HideIME)
    else None
  }

  class Event {
    const event: nat
    const signal: nat
    var prev: Event?
    var next: Event?

    /** createSignalEvent */
    constructor (signal: nat)
      ensures event == JFX_SIGNAL_EVENT && this.signal == signal && prev == null && next == null
    {
      this.event, this.signal, prev, next := JFX_SIGNAL_EVENT, signal, null, null;
    }
  }

  /** The callbacks made for a sequence of events. */
  ghost function Callbacks(es: seq<Event>): (cs: seq<Callback>)
  {
    if |es| == 0 then []
    else
      Callbacks(es[..|es| - 1]) +
        match CallbackOf(es[|es| - 1].event, es[|es| - 1].signal)
        case None => []
        case Some(c) => [c]
  }

  class EventQ {
    var size: nat
    var running: bool
    var head: Event?
    var tail: Event?
    /** The Java methods called so far. */
    var calls: seq<Callback>
    /** The queued events, oldest first, and the events processed and freed so far. */
    ghost var list: seq<Event>
    ghost var processed: seq<Event>

    /** size is the length of the list, tail and head are its ends, prev and next are
        inverse to each other and null at the ends, no freed event is in it, and none has been
        freed twice. */
    ghost predicate Valid()
      reads this, list
    {
      && size == |list|
      && (forall i, j :: 0 <= i < j < |list| ==> list[i] != list[j])
      && (size == 0 ==> head == null && tail == null)
      && (size > 0 ==> tail == list[0] && head == list[size - 1] && tail.next == null && head.prev == null)
      && (forall i {:trigger list[i].prev} :: 0 <= i < |list| - 1 ==> list[i].prev == list[i + 1])
      && (forall i {:trigger list[i].next} :: 0 < i < |list| ==> list[i].next == list[i - 1])
      && (forall e :: e in processed ==> e !in list)
      && (forall i, j :: 0 <= i < j < |processed| ==> processed[i] != processed[j])
      && calls == Callbacks(processed)
    }

    /** Following prev and next from head or tail never leaves the queued events, so
        no freed event is reachable. */
    lemma FreedUnreachable(e: Event)
      requires Valid()
      ensures head != null ==> head in list && head !in processed
      ensures tail != null ==> tail in list && tail !in processed
      ensures e in list ==> (e.prev == null || (e.prev in list && e.prev !in processed))
      ensures e in list ==> (e.next == null || (e.next in list && e.next !in processed))
    {
      if e in list {
        var i :| 0 <= i < |list| && list[i] == e;
        assert i < |list| - 1 ==> list[i].prev == list[i + 1];
        assert i > 0 ==> list[i].next == list[i - 1];
      }
    }

    /** eventq_getInstance, with `running` as the allocator left it. */
    constructor (garbage: bool)
      ensures Valid() && list == [] && processed == [] && running == garbage
    {
      size, head, tail, running, calls := 0, null, null, garbage, [];
      list, processed := [], [];
    }

    /** eventq_push, between lock and signal. */
    method Push(e: Event)
      requires Valid() && e !in list && e !in processed && e.prev == null && e.next == null
      modifies this`size, this`head, this`tail, this`list, e, list
      ensures Valid() && list == old(list) + [e]
    {
      if size == 0 {
        head, tail := e, e;
      } else {
        head.prev := e;
        e.next := head;
        head := e;
      }
      size := size + 1;
      list := list + [e];
    }

    /** The part that eventq_pop and eventq_loop share: the oldest event. */
    method Pop() returns (back: Event?)
      requires Valid()
      modifies this`size, this`head, this`tail, this`list, list
      ensures Valid()
      ensures old(size) == 0 ==> back == null && list == old(list)
      ensures old(size) > 0 ==> back != null && old(list) == [back] + list && back !in list && back !in processed
    {
      if size == 0 { return null; }
      back := tail;
      if size == 1 {
        head, tail := null, null;
      } else {
        tail := tail.prev;
        tail.next := null;
      }
      size := size - 1;
      list := list[1..];
    }

    /** eventHandler_process: dispatches an event that has left the queue and frees it. */
    method Process(e: Event)
      requires Valid() && e !in list && e !in processed
      modifies this`calls, this`processed
      ensures Valid() && processed == old(processed) + [e]
      ensures calls == old(calls) + (if e.event != 1 then [] else match e.signal
                                       case 2 => [GlassStartup] case 3 => [GlassShutdown]
                                       case 4 => [ShowIME] case 5 => [HideIME] case _ => [])
    {
      var c := CallbackOf(e.event, e.signal);
      if c.Some? { calls := calls + [c.value]; }
      processed := processed + [e];
      assert processed[..|processed| - 1] == old(processed);
    }

    /** The loop of eventq_loop from one wait to the next.  The consumer keeps the lock
        meanwhile, so every event that was queued is processed, oldest first, unless the
        queue has been stopped. */
    method ProcessUntilWait()
      requires Valid()
      modifies this`size, this`head, this`tail, this`list, this`calls, this`processed, list
      ensures Valid()
      ensures running ==> list == [] && processed == old(processed) + old(list)
      ensures !running ==> list == old(list) && processed == old(processed)
    {
      hide Callbacks;
      while running && size > 0
        invariant Valid()
        invariant !running ==> list == old(list) && processed == old(processed)
        invariant processed + list == old(processed) + old(list)
        invariant Within(list, old(list))
        decreases size
      {
        ghost var before, was := processed, list;
        var e := TakeAndProcess();
        Shift(before, was, e, old(list));
      }
    }

    ghost predicate Within(es: seq<Event>, all: seq<Event>) {
      forall i :: 0 <= i < |es| ==> es[i] in all
    }

    /** One turn of the loop: the oldest event leaves the queue and is dispatched. */
    method TakeAndProcess() returns (ghost e: Event)
      requires Valid() && size > 0
      modifies this`size, this`head, this`tail, this`list, this`calls, this`processed, list
      ensures Valid() && old(list) == [e] + list && processed == old(processed) + [e]
    {
      var back := Pop();
      Process(back);
      e := back;
    }

    lemma Shift(before: seq<Event>, was: seq<Event>, e: Event, all: seq<Event>)
      requires |was| > 0 && was[0] == e && Within(was, all)
      ensures (before + [e]) + was[1..] == before + was && Within(was[1..], all)
    {
    }

    /** eventq_stop, between lock and signal. */
    method Stop()
      requires Valid()
      modifies this`running
      ensures Valid() && !running
    {
      running := false;
    }
  }
}
