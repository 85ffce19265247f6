/** From calls to file and back: the recorder writes a trace file, the replayer
    reads it. */
module RoundTrip {
  import opened Wire
  import opened Stream
  import opened Records
  import opened Calls
  import opened Client
  import opened Shown
  import opened Trace
  import opened Encoding
  import opened TraceWriter
  import opened TraceReader
  import opened Recorder
  import opened Replayer

  /** The bytes of the trace of a run: the header and the events one after another. */
  ghost function FileOf(wsize: nat, es: List<Event>): seq<byte>
    requires (wsize == 4 || wsize == 8) && IsRun(wsize, INITIAL, es)
  {
    Header(wsize) + RunBytes(wsize, 0, INITIAL, es)
  }

  /** A trace file starts with a header that the reader accepts, and the words after
      it are the words of the run. */
  lemma FileOpens(wsize: nat, es: List<Event>)
    requires (wsize == 4 || wsize == 8) && IsRun(wsize, INITIAL, es)
    ensures |FileOf(wsize, es)| >= 20 && |FileOf(wsize, es)| % 4 == 0
    ensures FileOf(wsize, es)[..4] == Int4(OPC_VERSION) && FileOf(wsize, es)[16..20] == Int4(wsize)
    ensures WordsFrom(FileOf(wsize, es), 20) == PutRun(wsize, 0, INITIAL, es, Nil)
  {
    hide PutRun, RunBytes, IsRun, Header, WordsFrom, Int4;
    var ws := PutRun(wsize, 0, INITIAL, es, Nil);
    var file := FileOf(wsize, es);
    HeaderParts(wsize);
    BytesOfRun(wsize, 0, INITIAL, es, Nil);
    assert RunBytes(wsize, 0, INITIAL, es) + BytesOf(Nil) == RunBytes(wsize, 0, INITIAL, es);
    assert file[..20] == Header(wsize) && file[20..] == BytesOf(ws);
    assert file[..4] == file[..20][..4] && file[16..20] == file[..20][16..20];
    WordsOfBytes(file, 20, ws);
  }

  lemma HeaderParts(wsize: nat)
    requires wsize == 4 || wsize == 8
    ensures Header(wsize)[..4] == Int4(OPC_VERSION) && Header(wsize)[16..20] == Int4(wsize)
  {
    hide Int4;
  }

  /** Two pointer sizes have two headers. */
  lemma SizesDiffer(a: nat, b: nat)
    requires (a == 4 || a == 8) && (b == 4 || b == 8) && Int4(a) == Int4(b)
    ensures a == b
  {
    assert Int4(a)[0] == a && Int4(b)[0] == b;
  }

  /** Recording: the file that iolib_fini leaves is the trace of the run. */
  method RecordAll(chunk: nat, wsize: nat, es: List<Event>) returns (file: seq<byte>)
    requires chunk > 0 && chunk % 4 == 0 && (wsize == 4 || wsize == 8)
    requires IsRun(wsize, INITIAL, es)
    ensures file == FileOf(wsize, es)
  {
    hide RunBytes, IsRun;
    var rec := new Recorder(chunk, wsize);
    var rest := es;
    while rest.Cons?
      invariant rec.Valid() && rec.w.wsize == wsize && IsRun(wsize, rec.State(), rest)
      invariant fresh(rec) && fresh(rec.w) && fresh(rec.w.window) && fresh(rec.vertexAttrib)
      invariant Pending(rec, rest) == FileOf(wsize, es)
      decreases rest
    {
      RecordOne(rec, rest);
      rest := rest.tail;
    }
    file := rec.w.Fini();
    NothingPending(rec);
  }

  /** The file as it will be when the rest of the run has been recorded, too. */
  ghost function Pending(rec: Recorder, rest: List<Event>): seq<byte>
    reads rec, rec.w, rec.vertexAttrib
    requires IsRun(rec.w.wsize, rec.State(), rest)
  {
    rec.w.log + RunBytes(rec.w.wsize, rec.w.curThread, rec.State(), rest)
  }

  lemma NothingPending(rec: Recorder)
    ensures Pending(rec, Nil) == rec.w.log
  {
  }

  method RecordOne(rec: Recorder, es: List<Event>)
    requires rec.Valid() && es.Cons? && IsRun(rec.w.wsize, rec.State(), es)
    modifies rec, rec.w, rec.w.window, rec.vertexAttrib
    ensures rec.Valid() && (rec.w.window == old(rec.w.window) || fresh(rec.w.window))
    ensures IsRun(rec.w.wsize, rec.State(), es.tail)
    ensures Pending(rec, es.tail) == old(Pending(rec, es))
  {
    hide PutEvent, EventBytes, After, CanCall, Aborts, RecordOf, IsRecord;
    ghost var st, cur, log, wsize := rec.State(), rec.w.curThread, rec.w.log, rec.w.wsize;
    ghost var e := es.head;
    ghost var more := RunBytes(wsize, e.thread, After(st, e.call), es.tail);
    BytesOfEvent(wsize, cur, st, e, Nil);
    ghost var bytes := EventBytes(RecordOf(st, e.call, wsize), BindingsOf(st), wsize, cur, e.thread, e.bgn, e.end);
    assert bytes + BytesOf(Nil) == bytes;
    Assoc(log, bytes, more);
    var ok := rec.Perform(es.head);
  }

  /** Any run of calls that the recorder survives, with any window size: the trace file opens, and replaying
      it shows the recorded calls, told by all their fields, with their threads and times and in order, up to
      the first that the replayer gives up on; if there is none, and only then, it reads the file to its last
      byte and ends in a state that matches the recorder's. */
  method RecordAndReplay(chunk: nat, wsize: nat, es: List<Event>) returns (shown: List<Seen>, stop: Stop)
    requires chunk > 0 && chunk % 4 == 0 && (wsize == 4 || wsize == 8)
    requires IsRun(wsize, INITIAL, es) && AllFloatsExact(es)
    ensures TellsAll([], Played(es), shown, wsize)
    ensures AllImplemented(es) ==> Played(es) == es
    ensures AllImplemented(es) <==> stop == EndOfTrace
    ensures AllImplemented(es) ==> shown == SeenRun(wsize, INITIAL, es)
  {
    hide PutRun, IsRun, RunExact, RunReplayable, SeenRun, Process, TellsAll, Played, AllImplemented, AllFloatsExact,
      Leaves;
    var file := RecordAll(chunk, wsize, es);
    FileOpens(wsize, es);
    var reader := Reader.Open(file);
    SizesDiffer(wsize, reader.value.wsize);
    var replayer := new Replayer(reader.value);
    shown, stop := replayer.Run(-1);
    RunsAreExact(wsize, INITIAL, es);
    ReplayWholeTrace(wsize, es);
    NoCallsLeave();
    AllArePlayed(es);
    BindingsOfInitial();
    ReplayTells(wsize, 0, [], INITIAL, es, 0, -1);
  }
}
