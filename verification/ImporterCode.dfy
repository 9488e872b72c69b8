/**
  The Importer object of import.go, in the form the source has it: methods that
  update `closed`, the `uploaded` map and the multipart writer step by step.

  The other threads act only while a method waits.  What they do then is an
  arbitrary schedule; when it runs out the method is still blocked.  Every state
  the object can be in is proved to be a state of the protocol, so the protocol's
  theorems become postconditions here.
 */
module ImporterCode {
  import opened Wrappers
  import opened Codec
  import opened ImporterProtocol
  import opened ImporterSafety
  import opened ImporterTheorems

  /** What happens next outside the caller's thread: a step, or the reader taking a whole pending write. */
  datatype Event = Move(step: Step) | Consume

  datatype WriteResult = Written | Broken | Blocked

  datatype ImportResult = Granted | UnknownKey | AlreadyImported | StreamFailed | StillWriting

  /** One more step of a reachable state. */
  lemma Advance(keys: set<Key>, metadata: seq<byte>, s: State, step: Step, t: State)
    requires Reaches(Init(keys, metadata), s) && Next(s, step) == Some(t)
    ensures Reaches(Init(keys, metadata), t)
  {
    StepReaches(s, step, t);
    ReachesTransitive(Init(keys, metadata), s, t);
  }

  lemma ReachesInv(keys: set<Key>, metadata: seq<byte>, s: State)
    requires Reaches(Init(keys, metadata), s)
    ensures Inv(s, keys) && s.metadata == metadata
  {
    var steps :| Run(Init(keys, metadata), steps) == Some(s);
    ReachableInv(keys, metadata, steps);
    RunsExtend(Init(keys, metadata), steps, keys);
  }

  // What the invariants say about the outcome a call has just added.
  lemma VerdictOf(s: State, keys: set<Key>, r: Option<CommitOutcome>)
    requires Inv(s, keys)
    requires r.Some? ==> s.outcomes != [] && s.outcomes[|s.outcomes| - 1] == r.value
    ensures r.Some? && r.value.Committed? ==>
              && s.writer == Eof && CompleteStream(s.stream, keys, s.metadata, s.accepted)
              && r.value.results == Some(s.pending) && s.doneSent == [None]
    ensures r.Some? && r.value.RequestFailed? ==> s.writer == Eof && s.doneSent == [Some(r.value.err)]
    ensures r.Some? && r.value.NotImported? ==> s.writer == Eof
    ensures r == Some(CloseFailed) ==> s.reader == Gone
  {
    if r.Some? {
      assert r.value in s.outcomes;
    }
  }

  lemma NothingSent(keys: set<Key>, metadata: seq<byte>, s: State)
    requires Reaches(Init(keys, metadata), s) && s.caller == MetadataHeader
    ensures s.stream == []
  {
    ReachesInv(keys, metadata, s);
  }

  // A part is only marked failed once the pipe is closed at one end.
  lemma FailedPartMeansBroken(keys: set<Key>, metadata: seq<byte>, s: State)
    requires Reaches(Init(keys, metadata), s) && s.caller == Idle
    ensures s.last.Part? && s.last.failed ==> s.reader == Gone || s.writer != Open
  {
    ReachesInv(keys, metadata, s);
  }

  // ---- what waiting comes to ----

  /** The other threads' part of an event; a step that is not enabled does nothing. */
  function EnvStep(s: State, step: Step): State {
    match step
    case Worker(w) => if WorkerNext(s, w).Some? then WorkerNext(s, w).value else s
    case ReaderCloses => if s.reader == Reading then s.(reader := Gone) else s
    case Caller(_) => s
  }

  function EventStep(s: State, event: Event): State {
    if event.Move? then EnvStep(s, event.step) else s
  }

  /** The state after the other threads have made all these moves. */
  function After(s: State, events: seq<Event>): State
    decreases |events|
  {
    if events == [] then s else After(EventStep(s, events[0]), events[1..])
  }

  predicate PipeClosed(s: State) {
    s.reader == Gone || s.writer != Open
  }

  predicate DoneReady(s: State) {
    s.done.slot.Some? || s.done.closed
  }

  predicate ResultReady(s: State) {
    s.result.slot.Some? || s.result.closed
  }

  /** A blocked pipe write: the state and the schedule it leaves, and how it ends. */
  function AwaitWrite(s: State, schedule: seq<Event>): (State, seq<Event>, WriteResult)
    decreases |schedule|
  {
    if PipeClosed(s) then (s, schedule, Broken)
    else if schedule == [] then (s, schedule, Blocked)
    else if schedule[0] == Consume && s.reader == Reading then (s, schedule[1..], Written)
    else AwaitWrite(EventStep(s, schedule[0]), schedule[1..])
  }

  function AwaitDoneIn(s: State, schedule: seq<Event>): (State, seq<Event>, bool)
    decreases |schedule|
  {
    if DoneReady(s) then (s, schedule, true)
    else if schedule == [] then (s, schedule, false)
    else AwaitDoneIn(EventStep(s, schedule[0]), schedule[1..])
  }

  function AwaitResultIn(s: State, schedule: seq<Event>): (State, seq<Event>, bool)
    decreases |schedule|
  {
    if ResultReady(s) then (s, schedule, true)
    else if schedule == [] then (s, schedule, false)
    else AwaitResultIn(EventStep(s, schedule[0]), schedule[1..])
  }

  /** The channel receives of `Commit`. */
  function WaitResult(s: State, schedule: seq<Event>): Option<CommitOutcome> {
    var (s1, rest, ready) := AwaitDoneIn(s, schedule);
    if !ready then None
    else match s1.done.slot
      case Some(Some(e)) => Some(RequestFailed(e))
      case _ =>
        var (s2, _, arrived) := AwaitResultIn(s1.(caller := AwaitingResult, done := s1.done.(slot := None)), rest);
        if arrived then Some(Committed(s2.result.slot)) else None
  }

  function Ended(s: State): State {
    s.(stream := s.stream + [Trailer], caller := CheckingKeys, writer := Eof)
  }

  function HeaderResult(w: WriteResult): ImportResult {
    match w
    case Written => Granted
    case Broken => StreamFailed
    case Blocked => StillWriting
  }

  ghost predicate AllImported(s: State) {
    forall k :: k in s.uploaded ==> s.uploaded[k]
  }

  /** What `Commit` returns when it is called in state `s` and the other threads then follow the schedule. */
  ghost predicate CommitGives(s: State, schedule: seq<Event>, r: Option<CommitOutcome>) {
    var t := ImporterProtocol.Commit(s);
    if t.caller != ClosingMultipart then r.Some? && t.outcomes == s.outcomes + [r.value]
    else
      var (u, rest, w) := AwaitWrite(t, schedule);
      match w
      case Blocked => r == None
      case Broken => r == Some(CloseFailed)
      case Written =>
        if AllImported(s) then r == WaitResult(Ended(u).(caller := AwaitingDone), rest)
        else r.Some? && r.value.NotImported? && r.value.key in s.uploaded && !s.uploaded[r.value.key]
  }

  /** A write waiting in state After(s, schedule[..i]) goes no further than event i. */
  predicate Settles(s: State, schedule: seq<Event>, i: nat)
    requires i <= |schedule|
  {
    var t := After(s, schedule[..i]);
    PipeClosed(t) || (i < |schedule| && schedule[i] == Consume && t.reader == Reading)
  }

  lemma SettlesLater(s: State, schedule: seq<Event>, i: nat)
    requires 0 < i <= |schedule|
    ensures Settles(s, schedule, i) <==> Settles(EventStep(s, schedule[0]), schedule[1..], i - 1)
    ensures After(s, schedule[..i]) == After(EventStep(s, schedule[0]), schedule[1..][..i - 1])
  {
    assert schedule[..i][1..] == schedule[1..][..i - 1];
  }

  /**
    A pipe write ends at the first moment when the pipe is closed, and fails, or
    the reader takes it, and succeeds; it blocks only if the schedule has no such moment.
   */
  lemma {:induction false} AwaitWriteIs(s: State, schedule: seq<Event>, i: nat)
    requires i <= |schedule| && forall j :: 0 <= j < i ==> !Settles(s, schedule, j)
    ensures var t := After(s, schedule[..i]);
            && (PipeClosed(t) ==> AwaitWrite(s, schedule) == (t, schedule[i..], Broken))
            && (!PipeClosed(t) && Settles(s, schedule, i) ==> AwaitWrite(s, schedule) == (t, schedule[i + 1..], Written))
            && (i == |schedule| && !PipeClosed(t) ==> AwaitWrite(s, schedule) == (t, [], Blocked))
    decreases |schedule|
  {
    if i == 0 {
      assert schedule[..0] == [];
    } else {
      assert !Settles(s, schedule, 0) && schedule[..0] == [];
      var next, rest := EventStep(s, schedule[0]), schedule[1..];
      forall j | 0 <= j < i - 1 ensures !Settles(next, rest, j) {
        SettlesLater(s, schedule, j + 1);
      }
      AwaitWriteIs(next, rest, i - 1);
      SettlesLater(s, schedule, i);
    }
  }

  lemma EnvKeepsInv(s: State, event: Event, keys: set<Key>)
    requires Inv(s, keys)
    ensures Inv(EventStep(s, event), keys) && EventStep(s, event).caller == s.caller
  {
    if event.Move? {
      match event.step
      case Worker(w) => if WorkerNext(s, w).Some? { WorkerStepFrame(s, w); StepKeepsInv(s, event.step, keys); }
      case ReaderCloses => if s.reader == Reading { StepKeepsInv(s, event.step, keys); }
      case Caller(_) =>
    }
  }

  lemma {:induction false} AwaitDoneFacts(s: State, schedule: seq<Event>, keys: set<Key>)
    requires Inv(s, keys)
    ensures var (t, rest, ready) := AwaitDoneIn(s, schedule);
            && Inv(t, keys) && t.caller == s.caller && After(t, rest) == After(s, schedule)
            && ready == DoneReady(t) && (!ready ==> rest == [])
    decreases |schedule|
  {
    if DoneReady(s) || schedule == [] {
    } else {
      EnvKeepsInv(s, schedule[0], keys);
      AwaitDoneFacts(EventStep(s, schedule[0]), schedule[1..], keys);
    }
  }

  lemma {:induction false} AwaitResultFacts(s: State, schedule: seq<Event>, keys: set<Key>)
    requires Inv(s, keys)
    ensures var (t, rest, ready) := AwaitResultIn(s, schedule);
            && Inv(t, keys) && t.caller == s.caller && After(t, rest) == After(s, schedule)
            && ready == ResultReady(t) && (!ready ==> rest == [])
    decreases |schedule|
  {
    if ResultReady(s) || schedule == [] {
    } else {
      EnvKeepsInv(s, schedule[0], keys);
      AwaitResultFacts(EventStep(s, schedule[0]), schedule[1..], keys);
    }
  }

  // The worker does not notice whether its value has been taken from done.
  predicate SameWorker(s: State, t: State) {
    t.worker == s.worker && t.reader == s.reader && t.result == s.result && t.pending == s.pending
  }

  predicate DoneFree(s: State) {
    s.worker.SendingDone? ==> s.done == Channel(None, false)
  }

  lemma SendsAlike(s: State, t: State, w: WorkerStep)
    requires DoneFree(s) && DoneFree(t) && SameWorker(s, t) && (w.SendDone? || w.SendResult?)
    ensures WorkerNext(s, w).Some? == WorkerNext(t, w).Some?
    ensures WorkerNext(s, w).Some? ==> SameWorker(WorkerNext(s, w).value, WorkerNext(t, w).value)
  {}

  lemma WorkerStepsAlike(s: State, t: State, w: WorkerStep)
    requires DoneFree(s) && DoneFree(t) && SameWorker(s, t)
    ensures WorkerNext(s, w).Some? == WorkerNext(t, w).Some?
    ensures WorkerNext(s, w).Some? ==> SameWorker(WorkerNext(s, w).value, WorkerNext(t, w).value)
  {
    if w.SendDone? || w.SendResult? {
      SendsAlike(s, t, w);
    }
  }

  lemma EnvKeepsSameWorker(s: State, t: State, event: Event)
    requires DoneFree(s) && DoneFree(t) && SameWorker(s, t)
    ensures SameWorker(EventStep(s, event), EventStep(t, event))
  {
    if event.Move? && event.step.Worker? {
      WorkerStepsAlike(s, t, event.step.w);
    }
  }

  lemma {:induction false} SameWorkerAfter(s: State, t: State, events: seq<Event>, keys: set<Key>)
    requires Inv(s, keys) && Inv(t, keys) && SameWorker(s, t)
    ensures SameWorker(After(s, events), After(t, events)) && Inv(After(t, events), keys)
    decreases |events|
  {
    if events == [] {
    } else {
      EnvKeepsSameWorker(s, t, events[0]);
      EnvKeepsInv(s, events[0], keys);
      EnvKeepsInv(t, events[0], keys);
      SameWorkerAfter(EventStep(s, events[0]), EventStep(t, events[0]), events[1..], keys);
    }
  }

  lemma NilIsTaken(s: State, keys: set<Key>)
    requires Inv(s, keys) && s.caller == AwaitingDone && DoneReady(s) && !(s.done.slot.Some? && s.done.slot.value.Some?)
    ensures Inv(s.(caller := AwaitingResult, done := s.done.(slot := None)), keys)
  {
    assert CallerNext(s, ReceiveDone) == Some(s.(caller := AwaitingResult, done := s.done.(slot := None)));
    StepKeepsInv(s, Caller(ReceiveDone), keys);
  }

  lemma ResultArrives(s: State, t: State, schedule: seq<Event>, keys: set<Key>)
    requires Inv(s, keys) && Inv(t, keys) && SameWorker(s, t) && After(s, schedule).worker.Exited?
    ensures AwaitResultIn(t, schedule).2
  {
    AwaitResultFacts(t, schedule, keys);
    SameWorkerAfter(s, t, schedule, keys);
  }

  lemma DoneArrives(s: State, schedule: seq<Event>, keys: set<Key>)
    requires Inv(s, keys) && After(s, schedule).worker.Exited?
    ensures AwaitDoneIn(s, schedule).2
  {
    AwaitDoneFacts(s, schedule, keys);
    SameWorkerAfter(s, s, schedule, keys);
  }

  /** Once everything is sent, `Commit` returns whenever the worker gets to its end. */
  lemma WaitReturns(s: State, schedule: seq<Event>, keys: set<Key>)
    requires Inv(s, keys) && s.caller == AwaitingDone && After(s, schedule).worker.Exited?
    ensures WaitResult(s, schedule).Some?
  {
    DoneArrives(s, schedule, keys);
    AwaitDoneFacts(s, schedule, keys);
    var (s1, rest, ready) := AwaitDoneIn(s, schedule);
    if !(s1.done.slot.Some? && s1.done.slot.value.Some?) {
      NilIsTaken(s1, keys);
      ResultArrives(s1, s1.(caller := AwaitingResult, done := s1.done.(slot := None)), rest, keys);
    }
  }

  class Importer {
    ghost const keys: set<Key>
    const metadata: seq<byte>
    // the object, its multipart writer and its end of the pipe
    var uploaded: map<Key, bool>
    var closed: bool
    var last: LastPart
    var writer: WriterState
    var stream: seq<Chunk>
    // the worker, the reader and the channels
    var worker: WorkerPc
    var reader: ReaderState
    var done: Channel<Option<Error>>
    var result: Channel<Results>
    var pending: Results
    var schedule: seq<Event>
    // where the caller's thread is, and the history
    ghost var caller: CallerPc
    ghost var accepted: map<Key, seq<byte>>
    ghost var outcomes: seq<CommitOutcome>
    ghost var doneSent: seq<Option<Error>>
    ghost var resultsSent: nat

    ghost function View(): State
      reads this
    {
      State(caller, worker, reader, writer, stream, last, uploaded, closed, done, result, pending, metadata,
            accepted, outcomes, doneSent, resultsSent)
    }

    ghost predicate Valid()
      reads this
    {
      Reaches(Init(keys, metadata), View())
    }

    /** The first lines of `Import`: the pipe, the channels and the worker exist, nothing has been written. */
    constructor (uploaded: map<Key, bool>, metadata: seq<byte>, schedule: seq<Event>)
      requires forall k :: k in uploaded ==> !uploaded[k]
      ensures Valid() && keys == uploaded.Keys && caller == MetadataHeader && this.metadata == metadata
    {
      this.keys, this.metadata := uploaded.Keys, metadata;
      this.uploaded, closed, last, writer, stream := uploaded, false, NoPart, Open, [];
      worker, reader, done, result, pending := Building, Unattached, Channel(None, false), Channel(None, false), map[];
      this.schedule := schedule;
      caller, accepted, outcomes, doneSent, resultsSent := MetadataHeader, map[], [], [], 0;
      new;
      assert View() == Init(keys, metadata);
      assert Run(View(), []) == Some(View());
    }

    // ---- the other threads, while the caller waits ----

    method RunBuildSucceeds()
      requires Valid() && worker == Building
      modifies this`worker, this`reader
      ensures Valid()
      ensures View() == EnvStep(old(View()), Step.Worker(BuildSucceeds))
    {
      ghost var before := View();
      worker, reader := Requesting, Reading;
      Advance(keys, metadata, before, Step.Worker(BuildSucceeds), View());
    }

    method RunBuildFails(e: Error)
      requires Valid() && worker == Building
      modifies this`worker
      ensures Valid()
      ensures View() == EnvStep(old(View()), Step.Worker(BuildFails(e)))
    {
      ghost var before := View();
      worker := SendingDone(Some(e));
      Advance(keys, metadata, before, Step.Worker(BuildFails(e)), View());
    }

    method RunRequestReturns(e: Option<Error>, results: Results)
      requires Valid() && worker == Requesting
      modifies this`worker, this`pending
      ensures Valid()
      ensures View() == EnvStep(old(View()), Step.Worker(RequestReturns(e, results)))
    {
      ghost var before := View();
      worker, pending := SendingDone(e), results;
      Advance(keys, metadata, before, Step.Worker(RequestReturns(e, results)), View());
    }

    method RunSendDone(e: Option<Error>)
      requires Valid() && worker == SendingDone(e)
      modifies this`worker, this`done, this`doneSent
      ensures Valid()
      ensures View() == EnvStep(old(View()), Step.Worker(SendDone))
    {
      ghost var before := View();
      if done.slot.None? && !done.closed {
        worker := if e == None then SendingResult else ClosingResult;
        done := Channel(Some(e), false);
        doneSent := doneSent + [e];
        Advance(keys, metadata, before, Step.Worker(SendDone), View());
      }
    }

    method RunSendResult()
      requires Valid() && worker == SendingResult
      modifies this`worker, this`result, this`resultsSent
      ensures Valid()
      ensures View() == EnvStep(old(View()), Step.Worker(SendResult))
    {
      ghost var before := View();
      if result.slot.None? && !result.closed {
        worker, result, resultsSent := ClosingResult, Channel(Some(pending), false), resultsSent + 1;
        Advance(keys, metadata, before, Step.Worker(SendResult), View());
      }
    }

    method RunCloseResult()
      requires Valid() && worker == ClosingResult
      modifies this`worker, this`result
      ensures Valid()
      ensures View() == EnvStep(old(View()), Step.Worker(CloseResult))
    {
      ghost var before := View();
      worker, result := ClosingDone, result.(closed := true);
      Advance(keys, metadata, before, Step.Worker(CloseResult), View());
    }

    method RunCloseDone()
      requires Valid() && worker == ClosingDone
      modifies this`worker, this`done
      ensures Valid()
      ensures View() == EnvStep(old(View()), Step.Worker(CloseDone))
    {
      ghost var before := View();
      worker, done := Exited, done.(closed := true);
      Advance(keys, metadata, before, Step.Worker(CloseDone), View());
    }

    method RunWorker(w: WorkerStep)
      requires Valid()
      modifies this`worker, this`reader, this`done, this`result, this`pending, this`doneSent, this`resultsSent
      ensures Valid()
      ensures View() == EnvStep(old(View()), Step.Worker(w))
    {
      match w {
        case BuildSucceeds => if worker.Building? { RunBuildSucceeds(); }
        case BuildFails(e) => if worker.Building? { RunBuildFails(e); }
        case RequestReturns(e, results) => if worker.Requesting? { RunRequestReturns(e, results); }
        case SendDone => if worker.SendingDone? { RunSendDone(worker.err); }
        case SendResult => if worker.SendingResult? { RunSendResult(); }
        case CloseResult => if worker.ClosingResult? { RunCloseResult(); }
        case CloseDone => if worker.ClosingDone? { RunCloseDone(); }
      }
    }

    /** One step of the worker or the reader; a step that is not enabled does nothing. */
    method Environment(step: Step)
      requires Valid()
      modifies this`worker, this`reader, this`done, this`result, this`pending, this`doneSent, this`resultsSent
      ensures Valid() && View() == EnvStep(old(View()), step)
    {
      ghost var before := View();
      match step {
        case Caller(_) =>
        case ReaderCloses =>
          if reader == Reading {
            reader := Gone;
            Advance(keys, metadata, before, step, View());
          }
        case Worker(w) => RunWorker(w);
      }
    }

    /** A pipe write blocks until the reader has taken it or either end is closed. */
    method AwaitReader() returns (r: WriteResult)
      requires Valid()
      modifies this`worker, this`reader, this`done, this`result, this`pending, this`doneSent, this`resultsSent, this`schedule
      ensures Valid() && (View(), schedule, r) == AwaitWrite(old(View()), old(schedule))
      ensures r == Written ==> reader == Reading && writer == Open
      ensures r == Broken ==> reader == Gone || writer != Open
    {
      while true
        invariant Valid() && AwaitWrite(View(), schedule) == AwaitWrite(old(View()), old(schedule))
        decreases |schedule|
      {
        if reader == Gone || writer != Open {
          return Broken;
        }
        if schedule == [] {
          return Blocked;
        }
        var event := schedule[0];
        schedule := schedule[1..];
        match event {
          case Move(step) => Environment(step);
          case Consume =>
            if reader == Reading {
              return Written;
            }
        }
      }
    }

    /** A receive on done blocks until there is a value or the channel is closed. */
    method AwaitDone() returns (ready: bool)
      requires Valid()
      modifies this`worker, this`reader, this`done, this`result, this`pending, this`doneSent, this`resultsSent, this`schedule
      ensures Valid() && (View(), schedule, ready) == AwaitDoneIn(old(View()), old(schedule))
      ensures ready ==> done.slot.Some? || done.closed
    {
      while done.slot.None? && !done.closed
        invariant Valid() && AwaitDoneIn(View(), schedule) == AwaitDoneIn(old(View()), old(schedule))
        decreases |schedule|
      {
        if schedule == [] {
          return false;
        }
        var event := schedule[0];
        schedule := schedule[1..];
        if event.Move? {
          Environment(event.step);
        }
      }
      ready := true;
    }

    method AwaitResult() returns (ready: bool)
      requires Valid()
      modifies this`worker, this`reader, this`done, this`result, this`pending, this`doneSent, this`resultsSent, this`schedule
      ensures Valid() && (View(), schedule, ready) == AwaitResultIn(old(View()), old(schedule))
      ensures ready ==> result.slot.Some? || result.closed
    {
      while result.slot.None? && !result.closed
        invariant Valid() && AwaitResultIn(View(), schedule) == AwaitResultIn(old(View()), old(schedule))
        decreases |schedule|
      {
        if schedule == [] {
          return false;
        }
        var event := schedule[0];
        schedule := schedule[1..];
        if event.Move? {
          Environment(event.step);
        }
      }
      ready := true;
    }

    // ---- the caller's calls ----

    /** `pw.CloseWithError` after a failed write. */
    method AbortWrite()
      requires Valid() && (caller == MetadataHeader || caller == MetadataBody) && (reader == Gone || writer != Open)
      modifies this`writer, this`caller
      ensures Valid() && writer == Aborted && caller == ImportFailed
    {
      ghost var before := View();
      writer, caller := Aborted, ImportFailed;
      Advance(keys, metadata, before, Step.Caller(WriteFails), View());
    }

    method AbortEncode()
      requires Valid() && caller == MetadataBody
      modifies this`writer, this`caller
      ensures Valid() && writer == Aborted && caller == ImportFailed
    {
      ghost var before := View();
      writer, caller := Aborted, ImportFailed;
      Advance(keys, metadata, before, Step.Caller(EncodeFails), View());
    }

    method SendMetadataBody(encodeFails: bool) returns (r: WriteResult)
      requires Valid() && caller == MetadataBody
      modifies this
      ensures Valid()
      ensures r == if encodeFails then Broken else AwaitWrite(old(View()), old(schedule)).2
      ensures r == Written ==> caller == Idle && stream == old(stream) + [Data(metadata)]
      ensures r == Broken ==> caller == ImportFailed && writer == Aborted
      ensures r == Blocked ==> caller == MetadataBody
    {
      if encodeFails {
        AbortEncode();
        return Broken;
      }
      r := AwaitReader();
      if r == Blocked {
        return;
      }
      if r == Broken {
        AbortWrite();
        return;
      }
      ghost var before := View();
      stream := stream + [Data(metadata)];
      caller := Idle;
      Advance(keys, metadata, before, Step.Caller(WriteSucceeds), View());
    }

    method SendMetadataHeader() returns (r: WriteResult)
      requires Valid() && caller == MetadataHeader
      modifies this
      ensures Valid()
      ensures var (s, rest, w) := AwaitWrite(old(View()), old(schedule));
              r == w && schedule == rest && (r == Written ==> WriteDone(s) == Some(View()))
      ensures r == Written ==> caller == MetadataBody && stream == [Header(Metadata)]
      ensures r == Broken ==> caller == ImportFailed && writer == Aborted
      ensures r == Blocked ==> caller == MetadataHeader
    {
      NothingSent(keys, metadata, View());
      r := AwaitReader();
      if r == Blocked {
        return;
      }
      if r == Broken {
        AbortWrite();
        return;
      }
      ghost var before := View();
      stream := stream + [Header(Metadata)];
      last := Part(Metadata, true, false);
      caller := MetadataBody;
      Advance(keys, metadata, before, Step.Caller(WriteSucceeds), View());
    }

    /** The metadata part of `Import`: an error aborts the stream and no Importer is handed out. */
    method SendMetadata(encodeFails: bool) returns (r: WriteResult)
      requires Valid() && caller == MetadataHeader
      modifies this
      ensures Valid()
      ensures var (s, rest, w) := AwaitWrite(old(View()), old(schedule));
              if w != Written then r == w
              else WriteDone(s).Some? && r == if encodeFails then Broken else AwaitWrite(WriteDone(s).value, rest).2
      ensures r == Written ==> caller == Idle && stream == [Header(Metadata), Data(metadata)]
      ensures r == Broken ==> caller == ImportFailed && writer == Aborted
      ensures r == Blocked ==> caller == MetadataHeader || caller == MetadataBody
    {
      r := SendMetadataHeader();
      if r == Written {
        r := SendMetadataBody(encodeFails);
      }
    }

    method HeaderTaken(key: Key)
      requires Valid() && caller == PartHeader(key) && reader == Reading && writer == Open
      modifies this`stream, this`last, this`accepted, this`caller
      ensures Valid() && caller == Idle
      ensures stream == old(stream) + [Header(Message(key))] && last == Part(Message(key), true, false)
    {
      ghost var before := View();
      stream := stream + [Header(Message(key))];
      last := Part(Message(key), true, false);
      accepted := accepted[key := []];
      caller := Idle;
      Advance(keys, metadata, before, Step.Caller(WriteSucceeds), View());
    }

    /** A failed header write changes nothing but where the caller is. */
    ghost method GiveUp(pc: CallerPc)
      requires Valid() && caller.PartHeader? && (reader == Gone || writer != Open) && pc == Idle
      modifies this`caller
      ensures Valid() && caller == pc
    {
      ghost var before := View();
      caller := pc;
      Advance(keys, metadata, before, Step.Caller(WriteFails), View());
    }

    /** The header write of CreatePart. */
    method WriteHeader(key: Key) returns (r: ImportResult)
      requires Valid() && caller == PartHeader(key)
      modifies this
      ensures Valid() && uploaded == old(uploaded)
      ensures r == HeaderResult(AwaitWrite(old(View()), old(schedule)).2)
      ensures r == Granted ==> caller == Idle && stream == old(stream) + [Header(Message(key))] && last == Part(Message(key), true, false)
      ensures r == StreamFailed ==> caller == Idle && stream == old(stream) && (reader == Gone || writer != Open)
      ensures r == StillWriting ==> caller == PartHeader(key)
    {
      var w := AwaitReader();
      match w {
        case Blocked => r := StillWriting;
        case Broken =>
          GiveUp(Idle);
          r := StreamFailed;
        case Written =>
          HeaderTaken(key);
          r := Granted;
      }
    }

    method MarkAndClosePart(key: Key, ghost pc: CallerPc)
      requires Valid() && caller == Idle && key in uploaded && !uploaded[key]
      requires pc == if last.Part? && last.failed then Idle else PartHeader(key)
      modifies this`uploaded, this`last, this`caller
      ensures View() == ImporterProtocol.ImportMessage(old(View()), key)
      ensures Valid() && caller == pc && uploaded == old(uploaded)[key := true]
    {
      ghost var before := View();
      uploaded := uploaded[key := true];
      if last.Part? {
        last := last.(open := false);
      }
      caller := pc;
      assert View() == ImporterProtocol.ImportMessage(before, key);
      Advance(keys, metadata, before, Step.Caller(StartImport(key)), View());
    }

    /** Sets the flag, then closes the previous part, which reports an earlier failed write. */
    method OpenPart(key: Key) returns (ready: bool)
      requires Valid() && caller == Idle && key in uploaded && !uploaded[key]
      modifies this`uploaded, this`last, this`caller
      ensures Valid() && View() == ImporterProtocol.ImportMessage(old(View()), key)
      ensures uploaded == old(uploaded)[key := true]
      ensures ready ==> caller == PartHeader(key)
      ensures !ready ==> caller == Idle && (reader == Gone || writer != Open)
    {
      ready := !(last.Part? && last.failed);
      FailedPartMeansBroken(keys, metadata, View());
      MarkAndClosePart(key, if ready then PartHeader(key) else Idle);
    }

    /** `ImportMessage`. */
    method ImportMessage(key: Key) returns (r: ImportResult)
      requires Valid() && caller == Idle
      modifies this
      ensures Valid()
      ensures r == UnknownKey <==> key !in old(uploaded)
      ensures r == AlreadyImported <==> key in old(uploaded) && old(uploaded)[key]
      ensures r == UnknownKey || r == AlreadyImported ==> View() == old(View())
      ensures key in old(uploaded) && !old(uploaded)[key] ==>
                var s := ImporterProtocol.ImportMessage(old(View()), key);
                r == if s.caller == Idle then StreamFailed else HeaderResult(AwaitWrite(s, old(schedule)).2)
      ensures r == Granted || r == StreamFailed || r == StillWriting ==> uploaded == old(uploaded)[key := true]
      ensures r == Granted ==> caller == Idle && stream == old(stream) + [Header(Message(key))] && last == Part(Message(key), true, false)
      ensures r == StreamFailed ==> caller == Idle && stream == old(stream) && (reader == Gone || writer != Open)
      ensures r == StillWriting ==> caller == PartHeader(key)
    {
      if key !in uploaded {
        return UnknownKey;
      } else if uploaded[key] {
        return AlreadyImported;
      }
      var ready := OpenPart(key);
      if !ready {
        return StreamFailed;
      }
      r := WriteHeader(key);
    }

    method BodyBroken(key: Key, bytes: seq<byte>)
      requires Valid() && caller == PartBody(key, bytes) && last.Part? && (reader == Gone || writer != Open)
      modifies this`last, this`caller
      ensures Valid() && caller == Idle
    {
      ghost var before := View();
      last := last.(failed := true);
      caller := Idle;
      Advance(keys, metadata, before, Step.Caller(WriteFails), View());
    }

    method BodyTaken(key: Key, bytes: seq<byte>)
      requires Valid() && caller == PartBody(key, bytes) && reader == Reading && writer == Open
      modifies this`stream, this`accepted, this`caller
      ensures Valid() && caller == Idle && stream == old(stream) + [Data(bytes)]
      ensures key in accepted && accepted[key] == (if key in old(accepted) then old(accepted)[key] else []) + bytes
    {
      ghost var before := View();
      stream := stream + [Data(bytes)];
      accepted := accepted[key := (if key in accepted then accepted[key] else []) + bytes];
      caller := Idle;
      Advance(keys, metadata, before, Step.Caller(WriteSucceeds), View());
    }

    method WriteBody(key: Key, bytes: seq<byte>) returns (r: WriteResult)
      requires Valid() && caller == PartBody(key, bytes) && last.Part?
      modifies this
      ensures Valid() && r == AwaitWrite(old(View()), old(schedule)).2
      ensures r == Written ==> caller == Idle && stream == old(stream) + [Data(bytes)] && key in accepted
                               && accepted[key] == (if key in old(accepted) then old(accepted)[key] else []) + bytes
      ensures r == Broken ==> caller == Idle && stream == old(stream) && accepted == old(accepted)
      ensures r == Blocked ==> caller == PartBody(key, bytes)
    {
      r := AwaitReader();
      match r {
        case Blocked =>
        case Broken => BodyBroken(key, bytes);
        case Written => BodyTaken(key, bytes);
      }
    }

    /** A Write on the writer handed out for `key`. */
    method Write(key: Key, bytes: seq<byte>) returns (r: WriteResult)
      requires Valid() && caller == Idle
      modifies this
      ensures Valid()
      ensures var s := WritePart(old(View()), key, bytes);
              r == if s.caller == Idle then Broken else AwaitWrite(s, old(schedule)).2
      ensures r == Written ==> caller == Idle && stream == old(stream) + [Data(bytes)] && key in accepted
                               && accepted[key] == (if key in old(accepted) then old(accepted)[key] else []) + bytes
      ensures r == Broken ==> caller == Idle && stream == old(stream) && accepted == old(accepted)
      ensures r == Blocked ==> caller == PartBody(key, bytes)
    {
      if !(last.Part? && last.name == Message(key) && last.open) {
        return Broken;
      }
      ghost var before := View();
      caller := PartBody(key, bytes);
      Advance(keys, metadata, before, Step.Caller(StartWrite(key, bytes)), View());
      r := WriteBody(key, bytes);
    }

    ghost method TrailerBroken()
      requires Valid() && caller == ClosingMultipart && (reader == Gone || writer != Open)
      modifies this`caller, this`outcomes
      ensures Valid() && caller == Idle && outcomes == old(outcomes) + [CloseFailed]
    {
      ghost var before := View();
      caller := Idle;
      outcomes := outcomes + [CloseFailed];
      Advance(keys, metadata, before, Step.Caller(WriteFails), View());
    }

    method TrailerTaken()
      requires Valid() && caller == ClosingMultipart && reader == Reading && writer == Open
      modifies this`stream, this`caller
      ensures Valid() && View() == old(View()).(stream := old(stream) + [Trailer], caller := ClosingPipe)
    {
      ghost var before := View();
      stream := stream + [Trailer];
      caller := ClosingPipe;
      Advance(keys, metadata, before, Step.Caller(WriteSucceeds), View());
    }

    /** `pw.Close`, which cannot fail. */
    method EndOfFile()
      requires Valid() && caller == ClosingPipe
      modifies this`writer, this`caller
      ensures Valid() && View() == old(View()).(caller := CheckingKeys, writer := Eof)
    {
      ghost var before := View();
      writer := Eof;
      caller := CheckingKeys;
      Advance(keys, metadata, before, Step.Caller(ClosePipe), View());
    }

    method FinishClose() returns (r: Option<CommitOutcome>, stillWriting: bool)
      requires Valid() && caller == ClosingMultipart
      modifies this
      ensures Valid()
      ensures var (s, rest, w) := AwaitWrite(old(View()), old(schedule));
              && (w == Blocked <==> stillWriting) && (w == Broken <==> r.Some?)
              && (w == Written ==> schedule == rest && View() == Ended(s))
      ensures closed == old(closed) && uploaded == old(uploaded)
      ensures r.Some? ==> !stillWriting && caller == Idle && outcomes == old(outcomes) + [r.value] && r.value == CloseFailed
      ensures r.None? ==> outcomes == old(outcomes) && caller == (if stillWriting then ClosingMultipart else CheckingKeys)
    {
      var w := AwaitReader();
      match w {
        case Blocked => return None, true;
        case Broken =>
          TrailerBroken();
          return Some(CloseFailed), false;
        case Written =>
          TrailerTaken();
          EndOfFile();
          return None, false;
      }
    }

    /** `close` up to the trailer write: the flag first. */
    method StartClose() returns (refused: Option<CommitOutcome>)
      requires Valid() && caller == Idle
      modifies this`closed, this`last, this`caller, this`outcomes
      ensures Valid() && View() == ImporterProtocol.Commit(old(View()))
      ensures refused == if old(closed) then Some(AlreadyClosed)
                         else if old(last).Part? && old(last).failed then Some(CloseFailed) else None
    {
      ghost var before := View();
      refused := None;
      if closed {
        outcomes := outcomes + [AlreadyClosed];
        refused := Some(AlreadyClosed);
      } else if last.Part? && last.failed {
        closed := true;
        last := last.(open := false);
        outcomes := outcomes + [CloseFailed];
        refused := Some(CloseFailed);
      } else {
        closed := true;
        last := NoPart;
        caller := ClosingMultipart;
      }
      Advance(keys, metadata, before, Step.Caller(StartCommit), View());
    }

    /** `close`: the flag first, then the multipart trailer, then the pipe. */
    method Close() returns (r: Option<CommitOutcome>, stillWriting: bool)
      requires Valid() && caller == Idle
      modifies this
      ensures Valid()
      ensures var t := ImporterProtocol.Commit(old(View()));
              if t.caller != ClosingMultipart then r.Some? && t.outcomes == old(outcomes) + [r.value]
              else var (s, rest, w) := AwaitWrite(t, old(schedule));
                   && (w == Blocked <==> stillWriting) && (w == Broken <==> r.Some?)
                   && (w == Written ==> schedule == rest && View() == Ended(s))
      ensures closed && uploaded == old(uploaded)
      ensures old(closed) <==> r == Some(AlreadyClosed)
      ensures r.Some? ==> !stillWriting && caller == Idle && outcomes == old(outcomes) + [r.value]
                          && (r.value == AlreadyClosed || r.value == CloseFailed)
      ensures r.None? ==> outcomes == old(outcomes) && caller == (if stillWriting then ClosingMultipart else CheckingKeys)
    {
      var refused := StartClose();
      if refused.Some? {
        return refused, false;
      }
      r, stillWriting := FinishClose();
    }

    method TakeError(err: Error)
      requires Valid() && caller == AwaitingDone && done.slot == Some(Some(err))
      modifies this`done, this`caller, this`outcomes
      ensures Valid() && caller == Idle && outcomes == old(outcomes) + [RequestFailed(err)]
    {
      ghost var before := View();
      done := done.(slot := None);
      caller := Idle;
      outcomes := outcomes + [RequestFailed(err)];
      Advance(keys, metadata, before, Step.Caller(ReceiveDone), View());
    }

    /** A nil, sent or read from the closed channel. */
    method TakeNil()
      requires Valid() && caller == AwaitingDone && (done.slot == Some(None) || (done.slot == None && done.closed))
      modifies this`done, this`caller
      ensures Valid() && View() == old(View()).(caller := AwaitingResult, done := old(done).(slot := None))
    {
      ghost var before := View();
      done := done.(slot := None);
      caller := AwaitingResult;
      assert TakeDone(before) == Some(View());
      Advance(keys, metadata, before, Step.Caller(ReceiveDone), View());
    }

    method TakeResults()
      requires Valid() && caller == AwaitingResult && (result.slot.Some? || result.closed)
      modifies this`result, this`caller, this`outcomes
      ensures Valid() && caller == Idle && outcomes == old(outcomes) + [Committed(old(result).slot)]
    {
      ghost var before := View();
      outcomes := outcomes + [Committed(result.slot)];
      result := result.(slot := None);
      caller := Idle;
      assert TakeResult(before) == Some(View());
      Advance(keys, metadata, before, Step.Caller(ReceiveResult), View());
    }

    method WaitForResult() returns (r: Option<CommitOutcome>)
      requires Valid() && caller == AwaitingResult
      modifies this
      ensures Valid() && closed == old(closed) && uploaded == old(uploaded)
      ensures r.Some? ==> caller == Idle && outcomes == old(outcomes) + [r.value] && r.value.Committed?
      ensures r.None? ==> outcomes == old(outcomes)
      ensures var (s, _, arrived) := AwaitResultIn(old(View()), old(schedule));
              r == if arrived then Some(Committed(s.result.slot)) else None
    {
      var ready := AwaitResult();
      if !ready {
        return None;
      }
      var results := result.slot;
      TakeResults();
      r := Some(Committed(results));
    }

    /** `<-imp.done`, and after a nil `<-imp.result`. */
    method Wait() returns (r: Option<CommitOutcome>)
      requires Valid() && caller == AwaitingDone
      modifies this
      ensures Valid() && closed == old(closed) && uploaded == old(uploaded)
      ensures r.Some? ==> caller == Idle && outcomes == old(outcomes) + [r.value] && (r.value.RequestFailed? || r.value.Committed?)
      ensures r.None? ==> outcomes == old(outcomes)
      ensures r == WaitResult(old(View()), old(schedule))
    {
      var ready := AwaitDone();
      if !ready {
        return None;
      }
      var err := if done.slot.Some? then done.slot.value else None;
      if err.Some? {
        TakeError(err.value);
        return Some(RequestFailed(err.value));
      }
      TakeNil();
      r := WaitForResult();
    }

    /** The loop over `uploaded`, in any order: a key that was never imported. */
    method MissingKey() returns (missing: Option<Key>)
      ensures missing.None? <==> forall k :: k in uploaded ==> uploaded[k]
      ensures missing.Some? ==> missing.value in uploaded && !uploaded[missing.value]
    {
      var todo := uploaded.Keys;
      while todo != {}
        invariant todo <= uploaded.Keys && forall k :: k in uploaded && k !in todo ==> uploaded[k]
        decreases todo
      {
        var key :| key in todo;
        todo := todo - {key};
        if !uploaded[key] {
          return Some(key);
        }
      }
      missing := None;
    }

    ghost method ReportMissing(key: Key)
      requires Valid() && caller == CheckingKeys && key in uploaded && !uploaded[key]
      modifies this`caller, this`outcomes
      ensures Valid() && caller == Idle && outcomes == old(outcomes) + [NotImported(key)]
    {
      ghost var before := View();
      caller := Idle;
      outcomes := outcomes + [NotImported(key)];
      Advance(keys, metadata, before, Step.Caller(FindMissing(key)), View());
    }

    method CheckKeysAndWait() returns (r: Option<CommitOutcome>)
      requires Valid() && caller == CheckingKeys
      modifies this
      ensures Valid() && closed == old(closed) && uploaded == old(uploaded)
      ensures r.Some? ==> caller == Idle && outcomes == old(outcomes) + [r.value] && r.value != AlreadyClosed
      ensures r.None? ==> outcomes == old(outcomes)
      ensures if AllImported(old(View())) then r == WaitResult(old(View()).(caller := AwaitingDone), old(schedule))
              else r.Some? && r.value.NotImported?
      ensures r.Some? && r.value.NotImported? ==> r.value.key in uploaded && !uploaded[r.value.key]
    {
      var missing := MissingKey();
      if missing.Some? {
        ReportMissing(missing.value);
        return Some(NotImported(missing.value));
      }
      ghost var before := View();
      caller := AwaitingDone;
      Advance(keys, metadata, before, Step.Caller(FindAllPresent), View());
      r := Wait();
    }

    /**
      `Commit`; None while it is blocked.  Success is a complete stream and the
      server's results; a second call reports a closed importer and changes
      nothing else.
     */
    method Commit() returns (r: Option<CommitOutcome>)
      requires Valid() && caller == Idle
      modifies this
      ensures Valid() && closed && uploaded == old(uploaded)
      ensures r.Some? ==> caller == Idle && outcomes == old(outcomes) + [r.value]
      ensures r.None? ==> outcomes == old(outcomes)
      ensures old(closed) <==> r == Some(AlreadyClosed)
      ensures CommitGives(old(View()), old(schedule), r)
      ensures r.Some? && r.value.Committed? ==>
                && writer == Eof && CompleteStream(stream, keys, metadata, accepted)
                && r.value.results == Some(pending) && doneSent == [None]
      ensures r.Some? && r.value.RequestFailed? ==> writer == Eof && doneSent == [Some(r.value.err)]
      ensures r.Some? && r.value.NotImported? ==> writer == Eof && r.value.key in uploaded && !uploaded[r.value.key]
      ensures r == Some(CloseFailed) ==> reader == Gone
    {
      var outcome, stillWriting := Close();
      if outcome.Some? || stillWriting {
        r := outcome;
      } else {
        r := CheckKeysAndWait();
      }
      ReachesInv(keys, metadata, View());
      VerdictOf(View(), keys, r);
    }
  }
}
