/** The promises of import.go, for every run. */
module ImporterTheorems {
  import opened Wrappers
  import opened Codec
  import opened ImporterProtocol
  import opened ImporterSafety

  /** Nothing is ever undone: flags, the closed bit, a closed reader, accepted parts and past outcomes. */
  ghost predicate Extends(s: State, t: State) {
    && t.metadata == s.metadata
    && t.uploaded.Keys == s.uploaded.Keys
    && (forall k :: k in s.uploaded && s.uploaded[k] ==> t.uploaded[k])
    && (s.closed ==> t.closed)
    && (s.reader == Gone ==> t.reader == Gone)
    && (s.writer != Open ==> t.writer == s.writer && t.stream == s.stream)
    && s.stream <= t.stream
    && s.outcomes <= t.outcomes
  }

  lemma WorkerExtends(s: State, w: WorkerStep)
    requires WorkerNext(s, w).Some? && (s.worker.Building? ==> s.reader == Unattached)
    ensures Extends(s, WorkerNext(s, w).value)
  {}

  lemma TailExtends(s: State, t: State)
    requires TailStep(s, t) && (s.writer != Open ==> !s.caller.ClosingPipe?)
    ensures Extends(s, t)
  {}

  lemma ImportMessageExtends(s: State, k: Key)
    ensures Extends(s, ImportMessage(s, k))
  {}

  lemma WritePartExtends(s: State, k: Key, bytes: seq<byte>)
    ensures Extends(s, WritePart(s, k, bytes))
  {}

  lemma CommitExtends(s: State)
    ensures Extends(s, Commit(s))
  {}

  lemma WriteDoneExtends(s: State)
    requires WriteDone(s).Some?
    ensures Extends(s, WriteDone(s).value)
  {}

  lemma WriteFailedExtends(s: State)
    requires WriteFailed(s).Some?
    requires s.caller.MetadataHeader? || s.caller.MetadataBody? ==> s.writer == Open
    ensures Extends(s, WriteFailed(s).value)
  {
  }

  lemma CallerExtends(s: State, c: CallerStep)
    requires CallerNext(s, c).Some? && (s.writer != Open ==> !s.caller.ClosingPipe?)
    requires s.caller.MetadataHeader? || s.caller.MetadataBody? ==> s.writer == Open
    ensures Extends(s, CallerNext(s, c).value)
  {
    match c
    case WriteSucceeds => WriteDoneExtends(s);
    case WriteFails => WriteFailedExtends(s);
    case StartImport(k) => ImportMessageExtends(s, k);
    case StartWrite(k, bytes) => WritePartExtends(s, k, bytes);
    case StartCommit => CommitExtends(s);
    case EncodeFails =>
    case _ =>
      CommitTailFrame(s, c);
      TailExtends(s, CallerNext(s, c).value);
  }

  lemma StepExtends(s: State, step: Step, keys: set<Key>)
    requires Inv(s, keys) && Next(s, step).Some?
    ensures Extends(s, Next(s, step).value)
  {
    match step
    case Worker(w) => WorkerExtends(s, w);
    case Caller(c) => CallerExtends(s, c);
    case ReaderCloses =>
  }

  lemma {:induction false} RunsExtend(s: State, steps: seq<Step>, keys: set<Key>)
    requires Inv(s, keys) && Run(s, steps).Some?
    ensures Extends(s, Run(s, steps).value)
    decreases |steps|
  {
    if steps == [] {
    } else {
      var t := Next(s, steps[0]).value;
      StepExtends(s, steps[0], keys);
      StepKeepsInv(s, steps[0], keys);
      RunsExtend(t, steps[1..], keys);
    }
  }

  /** A Commit that succeeds has delivered the whole multipart stream and its end of file. */
  lemma CommitMeansComplete(keys: set<Key>, metadata: seq<byte>, steps: seq<Step>, r: Option<Results>)
    requires Run(Init(keys, metadata), steps).Some?
    requires Committed(r) in Run(Init(keys, metadata), steps).value.outcomes
    ensures var s := Run(Init(keys, metadata), steps).value;
            s.writer == Eof && CompleteStream(s.stream, keys, metadata, s.accepted)
  {
    ReachableInv(keys, metadata, steps);
    RunsExtend(Init(keys, metadata), steps, keys);
  }

  /**
    The worker sends one value on done and, exactly when that value is nil, one on
    result; neither send can block or hit a closed channel; Commit receives from
    result only after a nil, and always gets what the worker sent.
   */
  lemma ChannelProtocol(keys: set<Key>, metadata: seq<byte>, steps: seq<Step>)
    requires Run(Init(keys, metadata), steps).Some?
    ensures var s := Run(Init(keys, metadata), steps).value;
            && |s.doneSent| <= 1 && (s.worker.Exited? ==> |s.doneSent| == 1)
            && (s.resultsSent > 0 ==> s.doneSent == [None] && s.resultsSent == 1)
            && (s.worker.Exited? && s.doneSent == [None] ==> s.resultsSent == 1)
            && (s.worker.SendingDone? ==> WorkerNext(s, SendDone).Some?)
            && (s.worker.SendingResult? ==> WorkerNext(s, SendResult).Some?)
            && (s.caller.AwaitingDone? && s.done.closed ==> s.done.slot.Some?)
            && (s.caller.AwaitingResult? ==> s.doneSent == [None])
            && (forall r :: Committed(r) in s.outcomes ==> r == Some(s.pending))
            && (forall e :: RequestFailed(e) in s.outcomes ==> s.doneSent == [Some(e)])
  {
    ReachableInv(keys, metadata, steps);
    var s := Run(Init(keys, metadata), steps).value;
    assert s.caller.AwaitingDone? ==> s.outcomes == [];
  }

  /** Only the first Commit does anything; every later one reports a closed importer, whatever the first returned. */
  lemma OneCommitPasses(keys: set<Key>, metadata: seq<byte>, steps: seq<Step>)
    requires Run(Init(keys, metadata), steps).Some?
    ensures var s := Run(Init(keys, metadata), steps).value;
            && (forall i :: 1 <= i < |s.outcomes| ==> s.outcomes[i] == AlreadyClosed)
            && (s.outcomes != [] ==> s.outcomes[0] != AlreadyClosed && s.closed)
            && s.uploaded.Keys == keys
  {
    ReachableInv(keys, metadata, steps);
  }

  /**
    What the one real attempt can report.  Closing the stream fails only because
    the reader is gone; otherwise the stream has ended, and the outcome is the
    worker's verdict or a key whose part is not in it.
   */
  lemma FirstCommitVerdict(keys: set<Key>, metadata: seq<byte>, steps: seq<Step>)
    requires Run(Init(keys, metadata), steps).Some?
    requires Run(Init(keys, metadata), steps).value.outcomes != []
    ensures var s := Run(Init(keys, metadata), steps).value;
            match s.outcomes[0]
            case Committed(r) => s.writer == Eof && s.doneSent == [None] && r == Some(s.pending)
            case RequestFailed(e) => s.writer == Eof && s.doneSent == [Some(e)]
            case NotImported(k) => s.writer == Eof && k in keys && Message(k) !in Parse(s.stream).order
            case CloseFailed => s.reader == Gone
            case AlreadyClosed => false
  {
    ReachableInv(keys, metadata, steps);
    var s := Run(Init(keys, metadata), steps).value;
    assert s.outcomes[0] in s.outcomes;
    assert s.outcomes[0].NotImported? ==> Absent(s.outcomes[0].key, s.stream);
  }

  /**
    Commit's error for a key that was never imported comes after the stream has
    been ended and its end of file delivered: the request is already on its way.
   */
  lemma MissingKeyIsReportedAfterSending(keys: set<Key>, metadata: seq<byte>, steps: seq<Step>, k: Key)
    requires Run(Init(keys, metadata), steps).Some?
    requires NotImported(k) in Run(Init(keys, metadata), steps).value.outcomes
    ensures var s := Run(Init(keys, metadata), steps).value;
            s.writer == Eof && Parse(s.stream).ended && s.reader != Unattached && !s.worker.Building?
  {
    ReachableInv(keys, metadata, steps);
  }

  // ---- whose verdict Commit reports ----

  /** The request could not be built. */
  ghost predicate BuildFailed(steps: seq<Step>) {
    exists e :: Worker(BuildFails(e)) in steps
  }

  /** What the worker has sent, or is about to send, on done. */
  function VerdictOfWorker(s: State): Option<Option<Error>> {
    if s.worker.SendingDone? then Some(s.worker.err)
    else if s.doneSent != [] then Some(s.doneSent[0])
    else None
  }

  /** The steps contain this verdict: building the request failed, or doJSON returned. */
  ghost predicate Reported(steps: seq<Step>, verdict: Option<Error>) {
    || (verdict.Some? && Worker(BuildFails(verdict.value)) in steps)
    || exists results :: Worker(RequestReturns(verdict, results)) in steps
  }

  predicate Reports(step: Step, verdict: Option<Error>) {
    step.Worker?
    && ((step.w.BuildFails? && verdict == Some(step.w.buildErr)) || (step.w.RequestReturns? && verdict == step.w.requestErr))
  }

  lemma ReportedCons(steps: seq<Step>, verdict: Option<Error>)
    requires steps != []
    ensures Reported(steps, verdict) <==> Reports(steps[0], verdict) || Reported(steps[1..], verdict)
  {
    assert forall step :: step in steps <==> step == steps[0] || step in steps[1..];
    if Reports(steps[0], verdict) && steps[0].w.RequestReturns? {
      assert steps[0] == Worker(RequestReturns(verdict, steps[0].w.results));
    }
  }

  lemma CallerKeepsVerdict(s: State, c: CallerStep)
    requires CallerNext(s, c).Some?
    ensures var t := CallerNext(s, c).value;
            t.worker == s.worker && t.doneSent == s.doneSent && t.pending == s.pending
  {
    if c.ReceiveDone? || c.ReceiveResult? {
    } else {
      CallerIsQuiet(s, c);
    }
  }

  lemma WorkerVerdict(s: State, w: WorkerStep, verdict: Option<Error>)
    requires ChannelInv(s) && WorkerNext(s, w).Some?
    ensures var t := WorkerNext(s, w).value;
            && (VerdictOfWorker(t) == Some(verdict) <==> VerdictOfWorker(s) == Some(verdict) || Reports(Worker(w), verdict))
            && (w.RequestReturns? ==> t.pending == w.results)
            && (VerdictOfWorker(s).Some? ==> t.pending == s.pending)
  {}

  lemma StepVerdict(s: State, step: Step, verdict: Option<Error>)
    requires ChannelInv(s) && Next(s, step).Some?
    ensures var t := Next(s, step).value;
            && (VerdictOfWorker(t) == Some(verdict) <==> VerdictOfWorker(s) == Some(verdict) || Reports(step, verdict))
            && (VerdictOfWorker(s).Some? ==> t.pending == s.pending)
            && (step.Worker? && step.w.RequestReturns? ==> t.pending == step.w.results)
  {
    match step
    case Worker(w) => WorkerVerdict(s, w, verdict);
    case Caller(c) => CallerKeepsVerdict(s, c);
    case ReaderCloses =>
  }

  lemma {:induction false} RunVerdict(s: State, steps: seq<Step>, keys: set<Key>, verdict: Option<Error>)
    requires Inv(s, keys) && Run(s, steps).Some?
    ensures var t := Run(s, steps).value;
            VerdictOfWorker(t) == Some(verdict) <==> VerdictOfWorker(s) == Some(verdict) || Reported(steps, verdict)
    decreases |steps|
  {
    if steps == [] {
    } else {
      StepKeepsInv(s, steps[0], keys);
      StepVerdict(s, steps[0], verdict);
      ReportedCons(steps, verdict);
      RunVerdict(Next(s, steps[0]).value, steps[1..], keys, verdict);
    }
  }

  // Once there is a verdict the worker's results stay what the request returned.
  lemma {:induction false} RunResults(s: State, steps: seq<Step>, keys: set<Key>)
    requires Inv(s, keys) && Run(s, steps).Some? && VerdictOfWorker(Run(s, steps).value) == Some(None)
    ensures var t := Run(s, steps).value;
            (VerdictOfWorker(s) == Some(None) && t.pending == s.pending) || Worker(RequestReturns(None, t.pending)) in steps
    decreases |steps|
  {
    if steps == [] {
    } else {
      StepKeepsInv(s, steps[0], keys);
      StepVerdict(s, steps[0], None);
      RunResults(Next(s, steps[0]).value, steps[1..], keys);
      assert forall step :: step in steps[1..] ==> step in steps;
      assert Reports(steps[0], None) ==> steps[0] == Worker(RequestReturns(None, steps[0].w.results));
    }
  }

  lemma FailurePrecludesSuccess(keys: set<Key>, metadata: seq<byte>, steps: seq<Step>, e: Error)
    requires Run(Init(keys, metadata), steps).Some? && Reported(steps, Some(e))
    ensures forall r :: Committed(r) !in Run(Init(keys, metadata), steps).value.outcomes
  {
    ReachableInv(keys, metadata, steps);
    RunVerdict(Init(keys, metadata), steps, keys, Some(e));
  }

  /**
    Commit reports the verdict of this run's own request: an error it returns was
    returned by building the request or by doJSON, and success comes with what
    doJSON returned without an error.  When either failed no Commit succeeds.
   */
  lemma CommitReportsRequest(keys: set<Key>, metadata: seq<byte>, steps: seq<Step>)
    requires Run(Init(keys, metadata), steps).Some?
    ensures var s := Run(Init(keys, metadata), steps).value;
            && (forall e :: RequestFailed(e) in s.outcomes ==>
                  Worker(BuildFails(e)) in steps || exists r :: Worker(RequestReturns(Some(e), r)) in steps)
            && (forall r :: Committed(r) in s.outcomes ==> r.Some? && Worker(RequestReturns(None, r.value)) in steps)
            && ((exists e, r :: Worker(RequestReturns(Some(e), r)) in steps) || BuildFailed(steps) ==>
                  forall r :: Committed(r) !in s.outcomes)
  {
    var s := Run(Init(keys, metadata), steps).value;
    ReachableInv(keys, metadata, steps);
    forall e | RequestFailed(e) in s.outcomes
      ensures Worker(BuildFails(e)) in steps || exists r :: Worker(RequestReturns(Some(e), r)) in steps
    {
      RunVerdict(Init(keys, metadata), steps, keys, Some(e));
    }
    forall r | Committed(r) in s.outcomes
      ensures r.Some? && Worker(RequestReturns(None, r.value)) in steps
    {
      RunResults(Init(keys, metadata), steps, keys);
    }
    if e, r :| Worker(RequestReturns(Some(e), r)) in steps {
      FailurePrecludesSuccess(keys, metadata, steps, e);
    }
    if BuildFailed(steps) {
      var e :| Worker(BuildFails(e)) in steps;
      FailurePrecludesSuccess(keys, metadata, steps, e);
    }
  }

  // ---- progress ----

  predicate InCall(s: State) {
    s.caller != Idle && s.caller != ImportFailed
  }

  predicate StartsCall(step: Step) {
    step.Caller? && (step.c.StartImport? || step.c.StartWrite? || step.c.StartCommit?)
  }

  function CallerRank(pc: CallerPc): nat {
    match pc
    case MetadataHeader => 2
    case MetadataBody => 1
    case PartHeader(_) => 1
    case PartBody(_, _) => 1
    case ClosingMultipart => 5
    case ClosingPipe => 4
    case CheckingKeys => 3
    case AwaitingDone => 2
    case AwaitingResult => 1
    case _ => 0
  }

  function WorkerRank(pc: WorkerPc): nat {
    match pc
    case Building => 6
    case Requesting => 5
    case SendingDone(_) => 4
    case SendingResult => 3
    case ClosingResult => 2
    case ClosingDone => 1
    case Exited => 0
  }

  function Rank(s: State): nat {
    CallerRank(s.caller) + WorkerRank(s.worker)
    + (match s.reader case Unattached => 2 case Reading => 1 case Gone => 0)
  }

  lemma WorkerDecreasesRank(s: State, w: WorkerStep)
    requires WorkerNext(s, w).Some? && (s.worker.Building? ==> s.reader == Unattached)
    ensures Rank(WorkerNext(s, w).value) < Rank(s)
  {}

  lemma WriteDoneDecreasesRank(s: State)
    requires WriteDone(s).Some?
    ensures Rank(WriteDone(s).value) < Rank(s)
  {}

  lemma WriteFailedDecreasesRank(s: State)
    requires WriteFailed(s).Some?
    ensures Rank(WriteFailed(s).value) < Rank(s)
  {}

  lemma CallerDecreasesRank(s: State, c: CallerStep)
    requires CallerNext(s, c).Some? && !StartsCall(Caller(c))
    ensures Rank(CallerNext(s, c).value) < Rank(s)
  {
    match c
    case WriteSucceeds => WriteDoneDecreasesRank(s);
    case WriteFails => WriteFailedDecreasesRank(s);
    case _ =>
  }

  /** Between two calls of the caller only finitely many steps can happen. */
  lemma StepsDecreaseRank(s: State, step: Step, keys: set<Key>)
    requires Inv(s, keys) && Next(s, step).Some? && !StartsCall(step)
    ensures Rank(Next(s, step).value) < Rank(s)
  {
    match step
    case Worker(w) => WorkerDecreasesRank(s, w);
    case Caller(c) => CallerDecreasesRank(s, c);
    case ReaderCloses =>
  }

  /** Nobody has taken the pipe, and nobody ever will. */
  predicate Abandoned(s: State) {
    s.reader == Unattached && s.worker != Building
  }

  lemma WriteDoneKeepsPeers(s: State)
    requires WriteDone(s).Some?
    ensures WriteDone(s).value.reader == s.reader && WriteDone(s).value.worker == s.worker
  {}

  lemma WriteFailedKeepsPeers(s: State)
    requires WriteFailed(s).Some?
    ensures WriteFailed(s).value.reader == s.reader && WriteFailed(s).value.worker == s.worker
  {}

  lemma CallerKeepsPeers(s: State, c: CallerStep)
    requires CallerNext(s, c).Some?
    ensures CallerNext(s, c).value.reader == s.reader && CallerNext(s, c).value.worker == s.worker
  {
    match c
    case WriteSucceeds => WriteDoneKeepsPeers(s);
    case WriteFails => WriteFailedKeepsPeers(s);
    case _ =>
  }

  lemma StepAbandons(s: State, step: Step, keys: set<Key>)
    requires Inv(s, keys) && Next(s, step).Some?
    ensures Abandoned(Next(s, step).value) <==> Abandoned(s) || (step.Worker? && step.w.BuildFails?)
  {
    match step
    case Worker(w) =>
    case Caller(c) => CallerKeepsPeers(s, c);
    case ReaderCloses =>
  }

  lemma {:induction false} AbandonedIff(s: State, steps: seq<Step>, keys: set<Key>)
    requires Inv(s, keys) && Run(s, steps).Some?
    ensures Abandoned(Run(s, steps).value) <==> Abandoned(s) || BuildFailed(steps)
    decreases |steps|
  {
    if steps == [] {
    } else {
      StepKeepsInv(s, steps[0], keys);
      StepAbandons(s, steps[0], keys);
      AbandonedIff(Next(s, steps[0]).value, steps[1..], keys);
      assert forall step :: step in steps <==> step == steps[0] || step in steps[1..];
    }
  }

  /** Once building the request has failed, Import never gets past its first write, whatever happens next. */
  lemma BuildFailureBlocksImport(keys: set<Key>, metadata: seq<byte>, steps: seq<Step>)
    requires Run(Init(keys, metadata), steps).Some? && BuildFailed(steps)
    ensures var s := Run(Init(keys, metadata), steps).value;
            s.caller == MetadataHeader && s.reader == Unattached && s.stream == []
  {
    ReachableInv(keys, metadata, steps);
    AbandonedIff(Init(keys, metadata), steps, keys);
  }

  /** Import is stranded: its first pipe write waits for a reader that will never come. */
  predicate Stranded(s: State) {
    s.caller == MetadataHeader && s.reader == Unattached && s.worker == Exited
  }

  lemma DoneIsReady(s: State)
    requires ChannelInv(s) && s.caller.AwaitingDone? && s.worker.Exited?
    ensures CallerNext(s, ReceiveDone).Some?
  {}

  lemma ResultIsReady(s: State)
    requires ChannelInv(s) && s.caller.AwaitingResult? && s.worker.Exited?
    ensures CallerNext(s, ReceiveResult).Some?
  {}

  lemma TailStepOf(s: State, keys: set<Key>) returns (step: Step)
    requires Inv(s, keys) && Sealed(s.caller) && s.worker.Exited?
    ensures Next(s, step).Some? && !StartsCall(step)
  {
    match s.caller
    case ClosingPipe => step := Caller(ClosePipe);
    case CheckingKeys =>
      if k :| k in s.uploaded && !s.uploaded[k] {
        step := Caller(FindMissing(k));
      } else {
        step := Caller(FindAllPresent);
      }
    case AwaitingDone =>
      DoneIsReady(s);
      step := Caller(ReceiveDone);
    case AwaitingResult =>
      ResultIsReady(s);
      step := Caller(ReceiveResult);
  }

  lemma SomeStep(s: State, keys: set<Key>) returns (step: Step)
    requires Inv(s, keys) && InCall(s) && !Stranded(s)
    ensures Next(s, step).Some? && !StartsCall(step)
  {
    match s.worker
    case Building => step := Worker(BuildSucceeds);
    case Requesting => step := Worker(RequestReturns(None, map[]));
    case SendingDone(_) => step := Worker(SendDone);
    case SendingResult => step := Worker(SendResult);
    case ClosingResult => step := Worker(CloseResult);
    case ClosingDone => step := Worker(CloseDone);
    case Exited =>
      if s.reader == Reading {
        step := ReaderCloses;
      } else if WritePending(s.caller) {
        step := Caller(WriteFails);
      } else {
        step := TailStepOf(s, keys);
      }
  }

  lemma StrandedHasNoStep(s: State, step: Step)
    requires Stranded(s) && s.writer == Open
    ensures Next(s, step).None?
  {}

  /**
    A call can be left with no step that would ever complete it in one way only:
    building the request failed, so nobody reads the pipe or closes it, and the
    worker has finished.
   */
  lemma StuckIffBuildFailed(keys: set<Key>, metadata: seq<byte>, steps: seq<Step>)
    requires Run(Init(keys, metadata), steps).Some?
    ensures var s := Run(Init(keys, metadata), steps).value;
            && (InCall(s) && (forall step :: Next(s, step).None?) <==> BuildFailed(steps) && s.worker.Exited?)
            && (Stranded(s) <==> BuildFailed(steps) && s.worker.Exited?)
  {
    ReachableInv(keys, metadata, steps);
    AbandonedIff(Init(keys, metadata), steps, keys);
    var s := Run(Init(keys, metadata), steps).value;
    if Stranded(s) {
      forall step ensures Next(s, step).None? { StrandedHasNoStep(s, step); }
    } else if InCall(s) {
      var step := SomeStep(s, keys);
      assert Next(s, step).Some?;
    }
  }

  lemma {:induction false} RunDecreasesRank(s: State, steps: seq<Step>, keys: set<Key>)
    requires Inv(s, keys) && Run(s, steps).Some? && forall step :: step in steps ==> !StartsCall(step)
    ensures |steps| + Rank(Run(s, steps).value) <= Rank(s)
    decreases |steps|
  {
    if steps == [] {
    } else {
      assert steps[0] in steps && forall step :: step in steps[1..] ==> step in steps;
      StepsDecreaseRank(s, steps[0], keys);
      StepKeepsInv(s, steps[0], keys);
      RunDecreasesRank(Next(s, steps[0]).value, steps[1..], keys);
    }
  }

  lemma {:induction false} RunConcat(s: State, a: seq<Step>, b: seq<Step>)
    requires Run(s, a).Some?
    ensures Run(s, a + b) == Run(Run(s, a).value, b)
    decreases |a|
  {
    if a == [] {
      assert a + b == b;
    } else {
      RunConcat(Next(s, a[0]).value, a[1..], b);
      assert (a + b)[1..] == a[1..] + b;
    }
  }

  /**
    While the caller starts no further call only finitely many steps happen, and
    when none is left the call has returned, unless building the request failed.
   */
  lemma CallsReturn(keys: set<Key>, metadata: seq<byte>, before: seq<Step>, steps: seq<Step>)
    requires Run(Init(keys, metadata), before).Some?
    requires Run(Run(Init(keys, metadata), before).value, steps).Some?
    requires forall step :: step in steps ==> !StartsCall(step)
    ensures var s := Run(Init(keys, metadata), before).value;
            var t := Run(s, steps).value;
            && |steps| + Rank(t) <= Rank(s)
            && ((forall step :: !StartsCall(step) ==> Next(t, step).None?) ==> !InCall(t) || BuildFailed(before + steps))
  {
    var s := Run(Init(keys, metadata), before).value;
    ReachableInv(keys, metadata, before);
    RunDecreasesRank(s, steps, keys);
    RunKeepsInv(s, steps, keys);
    var t := Run(s, steps).value;
    RunConcat(Init(keys, metadata), before, steps);
    StuckIffBuildFailed(keys, metadata, before + steps);
    if InCall(t) && !Stranded(t) {
      var step := SomeStep(t, keys);
      assert !StartsCall(step) && Next(t, step).Some?;
    }
  }

  /** Once stranded nothing happens any more: Import never returns. */
  lemma StrandedForever(s: State, steps: seq<Step>)
    requires Stranded(s) && s.writer == Open
    ensures Run(s, steps).Some? <==> steps == []
  {
    if steps != [] {
      StrandedHasNoStep(s, steps[0]);
    }
  }

  ghost predicate Reaches(s: State, t: State) {
    exists steps :: Run(s, steps) == Some(t)
  }

  lemma StepReaches(s: State, step: Step, t: State)
    requires Next(s, step) == Some(t)
    ensures Reaches(s, t)
  {
    assert [step][1..] == [];
    assert Run(s, [step]) == Run(t, []) == Some(t);
  }

  lemma ReachesTransitive(s: State, t: State, u: State)
    requires Reaches(s, t) && Reaches(t, u)
    ensures Reaches(s, u)
  {
    var a :| Run(s, a) == Some(t);
    var b :| Run(t, b) == Some(u);
    RunConcat(s, a, b);
  }

  lemma Follow(s: State, t: State, step: Step) returns (u: State)
    requires Reaches(s, t) && Next(t, step).Some?
    ensures u == Next(t, step).value && Reaches(s, u)
  {
    u := Next(t, step).value;
    StepReaches(t, step, u);
    ReachesTransitive(s, t, u);
  }

  /** A failed request build can reach the stranded state, its error unread. */
  lemma BuildFailureStrands(keys: set<Key>, metadata: seq<byte>, e: Error)
    ensures exists t :: Reaches(Init(keys, metadata), t) && Stranded(t) && t.writer == Open && t.done.slot == Some(Some(e))
  {
    var s := Init(keys, metadata);
    var t := Next(s, Worker(BuildFails(e))).value;
    StepReaches(s, Worker(BuildFails(e)), t);
    t := Follow(s, t, Worker(SendDone));
    t := Follow(s, t, Worker(CloseResult));
    t := Follow(s, t, Worker(CloseDone));
  }

  // ---- a successful run exists ----

  ghost predicate Underway(t: State) {
    && t.caller == Idle && t.reader == Reading && t.worker == Requesting && t.writer == Open && !t.closed
    && t.last.Part? && !t.last.failed && t.outcomes == []
    && t.done == Channel(None, false) && t.result == Channel(None, false)
  }

  lemma OpenRun(keys: set<Key>, metadata: seq<byte>) returns (t: State)
    ensures Reaches(Init(keys, metadata), t)
    ensures Underway(t) && t.uploaded == (map k | k in keys :: false) && t.accepted == map[]
  {
    var s := Init(keys, metadata);
    t := Next(s, Worker(BuildSucceeds)).value;
    StepReaches(s, Worker(BuildSucceeds), t);
    t := Follow(s, t, Caller(WriteSucceeds));
    t := Follow(s, t, Caller(WriteSucceeds));
  }

  lemma UploadRun(s: State, from: State, k: Key, bytes: seq<byte>) returns (t: State)
    requires Reaches(s, from) && Underway(from) && from.uploaded == map[k := false] && from.accepted == map[]
    ensures Reaches(s, t) && Underway(t) && t.uploaded == map[k := true] && t.accepted == map[k := bytes]
  {
    t := Follow(s, from, Caller(StartImport(k)));
    t := Follow(s, t, Caller(WriteSucceeds));
    t := Follow(s, t, Caller(StartWrite(k, bytes)));
    assert [] + bytes == bytes;
    t := Follow(s, t, Caller(WriteSucceeds));
  }

  lemma CloseRun(s: State, from: State) returns (t: State)
    requires Reaches(s, from) && Underway(from)
    ensures Reaches(s, t) && t.caller == CheckingKeys && t.writer == Eof && t.uploaded == from.uploaded && t.accepted == from.accepted
    ensures t.worker == Requesting && t.reader == Reading
    ensures t.outcomes == [] && t.done == Channel(None, false) && t.result == Channel(None, false)
  {
    t := Follow(s, from, Caller(StartCommit));
    t := Follow(s, t, Caller(WriteSucceeds));
    t := Follow(s, t, Caller(ClosePipe));
  }

  lemma FinishRun(s: State, from: State) returns (t: State)
    requires Reaches(s, from) && Underway(from) && forall k :: k in from.uploaded ==> from.uploaded[k]
    ensures Reaches(s, t) && t.caller == AwaitingDone && t.worker == Requesting && t.writer == Eof && t.accepted == from.accepted
    ensures t.outcomes == [] && t.done == Channel(None, false) && t.result == Channel(None, false)
  {
    t := CloseRun(s, from);
    t := Follow(s, t, Caller(FindAllPresent));
  }

  lemma SendRun(s: State, from: State, results: Results) returns (t: State)
    requires Reaches(s, from) && from.caller == AwaitingDone && from.worker == Requesting
    requires from.outcomes == [] && from.done == Channel(None, false) && from.result == Channel(None, false)
    ensures Reaches(s, t) && t.caller == AwaitingDone && t.outcomes == [] && t.accepted == from.accepted
    ensures t.done.slot == Some(None) && t.result.slot == Some(results)
  {
    t := Follow(s, from, Worker(RequestReturns(None, results)));
    t := Follow(s, t, Worker(SendDone));
    t := Follow(s, t, Worker(SendResult));
  }

  lemma ReceiveRun(s: State, from: State, results: Results) returns (t: State)
    requires Reaches(s, from) && from.caller == AwaitingDone && from.outcomes == []
    requires from.done.slot == Some(None) && from.result.slot == Some(results)
    ensures Reaches(s, t) && t.outcomes == [Committed(Some(results))] && t.accepted == from.accepted
  {
    t := Follow(s, from, Caller(ReceiveDone));
    t := Follow(s, t, Caller(ReceiveResult));
  }

  /** Importing the only key, writing its bytes and committing succeeds when the reader and the server cooperate. */
  lemma OneMessageCanBeImported(k: Key, metadata: seq<byte>, bytes: seq<byte>, results: Results)
    ensures exists t :: Reaches(Init({k}, metadata), t)
                        && t.outcomes == [Committed(Some(results))] && t.accepted == map[k := bytes]
  {
    var s := Init({k}, metadata);
    var ready := OpenRun({k}, metadata);
    var uploaded := UploadRun(s, ready, k, bytes);
    var finished := FinishRun(s, uploaded);
    var sent := SendRun(s, finished, results);
    var t := ReceiveRun(s, sent, results);
  }

  /**
    Committing at once reports any of the keys as missing although, against the
    comment on Commit, the request is being sent and its end of file is delivered.
   */
  lemma MissingKeyCanBeReported(keys: set<Key>, metadata: seq<byte>, k: Key)
    requires k in keys
    ensures exists t :: Reaches(Init(keys, metadata), t)
                        && t.outcomes == [NotImported(k)] && t.writer == Eof && t.worker == Requesting && t.reader == Reading
  {
    var s := Init(keys, metadata);
    var t := OpenRun(keys, metadata);
    t := CloseRun(s, t);
    t := Follow(s, t, Caller(FindMissing(k)));
  }

  lemma RefuseRun(s: State, from: State, e: Error, results: Results) returns (t: State)
    requires Reaches(s, from) && from.caller == AwaitingDone && from.worker == Requesting
    requires from.outcomes == [] && from.done == Channel(None, false)
    ensures Reaches(s, t) && t.outcomes == [RequestFailed(e)] && t.accepted == from.accepted && t.writer == from.writer
  {
    t := Follow(s, from, Worker(RequestReturns(Some(e), results)));
    t := Follow(s, t, Worker(SendDone));
    t := Follow(s, t, Caller(ReceiveDone));
  }

  /** An error of doJSON, after the whole stream was delivered, is what Commit returns. */
  lemma ServerErrorIsReported(k: Key, metadata: seq<byte>, bytes: seq<byte>, e: Error, results: Results)
    ensures exists t :: Reaches(Init({k}, metadata), t)
                        && t.outcomes == [RequestFailed(e)] && t.writer == Eof && t.accepted == map[k := bytes]
  {
    var s := Init({k}, metadata);
    var t := OpenRun({k}, metadata);
    t := UploadRun(s, t, k, bytes);
    t := FinishRun(s, t);
    t := RefuseRun(s, t, e, results);
  }
}
