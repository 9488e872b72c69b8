/** What holds in every state every interleaving of the importer can reach. */
module ImporterSafety {
  import opened Wrappers
  import opened Codec
  import opened ImporterProtocol

  // ---- invariants ----

  predicate Committing(pc: CallerPc) {
    pc.ClosingMultipart? || pc.ClosingPipe? || pc.CheckingKeys? || pc.AwaitingDone? || pc.AwaitingResult?
  }

  predicate Sealed(pc: CallerPc) {
    pc.ClosingPipe? || pc.CheckingKeys? || pc.AwaitingDone? || pc.AwaitingResult?
  }

  /** Every flagged key except the one being opened has its part on the wire. */
  ghost predicate NothingMissing(s: State, p: Parsed) {
    forall k :: k in s.uploaded && s.uploaded[k] && s.caller != PartHeader(k) ==> Message(k) in p.order
  }

  /** The parts on the wire belong to flagged keys and hold what was accepted for them. */
  ghost predicate Parts(s: State, p: Parsed) {
    && p.order != [] && p.order[0] == Metadata && Distinct(p.order)
    && (forall k :: Message(k) in p.order ==> k in s.uploaded && s.uploaded[k] && s.caller != PartHeader(k))
    && (forall k :: Message(k) in p.order <==> k in s.accepted)
    && (forall n :: n in p.order ==> n in p.bodies)
    && (forall k :: k in s.accepted ==> Message(k) in p.bodies && p.bodies[Message(k)] == s.accepted[k])
    && (s.last.Part? && s.last.open ==> p.current == Some(s.last.name) && s.last.name in p.order)
    && (s.caller.MetadataBody? ==> s.last == Part(Metadata, true, false) && p.bodies[Metadata] == [] && !s.closed)
    && (!s.caller.MetadataBody? ==> p.bodies[Metadata] == s.metadata)
    && (s.caller.PartHeader? ==> s.caller.key in s.uploaded && s.uploaded[s.caller.key])
    && (s.caller.PartBody? ==> s.last.Part? && s.last.open && s.last.name == Message(s.caller.key))
  }

  /** Who may still write, and what a closed end of the pipe implies. */
  ghost predicate Ends(s: State, p: Parsed) {
    && (s.reader != Gone && s.writer == Open ==> NothingMissing(s, p) && !(s.last.Part? && s.last.failed))
    && (s.writer != Aborted)
    && (s.closed && !s.caller.ClosingMultipart? && !s.caller.ClosingPipe? ==> s.reader == Gone || s.writer == Eof)
    && (s.writer == Eof ==> s.closed && p.ended && !s.caller.ClosingPipe? && !s.caller.ClosingMultipart?)
    && (Committing(s.caller) ==> s.closed && s.last == NoPart)
    && (Sealed(s.caller) ==> p.ended && NothingMissing(s, p))
    && (Sealed(s.caller) && !s.caller.ClosingPipe? ==> s.writer == Eof)
    && (s.caller.AwaitingDone? || s.caller.AwaitingResult? ==> forall k :: k in s.uploaded ==> s.uploaded[k])
  }

  /** The order of Commit's outcomes: one real attempt, then only refusals. */
  ghost predicate Attempts(s: State) {
    && (forall i :: 1 <= i < |s.outcomes| ==> s.outcomes[i] == AlreadyClosed)
    && (s.outcomes != [] ==> s.outcomes[0] != AlreadyClosed)
    && (s.outcomes != [] <==> s.closed && !Committing(s.caller))
  }

  /** The stream has no part for this key. */
  predicate Absent(k: Key, stream: seq<Chunk>) {
    Message(k) !in Parse(stream).order
  }

  ghost predicate Verdicts(s: State, keys: set<Key>) {
    && ((exists r :: Committed(r) in s.outcomes) ==> s.writer == Eof && CompleteStream(s.stream, keys, s.metadata, s.accepted))
    && ((exists o :: o in s.outcomes && (o.NotImported? || o.RequestFailed?)) ==> s.writer == Eof)
    && (forall k :: NotImported(k) in s.outcomes ==> k in keys && Absent(k, s.stream))
    && (CloseFailed in s.outcomes ==> s.reader == Gone)
  }

  ghost predicate Fresh(s: State) {
    && s.stream == [] && s.last == NoPart && s.writer == Open && !s.closed && s.accepted == map[] && s.outcomes == []
    && forall k :: k in s.uploaded ==> !s.uploaded[k]
  }

  ghost predicate FlowInv(s: State, keys: set<Key>) {
    && s.uploaded.Keys == keys
    && (s.worker.Building? ==> s.reader == Unattached)
    && (s.reader == Unattached ==> s.caller == MetadataHeader)
    && (s.caller.MetadataHeader? ==> Fresh(s))
    && (s.caller.ImportFailed? ==> s.outcomes == [])
    && (!s.caller.MetadataHeader? && !s.caller.ImportFailed? ==>
          Parts(s, Parse(s.stream)) && Ends(s, Parse(s.stream)) && Attempts(s) && Verdicts(s, keys))
  }

  /** The worker's progress determines both channels. */
  ghost predicate ChannelInv(s: State) {
    var received := s.caller.AwaitingResult? || exists o :: o in s.outcomes && (o.Committed? || o.RequestFailed?);
    var collected := exists r :: Committed(r) in s.outcomes;
    && (s.worker.Building? || s.worker.Requesting? || s.worker.SendingDone? ==>
          s.doneSent == [] && s.resultsSent == 0 && s.done == Channel(None, false) && s.result == Channel(None, false) && !received)
    && (s.worker.SendingResult? ==> s.doneSent == [None] && s.resultsSent == 0 && s.result == Channel(None, false) && !collected)
    && (s.worker.ClosingResult? || s.worker.ClosingDone? || s.worker.Exited? ==>
          |s.doneSent| == 1 && s.resultsSent == (if s.doneSent[0] == None then 1 else 0))
    && (s.done.closed <==> s.worker.Exited?)
    && (s.result.closed <==> s.worker.ClosingDone? || s.worker.Exited?)
    && (|s.doneSent| == 1 ==> s.done.slot == if received then None else Some(s.doneSent[0]))
    && (s.resultsSent == 1 ==> s.result.slot == if collected then None else Some(s.pending))
    && (s.resultsSent == 0 ==> s.result.slot == None)
    && (s.caller.AwaitingResult? ==> s.doneSent == [None])
    && (forall o :: o in s.outcomes && o.Committed? ==> o == Committed(Some(s.pending)) && s.doneSent == [None] && s.resultsSent == 1)
    && (forall e :: RequestFailed(e) in s.outcomes ==> s.doneSent == [Some(e)])
  }

  lemma ParseAppend(stream: seq<Chunk>, c: Chunk)
    ensures Parse(stream + [c]) == Feed(Parse(stream), c)
  {
    assert (stream + [c])[..|stream|] == stream;
  }

  // ---- every step keeps the invariants ----

  // A worker step leaves the caller's side alone, except that a built request attaches the reader.
  ghost predicate WorkerFrame(s: State, t: State) {
    && t.caller == s.caller && t.writer == s.writer && t.stream == s.stream && t.last == s.last
    && t.uploaded == s.uploaded && t.closed == s.closed && t.metadata == s.metadata
    && t.accepted == s.accepted && t.outcomes == s.outcomes
    && !t.worker.Building?
    && (t.reader == s.reader || (s.worker.Building? && t.reader == Reading))
  }

  lemma WorkerStepFrame(s: State, w: WorkerStep)
    requires WorkerNext(s, w).Some?
    ensures WorkerFrame(s, WorkerNext(s, w).value)
  {}

  lemma FrameKeepsFlow(s: State, t: State, keys: set<Key>)
    requires FlowInv(s, keys) && WorkerFrame(s, t)
    ensures FlowInv(t, keys)
  {}

  lemma WorkerKeepsFlow(s: State, w: WorkerStep, keys: set<Key>)
    requires FlowInv(s, keys) && WorkerNext(s, w).Some?
    ensures FlowInv(WorkerNext(s, w).value, keys)
  {
    WorkerStepFrame(s, w);
    FrameKeepsFlow(s, WorkerNext(s, w).value, keys);
  }

  lemma ReaderKeepsFlow(s: State, keys: set<Key>)
    requires FlowInv(s, keys) && s.reader == Reading
    ensures FlowInv(s.(reader := Gone), keys)
  {
    var t := s.(reader := Gone);
    assert t.caller == s.caller && t.stream == s.stream && t.outcomes == s.outcomes && t.uploaded == s.uploaded;
  }

  lemma HeaderKeeps(s: State, t: State, p: Parsed, n: PartName)
    requires WriteDone(s) == Some(t) && !s.caller.MetadataHeader?
    requires s.caller.PartHeader? && n == Message(s.caller.key)
    requires Parts(s, p) && Ends(s, p)
    ensures Parts(t, Feed(p, Header(n))) && Ends(t, Feed(p, Header(n)))
  {
    var q := Feed(p, Header(n));
    assert forall m :: m in q.order <==> m in p.order || m == n;
    assert n !in p.order;
  }

  lemma MetadataKeeps(s: State, t: State, p: Parsed)
    requires WriteDone(s) == Some(t) && s.caller.MetadataBody?
    requires Parts(s, p) && Ends(s, p)
    ensures Parts(t, Feed(p, Data(s.metadata))) && Ends(t, Feed(p, Data(s.metadata)))
  {}

  lemma BodyKeepsParts(s: State, t: State, p: Parsed)
    requires WriteDone(s) == Some(t) && s.caller.PartBody?
    requires Parts(s, p)
    ensures Parts(t, Feed(p, Data(s.caller.bytes)))
  {}

  lemma BodyKeepsEnds(s: State, t: State, p: Parsed)
    requires WriteDone(s) == Some(t) && s.caller.PartBody?
    requires Ends(s, p)
    ensures Ends(t, Feed(p, Data(s.caller.bytes)))
  {}

  lemma TrailerKeeps(s: State, t: State, p: Parsed)
    requires WriteDone(s) == Some(t) && s.caller.ClosingMultipart?
    requires Parts(s, p) && Ends(s, p)
    ensures Parts(t, Feed(p, Trailer)) && Ends(t, Feed(p, Trailer))
  {
  }

  lemma FirstHeaderKeepsFlow(s: State, keys: set<Key>)
    requires FlowInv(s, keys) && WriteDone(s).Some? && s.caller.MetadataHeader?
    ensures FlowInv(WriteDone(s).value, keys)
  {
    ParseAppend([], Header(Metadata));
    assert [] + [Header(Metadata)] == [Header(Metadata)];
    var p := Parse([Header(Metadata)]);
    assert p == Parsed([Metadata], map[Metadata := []], Some(Metadata), false);
  }

  // A write only succeeds while the pipe is open, before any final verdict.
  lemma WriteDoneKeepsVerdicts(s: State, t: State, keys: set<Key>)
    requires WriteDone(s) == Some(t) && !s.caller.MetadataHeader?
    requires Attempts(s) && Verdicts(s, keys)
    ensures Attempts(t) && Verdicts(t, keys)
  {
    assert s.writer == Open && t.outcomes == s.outcomes;
  }

  function WrittenChunk(s: State): Chunk {
    match s.caller
    case PartHeader(k) => Header(Message(k))
    case PartBody(_, bytes) => Data(bytes)
    case MetadataBody => Data(s.metadata)
    case ClosingMultipart => Trailer
    case _ => Header(Metadata)
  }

  lemma WriteDoneKeepsParts(s: State, t: State, p: Parsed)
    requires WriteDone(s) == Some(t) && !s.caller.MetadataHeader?
    requires Parts(s, p) && Ends(s, p)
    ensures Parts(t, Feed(p, WrittenChunk(s))) && Ends(t, Feed(p, WrittenChunk(s)))
  {
    match s.caller
    case PartHeader(k) => HeaderKeeps(s, t, p, Message(k));
    case MetadataBody => MetadataKeeps(s, t, p);
    case PartBody(_, _) => BodyKeepsParts(s, t, p); BodyKeepsEnds(s, t, p);
    case ClosingMultipart => TrailerKeeps(s, t, p);
  }

  lemma WriteDoneKeepsFlow(s: State, keys: set<Key>)
    requires FlowInv(s, keys) && WriteDone(s).Some?
    ensures FlowInv(WriteDone(s).value, keys)
  {
    if s.caller.MetadataHeader? {
      FirstHeaderKeepsFlow(s, keys);
    } else {
      var t := WriteDone(s).value;
      WriteDoneKeepsVerdicts(s, t, keys);
      var c := WrittenChunk(s);
      assert t.stream == s.stream + [c];
      ParseAppend(s.stream, c);
      WriteDoneKeepsParts(s, t, Parse(s.stream));
    }
  }

  lemma WriteFailedKeeps(s: State, t: State, p: Parsed)
    requires WriteFailed(s) == Some(t) && !t.caller.ImportFailed? && !s.caller.MetadataHeader?
    requires Parts(s, p) && Ends(s, p)
    ensures Parts(t, p) && Ends(t, p)
  {
    match s.caller
    case PartHeader(_) =>
    case PartBody(_, _) =>
    case ClosingMultipart =>
  }

  lemma WriteFailedKeepsFlow(s: State, keys: set<Key>)
    requires FlowInv(s, keys) && WriteFailed(s).Some?
    ensures FlowInv(WriteFailed(s).value, keys)
  {
    var t := WriteFailed(s).value;
    if !t.caller.ImportFailed? { WriteFailedKeeps(s, t, Parse(s.stream)); }
  }

  lemma StartImportKeeps(s: State, k: Key, p: Parsed)
    requires s.caller == Idle && Parts(s, p) && Ends(s, p)
    ensures Parts(ImportMessage(s, k), p) && Ends(ImportMessage(s, k), p)
  {
  }

  // What the verdicts on past outcomes depend on.
  ghost predicate SameVerdicts(s: State, t: State) {
    && t.outcomes == s.outcomes && t.stream == s.stream && t.writer == s.writer && t.reader == s.reader
    && t.accepted == s.accepted && t.metadata == s.metadata
  }

  lemma VerdictsFrame(s: State, t: State, keys: set<Key>)
    requires SameVerdicts(s, t) && Verdicts(s, keys)
    ensures Verdicts(t, keys)
  {}

  lemma StartImportFrame(s: State, k: Key)
    requires s.caller == Idle
    ensures var t := ImportMessage(s, k);
            SameVerdicts(s, t) && t.uploaded.Keys == s.uploaded.Keys && t.closed == s.closed
            && t.worker == s.worker && !Committing(t.caller) && (t.caller == Idle || t.caller.PartHeader?)
  {}

  lemma StartImportKeepsFlow(s: State, k: Key, keys: set<Key>)
    requires FlowInv(s, keys) && s.caller == Idle
    ensures FlowInv(ImportMessage(s, k), keys)
  {
    StartImportKeeps(s, k, Parse(s.stream));
    StartImportFrame(s, k);
    VerdictsFrame(s, ImportMessage(s, k), keys);
  }

  lemma StartWriteKeepsFlow(s: State, k: Key, bytes: seq<byte>, keys: set<Key>)
    requires FlowInv(s, keys) && s.caller == Idle
    ensures FlowInv(WritePart(s, k, bytes), keys)
  {
  }

  lemma CommitKeepsParts(s: State, p: Parsed)
    requires s.caller == Idle && Parts(s, p) && Ends(s, p)
    ensures Parts(Commit(s), p) && Ends(Commit(s), p)
  {}

  lemma CommitKeepsVerdicts(s: State, p: Parsed, keys: set<Key>)
    requires s.caller == Idle && Ends(s, p) && Attempts(s) && Verdicts(s, keys)
    ensures Attempts(Commit(s)) && Verdicts(Commit(s), keys)
  {
    var t := Commit(s);
    if t.outcomes != s.outcomes {
      assert t.outcomes == s.outcomes + [t.outcomes[|s.outcomes|]];
    }
  }

  lemma CommitKeepsFlow(s: State, keys: set<Key>)
    requires FlowInv(s, keys) && s.caller == Idle
    ensures FlowInv(Commit(s), keys)
  {
    CommitKeepsParts(s, Parse(s.stream));
    CommitKeepsVerdicts(s, Parse(s.stream), keys);
  }

  // The steps of Commit after the trailer touch neither the parts nor the flags.
  ghost predicate TailStep(s: State, t: State) {
    && Sealed(s.caller) && (Sealed(t.caller) || t.caller == Idle)
    && !t.caller.ClosingPipe?
    && t.uploaded == s.uploaded && t.accepted == s.accepted && t.last == s.last && t.stream == s.stream
    && t.metadata == s.metadata && t.closed == s.closed && t.reader == s.reader
    && t.writer == (if s.caller.ClosingPipe? then Eof else s.writer)
    && (t.caller.AwaitingDone? || t.caller.AwaitingResult? ==>
          s.caller.AwaitingDone? || forall k :: k in s.uploaded ==> s.uploaded[k])
    && (if t.caller == Idle
        then |t.outcomes| == |s.outcomes| + 1 && t.outcomes[..|s.outcomes|] == s.outcomes && !t.outcomes[|s.outcomes|].AlreadyClosed?
        else t.outcomes == s.outcomes)
  }

  lemma TakeDoneFrame(s: State)
    requires s.caller.AwaitingDone? && TakeDone(s).Some?
    ensures TailStep(s, TakeDone(s).value)
  {}

  lemma TakeResultFrame(s: State)
    requires s.caller.AwaitingResult? && TakeResult(s).Some?
    ensures TailStep(s, TakeResult(s).value)
  {}

  lemma CommitTailFrame(s: State, c: CallerStep)
    requires CallerNext(s, c).Some?
    requires c.ClosePipe? || c.FindMissing? || c.FindAllPresent? || c.ReceiveDone? || c.ReceiveResult?
    ensures TailStep(s, CallerNext(s, c).value)
  {
    match c
    case ClosePipe =>
    case FindMissing(_) =>
    case FindAllPresent =>
    case ReceiveDone => TakeDoneFrame(s);
    case ReceiveResult => TakeResultFrame(s);
  }

  lemma TailParts(s: State, t: State, p: Parsed)
    requires TailStep(s, t) && Parts(s, p)
    ensures Parts(t, p)
  {
  }

  lemma TailEnds(s: State, t: State, p: Parsed)
    requires TailStep(s, t) && Ends(s, p) && Attempts(s)
    ensures Ends(t, p) && Attempts(t)
  {
  }

  lemma CommitTailKeepsParts(s: State, c: CallerStep, p: Parsed)
    requires CallerNext(s, c).Some?
    requires c.ClosePipe? || c.FindMissing? || c.FindAllPresent? || c.ReceiveDone? || c.ReceiveResult?
    requires Parts(s, p) && Ends(s, p) && Attempts(s)
    ensures var t := CallerNext(s, c).value; Parts(t, p) && Ends(t, p) && Attempts(t)
  {
    var t := CallerNext(s, c).value;
    CommitTailFrame(s, c);
    TailParts(s, t, p);
    TailEnds(s, t, p);
  }

  lemma FindMissingKeepsVerdicts(s: State, c: CallerStep, p: Parsed, keys: set<Key>)
    requires CallerNext(s, c).Some? && c.FindMissing? && s.outcomes == [] && s.writer == Eof && s.uploaded.Keys == keys
    requires p == Parse(s.stream) && Parts(s, p)
    ensures Verdicts(CallerNext(s, c).value, keys)
  {
    assert Absent(c.key, s.stream);
  }

  lemma TakeDoneKeepsVerdicts(s: State, keys: set<Key>)
    requires TakeDone(s).Some? && s.outcomes == [] && s.writer == Eof
    ensures Verdicts(TakeDone(s).value, keys)
  {}

  lemma TakeResultKeepsVerdicts(s: State, keys: set<Key>)
    requires TakeResult(s).Some? && s.outcomes == [] && s.writer == Eof
    requires CompleteStream(s.stream, keys, s.metadata, s.accepted)
    ensures Verdicts(TakeResult(s).value, keys)
  {}

  lemma SealedIsComplete(s: State, p: Parsed, keys: set<Key>)
    requires s.caller.AwaitingResult? && p == Parse(s.stream) && s.uploaded.Keys == keys
    requires Parts(s, p) && Ends(s, p)
    ensures CompleteStream(s.stream, keys, s.metadata, s.accepted)
  {
    forall k
      ensures k in keys <==> Message(k) in p.order
    {
      assert k in keys <==> k in s.uploaded;
    }
  }

  lemma CommitTailKeepsVerdicts(s: State, c: CallerStep, p: Parsed, keys: set<Key>)
    requires CallerNext(s, c).Some? && p == Parse(s.stream) && s.uploaded.Keys == keys
    requires c.ClosePipe? || c.FindMissing? || c.FindAllPresent? || c.ReceiveDone? || c.ReceiveResult?
    requires Parts(s, p) && Ends(s, p) && Attempts(s) && Verdicts(s, keys)
    ensures Verdicts(CallerNext(s, c).value, keys)
  {
    assert s.outcomes == [];
    match c
    case ClosePipe =>
    case FindMissing(_) => FindMissingKeepsVerdicts(s, c, p, keys);
    case FindAllPresent =>
    case ReceiveDone => TakeDoneKeepsVerdicts(s, keys);
    case ReceiveResult =>
      SealedIsComplete(s, p, keys);
      TakeResultKeepsVerdicts(s, keys);
  }

  lemma CommitTailKeepsFlow(s: State, c: CallerStep, keys: set<Key>)
    requires FlowInv(s, keys) && ChannelInv(s) && CallerNext(s, c).Some?
    requires c.ClosePipe? || c.FindMissing? || c.FindAllPresent? || c.ReceiveDone? || c.ReceiveResult?
    ensures FlowInv(CallerNext(s, c).value, keys)
  {
    var t := CallerNext(s, c).value;
    var p := Parse(s.stream);
    CommitTailKeepsParts(s, c, p);
    CommitTailKeepsVerdicts(s, c, p, keys);
  }

  lemma CallerKeepsFlow(s: State, c: CallerStep, keys: set<Key>)
    requires FlowInv(s, keys) && ChannelInv(s) && CallerNext(s, c).Some?
    ensures FlowInv(CallerNext(s, c).value, keys)
  {
    match c
    case WriteSucceeds => WriteDoneKeepsFlow(s, keys);
    case WriteFails => WriteFailedKeepsFlow(s, keys);
    case EncodeFails =>
    case StartImport(k) => StartImportKeepsFlow(s, k, keys);
    case StartWrite(k, bytes) => StartWriteKeepsFlow(s, k, bytes, keys);
    case StartCommit => CommitKeepsFlow(s, keys);
    case _ => CommitTailKeepsFlow(s, c, keys);
  }

  lemma WorkerKeepsChannels(s: State, w: WorkerStep)
    requires ChannelInv(s) && WorkerNext(s, w).Some?
    ensures ChannelInv(WorkerNext(s, w).value)
  {
    var t := WorkerNext(s, w).value;
    assert t.caller == s.caller && t.outcomes == s.outcomes;
  }

  predicate Harmless(o: CommitOutcome) {
    o.AlreadyClosed? || o.CloseFailed? || o.NotImported?
  }

  predicate HarmlessReturn(s: State, t: State) {
    var n := |s.outcomes|;
    t.outcomes == s.outcomes || (|t.outcomes| == n + 1 && t.outcomes[..n] == s.outcomes && Harmless(t.outcomes[n]))
  }

  ghost predicate Quiet(s: State, t: State) {
    && !s.caller.AwaitingResult? && !t.caller.AwaitingResult?
    && t.worker == s.worker && t.done == s.done && t.result == s.result && t.pending == s.pending
    && t.doneSent == s.doneSent && t.resultsSent == s.resultsSent
    && HarmlessReturn(s, t)
  }

  lemma QuietOutcomes(s: State, t: State)
    requires HarmlessReturn(s, t)
    ensures forall o :: !Harmless(o) ==> (o in t.outcomes <==> o in s.outcomes)
  {
    if t.outcomes != s.outcomes {
      var n := |s.outcomes|;
      assert t.outcomes == s.outcomes + [t.outcomes[n]];
    }
  }

  // Steps that leave the channels alone and deliver no verdict from the worker.
  lemma QuietStepKeepsChannels(s: State, t: State)
    requires ChannelInv(s) && Quiet(s, t)
    ensures ChannelInv(t)
  {
    QuietOutcomes(s, t);
  }

  lemma WriteDoneIsQuiet(s: State)
    requires WriteDone(s).Some?
    ensures Quiet(s, WriteDone(s).value)
  {}

  lemma WriteFailedIsQuiet(s: State)
    requires WriteFailed(s).Some?
    ensures Quiet(s, WriteFailed(s).value)
  {
    match s.caller
    case MetadataHeader =>
    case MetadataBody =>
    case PartHeader(_) =>
    case PartBody(_, _) =>
    case ClosingMultipart =>
  }

  lemma ImportMessageIsQuiet(s: State, k: Key)
    requires s.caller == Idle
    ensures Quiet(s, ImportMessage(s, k))
  {}

  lemma CommitIsQuiet(s: State)
    requires s.caller == Idle
    ensures Quiet(s, Commit(s))
  {}

  lemma CallerIsQuiet(s: State, c: CallerStep)
    requires CallerNext(s, c).Some? && !c.ReceiveDone? && !c.ReceiveResult?
    ensures Quiet(s, CallerNext(s, c).value)
  {
    match c
    case WriteSucceeds => WriteDoneIsQuiet(s);
    case WriteFails => WriteFailedIsQuiet(s);
    case StartImport(k) => ImportMessageIsQuiet(s, k);
    case StartWrite(k, bytes) =>
    case StartCommit => CommitIsQuiet(s);
    case _ =>
  }

  lemma ReceiveDoneKeepsChannels(s: State)
    requires ChannelInv(s) && s.caller.AwaitingDone? && TakeDone(s).Some? && s.outcomes == []
    ensures ChannelInv(TakeDone(s).value)
  {
    var t := TakeDone(s).value;
    if t.outcomes != [] {
      assert t.outcomes == [t.outcomes[0]] && t.outcomes[0] in t.outcomes;
    }
  }

  lemma ReceiveResultKeepsChannels(s: State)
    requires ChannelInv(s) && s.caller.AwaitingResult? && TakeResult(s).Some? && s.outcomes == []
    ensures ChannelInv(TakeResult(s).value)
  {
    var t := TakeResult(s).value;
    assert t.outcomes == [t.outcomes[0]] && t.outcomes[0] in t.outcomes;
  }

  lemma CallerKeepsChannels(s: State, c: CallerStep, keys: set<Key>)
    requires FlowInv(s, keys) && ChannelInv(s) && CallerNext(s, c).Some?
    ensures ChannelInv(CallerNext(s, c).value)
  {
    var t := CallerNext(s, c).value;
    if c.ReceiveDone? || c.ReceiveResult? {
      assert s.outcomes == [];
      if c.ReceiveDone? { ReceiveDoneKeepsChannels(s); } else { ReceiveResultKeepsChannels(s); }
    } else {
      CallerIsQuiet(s, c);
      QuietStepKeepsChannels(s, t);
    }
  }

  ghost predicate Inv(s: State, keys: set<Key>) {
    FlowInv(s, keys) && ChannelInv(s)
  }

  lemma StepKeepsInv(s: State, step: Step, keys: set<Key>)
    requires Inv(s, keys) && Next(s, step).Some?
    ensures Inv(Next(s, step).value, keys)
  {
    match step
    case Worker(w) => WorkerKeepsFlow(s, w, keys); WorkerKeepsChannels(s, w);
    case Caller(c) => CallerKeepsFlow(s, c, keys); CallerKeepsChannels(s, c, keys);
    case ReaderCloses => ReaderKeepsFlow(s, keys);
  }

  lemma {:induction false} RunKeepsInv(s: State, steps: seq<Step>, keys: set<Key>)
    requires Inv(s, keys) && Run(s, steps).Some?
    ensures Inv(Run(s, steps).value, keys)
    decreases |steps|
  {
    if steps == [] {
    } else {
      StepKeepsInv(s, steps[0], keys);
      RunKeepsInv(Next(s, steps[0]).value, steps[1..], keys);
    }
  }

  lemma ReachableInv(keys: set<Key>, metadata: seq<byte>, steps: seq<Step>)
    requires Run(Init(keys, metadata), steps).Some?
    ensures Inv(Run(Init(keys, metadata), steps).value, keys)
  {
    RunKeepsInv(Init(keys, metadata), steps, keys);
  }
}
