/**
  The bulk importer (import.go) as a labelled transition system: the caller's
  thread, the worker goroutine started inside `Import`, the HTTP transport that
  reads the other end of the pipe, and the two one-slot channels.

  A step names who moves; `Next` says what the move does, or that it is not
  enabled.  A run is any sequence of enabled steps, so a claim about all runs is
  a claim about every interleaving.
 */
module ImporterProtocol {
  import opened Wrappers
  import opened Codec

  type Key = string
  type Error = string
  type Results = map<Key, string>

  datatype PartName = Metadata | Message(key: Key)

  /** What a completed pipe write put on the wire. */
  datatype Chunk = Header(name: PartName) | Data(bytes: seq<byte>) | Trailer

  /** Unattached until the request is built, then reading, then closed for good. */
  datatype ReaderState = Unattached | Reading | Gone

  datatype WriterState = Open | Eof | Aborted

  /** `multipart.Writer.lastpart`: closed by the next CreatePart or Close, and marked by a failed write. */
  datatype LastPart = NoPart | Part(name: PartName, open: bool, failed: bool)

  datatype Channel<T> = Channel(slot: Option<T>, closed: bool)

  datatype WorkerPc =
    | Building
    | Requesting
    | SendingDone(err: Option<Error>)
    | SendingResult
    | ClosingResult
    | ClosingDone
    | Exited

  datatype CallerPc =
    | MetadataHeader            // Import, inside CreatePart
    | MetadataBody              // Import, inside Encode
    | ImportFailed              // Import returned an error
    | Idle                      // the Importer is in the caller's hands
    | PartHeader(key: Key)      // ImportMessage, inside CreatePart
    | PartBody(key: Key, bytes: seq<byte>)  // a Write on the returned writer
    | ClosingMultipart          // Commit, inside mw.Close
    | ClosingPipe
    | CheckingKeys
    | AwaitingDone
    | AwaitingResult

  datatype CommitOutcome =
    | Committed(results: Option<Results>)  // None is the zero value of a closed channel
    | AlreadyClosed
    | CloseFailed
    | NotImported(key: Key)
    | RequestFailed(err: Error)

  datatype State = State(
    caller: CallerPc,
    worker: WorkerPc,
    reader: ReaderState,
    writer: WriterState,
    stream: seq<Chunk>,
    last: LastPart,
    uploaded: map<Key, bool>,
    closed: bool,
    done: Channel<Option<Error>>,
    result: Channel<Results>,
    pending: Results,                   // the worker's local `res`
    metadata: seq<byte>,                // the JSON that Encode writes
    // history
    accepted: map<Key, seq<byte>>,      // what successful writes told the caller was taken
    outcomes: seq<CommitOutcome>,
    doneSent: seq<Option<Error>>,
    resultsSent: nat)

  datatype WorkerStep =
    | BuildSucceeds
    | BuildFails(buildErr: Error)
    | RequestReturns(requestErr: Option<Error>, results: Results)
    | SendDone
    | SendResult
    | CloseResult
    | CloseDone

  datatype CallerStep =
    | WriteSucceeds             // the reader took the whole write
    | WriteFails                // the pipe is closed at either end
    | EncodeFails
    | StartImport(key: Key)
    | StartWrite(key: Key, bytes: seq<byte>)
    | StartCommit
    | ClosePipe
    | FindMissing(key: Key)
    | FindAllPresent
    | ReceiveDone
    | ReceiveResult

  datatype Step = Worker(w: WorkerStep) | Caller(c: CallerStep) | ReaderCloses

  function Init(keys: set<Key>, metadata: seq<byte>): State {
    State(MetadataHeader, Building, Unattached, Open, [], NoPart, map k | k in keys :: false, false,
          Channel(None, false), Channel(None, false), map[], metadata, map[], [], [], 0)
  }

  // ---- the worker goroutine ----

  function WorkerNext(s: State, w: WorkerStep): Option<State> {
    match (s.worker, w)
    case (Building, BuildSucceeds) =>
      Some(s.(worker := Requesting, reader := Reading))
    case (Building, BuildFails(e)) =>
      Some(s.(worker := SendingDone(Some(e))))
    case (Requesting, RequestReturns(e, results)) =>
      Some(s.(worker := SendingDone(e), pending := results))
    case (SendingDone(e), SendDone) =>
      if s.done.slot.None? && !s.done.closed
      then Some(s.(worker := if e == None then SendingResult else ClosingResult,
                   done := Channel(Some(e), false), doneSent := s.doneSent + [e]))
      else None
    case (SendingResult, SendResult) =>
      if s.result.slot.None? && !s.result.closed
      then Some(s.(worker := ClosingResult, result := Channel(Some(s.pending), false), resultsSent := s.resultsSent + 1))
      else None
    case (ClosingResult, CloseResult) =>
      Some(s.(worker := ClosingDone, result := s.result.(closed := true)))
    case (ClosingDone, CloseDone) =>
      Some(s.(worker := Exited, done := s.done.(closed := true)))
    case _ => None
  }

  // ---- the caller ----

  predicate WritePending(pc: CallerPc) {
    pc.MetadataHeader? || pc.MetadataBody? || pc.PartHeader? || pc.PartBody? || pc.ClosingMultipart?
  }

  /** The reader consumed everything the blocked write offered. */
  function WriteDone(s: State): Option<State> {
    if s.reader != Reading || s.writer != Open then None
    else match s.caller
      case MetadataHeader =>
        Some(s.(caller := MetadataBody, stream := s.stream + [Header(Metadata)], last := Part(Metadata, true, false)))
      case MetadataBody =>
        Some(s.(caller := Idle, stream := s.stream + [Data(s.metadata)]))
      case PartHeader(k) =>
        Some(s.(caller := Idle, stream := s.stream + [Header(Message(k))], last := Part(Message(k), true, false),
                accepted := s.accepted[k := []]))
      case PartBody(k, bytes) =>
        Some(s.(caller := Idle, stream := s.stream + [Data(bytes)],
                accepted := s.accepted[k := (if k in s.accepted then s.accepted[k] else []) + bytes]))
      case ClosingMultipart =>
        Some(s.(caller := ClosingPipe, stream := s.stream + [Trailer]))
      case _ => None
  }

  function WriteFailed(s: State): Option<State> {
    if s.reader != Gone && s.writer == Open then None
    else match s.caller
      case MetadataHeader => Some(s.(caller := ImportFailed, writer := Aborted))
      case MetadataBody => Some(s.(caller := ImportFailed, writer := Aborted))
      case PartHeader(k) => Some(s.(caller := Idle))
      case PartBody(k, bytes) =>
        Some(s.(caller := Idle, last := if s.last.Part? then s.last.(failed := true) else s.last))
      case ClosingMultipart => Some(s.(caller := Idle, outcomes := s.outcomes + [CloseFailed]))
      case _ => None
  }

  function ClosePart(last: LastPart): LastPart {
    if last.Part? then last.(open := false) else last
  }

  /** `ImportMessage` up to the header write: the flag is set before CreatePart can fail. */
  function ImportMessage(s: State, k: Key): State {
    if k !in s.uploaded || s.uploaded[k] then s
    else
      var t := s.(uploaded := s.uploaded[k := true], last := ClosePart(s.last));
      if s.last.Part? && s.last.failed then t else t.(caller := PartHeader(k))
  }

  /** A write on the writer handed out for `k`; a finished part refuses it without touching the pipe. */
  function WritePart(s: State, k: Key, bytes: seq<byte>): State {
    if s.last.Part? && s.last.name == Message(k) && s.last.open then s.(caller := PartBody(k, bytes)) else s
  }

  /** `Commit` up to the trailer write. */
  function Commit(s: State): State {
    if s.closed then s.(outcomes := s.outcomes + [AlreadyClosed])
    else if s.last.Part? && s.last.failed
    then s.(closed := true, last := ClosePart(s.last), outcomes := s.outcomes + [CloseFailed])
    else s.(closed := true, last := NoPart, caller := ClosingMultipart)
  }

  /** `<-imp.done`: an empty closed channel yields nil. */
  function TakeDone(s: State): Option<State> {
    match s.done.slot
    case Some(Some(e)) => Some(s.(caller := Idle, done := s.done.(slot := None), outcomes := s.outcomes + [RequestFailed(e)]))
    case Some(None) => Some(s.(caller := AwaitingResult, done := s.done.(slot := None)))
    case None => if s.done.closed then Some(s.(caller := AwaitingResult)) else None
  }

  /** `<-imp.result`: an empty closed channel yields a nil map. */
  function TakeResult(s: State): Option<State> {
    match s.result.slot
    case Some(r) => Some(s.(caller := Idle, result := s.result.(slot := None), outcomes := s.outcomes + [Committed(Some(r))]))
    case None => if s.result.closed then Some(s.(caller := Idle, outcomes := s.outcomes + [Committed(None)])) else None
  }

  function CallerNext(s: State, c: CallerStep): Option<State> {
    match c
    case WriteSucceeds => WriteDone(s)
    case WriteFails => WriteFailed(s)
    case EncodeFails =>
      if s.caller.MetadataBody? then Some(s.(caller := ImportFailed, writer := Aborted)) else None
    case StartImport(k) => if s.caller.Idle? then Some(ImportMessage(s, k)) else None
    case StartWrite(k, bytes) => if s.caller.Idle? then Some(WritePart(s, k, bytes)) else None
    case StartCommit => if s.caller.Idle? then Some(Commit(s)) else None
    case ClosePipe => if s.caller.ClosingPipe? then Some(s.(caller := CheckingKeys, writer := Eof)) else None
    case FindMissing(k) =>
      if s.caller.CheckingKeys? && k in s.uploaded && !s.uploaded[k]
      then Some(s.(caller := Idle, outcomes := s.outcomes + [NotImported(k)]))
      else None
    case FindAllPresent =>
      if s.caller.CheckingKeys? && forall k :: k in s.uploaded ==> s.uploaded[k]
      then Some(s.(caller := AwaitingDone))
      else None
    case ReceiveDone => if s.caller.AwaitingDone? then TakeDone(s) else None
    case ReceiveResult => if s.caller.AwaitingResult? then TakeResult(s) else None
  }

  function Next(s: State, step: Step): Option<State> {
    match step
    case Worker(w) => WorkerNext(s, w)
    case Caller(c) => CallerNext(s, c)
    case ReaderCloses => if s.reader == Reading then Some(s.(reader := Gone)) else None
  }

  function Run(s: State, steps: seq<Step>): Option<State>
    decreases |steps|
  {
    if steps == [] then Some(s)
    else match Next(s, steps[0])
      case None => None
      case Some(t) => Run(t, steps[1..])
  }

  // ---- reading the stream back ----

  /** What a multipart reader makes of the bytes: parts in order, their bodies, the part being read. */
  datatype Parsed = Parsed(order: seq<PartName>, bodies: map<PartName, seq<byte>>, current: Option<PartName>, ended: bool)

  function Feed(p: Parsed, c: Chunk): Parsed {
    match c
    case Header(n) => p.(order := p.order + [n], bodies := p.bodies[n := []], current := Some(n))
    case Data(bytes) =>
      if p.current.Some? && p.current.value in p.bodies
      then p.(bodies := p.bodies[p.current.value := p.bodies[p.current.value] + bytes])
      else p
    case Trailer => p.(current := None, ended := true)
  }

  function Parse(stream: seq<Chunk>): Parsed {
    if stream == [] then Parsed([], map[], None, false)
    else Feed(Parse(stream[..|stream| - 1]), stream[|stream| - 1])
  }

  ghost predicate Distinct<T(!new)>(s: seq<T>) {
    forall i, j :: 0 <= i < j < |s| ==> s[i] != s[j]
  }

  /**
    The Metadata part, then exactly one part for each key, holding the bytes the
    caller was told were taken, and no other part.
   */
  ghost predicate CompleteStream(stream: seq<Chunk>, keys: set<Key>, metadata: seq<byte>, accepted: map<Key, seq<byte>>) {
    var p := Parse(stream);
    && p.ended
    && p.order != [] && p.order[0] == Metadata
    && Distinct(p.order)
    && (forall k :: k in keys <==> Message(k) in p.order)
    && Metadata in p.bodies && p.bodies[Metadata] == metadata
    && (forall k :: k in keys ==> k in accepted && Message(k) in p.bodies && p.bodies[Message(k)] == accepted[k])
  }
}
