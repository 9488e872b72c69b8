/**
  The streaming writer of outgoing messages (crypto.go, messages.go): an encrypted
  container receives an optional one-pass signature packet, the literal data
  chunk by chunk, and the signature, and the base64 body is stored on Close.

  Every low-level operation may fail, as an arbitrary list of faults decides.
 */
module SignedStream {
  import opened Wrappers
  import opened Codec

  type KeyId = nat
  type Signer = (KeyId, seq<byte>) -> seq<byte>

  /** What reaches the encrypted container, in order. */
  datatype Token =
    | OnePassSignature(keyId: KeyId)
    | LiteralStart
    | LiteralBytes(bytes: seq<byte>)
    | LiteralEnd
    | Signature(keyId: KeyId, value: seq<byte>)

  // ---- the grammar of section 11.3 of RFC 4880 ----

  datatype OpenPgpMessage = Literal(data: seq<byte>) | OnePassSigned(keyId: KeyId, data: seq<byte>, signature: seq<byte>)

  /** The rest of a literal packet, and what follows it. */
  function ParseLiteral(tokens: seq<Token>): Option<(seq<byte>, seq<Token>)> {
    if tokens == [] then None
    else match tokens[0]
      case LiteralEnd => Some(([], tokens[1..]))
      case LiteralBytes(bytes) =>
        (match ParseLiteral(tokens[1..])
         case Some((data, rest)) => Some((bytes + data, rest))
         case None => None)
      case _ => None
  }

  function ParseMessage(tokens: seq<Token>): Option<OpenPgpMessage> {
    if tokens == [] then None
    else match tokens[0]
      case LiteralStart =>
        (match ParseLiteral(tokens[1..])
         case Some((data, rest)) => if rest == [] then Some(Literal(data)) else None
         case None => None)
      case OnePassSignature(keyId) =>
        if |tokens| < 2 || tokens[1] != LiteralStart then None
        else (match ParseLiteral(tokens[2..])
              case Some((data, rest)) =>
                if |rest| == 1 && rest[0].Signature? && rest[0].keyId == keyId
                then Some(OnePassSigned(keyId, data, rest[0].value))
                else None
              case None => None)
      case _ => None
  }

  // ---- what the writer produces ----

  function Flatten(chunks: seq<seq<byte>>): seq<byte> {
    if chunks == [] then [] else chunks[0] + Flatten(chunks[1..])
  }

  function Chunks(chunks: seq<seq<byte>>): seq<Token> {
    seq(|chunks|, i requires 0 <= i < |chunks| => LiteralBytes(chunks[i]))
  }

  function Prefix(signer: Option<KeyId>): seq<Token> {
    match signer
    case None => [LiteralStart]
    case Some(k) => [OnePassSignature(k), LiteralStart]
  }

  function Suffix(signer: Option<KeyId>, sign: Signer, hashed: seq<byte>): seq<Token> {
    match signer
    case None => [LiteralEnd]
    case Some(k) => [LiteralEnd, Signature(k, sign(k, hashed))]
  }

  function Stream(signer: Option<KeyId>, sign: Signer, chunks: seq<seq<byte>>, hashed: seq<byte>): seq<Token> {
    Prefix(signer) + Chunks(chunks) + Suffix(signer, sign, hashed)
  }

  // ---- writes and faults ----

  /** One call of Write, and whether it was accepted. */
  datatype Attempt = Attempt(chunk: seq<byte>, accepted: bool)

  /** Every chunk handed to Write. */
  function Handed(log: seq<Attempt>): seq<seq<byte>> {
    if log == [] then [] else [log[0].chunk] + Handed(log[1..])
  }

  /** The chunks Write accepted. */
  function Accepted(log: seq<Attempt>): seq<seq<byte>> {
    if log == [] then []
    else (if log[0].accepted then [log[0].chunk] else []) + Accepted(log[1..])
  }

  lemma {:induction false} FlattenSnoc(chunks: seq<seq<byte>>, last: seq<byte>)
    ensures Flatten(chunks + [last]) == Flatten(chunks) + last
  {
    if chunks == [] {
      assert [last][1..] == [];
    } else {
      FlattenSnoc(chunks[1..], last);
      assert (chunks + [last])[1..] == chunks[1..] + [last];
    }
  }

  lemma {:induction false} HandedSnoc(log: seq<Attempt>, last: Attempt)
    ensures Handed(log + [last]) == Handed(log) + [last.chunk]
  {
    if log == [] {
    } else {
      HandedSnoc(log[1..], last);
      assert (log + [last])[1..] == log[1..] + [last];
    }
  }

  lemma {:induction false} AcceptedSnoc(log: seq<Attempt>, last: Attempt)
    ensures Accepted(log + [last]) == Accepted(log) + if last.accepted then [last.chunk] else []
  {
    if log == [] {
    } else {
      AcceptedSnoc(log[1..], last);
      assert (log + [last])[1..] == log[1..] + [last];
    }
  }

  // What one Write does to the two sides of the stream.
  lemma WriteExtends(log: seq<Attempt>, last: Attempt)
    ensures Flatten(Handed(log + [last])) == Flatten(Handed(log)) + last.chunk
    ensures Chunks(Accepted(log + [last])) == Chunks(Accepted(log)) + if last.accepted then [LiteralBytes(last.chunk)] else []
  {
    HandedSnoc(log, last);
    AcceptedSnoc(log, last);
    FlattenSnoc(Handed(log), last.chunk);
  }

  /** What closing the writer after these writes leaves on the container. */
  function Written(signer: Option<KeyId>, sign: Signer, log: seq<Attempt>): seq<Token> {
    Stream(signer, sign, Accepted(log), Flatten(Handed(log)))
  }

  /** The next `n` low-level operations succeed. */
  predicate Clear(faults: seq<bool>, n: nat) {
    forall i :: 0 <= i < n && i < |faults| ==> !faults[i]
  }

  function Later(faults: seq<bool>, n: nat): seq<bool> {
    if n <= |faults| then faults[n..] else []
  }

  lemma ClearSplit(faults: seq<bool>, n: nat)
    ensures Clear(faults, n + 1) <==> Clear(faults, 1) && Clear(Later(faults, 1), n)
    ensures Later(faults, n + 1) == Later(Later(faults, 1), n)
  {
    if Clear(faults, 1) && Clear(Later(faults, 1), n) {
      forall i | 0 <= i < n + 1 && i < |faults| ensures !faults[i] {
        if i > 0 { assert faults[i] == Later(faults, 1)[i - 1]; }
      }
    }
  }

  // ---- the code ----

  /** The symmetrically encrypted packet under construction. */
  class Container {
    var tokens: seq<Token>
    var closes: nat
    var faults: seq<bool>

    constructor (faults: seq<bool>)
      ensures tokens == [] && closes == 0 && this.faults == faults
    {
      this.tokens, this.closes, this.faults := [], 0, faults;
    }

    method Try() returns (ok: bool)
      modifies this`faults
      ensures ok == Clear(old(faults), 1) && faults == Later(old(faults), 1)
    {
      ok := faults == [] || !faults[0];
      faults := if faults == [] then [] else faults[1..];
    }

    method Put(t: Token) returns (ok: bool)
      modifies this`faults, this`tokens
      ensures ok == Clear(old(faults), 1) && faults == Later(old(faults), 1)
      ensures tokens == if ok then old(tokens) + [t] else old(tokens)
    {
      ok := Try();
      if ok {
        tokens := tokens + [t];
      }
    }

    method Close() returns (ok: bool)
      modifies this`faults, this`closes
      ensures ok == Clear(old(faults), 1) && faults == Later(old(faults), 1)
      ensures closes == old(closes) + 1
    {
      closes := closes + 1;
      ok := Try();
    }
  }

  /** What a literal writer wraps: the container, or `noOpCloser` around it. */
  datatype Sink = Direct(container: Container) | NoOpCloser(container: Container)

  /** With a signer the literal must not close the container: the signature is still to come. */
  function SinkFor(container: Container, signer: Option<KeyId>): Sink {
    if signer.Some? then NoOpCloser(container) else Direct(container)
  }

  /** The writer of the literal packet: closing it ends the packet, then closes whatever it wraps. */
  class LiteralWriter {
    const sink: Sink

    constructor (sink: Sink)
      ensures this.sink == sink
    {
      this.sink := sink;
    }

    method Write(data: seq<byte>) returns (ok: bool)
      modifies sink.container`faults, sink.container`tokens
      ensures ok == Clear(old(sink.container.faults), 1) && sink.container.faults == Later(old(sink.container.faults), 1)
      ensures sink.container.tokens == old(sink.container.tokens) + if ok then [LiteralBytes(data)] else []
    {
      ok := sink.container.Put(LiteralBytes(data));
    }

    function Operations(): nat {
      if sink.Direct? then 2 else 1
    }

    /** The Close of what is wrapped; that of `noOpCloser` does nothing. */
    method CloseSink() returns (ok: bool)
      modifies sink.container`faults, sink.container`closes
      ensures sink.NoOpCloser? ==> ok && sink.container.faults == old(sink.container.faults) && sink.container.closes == old(sink.container.closes)
      ensures sink.Direct? ==>
                && ok == Clear(old(sink.container.faults), 1) && sink.container.faults == Later(old(sink.container.faults), 1)
                && sink.container.closes == old(sink.container.closes) + 1
    {
      match sink {
        case Direct(container) => ok := container.Close();
        case NoOpCloser(_) => ok := true;
      }
    }

    method Close() returns (ok: bool)
      modifies sink.container
      ensures ok == Clear(old(sink.container.faults), Operations())
      ensures ok ==> sink.container.faults == Later(old(sink.container.faults), Operations())
      ensures sink.container.tokens
              == old(sink.container.tokens) + if Clear(old(sink.container.faults), 1) then [LiteralEnd] else []
      ensures sink.container.closes
              == old(sink.container.closes) + if sink.Direct? && Clear(old(sink.container.faults), 1) then 1 else 0
    {
      ClearSplit(sink.container.faults, 1);
      ok := sink.container.Put(LiteralEnd);
      if ok {
        ok := CloseSink();
      }
    }
  }

  /**
    The writer `symetricallyEncrypt` returns: `signatureWriter` with a signer, the
    bare literal writer without.
   */
  class PlaintextWriter {
    const container: Container
    const literal: LiteralWriter
    const signer: Option<KeyId>
    const sign: Signer
    var hashed: seq<byte>
    ghost var log: seq<Attempt>

    ghost predicate Open()
      reads this, container
    {
      && literal.sink == SinkFor(container, signer)
      && container.closes == 0
      && container.tokens == Prefix(signer) + Chunks(Accepted(log))
      && (signer.Some? ==> hashed == Flatten(Handed(log)))
    }

    constructor (container: Container, literal: LiteralWriter, signer: Option<KeyId>, sign: Signer)
      requires container.closes == 0 && container.tokens == Prefix(signer) && literal.sink == SinkFor(container, signer)
      ensures Open() && this.container == container && this.signer == signer && this.sign == sign && log == []
    {
      this.container, this.literal, this.signer, this.sign := container, literal, signer, sign;
      hashed, log := [], [];
      new;
      assert Prefix(signer) + Chunks([]) == Prefix(signer);
    }

    /** The chunk is hashed before it is written, so a refused one is hashed too. */
    method Write(data: seq<byte>) returns (ok: bool)
      requires Open()
      modifies this, container`tokens, container`faults
      ensures Open() && log == old(log) + [Attempt(data, ok)]
      ensures ok == Clear(old(container.faults), 1) && container.faults == Later(old(container.faults), 1)
    {
      if signer.Some? {
        hashed := hashed + data;
      }
      ok := literal.Write(data);
      WriteExtends(log, Attempt(data, ok));
      log := log + [Attempt(data, ok)];
    }

    /** The low-level operations of a Close: the end of the literal, the signature, the container. */
    function Operations(): nat {
      if signer.Some? then 3 else 2
    }

    /** `signatureWriter.Close` once the signature has been computed. */
    method CloseSigned(k: KeyId) returns (ok: bool)
      requires Open() && signer == Some(k)
      modifies container
      ensures ok == Clear(old(container.faults), 3)
      ensures ok ==> container.tokens == Written(signer, sign, log)
      ensures container.closes == if Clear(old(container.faults), 2) then 1 else 0
    {
      ghost var start := container.tokens;
      ClearSplit(container.faults, 2);
      ClearSplit(container.faults, 1);
      var signature := Signature(k, sign(k, hashed));
      ok := literal.Close();
      if !ok {
        return;
      }
      ClearSplit(container.faults, 1);
      ok := container.Put(signature);
      if !ok {
        return;
      }
      ok := container.Close();
      assert container.tokens == (start + [LiteralEnd]) + [signature];
    }

    /**
      Closing succeeds exactly when signing and every operation does; the container
      is closed once the packets before that are out, and never twice.
     */
    method Close(signFails: bool) returns (ok: bool)
      requires Open()
      modifies container
      ensures ok == (Clear(old(container.faults), Operations()) && !(signer.Some? && signFails))
      ensures ok ==> container.tokens == Written(signer, sign, log)
      ensures container.closes
              == if Clear(old(container.faults), Operations() - 1) && !(signer.Some? && signFails) then 1 else 0
    {
      match signer {
        case None =>
          ok := literal.Close();
          assert container.tokens == old(container.tokens) + (if Clear(old(container.faults), 1) then [LiteralEnd] else []);
        case Some(k) =>
          if signFails {
            return false;
          }
          ok := CloseSigned(k);
      }
    }
  }

  /** `symetricallyEncrypt`: the packets before the data, or an error when one of its operations fails. */
  method SymmetricallyEncrypt(container: Container, signer: Option<KeyId>, sign: Signer) returns (w: Option<PlaintextWriter>)
    requires container.tokens == [] && container.closes == 0
    modifies container`tokens, container`faults
    ensures var n := if signer.Some? then 3 else 2;
            && (w.Some? <==> Clear(old(container.faults), n))
            && (w.Some? ==> container.faults == Later(old(container.faults), n))
    ensures w.Some? ==> w.value.Open() && fresh(w.value) && w.value.container == container && w.value.signer == signer
                        && w.value.sign == sign && w.value.log == []
  {
    ClearSplit(container.faults, 1);
    ClearSplit(container.faults, 2);
    ClearSplit(Later(container.faults, 1), 1);
    var ok := container.Try();
    if !ok {
      return None;
    }
    if signer.Some? {
      ok := container.Put(OnePassSignature(signer.value));
      if !ok {
        return None;
      }
    }
    ok := container.Put(LiteralStart);
    if !ok {
      return None;
    }
    var literal := new LiteralWriter(SinkFor(container, signer));
    var writer := new PlaintextWriter(container, literal, signer, sign);
    w := Some(writer);
  }

  /** `outgoingMessageWriter`: the body is stored only once both closes have succeeded. */
  class OutgoingMessageWriter {
    const cleartext: PlaintextWriter
    const render: seq<Token> -> string
    var encoderClosed: bool
    var body: Option<string>

    constructor (cleartext: PlaintextWriter, render: seq<Token> -> string)
      requires cleartext.Open()
      ensures this.cleartext == cleartext && this.render == render && body == None && !encoderClosed
    {
      this.cleartext, this.render, this.body, this.encoderClosed := cleartext, render, None, false;
    }

    method Write(data: seq<byte>) returns (ok: bool)
      requires cleartext.Open()
      modifies cleartext, cleartext.container`tokens, cleartext.container`faults
      ensures cleartext.Open() && cleartext.log == old(cleartext.log) + [Attempt(data, ok)]
      ensures ok == Clear(old(cleartext.container.faults), 1)
    {
      ok := cleartext.Write(data);
    }

    method Close(signFails: bool, encoderFails: bool) returns (ok: bool)
      requires cleartext.Open()
      modifies this, cleartext.container
      ensures ok == (Clear(old(cleartext.container.faults), cleartext.Operations())
                     && !(cleartext.signer.Some? && signFails) && !encoderFails)
      ensures ok ==> cleartext.container.closes == 1 && encoderClosed
                     && body == Some(render(Written(cleartext.signer, cleartext.sign, cleartext.log)))
      ensures !ok ==> body == old(body)
    {
      ok := cleartext.Close(signFails);
      if !ok {
        return;
      }
      encoderClosed := true;
      if encoderFails {
        return false;
      }
      body := Some(render(cleartext.container.tokens));
    }
  }

  // ---- theorems ----

  lemma FlattenCons(first: seq<byte>, rest: seq<seq<byte>>)
    ensures Flatten([first] + rest) == first + Flatten(rest)
  {
    assert ([first] + rest)[1..] == rest;
  }

  lemma {:induction false} LiteralParses(chunks: seq<seq<byte>>, rest: seq<Token>)
    ensures ParseLiteral(Chunks(chunks) + [LiteralEnd] + rest) == Some((Flatten(chunks), rest))
  {
    var tokens := Chunks(chunks) + [LiteralEnd] + rest;
    if chunks == [] {
      assert tokens[0] == LiteralEnd && tokens[1..] == rest;
    } else {
      LiteralParses(chunks[1..], rest);
      assert tokens[0] == LiteralBytes(chunks[0]);
      assert tokens[1..] == Chunks(chunks[1..]) + [LiteralEnd] + rest;
    }
  }

  /** What the container parses to, whatever was hashed. */
  lemma StreamParses(signer: Option<KeyId>, sign: Signer, chunks: seq<seq<byte>>, hashed: seq<byte>)
    ensures ParseMessage(Stream(signer, sign, chunks, hashed)) ==
            Some(match signer
                 case None => Literal(Flatten(chunks))
                 case Some(k) => OnePassSigned(k, Flatten(chunks), sign(k, hashed)))
  {
    var tokens := Stream(signer, sign, chunks, hashed);
    match signer
    case None =>
      LiteralParses(chunks, []);
      assert tokens[0] == LiteralStart && tokens[1..] == Chunks(chunks) + [LiteralEnd] + [];
    case Some(k) =>
      var rest := [Signature(k, sign(k, hashed))];
      LiteralParses(chunks, rest);
      assert tokens[0] == OnePassSignature(k) && tokens[1] == LiteralStart;
      assert tokens[2..] == Chunks(chunks) + [LiteralEnd] + rest;
  }

  /** However the plaintext was split into accepted writes, the message is the same: signed over the whole plaintext. */
  lemma ChunkingIsInvisible(signer: Option<KeyId>, sign: Signer, chunks: seq<seq<byte>>, data: seq<byte>)
    requires Flatten(chunks) == data
    ensures ParseMessage(Stream(signer, sign, chunks, Flatten(chunks))) ==
            ParseMessage(Stream(signer, sign, [data], data)) ==
            Some(match signer
                 case None => Literal(data)
                 case Some(k) => OnePassSigned(k, data, sign(k, data)))
  {
    StreamParses(signer, sign, chunks, data);
    StreamParses(signer, sign, [data], data);
    assert [data][1..] == [];
    assert Flatten([data]) == data + Flatten([]) == data;
  }

  predicate AllAccepted(log: seq<Attempt>) {
    forall i :: 0 <= i < |log| ==> log[i].accepted
  }

  lemma {:induction false} AllHandedAccepted(log: seq<Attempt>)
    requires AllAccepted(log)
    ensures Accepted(log) == Handed(log)
  {
    if log == [] {
    } else {
      AllHandedAccepted(log[1..]);
    }
  }

  /**
    From the calls to the message: what is on the container after writes that were
    all accepted and a successful Close parses to their concatenation, signed over it.
   */
  lemma AcceptedWritesGiveMessage(signer: Option<KeyId>, sign: Signer, log: seq<Attempt>)
    requires AllAccepted(log)
    ensures var data := Flatten(Handed(log));
            ParseMessage(Written(signer, sign, log)) ==
            Some(match signer
                 case None => Literal(data)
                 case Some(k) => OnePassSigned(k, data, sign(k, data)))
  {
    AllHandedAccepted(log);
    StreamParses(signer, sign, Accepted(log), Flatten(Handed(log)));
  }

  predicate Verifies(m: OpenPgpMessage, sign: Signer) {
    m.OnePassSigned? && m.signature == sign(m.keyId, m.data)
  }

  /** Bytes that were hashed but are not in the literal. */
  function RefusedBytes(log: seq<Attempt>): nat {
    if log == [] then 0
    else (if log[0].accepted then 0 else |log[0].chunk|) + RefusedBytes(log[1..])
  }

  predicate RefusedOnlyEmpty(log: seq<Attempt>) {
    forall i :: 0 <= i < |log| && !log[i].accepted ==> log[i].chunk == []
  }

  lemma RefusedShifts(log: seq<Attempt>)
    requires log != []
    ensures RefusedOnlyEmpty(log) <==> (log[0].accepted || log[0].chunk == []) && RefusedOnlyEmpty(log[1..])
  {
    if RefusedOnlyEmpty(log[1..]) {
      assert forall i :: 1 <= i < |log| ==> log[i] == log[1..][i - 1];
    }
  }

  lemma {:induction false} RefusedBytesAreMissing(log: seq<Attempt>)
    ensures |Flatten(Handed(log))| == |Flatten(Accepted(log))| + RefusedBytes(log)
    ensures RefusedBytes(log) == 0 <==> RefusedOnlyEmpty(log)
    ensures RefusedOnlyEmpty(log) ==> Flatten(Handed(log)) == Flatten(Accepted(log))
  {
    if log == [] {
    } else {
      RefusedBytesAreMissing(log[1..]);
      FlattenCons(log[0].chunk, Handed(log[1..]));
      FlattenCons(log[0].chunk, Accepted(log[1..]));
      assert [] + Accepted(log[1..]) == Accepted(log[1..]);
      RefusedShifts(log);
    }
  }

  /**
    A Close that succeeds after a refused Write stores a signature over more than
    the literal: it verifies exactly when every refused chunk was empty, unless
    the two plaintexts share a signature.
   */
  lemma SignatureVerifiesIff(k: KeyId, sign: Signer, log: seq<Attempt>)
    ensures var m := ParseMessage(Written(Some(k), sign, log));
            && m.Some?
            && (RefusedOnlyEmpty(log) ==> Verifies(m.value, sign))
            && (Verifies(m.value, sign)
                && (sign(k, Flatten(Accepted(log))) == sign(k, Flatten(Handed(log))) ==> Flatten(Accepted(log)) == Flatten(Handed(log)))
                ==> RefusedOnlyEmpty(log))
  {
    StreamParses(Some(k), sign, Accepted(log), Flatten(Handed(log)));
    RefusedBytesAreMissing(log);
  }
}
