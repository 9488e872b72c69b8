/**
  What the handshake is for: an honest server, written from the equations of
  sections 2.5.3, 2.5.4 and 2.6 of RFC 5054 with the client's byte encodings,
  derives the client's session and accepts its proof, and the client accepts the
  server's.
 */
module SrpAgreement {
  import opened Wrappers
  import opened NumberTheory
  import opened Codec
  import opened Srp

  /** The server's own k = H(g | N), with the modulus bytes as they are sent. */
  function ServerMultiplier(H: Hash, l: nat, modulusBytes: seq<byte>): nat {
    LittleEndian(H(Fixed(2, l / 8) + modulusBytes))
  }

  /** k*v + g^b mod N. */
  function ServerEphemeral(modulus: nat, multiplier: nat, verifier: nat, b: nat): nat
    requires modulus > 0
  {
    (multiplier * verifier + Pow(GENERATOR, b)) % modulus
  }

  /** (A * v^u)^b mod N. */
  function ServerSession(modulus: nat, verifier: nat, b: nat, clientEphemeral: nat, scrambling: nat): nat
    requires modulus > 0
  {
    ExpMod(clientEphemeral * Pow(verifier, scrambling), b, modulus)
  }

  /** The server's reply to the client's message: its own proof, or a refusal. */
  function ServerReply(H: Hash, l: nat, modulus: nat, verifier: nat, b: nat, serverBytes: seq<byte>,
                       clientBytes: seq<byte>, clientProof: seq<byte>): Option<seq<byte>>
    requires modulus > 0
  {
    var session := ServerSession(modulus, verifier, b, LittleEndian(clientBytes), LittleEndian(H(clientBytes + serverBytes)));
    var sessionBytes := Fixed(session, l / 8);
    if clientProof == H(clientBytes + serverBytes + sessionBytes)
    then Some(H(clientBytes + clientProof + sessionBytes))
    else None
  }

  // ---- the secret ----

  /** The sampling loop keeps the first acceptable draw, and fails only if there is none. */
  lemma {:induction false} DrawIsFirstAcceptable(H: Hash, l: nat, modulus: nat, B: nat, draws: seq<nat>)
    requires modulus > 1
    ensures DrawSecret(H, l, modulus, B, draws) == None
            <==> forall i :: 0 <= i < |draws| ==> !Acceptable(H, l, modulus, B, draws[i])
    ensures forall i :: 0 <= i < |draws| && Acceptable(H, l, modulus, B, draws[i])
              && (forall j :: 0 <= j < i ==> !Acceptable(H, l, modulus, B, draws[j]))
              ==> DrawSecret(H, l, modulus, B, draws) == Some(SecretOf(H, l, modulus, B, draws[i]))
  {
    if draws == [] || Acceptable(H, l, modulus, B, draws[0]) {
    } else {
      var rest := draws[1..];
      DrawIsFirstAcceptable(H, l, modulus, B, rest);
      assert forall i :: 1 <= i < |draws| ==> draws[i] == rest[i - 1];
      assert forall i :: 0 <= i < |rest| ==> rest[i] == draws[i + 1];
    }
  }

  /**
    Every secret used is a draw modulo N-1 strictly between 2l and N-1, with
    A = 2^a mod N and a scrambling parameter, hashed from A and B, that is not zero.
   */
  lemma {:induction false} SecretInRange(H: Hash, l: nat, modulus: nat, B: nat, draws: seq<nat>)
    requires modulus > 1 && DrawSecret(H, l, modulus, B, draws).Some?
    ensures var s := DrawSecret(H, l, modulus, B, draws).value;
            && 2 * l < s.exponent < modulus - 1
            && s.ephemeral == ExpMod(GENERATOR, s.exponent, modulus)
            && s.scrambling == LittleEndian(H(Fixed(s.ephemeral, l / 8) + Fixed(B, l / 8))) != 0
            && exists i :: 0 <= i < |draws| && s.exponent == draws[i] % (modulus - 1)
  {
    if Acceptable(H, l, modulus, B, draws[0]) {
      assert DrawSecret(H, l, modulus, B, draws).value.exponent == draws[0] % (modulus - 1);
    } else {
      SecretInRange(H, l, modulus, B, draws[1..]);
      var rest, s := draws[1..], DrawSecret(H, l, modulus, B, draws).value;
      var i :| 0 <= i < |rest| && s.exponent == rest[i] % (modulus - 1);
      assert s.exponent == draws[i + 1] % (modulus - 1);
    }
  }

  /** Some draw gives an exponent above 2l whose scrambling parameter is not zero. */
  predicate SomeDrawServes(H: Hash, l: nat, N: nat, B: nat, draws: seq<nat>)
    requires N > 1
  {
    exists i :: 0 <= i < |draws| && draws[i] % (N - 1) >= 2 * l + 1
      && LittleEndian(H(Fixed(Pow(2, draws[i] % (N - 1)) % N, l / 8) + Fixed(B, l / 8))) != 0
  }

  lemma DrawServes(H: Hash, l: nat, N: nat, B: nat, draws: seq<nat>)
    requires N > 1
    ensures DrawSecret(H, l, N, B, draws).Some? <==> SomeDrawServes(H, l, N, B, draws)
  {
    DrawIsFirstAcceptable(H, l, N, B, draws);
    if i :| 0 <= i < |draws| && Acceptable(H, l, N, B, draws[i]) {
      assert draws[i] % (N - 1) >= 2 * l + 1;
    }
    if SomeDrawServes(H, l, N, B, draws) {
      var i :| 0 <= i < |draws| && draws[i] % (N - 1) >= 2 * l + 1
        && LittleEndian(H(Fixed(Pow(2, draws[i] % (N - 1)) % N, l / 8) + Fixed(B, l / 8))) != 0;
      assert Acceptable(H, l, N, B, draws[i]);
    }
  }

  /**
    Exactly when the handshake produces proofs: a modulus of l bits, multiplier
    and server ephemeral from 2 to N-2, and a draw that serves.
   */
  lemma GenerateSucceedsIff(H: Hash, l: nat, mod: seq<byte>, hashed: seq<byte>, server: seq<byte>, draws: seq<nat>)
    requires l >= 8
    ensures var N, B := LittleEndian(mod), LittleEndian(server);
            Generate(H, l, mod, hashed, server, draws).Ok? <==>
            && BitLen(N) == l && N >= 128
            && 2 <= LittleEndian(H(Fixed(2, l / 8) + mod)) % N <= N - 2
            && 2 <= B <= N - 2
            && SomeDrawServes(H, l, N, B, draws)
  {
    var N, B := LittleEndian(mod), LittleEndian(server);
    if BitLen(N) == l {
      ModulusIsLarge(l, N);
      DrawServes(H, l, N, B, draws);
    }
  }

  /** Which error each first failing check gives; the generator check never fails. */
  lemma GenerateErrors(H: Hash, l: nat, mod: seq<byte>, hashed: seq<byte>, server: seq<byte>, draws: seq<nat>)
    requires l >= 8
    ensures var N, B := LittleEndian(mod), LittleEndian(server);
            var k := LittleEndian(H(Fixed(2, l / 8) + mod));
            var r := Generate(H, l, mod, hashed, server, draws);
            && (BitLen(N) == l ==> N >= 128)
            && (r == Err(ModulusSize) <==> BitLen(N) != l)
            && (r == Err(MultiplierOutOfBounds) <==> BitLen(N) == l && !(2 <= k % N <= N - 2))
            && (r == Err(EphemeralOutOfBounds) <==> BitLen(N) == l && 2 <= k % N <= N - 2 && !(2 <= B <= N - 2))
            && (r == Err(RandomFailed) <==>
                BitLen(N) == l && 2 <= k % N <= N - 2 && 2 <= B <= N - 2 && !SomeDrawServes(H, l, N, B, draws))
            && (r.Err? ==> r.error in {ModulusSize, MultiplierOutOfBounds, EphemeralOutOfBounds, RandomFailed})
  {
    var N, B := LittleEndian(mod), LittleEndian(server);
    if BitLen(N) == l {
      ModulusIsLarge(l, N);
      DrawServes(H, l, N, B, draws);
    }
  }

  /** In every successful run each number that is encoded fits the fixed width. */
  lemma NoNegativePadding(H: Hash, l: nat, mod: seq<byte>, hashed: seq<byte>, server: seq<byte>, draws: seq<nat>)
    requires l % 8 == 0 && l >= 8
    requires Generate(H, l, mod, hashed, server, draws).Ok?
    ensures var N, x, B := LittleEndian(mod), LittleEndian(hashed), LittleEndian(server);
            N >= 128 && DrawSecret(H, l, N, B, draws).Some? &&
            var s, k := DrawSecret(H, l, N, B, draws).value, Multiplier(H, l, mod) % N;
            && 0 <= Subtracted(N, k, x, B) < N
            && |Bytes(GENERATOR)| <= l / 8
            && |Bytes(s.ephemeral)| <= l / 8
            && |Bytes(B)| <= l / 8
            && |Bytes(ClientSession(N, k, x, B, s))| <= l / 8
  {
    GenerateSucceedsIff(H, l, mod, hashed, server, draws);
    var N, x, B := LittleEndian(mod), LittleEndian(hashed), LittleEndian(server);
    SecretInRange(H, l, N, B, draws);
    var s, k := DrawSecret(H, l, N, B, draws).value, Multiplier(H, l, mod) % N;
    GeneratorFits(l);
    BytesFit(GENERATOR, l / 8);
    forall n | n in [s.ephemeral, B, ClientSession(N, k, x, B, s)]
      ensures |Bytes(n)| <= l / 8
    {
      FitsWidth(l, N, n);
      BytesFit(n, l / 8);
    }
  }

  // ---- agreement ----

  // The client removes k*v from the server's ephemeral and is left with g^b.
  lemma SubtractedIsPower(N: nat, k: nat, x: nat, b: nat)
    requires N > 1
    ensures var B := ServerEphemeral(N, k, ExpMod(GENERATOR, x, N), b);
            && 0 <= Subtracted(N, k, x, B) < N
            && Cong(Subtracted(N, k, x, B), Pow(GENERATOR, b), N)
  {
    var v := ExpMod(GENERATOR, x, N);
    var g := Pow(GENERATOR, b);
    var B := ServerEphemeral(N, k, v, b);
    ModCong(k * v + g, N);
    ModCong(v * k, N);
    AddCong(B, k * v + g, (v * k) % N, v * k, N);
    assert (k * v + g) - v * k == g;
    AddModulus(B - (v * k) % N, N);
  }

  // (g^b)^(u*x + a) written as the server computes it: (g^a * (g^x)^u)^b.
  lemma ExponentsCommute(x: nat, a: nat, b: nat, u: nat)
    ensures Pow(Pow(GENERATOR, b), u * x + a) == Pow(Pow(GENERATOR, a) * Pow(Pow(GENERATOR, x), u), b)
  {
    PowMul(GENERATOR, x, u);
    PowAdd(GENERATOR, a, x * u);
    PowMul(GENERATOR, a + x * u, b);
    PowMul(GENERATOR, b, u * x + a);
    assert b * (u * x + a) == (a + x * u) * b;
  }

  /** 2^(N-1) = 1 modulo N: the Fermat test for the generator. */
  predicate FermatModulus(N: nat) {
    N > 2 && ExpMod(GENERATOR, N - 1, N) == 1
  }

  lemma OddPrimesPass(N: nat)
    requires Prime(N) && N > 2
    ensures FermatModulus(N)
  {
    assert !Divides(N, GENERATOR);
    Fermat(N, GENERATOR);
  }

  /** Primality is sufficient, not necessary. */
  lemma CompositeCanPass()
    ensures FermatModulus(341) && !Prime(341)
  {
    assert Divides(11, 341);
    assert Pow(GENERATOR, 5) == 32;
    PowAdd(GENERATOR, 5, 5);
    assert 32 * 32 == 3 * 341 + 1;
    PowCong(Pow(GENERATOR, 10), 1, 34, 341);
    PowOne(34);
    PowMul(GENERATOR, 10, 34);
  }

  /** Client and server, with the verifier 2^x and the secret a, derive the same session. */
  predicate Agree(N: nat, k: nat, x: nat, b: nat, a: nat, u: nat)
    requires N > 1
  {
    var v := ExpMod(GENERATOR, x, N);
    var s := Secret(a, ExpMod(GENERATOR, a, N), u);
    ClientSession(N, k, x, ServerEphemeral(N, k, v, b), s) == ServerSession(N, v, b, s.ephemeral, u)
  }

  // Reducing the exponent modulo N-1 is harmless, because (2^b)^(N-1) is 1 too.
  lemma ClientResidue(N: nat, k: nat, x: nat, B: nat, b: nat, s: Secret)
    requires N > 1 && Cong(Pow(GENERATOR, N - 1), 1, N)
    requires Cong(Subtracted(N, k, x, B), Pow(GENERATOR, b), N)
    ensures ClientSession(N, k, x, B, s) == ExpMod(Pow(GENERATOR, b), s.scrambling * x + s.exponent, N)
  {
    var e := s.scrambling * x + s.exponent;
    ReducedPower(Subtracted(N, k, x, B), GENERATOR, b, e, N);
  }

  // The server works with residues.
  lemma ServerResidue(N: nat, x: nat, b: nat, a: nat, u: nat)
    requires N > 1
    ensures ServerSession(N, ExpMod(GENERATOR, x, N), b, ExpMod(GENERATOR, a, N), u)
            == Pow(Pow(GENERATOR, a) * Pow(Pow(GENERATOR, x), u), b) % N
  {
    var v, A := ExpMod(GENERATOR, x, N), ExpMod(GENERATOR, a, N);
    ModCong(Pow(GENERATOR, a), N);
    ModCong(Pow(GENERATOR, x), N);
    PowCong(v, Pow(GENERATOR, x), u, N);
    MulCong(A, Pow(GENERATOR, a), Pow(v, u), Pow(Pow(GENERATOR, x), u), N);
    PowCong(A * Pow(v, u), Pow(GENERATOR, a) * Pow(Pow(GENERATOR, x), u), b, N);
  }

  /** Both sides derive the same session whenever the modulus passes the Fermat test for the generator. */
  lemma SessionsAgree(N: nat, k: nat, x: nat, b: nat, a: nat, u: nat)
    requires FermatModulus(N)
    ensures Agree(N, k, x, b, a, u)
  {
    SubtractedIsPower(N, k, x, b);
    ClientResidue(N, k, x, ServerEphemeral(N, k, ExpMod(GENERATOR, x, N), b), b, Secret(a, ExpMod(GENERATOR, a, N), u));
    ExponentsCommute(x, a, b, u);
    ServerResidue(N, x, b, a, u);
  }

  lemma ZeroExponent(z: int, a: nat, N: nat)
    requires N > 2 && a < N - 1
    ensures ExpMod(z, ((N - 1 - a) * 1 + a) % (N - 1), N) == 1
  {
    assert (N - 1 - a) * 1 + a == N - 1;
    assert (N - 1) % (N - 1) == 0;
  }

  lemma ClientExponentZero(N: nat, k: nat, B: nat, a: nat, A: nat)
    requires N > 2 && a < N - 1
    ensures ClientSession(N, k, 1, B, Secret(a, A, N - 1 - a)) == 1
  {
    ZeroExponent(Subtracted(N, k, 1, B), a, N);
  }

  lemma PowSmall(b: int)
    ensures Pow(b, 0) == 1 && Pow(b, 1) == b
  {}

  /**
    A single handshake can decide the question: with x = b = 1 and u = N-1-a the
    client's exponent is 0 and the server is left with 2^(N-1), for every a and k.
   */
  lemma AgreementForces(N: nat, k: nat, a: nat)
    requires N > 2 && a < N - 1
    ensures ClientSession(N, k, 1, ServerEphemeral(N, k, ExpMod(GENERATOR, 1, N), 1),
                          Secret(a, ExpMod(GENERATOR, a, N), N - 1 - a)) == 1
    ensures ServerSession(N, ExpMod(GENERATOR, 1, N), 1, ExpMod(GENERATOR, a, N), N - 1 - a) == ExpMod(GENERATOR, N - 1, N)
    ensures Agree(N, k, 1, 1, a, N - 1 - a) <==> FermatModulus(N)
  {
    var u := N - 1 - a;
    ClientExponentZero(N, k, ServerEphemeral(N, k, ExpMod(GENERATOR, 1, N), 1), a, ExpMod(GENERATOR, a, N));
    ServerResidue(N, 1, 1, a, u);
    PowSmall(GENERATOR);
    PowAdd(GENERATOR, a, u);
    PowSmall(Pow(GENERATOR, N - 1));
  }

  /** Exactly which moduli make every handshake agree: a test the client could run, and does not. */
  lemma SessionsAgreeIff(N: nat)
    requires N > 2
    ensures (forall k: nat, x: nat, b: nat, a: nat, u: nat :: Agree(N, k, x, b, a, u)) <==> FermatModulus(N)
  {
    if FermatModulus(N) {
      forall k: nat, x: nat, b: nat, a: nat, u: nat ensures Agree(N, k, x, b, a, u) {
        SessionsAgree(N, k, x, b, a, u);
      }
    } else {
      AgreementForces(N, 0, 1);
    }
  }

  // ---- transcripts ----

  lemma FixedInjective(m: nat, n: nat, w: nat)
    requires m < Pow(256, w) && n < Pow(256, w)
    ensures Fixed(m, w) == Fixed(n, w) <==> m == n
  {
    DecodeFixed(m, w);
    DecodeFixed(n, w);
  }

  /** The fixed widths make the hashed transcript injective in all three numbers. */
  lemma TranscriptInjective(l: nat, A: nat, B: nat, S: nat, A': nat, B': nat, S': nat)
    requires var m := Pow(256, l / 8); A < m && B < m && S < m && A' < m && B' < m && S' < m
    ensures ClientTranscript(l, A, B, S) == ClientTranscript(l, A', B', S') <==> A == A' && B == B' && S == S'
  {
    var w := l / 8;
    var t, t' := ClientTranscript(l, A, B, S), ClientTranscript(l, A', B', S');
    assert t[..w] == Fixed(A, w) && t[w..2 * w] == Fixed(B, w) && t[2 * w..] == Fixed(S, w);
    assert t'[..w] == Fixed(A', w) && t'[w..2 * w] == Fixed(B', w) && t'[2 * w..] == Fixed(S', w);
    FixedInjective(A, A', w);
    FixedInjective(B, B', w);
    FixedInjective(S, S', w);
  }

  // What a successful handshake consists of.
  lemma ProofsAreOf(H: Hash, l: nat, mod: seq<byte>, hashed: seq<byte>, server: seq<byte>, draws: seq<nat>)
    requires l >= 8 && Generate(H, l, mod, hashed, server, draws).Ok?
    ensures var N, x, B := LittleEndian(mod), LittleEndian(hashed), LittleEndian(server);
            && BitLen(N) == l && N >= 128 && B < N && DrawSecret(H, l, N, B, draws).Some?
            && var s := DrawSecret(H, l, N, B, draws).value;
               && s == Secret(s.exponent, ExpMod(GENERATOR, s.exponent, N), s.scrambling)
               && s.scrambling == LittleEndian(H(Fixed(s.ephemeral, l / 8) + Fixed(B, l / 8)))
               && Generate(H, l, mod, hashed, server, draws).value
                  == ProofsOf(H, l, B, s.ephemeral, ClientSession(N, Multiplier(H, l, mod) % N, x, B, s))
  {
    GenerateSucceedsIff(H, l, mod, hashed, server, draws);
    SecretInRange(H, l, LittleEndian(mod), LittleEndian(server), draws);
  }

  // With equal sessions each side's proof is what the other expects.
  lemma ReplyIsExpected(H: Hash, l: nat, N: nat, v: nat, b: nat, B: nat, A: nat, session: nat)
    requires N > 0 && A < Pow(256, l / 8)
    requires session == ServerSession(N, v, b, A, LittleEndian(H(Fixed(A, l / 8) + Fixed(B, l / 8))))
    ensures var p := ProofsOf(H, l, B, A, session);
            ServerReply(H, l, N, v, b, Fixed(B, l / 8), p.clientEphemeral, p.clientProof) == Some(p.expectedServerProof)
  {
    DecodeFixed(A, l / 8);
  }

  /**
    End to end: whatever the hash, a server holding the verifier 2^x and the
    exponent b accepts the client's proof, and answers with the very proof the
    client expects, for every modulus on which sessions agree.
   */
  lemma HandshakeAccepts(H: Hash, l: nat, mod: seq<byte>, hashed: seq<byte>, draws: seq<nat>, b: nat)
    requires l % 8 == 0 && l >= 8
    requires FermatModulus(LittleEndian(mod))
    requires var N := LittleEndian(mod);
             var B := ServerEphemeral(N, ServerMultiplier(H, l, mod) % N, ExpMod(GENERATOR, LittleEndian(hashed), N), b);
             Generate(H, l, mod, hashed, Fixed(B, l / 8), draws).Ok?
    ensures var N := LittleEndian(mod);
            var v := ExpMod(GENERATOR, LittleEndian(hashed), N);
            var server := Fixed(ServerEphemeral(N, ServerMultiplier(H, l, mod) % N, v, b), l / 8);
            var p := Generate(H, l, mod, hashed, server, draws).value;
            ServerReply(H, l, N, v, b, server, p.clientEphemeral, p.clientProof) == Some(p.expectedServerProof)
  {
    var N, x := LittleEndian(mod), LittleEndian(hashed);
    var k := Multiplier(H, l, mod) % N;
    var v := ExpMod(GENERATOR, x, N);
    var B := ServerEphemeral(N, k, v, b);
    FitsWidth(l, N, B);
    DecodeFixed(B, l / 8);
    ProofsAreOf(H, l, mod, hashed, Fixed(B, l / 8), draws);
    var s := DrawSecret(H, l, N, B, draws).value;
    SessionsAgree(N, k, x, b, s.exponent, s.scrambling);
    FitsWidth(l, N, s.ephemeral);
    ReplyIsExpected(H, l, N, v, b, B, s.ephemeral, ServerSession(N, v, b, s.ephemeral, s.scrambling));
  }

  /**
    A server with any other verifier or exponent that hashes its ephemeral in the
    fixed width accepts exactly when its session equals the client's, provided the
    hash does not collide on the two transcripts.  The bytes sent may have any length.
   */
  lemma ServerAcceptsIffSessionsEqual(H: Hash, l: nat, mod: seq<byte>, hashed: seq<byte>, serverBytes: seq<byte>,
                                      draws: seq<nat>, verifier: nat, b: nat)
    requires l % 8 == 0 && l >= 8
    requires Generate(H, l, mod, hashed, serverBytes, draws).Ok?
    ensures var N, B := LittleEndian(mod), LittleEndian(serverBytes);
            var p := Generate(H, l, mod, hashed, serverBytes, draws).value;
            N >= 128 && DrawSecret(H, l, N, B, draws).Some? &&
            var s := DrawSecret(H, l, N, B, draws).value;
            var mine := ClientSession(N, Multiplier(H, l, mod) % N, LittleEndian(hashed), B, s);
            var theirs := ServerSession(N, verifier, b, s.ephemeral, s.scrambling);
            var t, t' := ClientTranscript(l, s.ephemeral, B, mine), ClientTranscript(l, s.ephemeral, B, theirs);
            (H(t) == H(t') ==> t == t') ==>
            (ServerReply(H, l, N, verifier, b, Fixed(B, l / 8), p.clientEphemeral, p.clientProof).Some? <==> mine == theirs)
  {
    var N, B := LittleEndian(mod), LittleEndian(serverBytes);
    GenerateSucceedsIff(H, l, mod, hashed, serverBytes, draws);
    SecretInRange(H, l, N, B, draws);
    var s := DrawSecret(H, l, N, B, draws).value;
    var mine := ClientSession(N, Multiplier(H, l, mod) % N, LittleEndian(hashed), B, s);
    var theirs := ServerSession(N, verifier, b, s.ephemeral, s.scrambling);
    FitsWidth(l, N, s.ephemeral);
    FitsWidth(l, N, B);
    FitsWidth(l, N, mine);
    FitsWidth(l, N, theirs);
    DecodeFixed(s.ephemeral, l / 8);
    TranscriptInjective(l, s.ephemeral, B, mine, s.ephemeral, B, theirs);
  }

  /**
    A server that hashes an ephemeral of another length as it was sent refuses the
    client, whatever the sessions, provided the hash does not collide on the two
    transcripts: the client re-encodes the number in the fixed width.
   */
  lemma OtherLengthsAreRefused(H: Hash, l: nat, mod: seq<byte>, hashed: seq<byte>, serverBytes: seq<byte>,
                               draws: seq<nat>, verifier: nat, b: nat)
    requires l % 8 == 0 && l >= 8 && |serverBytes| != l / 8
    requires Generate(H, l, mod, hashed, serverBytes, draws).Ok?
    ensures var N, B := LittleEndian(mod), LittleEndian(serverBytes);
            var p := Generate(H, l, mod, hashed, serverBytes, draws).value;
            N >= 128 && DrawSecret(H, l, N, B, draws).Some? &&
            var s := DrawSecret(H, l, N, B, draws).value;
            var mine := ClientSession(N, Multiplier(H, l, mod) % N, LittleEndian(hashed), B, s);
            var theirs := ServerSession(N, verifier, b, s.ephemeral, LittleEndian(H(p.clientEphemeral + serverBytes)));
            var t, t' := ClientTranscript(l, s.ephemeral, B, mine), p.clientEphemeral + serverBytes + Fixed(theirs, l / 8);
            (H(t) == H(t') ==> t == t') ==>
            ServerReply(H, l, N, verifier, b, serverBytes, p.clientEphemeral, p.clientProof) == None
  {
    var N, B := LittleEndian(mod), LittleEndian(serverBytes);
    GenerateSucceedsIff(H, l, mod, hashed, serverBytes, draws);
    SecretInRange(H, l, N, B, draws);
    var s := DrawSecret(H, l, N, B, draws).value;
    FitsWidth(l, N, s.ephemeral);
    DecodeFixed(s.ephemeral, l / 8);
    var mine := ClientSession(N, Multiplier(H, l, mod) % N, LittleEndian(hashed), B, s);
    assert |ClientTranscript(l, s.ephemeral, B, mine)| == 3 * (l / 8);
  }
}
