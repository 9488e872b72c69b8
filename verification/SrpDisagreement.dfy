/**
  Which moduli make every handshake complete.  On any other, runs are given in
  which every check of the client passes and the honest server refuses its proof.
 */
module SrpDisagreement {
  import opened Wrappers
  import opened NumberTheory
  import opened Codec
  import opened Srp
  import opened SrpAgreement

  lemma SmallPowers()
    ensures Pow(GENERATOR, 2) == 4 && Pow(GENERATOR, 7) == 128
  {
    assert Pow(GENERATOR, 3) == 8 && Pow(GENERATOR, 4) == 16;
    PowAdd(GENERATOR, 4, 3);
  }

  // ---- a refused run for every modulus that fails the test ----

  /** One step beyond the shortest exponent the client accepts. */
  function Exponent(l: nat): nat {
    2 * l + 1
  }

  /**
    A hash with digests of l/8 bytes, as the library's is for l = 2048: it gives
    the multiplier 2, the scrambling parameter N-1-a, and the session of a transcript.
   */
  function ChosenHash(l: nat, N: nat): Hash
    requires Exponent(l) < N - 1
  {
    var w := l / 8;
    (t: seq<byte>) =>
      if t == Fixed(GENERATOR, w) + Fixed(N, w) then Fixed(GENERATOR, w)
      else if |t| == 2 * w then Fixed(N - 1 - Exponent(l), w)
      else if |t| == 3 * w then t[2 * w..]
      else Zeros(w)
  }

  ghost predicate DigestLength(H: Hash, w: nat) {
    forall t :: |H(t)| == w
  }

  lemma {:induction false} ExponentFits(l: nat)
    requires l >= 8
    ensures Pow(2, l - 1) >= 128 && Exponent(l) < Pow(2, l - 1) - 1
  {
    if l == 8 {
      SmallPowers();
    } else {
      ExponentFits(l - 1);
    }
  }

  lemma ExponentBelow(l: nat, N: nat)
    requires l >= 8 && BitLen(N) == l
    ensures N >= 128 && Exponent(l) < N - 1
  {
    ExponentFits(l);
    BitLenRange(N);
  }

  lemma ModulusDecodes(l: nat, N: nat)
    requires l % 8 == 0 && BitLen(N) == l
    ensures LittleEndian(Fixed(N, l / 8)) == N
  {
    FitsWidth(l, N, N);
    DecodeFixed(N, l / 8);
  }

  lemma MultiplierIsTwo(l: nat, N: nat)
    requires l >= 8 && Exponent(l) < N - 1
    ensures Multiplier(ChosenHash(l, N), l, Fixed(N, l / 8)) == 2
  {
    GeneratorFits(l);
    DecodeFixed(GENERATOR, l / 8);
  }

  lemma ScramblingIsChosen(l: nat, N: nat, A: nat)
    requires l % 8 == 0 && l >= 8 && BitLen(N) == l && Exponent(l) < N - 1 && N >= 128
    ensures Scrambling(ChosenHash(l, N), l, A, 6) == N - 1 - Exponent(l)
  {
    var w := l / 8;
    var t, prefix := Fixed(A, w) + Fixed(6, w), Fixed(GENERATOR, w) + Fixed(N, w);
    FitsWidth(l, N, 6);
    FitsWidth(l, N, N);
    FixedInjective(6, N, w);
    assert t[w..] == Fixed(6, w) && prefix[w..] == Fixed(N, w);
    FitsWidth(l, N, N - 1 - Exponent(l));
    DecodeFixed(N - 1 - Exponent(l), w);
  }

  // The server that registered x = 1 and drew b = 1.
  lemma EphemeralIsSix(N: nat)
    requires N >= 128
    ensures ExpMod(GENERATOR, 1, N) == 2
    ensures ServerEphemeral(N, 2, 2, 1) == 6
  {
    PowSmall(GENERATOR);
  }

  lemma SixDecodes(w: nat)
    requires w >= 1
    ensures LittleEndian(Fixed(6, w)) == 6
  {
    PowMonotone(256, 1, w);
    PowSmall(256);
    DecodeFixed(6, w);
  }

  lemma Unreduced(a: nat, m: nat)
    requires a < m
    ensures a % m == a
  {}

  lemma DrawAccepted(H: Hash, l: nat, N: nat, a: nat, A: nat)
    requires 2 * l < a < N - 1 && ExpMod(GENERATOR, a, N) == A && Scrambling(H, l, A, 6) != 0
    ensures DrawSecret(H, l, N, 6, [a]) == Some(Secret(a, A, Scrambling(H, l, A, 6)))
  {
    Unreduced(a, N - 1);
    assert Acceptable(H, l, N, 6, a);
    assert SecretOf(H, l, N, 6, a) == Secret(a, A, Scrambling(H, l, A, 6));
  }

  lemma LittleEndianOne()
    ensures LittleEndian([1]) == 1
  {
    assert [1][1..] == [];
  }

  // Passing the checks one by one.
  lemma GenerateIs(H: Hash, l: nat, mod: seq<byte>, hashed: seq<byte>, server: seq<byte>, draws: seq<nat>,
                   k: nat, s: Secret, session: nat)
    requires var N, B := LittleEndian(mod), LittleEndian(server);
             && l >= 8 && BitLen(N) == l && N >= 128
             && Multiplier(H, l, mod) == k && InBounds(k, N) && InBounds(B, N)
             && DrawSecret(H, l, N, B, draws) == Some(s)
             && ClientSession(N, k, LittleEndian(hashed), B, s) == session
    ensures Generate(H, l, mod, hashed, server, draws)
            == Ok(ProofsOf(H, l, LittleEndian(server), s.ephemeral, session))
  {
    Unreduced(k, LittleEndian(mod));
  }

  lemma ProofsProduced(l: nat, N: nat, A: nat)
    requires l % 8 == 0 && l >= 8 && BitLen(N) == l && Exponent(l) < N - 1 && N >= 128
    requires A == ExpMod(GENERATOR, Exponent(l), N)
    ensures Generate(ChosenHash(l, N), l, Fixed(N, l / 8), [1], Fixed(6, l / 8), [Exponent(l)])
            == Ok(ProofsOf(ChosenHash(l, N), l, 6, A, 1))
  {
    var H, a := ChosenHash(l, N), Exponent(l);
    ModulusDecodes(l, N);
    SixDecodes(l / 8);
    MultiplierIsTwo(l, N);
    LittleEndianOne();
    ScramblingIsChosen(l, N, A);
    DrawAccepted(H, l, N, a, A);
    ClientExponentZero(N, 2, 6, a, A);
    GenerateIs(H, l, Fixed(N, l / 8), [1], Fixed(6, l / 8), [a], 2, Secret(a, A, N - 1 - a), 1);
  }

  // The hash keeps the two sessions apart.
  lemma TranscriptsDiffer(l: nat, N: nat, A: nat, S: nat)
    requires l % 8 == 0 && l >= 8 && BitLen(N) == l && Exponent(l) < N - 1
    requires S < N && S != 1
    ensures ChosenHash(l, N)(ClientTranscript(l, A, 6, S)) != ChosenHash(l, N)(ClientTranscript(l, A, 6, 1))
  {
    var w := l / 8;
    var t, t' := ClientTranscript(l, A, 6, S), ClientTranscript(l, A, 6, 1);
    FitsWidth(l, N, S);
    FitsWidth(l, N, 1);
    FixedInjective(S, 1, w);
    assert t[2 * w..] == Fixed(S, w) && t'[2 * w..] == Fixed(1, w);
  }

  lemma RefusedByServer(l: nat, N: nat, A: nat)
    requires l % 8 == 0 && l >= 8 && BitLen(N) == l && Exponent(l) < N - 1 && N >= 128
    requires A == ExpMod(GENERATOR, Exponent(l), N) && !FermatModulus(N)
    ensures var H := ChosenHash(l, N);
            var p := ProofsOf(H, l, 6, A, 1);
            ServerReply(H, l, N, 2, 1, Fixed(6, l / 8), p.clientEphemeral, p.clientProof) == None
  {
    var S := ExpMod(GENERATOR, N - 1, N);
    ScramblingIsChosen(l, N, A);
    FitsWidth(l, N, A);
    DecodeFixed(A, l / 8);
    EphemeralIsSix(N);
    AgreementForces(N, 2, Exponent(l));
    TranscriptsDiffer(l, N, A, S);
  }

  // The verifier and the ephemeral of that server.
  lemma HonestServer(l: nat, N: nat)
    requires l % 8 == 0 && l >= 8 && BitLen(N) == l && Exponent(l) < N - 1 && N >= 128
    ensures LittleEndian(Fixed(N, l / 8)) == N
    ensures var k := ServerMultiplier(ChosenHash(l, N), l, Fixed(N, l / 8)) % N;
            var v := ExpMod(GENERATOR, LittleEndian([1]), N);
            v == 2 && ServerEphemeral(N, k, v, 1) == 6
  {
    ModulusDecodes(l, N);
    EphemeralIsSix(N);
    MultiplierIsTwo(l, N);
    Unreduced(2, N);
    LittleEndianOne();
  }

  /** What a handshake is for: if the client gets its proofs, the server holding 2^x accepts and answers as expected. */
  ghost predicate Completes(H: Hash, l: nat, mod: seq<byte>, hashed: seq<byte>, draws: seq<nat>, b: nat)
    requires l >= 8 && LittleEndian(mod) > 0
  {
    var N := LittleEndian(mod);
    var v := ExpMod(GENERATOR, LittleEndian(hashed), N);
    var server := Fixed(ServerEphemeral(N, ServerMultiplier(H, l, mod) % N, v, b), l / 8);
    var g := Generate(H, l, mod, hashed, server, draws);
    g.Ok? ==>
      ServerReply(H, l, N, v, b, server, g.value.clientEphemeral, g.value.clientProof) == Some(g.value.expectedServerProof)
  }

  /** On a modulus that fails the test the client produces proofs, and the server that sent that ephemeral refuses them. */
  lemma ServerCanRefuse(l: nat, N: nat)
    requires l % 8 == 0 && l >= 8 && BitLen(N) == l && !FermatModulus(N)
    ensures Exponent(l) < N - 1 && DigestLength(ChosenHash(l, N), l / 8)
    ensures LittleEndian(Fixed(N, l / 8)) == N
    ensures var H, mod := ChosenHash(l, N), Fixed(N, l / 8);
            var v := ExpMod(GENERATOR, LittleEndian([1]), N);
            var server := Fixed(ServerEphemeral(N, ServerMultiplier(H, l, mod) % N, v, 1), l / 8);
            var g := Generate(H, l, mod, [1], server, [Exponent(l)]);
            && g.Ok?
            && ServerReply(H, l, N, v, 1, server, g.value.clientEphemeral, g.value.clientProof) == None
    ensures !Completes(ChosenHash(l, N), l, Fixed(N, l / 8), [1], [Exponent(l)], 1)
  {
    ExponentBelow(l, N);
    var A := ExpMod(GENERATOR, Exponent(l), N);
    HonestServer(l, N);
    ProofsProduced(l, N, A);
    RefusedByServer(l, N, A);
  }

  ghost predicate AllComplete(l: nat, N: nat)
    requires l >= 8 && N > 0
  {
    forall H: Hash, mod, hashed, draws, b: nat :: LittleEndian(mod) == N ==> Completes(H, l, mod, hashed, draws, b)
  }

  ghost predicate AllOfLengthComplete(l: nat, N: nat)
    requires l >= 8 && N > 0
  {
    forall H: Hash, mod, hashed, draws, b: nat ::
      LittleEndian(mod) == N && DigestLength(H, l / 8) ==> Completes(H, l, mod, hashed, draws, b)
  }

  lemma FermatCompletes(H: Hash, l: nat, mod: seq<byte>, hashed: seq<byte>, draws: seq<nat>, b: nat)
    requires l % 8 == 0 && l >= 8 && FermatModulus(LittleEndian(mod))
    ensures Completes(H, l, mod, hashed, draws, b)
  {
    var N := LittleEndian(mod);
    var B := ServerEphemeral(N, ServerMultiplier(H, l, mod) % N, ExpMod(GENERATOR, LittleEndian(hashed), N), b);
    if Generate(H, l, mod, hashed, Fixed(B, l / 8), draws).Ok? {
      HandshakeAccepts(H, l, mod, hashed, draws, b);
    }
  }

  /**
    Every handshake on a modulus completes exactly when the modulus passes the
    Fermat test for the generator, even if digests always have l/8 bytes.
   */
  lemma HandshakesCompleteIff(l: nat, N: nat)
    requires l % 8 == 0 && l >= 8 && BitLen(N) == l && N > 0
    ensures AllComplete(l, N) <==> FermatModulus(N)
    ensures AllOfLengthComplete(l, N) <==> FermatModulus(N)
  {
    if FermatModulus(N) {
      forall H: Hash, mod, hashed, draws, b: nat | LittleEndian(mod) == N ensures Completes(H, l, mod, hashed, draws, b) {
        FermatCompletes(H, l, mod, hashed, draws, b);
      }
    } else {
      ServerCanRefuse(l, N);
    }
  }

  // ---- moduli of every length that fail it ----

  lemma DoubleBits(p: nat)
    requires p > 0
    ensures BitLen(2 * p) == 1 + BitLen(p)
  {
    assert (2 * p) / 2 == p;
  }

  lemma {:induction false} PowerBits(n: nat)
    ensures Pow(2, n) > 0 && BitLen(Pow(2, n)) == n + 1
  {
    if n == 0 {
      assert BitLen(1) == 1 + BitLen(0);
    } else {
      PowerBits(n - 1);
      DoubleBits(Pow(2, n - 1));
    }
  }

  // An even number leaves an even remainder modulo an even number.
  lemma EvenFails(half: nat, p: nat)
    requires half > 0
    ensures (2 * p) % (2 * half) != 1
  {
    var q, r := (2 * p) / (2 * half), (2 * p) % (2 * half);
    Associate(2, half, q);
    assert r == 2 * (p - half * q);
  }

  /** Even numbers fail the test, and there is one of every bit length the client accepts. */
  lemma EvenModulusFails(l: nat)
    requires l >= 8
    ensures Pow(2, l - 1) > 0 && BitLen(Pow(2, l - 1)) == l && !FermatModulus(Pow(2, l - 1))
  {
    PowerBits(l - 1);
    ExponentFits(l);
    var N := Pow(2, l - 1);
    PowPos(2, l - 2);
    PowPos(2, N - 2);
    EvenFails(Pow(2, l - 2), Pow(2, N - 2));
  }

  // ---- an odd modulus ----

  // 2^14 leaves 1, hence 2^128 == 2^126 * 4 leaves 4.
  lemma FermatTestAt129()
    ensures ExpMod(GENERATOR, 128, 129) == 4
  {
    SmallPowers();
    PowAdd(GENERATOR, 7, 7);
    assert 128 * 128 == 127 * 129 + 1;
    PowCong(Pow(GENERATOR, 14), 1, 9, 129);
    PowOne(9);
    PowMul(GENERATOR, 14, 9);
    PowAdd(GENERATOR, 126, 2);
    MulCong(Pow(GENERATOR, 126), 1, 4, 4, 129);
  }

  /** On a modulus that fails the test every range check can pass: with N = 129, k = 2 and a = 100 the sessions are 1 and 4. */
  lemma CompositeModulusDisagrees()
    ensures var s := Secret(100, ExpMod(GENERATOR, 100, 129), 28);
            var v := ExpMod(GENERATOR, 1, 129);
            var B := ServerEphemeral(129, 2, v, 1);
            && BitLen(129) == 8 && InBounds(2, 129) && InBounds(B, 129) && 2 * 8 < s.exponent < 128
            && ClientSession(129, 2, 1, B, s) == 1
            && ServerSession(129, v, 1, s.ephemeral, s.scrambling) == 4
  {
    AgreementForces(129, 2, 100);
    PowSmall(GENERATOR);
    FermatTestAt129();
  }
}
