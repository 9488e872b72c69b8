/**
  The client side of the SRP-6a handshake (srp.go), an honest server written
  from the protocol's own equations, and the proof that the two agree.

  The hash is an arbitrary function `H`; the random source is an arbitrary
  finite list of draws, after which reading it fails.
 */
module Srp {
  import opened Wrappers
  import opened NumberTheory
  import opened Codec

  type Hash = seq<byte> -> seq<byte>

  datatype Proofs = Proofs(clientEphemeral: seq<byte>, clientProof: seq<byte>, expectedServerProof: seq<byte>)

  datatype SrpError =
    | ModulusSize
    | MultiplierOutOfBounds
    | GeneratorOutOfBounds
    | EphemeralOutOfBounds
    | RandomFailed
    | MalformedServerProof
    | InvalidServerProof

  const GENERATOR: nat := 2

  class RandomSource {
    var draws: seq<nat>

    constructor (draws: seq<nat>)
      ensures this.draws == draws
    {
      this.draws := draws;
    }

    /** `rand.Int`: a number below `max`, or a failure once the reader is exhausted. */
    method Int(max: nat) returns (r: Option<nat>)
      requires max > 0
      modifies this
      ensures old(draws) == [] ==> r == None && draws == []
      ensures old(draws) != [] ==> r == Some(old(draws)[0] % max) && draws == old(draws)[1..]
    {
      if draws == [] {
        return None;
      }
      r := Some(draws[0] % max);
      draws := draws[1..];
    }
  }

  // ---- what the client computes ----

  datatype Secret = Secret(exponent: nat, ephemeral: nat, scrambling: nat)

  function Multiplier(H: Hash, l: nat, modulusBytes: seq<byte>): nat {
    LittleEndian(H(Fixed(GENERATOR, l / 8) + modulusBytes))
  }

  function Scrambling(H: Hash, l: nat, clientEphemeral: nat, serverEphemeral: nat): nat {
    LittleEndian(H(Fixed(clientEphemeral, l / 8) + Fixed(serverEphemeral, l / 8)))
  }

  predicate Acceptable(H: Hash, l: nat, modulus: nat, serverEphemeral: nat, draw: nat)
    requires modulus > 1
  {
    var a := draw % (modulus - 1);
    a > 2 * l && Scrambling(H, l, ExpMod(GENERATOR, a, modulus), serverEphemeral) != 0
  }

  function SecretOf(H: Hash, l: nat, modulus: nat, serverEphemeral: nat, draw: nat): Secret
    requires modulus > 1
  {
    var a := draw % (modulus - 1);
    var ephemeral := ExpMod(GENERATOR, a, modulus);
    Secret(a, ephemeral, Scrambling(H, l, ephemeral, serverEphemeral))
  }

  /** The rejection sampling: redraw while the exponent is small or the scrambling parameter is zero. */
  function DrawSecret(H: Hash, l: nat, modulus: nat, serverEphemeral: nat, draws: seq<nat>): Option<Secret>
    requires modulus > 1
  {
    if draws == [] then None
    else if Acceptable(H, l, modulus, serverEphemeral, draws[0])
    then Some(SecretOf(H, l, modulus, serverEphemeral, draws[0]))
    else DrawSecret(H, l, modulus, serverEphemeral, draws[1..])
  }

  /** B - k * 2^x, brought back into range by adding N once when negative. */
  function Subtracted(modulus: nat, multiplier: nat, hashed: nat, serverEphemeral: nat): int
    requires modulus > 0
  {
    var d := serverEphemeral - (ExpMod(GENERATOR, hashed, modulus) * multiplier) % modulus;
    if d < 0 then d + modulus else d
  }

  function ClientSession(modulus: nat, multiplier: nat, hashed: nat, serverEphemeral: nat, secret: Secret): nat
    requires modulus > 1
  {
    var exponent := (secret.scrambling * hashed + secret.exponent) % (modulus - 1);
    ExpMod(Subtracted(modulus, multiplier, hashed, serverEphemeral), exponent, modulus)
  }

  function ClientTranscript(l: nat, clientEphemeral: nat, serverEphemeral: nat, session: nat): seq<byte> {
    Fixed(clientEphemeral, l / 8) + Fixed(serverEphemeral, l / 8) + Fixed(session, l / 8)
  }

  function ProofsOf(H: Hash, l: nat, serverEphemeral: nat, clientEphemeral: nat, session: nat): Proofs {
    var m1 := H(ClientTranscript(l, clientEphemeral, serverEphemeral, session));
    Proofs(Fixed(clientEphemeral, l / 8), m1, H(Fixed(clientEphemeral, l / 8) + m1 + Fixed(session, l / 8)))
  }

  predicate InBounds(n: nat, modulus: nat) {
    1 < n < modulus - 1
  }

  lemma ModulusIsLarge(l: nat, modulus: nat)
    requires l >= 8 && BitLen(modulus) == l
    ensures modulus >= 128
  {
    BitLenRange(modulus);
    PowMonotone(2, 7, l - 1);
    assert Pow(2, 7) == 128;
  }

  function Generate(H: Hash, l: nat, modulusBytes: seq<byte>, hashedBytes: seq<byte>,
                    serverEphemeralBytes: seq<byte>, draws: seq<nat>): Result<Proofs, SrpError>
    requires l >= 8
  {
    var modulus := LittleEndian(modulusBytes);
    var hashed := LittleEndian(hashedBytes);
    var serverEphemeral := LittleEndian(serverEphemeralBytes);
    if BitLen(modulus) != l then Err(ModulusSize)
    else
      ModulusIsLarge(l, modulus);
      var multiplier := Multiplier(H, l, modulusBytes) % modulus;
      if !InBounds(multiplier, modulus) then Err(MultiplierOutOfBounds)
      else if !InBounds(GENERATOR, modulus) then Err(GeneratorOutOfBounds)
      else if !InBounds(serverEphemeral, modulus) then Err(EphemeralOutOfBounds)
      else match DrawSecret(H, l, modulus, serverEphemeral, draws)
        case None => Err(RandomFailed)
        case Some(secret) =>
          var session := ClientSession(modulus, multiplier, hashed, serverEphemeral, secret);
          Ok(ProofsOf(H, l, serverEphemeral, secret.ephemeral, session))
  }

  /** Numbers below a modulus of `l` bits fit the fixed width, so no padding length is negative. */
  lemma FitsWidth(l: nat, modulus: nat, n: nat)
    requires l % 8 == 0 && BitLen(modulus) == l && n <= modulus
    ensures n < Pow(256, l / 8)
  {
    BitLenRange(modulus);
    BytesOfBits(l / 8);
    assert 8 * (l / 8) == l;
  }

  lemma GeneratorFits(l: nat)
    requires l >= 8
    ensures GENERATOR < Pow(256, l / 8)
  {
    PowMonotone(256, 1, l / 8);
    assert Pow(256, 1) == 256;
  }

  /** `atoi(hash(input))`: the digest lives in a buffer of its own, which `atoi` reverses. */
  method HashToNumber(H: Hash, input: seq<byte>) returns (n: nat)
    ensures n == LittleEndian(H(input))
  {
    var digest := H(input);
    var buffer := new byte[|digest|](i requires 0 <= i < |digest| => digest[i]);
    assert buffer[..] == digest;
    n := Atoi(buffer);
  }

  /** The part of `generateProofs` after the secret is drawn. */
  method FinishProofs(l: nat, H: Hash, modulus: nat, multiplier: nat, hashed: nat, serverEphemeral: nat, secret: Secret)
    returns (r: Result<Proofs, SrpError>)
    requires l % 8 == 0 && BitLen(modulus) == l && modulus > 1
    requires serverEphemeral < modulus && secret.ephemeral < modulus
    ensures r == Ok(ProofsOf(H, l, serverEphemeral, secret.ephemeral,
                             ClientSession(modulus, multiplier, hashed, serverEphemeral, secret)))
  {
    var subtracted := serverEphemeral - (ExpMod(GENERATOR, hashed, modulus) * multiplier) % modulus;
    if subtracted < 0 {
      subtracted := subtracted + modulus;
    }
    var exponent := (secret.scrambling * hashed + secret.exponent) % (modulus - 1);
    var sharedSession := ExpMod(subtracted, exponent, modulus);
    assert sharedSession == ClientSession(modulus, multiplier, hashed, serverEphemeral, secret);

    FitsWidth(l, modulus, secret.ephemeral);
    FitsWidth(l, modulus, serverEphemeral);
    FitsWidth(l, modulus, sharedSession);
    var clientBytes := Itoa(secret.ephemeral, l);
    var serverBytes := Itoa(serverEphemeral, l);
    var sessionBytes := Itoa(sharedSession, l);

    var clientProof := [];
    clientProof := clientProof + clientBytes;
    clientProof := clientProof + serverBytes;
    clientProof := clientProof + sessionBytes;
    assert clientProof == ClientTranscript(l, secret.ephemeral, serverEphemeral, sharedSession);
    clientProof := H(clientProof);

    var serverProof := [];
    serverProof := serverProof + clientBytes;
    serverProof := serverProof + clientProof;
    serverProof := serverProof + sessionBytes;
    assert serverProof == clientBytes + clientProof + sessionBytes;
    serverProof := H(serverProof);

    r := Ok(Proofs(clientBytes, clientProof, serverProof));
  }

  /** The nested sampling loops of `generateProofs`. */
  method DrawLoop(l: nat, H: Hash, modulus: nat, serverEphemeral: nat, random: RandomSource)
    returns (clientSecret: Option<nat>, clientEphemeral: nat, scramblingParam: nat)
    requires l % 8 == 0 && BitLen(modulus) == l && modulus > 1 && serverEphemeral < modulus
    modifies random
    ensures clientSecret == None ==> DrawSecret(H, l, modulus, serverEphemeral, old(random.draws)) == None
    ensures clientSecret.Some? ==>
              && clientEphemeral < modulus
              && DrawSecret(H, l, modulus, serverEphemeral, old(random.draws))
                 == Some(Secret(clientSecret.value, clientEphemeral, scramblingParam))
  {
    clientSecret, clientEphemeral, scramblingParam := None, 0, 0;
    ghost var goal := DrawSecret(H, l, modulus, serverEphemeral, random.draws);
    while true
      invariant DrawSecret(H, l, modulus, serverEphemeral, random.draws) == goal
      decreases |random.draws|
    {
      ghost var last := 0;
      ghost var bound := |random.draws|;
      while true
        invariant DrawSecret(H, l, modulus, serverEphemeral, random.draws) == goal
        invariant |random.draws| <= bound
        decreases |random.draws|
      {
        last := if random.draws == [] then 0 else random.draws[0];
        clientSecret := random.Int(modulus - 1);
        if clientSecret == None {
          return;
        }
        if clientSecret.value <= 2 * l {
          continue;
        }
        break;
      }
      clientEphemeral := ExpMod(GENERATOR, clientSecret.value, modulus);
      FitsWidth(l, modulus, clientEphemeral);
      FitsWidth(l, modulus, serverEphemeral);
      var clientBytes := Itoa(clientEphemeral, l);
      var serverBytes := Itoa(serverEphemeral, l);
      scramblingParam := HashToNumber(H, clientBytes + serverBytes);
      if scramblingParam == 0 {
        continue;
      }
      break;
    }
  }

  /**
    The code.  Each of the three caller buffers is reversed exactly once on every
    path, and the multiplier is hashed over the modulus bytes before that.
   */
  method GenerateProofs(l: nat, H: Hash, modulusBytes: array<byte>, hashedBytes: array<byte>,
                        serverEphemeralBytes: array<byte>, random: RandomSource)
    returns (r: Result<Proofs, SrpError>)
    requires l % 8 == 0 && l >= 8
    requires modulusBytes != hashedBytes && modulusBytes != serverEphemeralBytes && hashedBytes != serverEphemeralBytes
    modifies modulusBytes, hashedBytes, serverEphemeralBytes, random
    ensures modulusBytes[..] == Reversed(old(modulusBytes[..]))
    ensures hashedBytes[..] == Reversed(old(hashedBytes[..]))
    ensures serverEphemeralBytes[..] == Reversed(old(serverEphemeralBytes[..]))
    ensures r == Generate(H, l, old(modulusBytes[..]), old(hashedBytes[..]), old(serverEphemeralBytes[..]), old(random.draws))
  {
    var generator := GENERATOR;
    GeneratorFits(l);
    var prefix := Itoa(generator, l);
    var multiplier := HashToNumber(H, prefix + modulusBytes[..]);
    var modulus := Atoi(modulusBytes);
    var hashed := Atoi(hashedBytes);
    var serverEphemeral := Atoi(serverEphemeralBytes);

    var modulusMinusOne: int := modulus - 1;
    if BitLen(modulus) != l {
      return Err(ModulusSize);
    }
    ModulusIsLarge(l, modulus);

    multiplier := multiplier % modulus;
    if multiplier <= 1 || multiplier >= modulusMinusOne {
      return Err(MultiplierOutOfBounds);
    }
    if generator <= 1 || generator >= modulusMinusOne {
      return Err(GeneratorOutOfBounds);
    }
    if serverEphemeral <= 1 || serverEphemeral >= modulusMinusOne {
      return Err(EphemeralOutOfBounds);
    }

    var clientSecret, clientEphemeral, scramblingParam := DrawLoop(l, H, modulus, serverEphemeral, random);
    if clientSecret == None {
      return Err(RandomFailed);
    }
    r := FinishProofs(l, H, modulus, multiplier, hashed, serverEphemeral,
                      Secret(clientSecret.value, clientEphemeral, scramblingParam));
  }

  /** `VerifyServerProof` around an arbitrary base64 decoder. */
  method VerifyServerProof(p: Proofs, decode: string -> Option<seq<byte>>, serverProofString: string)
    returns (r: Result<(), SrpError>)
    ensures r.Ok? <==> decode(serverProofString) == Some(p.expectedServerProof)
    ensures r == Err(MalformedServerProof) <==> decode(serverProofString) == None
  {
    var serverProof := decode(serverProofString);
    if serverProof == None {
      return Err(MalformedServerProof);
    }
    if p.expectedServerProof != serverProof.value {
      return Err(InvalidServerProof);
    }
    r := Ok(());
  }
}
