/** The order in which `srp` decodes, hashes and proves, and what a login achieves. */
module Login {
  import opened Wrappers
  import opened NumberTheory
  import opened Codec
  import opened Password
  import opened Srp
  import opened SrpAgreement

  datatype LoginError =
    | BadModulus
    | BadServerEphemeral
    | BadSalt
    | PasswordFailed(password: PasswordError)
    | HandshakeFailed(srp: SrpError)

  datatype Library = Library(
    decodeModulus: string -> Option<seq<byte>>,
    decodeBase64: string -> Option<seq<byte>>,
    sha512: Digest,
    bcrypt: Bcrypt)

  datatype AuthInfo = AuthInfo(version: int, modulus: string, serverEphemeral: string, salt: string)

  function ExpandedHash(lib: Library): Hash {
    (b: seq<byte>) => Expand(lib.sha512, b)
  }

  function LoginProofs(lib: Library, password: seq<byte>, info: AuthInfo, draws: seq<nat>): Result<Proofs, LoginError> {
    match (lib.decodeModulus(info.modulus), lib.decodeBase64(info.serverEphemeral), lib.decodeBase64(info.salt))
    case (None, _, _) => Err(BadModulus)
    case (Some(_), None, _) => Err(BadServerEphemeral)
    case (Some(_), Some(_), None) => Err(BadSalt)
    case (Some(modulus), Some(ephemeral), Some(salt)) =>
      match PasswordHash(lib.sha512, lib.bcrypt, info.version, password, salt, modulus)
      case Err(e) => Err(PasswordFailed(e))
      case Ok(hashed) =>
        match Generate(ExpandedHash(lib), 2048, modulus, hashed, ephemeral, draws)
        case Err(e) => Err(HandshakeFailed(e))
        case Ok(p) => Ok(p)
  }

  method FromSeq(s: seq<byte>) returns (a: array<byte>)
    ensures fresh(a) && a[..] == s
  {
    a := new byte[|s|](k requires 0 <= k < |s| => s[k]);
  }

  /** `srp`: the password is hashed before `generateProofs` reverses the modulus it was hashed with. */
  method RunSrp(lib: Library, password: seq<byte>, info: AuthInfo, random: RandomSource)
    returns (r: Result<Proofs, LoginError>)
    modifies random
    ensures r == LoginProofs(lib, password, info, old(random.draws))
  {
    var decoded := lib.decodeModulus(info.modulus);
    if decoded == None {
      return Err(BadModulus);
    }
    var ephemeralBytes := lib.decodeBase64(info.serverEphemeral);
    if ephemeralBytes == None {
      return Err(BadServerEphemeral);
    }
    var saltBytes := lib.decodeBase64(info.salt);
    if saltBytes == None {
      return Err(BadSalt);
    }
    var modulus := FromSeq(decoded.value);
    var ephemeral := FromSeq(ephemeralBytes.value);
    var salt := FromSeq(saltBytes.value);
    var saltSlice := Slice(salt, 0, salt.Length, salt.Length);
    assert saltSlice.Contents() == saltBytes.value;
    var hashed := HashPassword(lib.sha512, lib.bcrypt, info.version, password, saltSlice, modulus);
    if hashed.Err? {
      return Err(PasswordFailed(hashed.error));
    }
    var hashedArray := FromSeq(hashed.value);
    var proofs := GenerateProofs(2048, ExpandedHash(lib), modulus, hashedArray, ephemeral, random);
    if proofs.Err? {
      return Err(HandshakeFailed(proofs.error));
    }
    r := Ok(proofs.value);
  }

  /** The handshake hashes with four digests of 64 bytes, each with its counter. */
  lemma HandshakeHashIsExpanded(lib: Library, b: seq<byte>, k: byte)
    requires k < 4 && forall t :: |lib.sha512(t)| == 64
    ensures |ExpandedHash(lib)(b)| == 256
    ensures ExpandedHash(lib)(b)[64 * k..64 * (k + 1)] == lib.sha512(b + [k])
  {
    ExpandBlock(lib.sha512, b, k);
  }

  /** Each failure is reported by the first step that fails, and the handshake runs at 2048 bits. */
  lemma LoginErrors(lib: Library, password: seq<byte>, info: AuthInfo, draws: seq<nat>)
    ensures var r := LoginProofs(lib, password, info, draws);
            var mod, eph, salt := lib.decodeModulus(info.modulus), lib.decodeBase64(info.serverEphemeral), lib.decodeBase64(info.salt);
            && (r == Err(BadModulus) <==> mod == None)
            && (r == Err(BadServerEphemeral) <==> mod.Some? && eph == None)
            && (r == Err(BadSalt) <==> mod.Some? && eph.Some? && salt == None)
            && (mod.Some? && eph.Some? && salt.Some? ==>
                  match PasswordHash(lib.sha512, lib.bcrypt, info.version, password, salt.value, mod.value)
                  case Err(e) => r == Err(PasswordFailed(e))
                  case Ok(x) =>
                    match Generate(ExpandedHash(lib), 2048, mod.value, x, eph.value, draws)
                    case Err(e) => r == Err(HandshakeFailed(e))
                    case Ok(p) => r == Ok(p))
  {}

  lemma LoginIsGenerate(lib: Library, password: seq<byte>, info: AuthInfo, draws: seq<nat>, l: nat,
                        mod: seq<byte>, salt: seq<byte>, x: seq<byte>, server: seq<byte>)
    requires l == 2048
    requires lib.decodeModulus(info.modulus) == Some(mod)
    requires lib.decodeBase64(info.salt) == Some(salt)
    requires lib.decodeBase64(info.serverEphemeral) == Some(server)
    requires PasswordHash(lib.sha512, lib.bcrypt, info.version, password, salt, mod) == Ok(x)
    requires LoginProofs(lib, password, info, draws).Ok?
    ensures var g := Generate(ExpandedHash(lib), l, mod, x, server, draws);
            g.Ok? && g.value == LoginProofs(lib, password, info, draws).value
  {}

  /**
    Logging in with the registered password: the server that stored 2^x for the
    x derived from that password, salt and modulus accepts the proof, and its
    answer is the one the client waits for.
   */
  lemma LoginAccepted(lib: Library, password: seq<byte>, info: AuthInfo, draws: seq<nat>, b: nat, l: nat,
                      mod: seq<byte>, salt: seq<byte>, x: seq<byte>, server: seq<byte>)
    requires l == 2048
    requires lib.decodeModulus(info.modulus) == Some(mod) && FermatModulus(LittleEndian(mod))
    requires lib.decodeBase64(info.salt) == Some(salt)
    requires PasswordHash(lib.sha512, lib.bcrypt, info.version, password, salt, mod) == Ok(x)
    requires var N, H := LittleEndian(mod), ExpandedHash(lib);
             server == Fixed(ServerEphemeral(N, ServerMultiplier(H, l, mod) % N, ExpMod(GENERATOR, LittleEndian(x), N), b), l / 8)
    requires lib.decodeBase64(info.serverEphemeral) == Some(server)
    requires LoginProofs(lib, password, info, draws).Ok?
    ensures var N, p := LittleEndian(mod), LoginProofs(lib, password, info, draws).value;
            ServerReply(ExpandedHash(lib), l, N, ExpMod(GENERATOR, LittleEndian(x), N), b,
                        server, p.clientEphemeral, p.clientProof)
            == Some(p.expectedServerProof)
  {
    LoginIsGenerate(lib, password, info, draws, l, mod, salt, x, server);
    HandshakeAccepts(ExpandedHash(lib), l, mod, x, draws, b);
  }
}
