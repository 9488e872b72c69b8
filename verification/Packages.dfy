/**
  Packaging an outgoing message for its recipients (messages.go): one symmetric
  key per body, given in the clear to external recipients and sealed to the key
  of each Proton recipient.
 */
module Packages {
  import opened Wrappers
  import opened Codec
  import KeyChoice

  datatype Cipher = AES128 | AES192 | AES256 | OtherCipher(id: nat)

  datatype SymKey = SymKey(cipher: Cipher, key: seq<byte>)

  datatype PackedKey = PackedKey(algorithm: string, key: string)

  datatype PublicKey = PublicKey(entity: string, choice: KeyChoice.Choice)

  datatype PackageKind = Internal | Cleartext

  datatype Package = Package(
    kind: PackageKind,
    bodyKeyPacket: string,
    attachmentKeyPackets: map<string, string>,
    signature: int)

  /** The randomness of one AddInternal: None for the body key, Some for each attachment. */
  type Coins = Option<string> -> nat

  /** OpenPGP session-key packets and base64, as functions. */
  datatype Library = Library(
    seal: (PublicKey, nat, SymKey) -> Option<string>,
    unseal: (PublicKey, string) -> Option<SymKey>,
    encode: seq<byte> -> string,
    decode: string -> Option<seq<byte>>)

  ghost predicate Lawful(lib: Library) {
    && (forall pub, coin, k :: lib.seal(pub, coin, k).Some? ==> lib.unseal(pub, lib.seal(pub, coin, k).value) == Some(k))
    && (forall b :: lib.decode(lib.encode(b)) == Some(b))
  }

  const MASK_INTERNAL: bv64 := 1
  const MASK_CLEARTEXT: bv64 := 4

  function Mask(kind: PackageKind): bv64 {
    if kind.Internal? then MASK_INTERNAL else MASK_CLEARTEXT
  }

  predicate Supported(c: Cipher) {
    !c.OtherCipher?
  }

  function CipherName(c: Cipher): string
    requires Supported(c)
  {
    match c
    case AES128 => "aes128"
    case AES192 => "aes192"
    case AES256 => "aes256"
  }

  function CipherNamed(name: string): Option<Cipher> {
    if name == "aes128" then Some(AES128)
    else if name == "aes192" then Some(AES192)
    else if name == "aes256" then Some(AES256)
    else None
  }

  function Pack(lib: Library, k: SymKey): PackedKey
    requires Supported(k.cipher)
  {
    PackedKey(CipherName(k.cipher), lib.encode(k.key))
  }

  /** What the API makes of a packed key. */
  function Unpack(lib: Library, p: PackedKey): Option<SymKey> {
    match (CipherNamed(p.algorithm), lib.decode(p.key))
    case (Some(c), Some(k)) => Some(SymKey(c, k))
    case _ => None
  }

  // ---- the state of a set, with its history ----

  datatype State = State(
    mask: bv64,
    addresses: map<string, Package>,
    mimeType: string,
    packedBody: Option<PackedKey>,                        // BodyKey
    packedAttachments: Option<map<string, PackedKey>>,    // AttachmentKeys
    bodyKey: Option<SymKey>,
    attachmentKeys: map<string, SymKey>,
    signature: int,
    // history
    exposed: Option<SymKey>,                              // the body key when it was first packed
    kinds: set<PackageKind>)                              // the kinds of all successful adds

  datatype SignerChoice = Unsigned | GoodSigner | UnusableSigner

  datatype Op =
    | Encrypt(mimeType: string, newKey: Option<seq<byte>>, signer: SignerChoice)
    | AddCleartext(addr: string)
    | AddInternal(addr: string, pub: PublicKey, coins: Coins)

  function New(attachmentKeys: map<string, SymKey>): State {
    State(0, map[], "", None, None, None, attachmentKeys, 0, None, {})
  }

  predicate Packable(s: State) {
    && s.bodyKey.Some? && Supported(s.bodyKey.value.cipher)
    && forall a :: a in s.attachmentKeys ==> Supported(s.attachmentKeys[a].cipher)
  }

  /** Adds need a body key, and packing a key of an unsupported cipher panics. */
  predicate Allowed(s: State, op: Op) {
    match op
    case Encrypt(_, _, _) => true
    case AddInternal(_, _, _) => s.bodyKey.Some?
    case AddCleartext(_) => Packable(s)
  }

  function EncryptStep(s: State, mimeType: string, newKey: Option<seq<byte>>, signer: SignerChoice): (State, bool) {
    var s1 := s.(mimeType := mimeType);
    if newKey.None? then (s1, false)
    else
      var s2 := s1.(bodyKey := Some(SymKey(AES256, newKey.value)));
      match signer
      case Unsigned => (s2, true)
      case GoodSigner => (s2.(signature := 1), true)
      case UnusableSigner => (s2, false)
  }

  /** Packs the keys in the clear, unless that has been done before. */
  function Exposed(lib: Library, s: State): State
    requires Packable(s)
  {
    if s.packedBody.Some? && s.packedAttachments.Some? then s
    else s.(packedBody := Some(Pack(lib, s.bodyKey.value)),
            packedAttachments := Some(map a | a in s.attachmentKeys :: Pack(lib, s.attachmentKeys[a])),
            exposed := s.bodyKey)
  }

  function ClearStep(lib: Library, s: State, addr: string): State
    requires Packable(s)
  {
    Exposed(lib, s.(addresses := s.addresses[addr := Package(Cleartext, "", map[], s.signature)],
                    mask := s.mask | MASK_CLEARTEXT,
                    kinds := s.kinds + {Cleartext}))
  }

  predicate Sealable(lib: Library, s: State, pub: PublicKey, coins: Coins)
    requires s.bodyKey.Some?
  {
    && lib.seal(pub, coins(None), s.bodyKey.value).Some?
    && forall a :: a in s.attachmentKeys ==> lib.seal(pub, coins(Some(a)), s.attachmentKeys[a]).Some?
  }

  function InternalStep(lib: Library, s: State, addr: string, pub: PublicKey, coins: Coins): (State, bool)
    requires s.bodyKey.Some?
  {
    if !Sealable(lib, s, pub, coins) then (s, false)
    else
      var packets := map a | a in s.attachmentKeys :: lib.seal(pub, coins(Some(a)), s.attachmentKeys[a]).value;
      var pkg := Package(Internal, lib.seal(pub, coins(None), s.bodyKey.value).value, packets, s.signature);
      (s.(addresses := s.addresses[addr := pkg],
          mask := s.mask | MASK_INTERNAL,
          kinds := s.kinds + {Internal}), true)
  }

  function Step(lib: Library, s: State, op: Op): (State, bool)
    requires Allowed(s, op)
  {
    match op
    case Encrypt(mimeType, newKey, signer) => EncryptStep(s, mimeType, newKey, signer)
    case AddCleartext(addr) => (ClearStep(lib, s, addr), true)
    case AddInternal(addr, pub, coins) => InternalStep(lib, s, addr, pub, coins)
  }

  /** A run of calls; None when one of them was not allowed. */
  function Run(lib: Library, s: State, ops: seq<Op>): Option<State>
    decreases |ops|
  {
    if ops == [] then Some(s)
    else if !Allowed(s, ops[0]) then None
    else Run(lib, Step(lib, s, ops[0]).0, ops[1..])
  }

  // ---- the code ----

  /** The key is the one `encryptionKey` hands out, with what that guarantees. */
  ghost predicate Qualifies(entity: KeyChoice.Entity, choice: KeyChoice.Choice) {
    && KeyChoice.Choosable(entity)
    && KeyChoice.EncryptionKeyOf(entity) == Some(choice)
    && match choice
       case SubkeyAt(i) =>
         && i < |entity.subkeys| && KeyChoice.CanEncryptWith(entity.subkeys[i])
         && (KeyChoice.NewestFirst(entity.subkeys, i) <==> KeyChoice.ZeroTimeHarmless(entity.subkeys))
       case PrimaryAs(identity) =>
         && KeyChoice.IsPrimaryIdentity(entity.identities, identity) && KeyChoice.PrimaryEncrypts(entity, identity)
         && forall k :: k in entity.subkeys ==> !KeyChoice.CanEncryptWith(k)
  }

  method PackAttachments(lib: Library, keys: map<string, SymKey>) returns (packed: map<string, PackedKey>)
    requires forall a :: a in keys ==> Supported(keys[a].cipher)
    ensures packed == map a | a in keys :: Pack(lib, keys[a])
  {
    packed := map[];
    var todo := keys.Keys;
    while todo != {}
      invariant todo <= keys.Keys
      invariant packed == map a | a in keys && a !in todo :: Pack(lib, keys[a])
      decreases todo
    {
      var att :| att in todo;
      todo := todo - {att};
      packed := packed[att := Pack(lib, keys[att])];
    }
  }

  method SealAttachments(lib: Library, keys: map<string, SymKey>, pub: PublicKey, coins: Coins)
    returns (packets: Option<map<string, string>>)
    ensures packets.Some? <==> forall a :: a in keys ==> lib.seal(pub, coins(Some(a)), keys[a]).Some?
    ensures packets.Some? ==> packets.value == map a | a in keys :: lib.seal(pub, coins(Some(a)), keys[a]).value
  {
    var sealed: map<string, string> := map[];
    var todo := keys.Keys;
    while todo != {}
      invariant todo <= keys.Keys
      invariant forall a :: a in keys && a !in todo ==> lib.seal(pub, coins(Some(a)), keys[a]).Some?
      invariant sealed == map a | a in keys && a !in todo :: lib.seal(pub, coins(Some(a)), keys[a]).value
      decreases todo
    {
      var att :| att in todo;
      todo := todo - {att};
      var packet := lib.seal(pub, coins(Some(att)), keys[att]);
      if packet == None {
        return None;
      }
      sealed := sealed[att := packet.value];
    }
    packets := Some(sealed);
  }

  class MessagePackageSet {
    const lib: Library
    const attachmentKeys: map<string, SymKey>
    var mask: bv64
    var addresses: map<string, Package>
    var mimeType: string
    var packedBody: Option<PackedKey>
    var packedAttachments: Option<map<string, PackedKey>>
    var bodyKey: Option<SymKey>
    var signature: int
    ghost var exposed: Option<SymKey>
    ghost var kinds: set<PackageKind>

    ghost function View(): State
      reads this
    {
      State(mask, addresses, mimeType, packedBody, packedAttachments, bodyKey, attachmentKeys, signature,
            exposed, kinds)
    }

    constructor (lib: Library, attachmentKeys: map<string, SymKey>)
      ensures View() == New(attachmentKeys) && this.lib == lib
    {
      this.lib, this.attachmentKeys := lib, attachmentKeys;
      mask, addresses, mimeType, packedBody, packedAttachments := 0, map[], "", None, None;
      bodyKey, signature, exposed, kinds := None, 0, None, {};
    }

    method Encrypt(mimeType: string, newKey: Option<seq<byte>>, signer: SignerChoice) returns (ok: bool)
      modifies this
      ensures (View(), ok) == EncryptStep(old(View()), mimeType, newKey, signer)
    {
      this.mimeType := mimeType;
      if newKey == None {
        return false;
      }
      bodyKey := Some(SymKey(AES256, newKey.value));
      if signer == UnusableSigner {
        return false;
      }
      if signer == GoodSigner {
        signature := 1;
      }
      ok := true;
    }

    /** The part of `AddCleartext` that runs the first time only. */
    method ExposeKeys()
      requires Packable(View())
      modifies this`packedBody, this`packedAttachments, this`exposed
      ensures View() == Exposed(lib, old(View()))
    {
      if packedBody == None || packedAttachments == None {
        packedBody := Some(Pack(lib, bodyKey.value));
        exposed := bodyKey;
        var packed := PackAttachments(lib, attachmentKeys);
        packedAttachments := Some(packed);
      }
    }

    method AddCleartext(addr: string) returns (pkg: Package)
      requires Packable(View())
      modifies this
      ensures View() == ClearStep(lib, old(View()), addr)
      ensures addr in addresses && addresses[addr] == pkg
    {
      pkg := Package(Cleartext, "", map[], signature);
      addresses := addresses[addr := pkg];
      mask := mask | MASK_CLEARTEXT;
      kinds := kinds + {Cleartext};
      ExposeKeys();
    }

    /** `AddInternal`: nothing is stored until every key has been sealed. */
    method AddInternal(addr: string, pub: PublicKey, coins: Coins) returns (pkg: Option<Package>)
      requires Allowed(View(), Op.AddInternal(addr, pub, coins))
      modifies this
      ensures (View(), pkg.Some?) == InternalStep(lib, old(View()), addr, pub, coins)
      ensures pkg.Some? <==>
              && lib.seal(pub, coins(None), old(bodyKey).value).Some?
              && forall a :: a in attachmentKeys ==> lib.seal(pub, coins(Some(a)), attachmentKeys[a]).Some?
      ensures pkg.Some? ==> addr in addresses && addresses[addr] == pkg.value
      ensures pkg.None? ==> View() == old(View())
    {
      var bodyPacket := lib.seal(pub, coins(None), bodyKey.value);
      if bodyPacket == None {
        return None;
      }
      var packets := SealAttachments(lib, attachmentKeys, pub, coins);
      if packets == None {
        return None;
      }
      mask := mask | MASK_INTERNAL;
      pkg := Some(Package(Internal, bodyPacket.value, packets.value, signature));
      addresses := addresses[addr := pkg.value];
      kinds := kinds + {Internal};
    }

    /**
      The key selection in front of it.  It succeeds exactly when the entity has an
      encryption key to which the body key and every attachment key can be sealed.
     */
    method AddRecipient(addr: string, entityId: string, entity: KeyChoice.Entity, coins: Coins) returns (pkg: Option<Package>)
      requires bodyKey.Some? && KeyChoice.Choosable(entity)
      modifies this
      ensures pkg.None? ==> View() == old(View())
      ensures var choice := KeyChoice.EncryptionKeyOf(entity);
              pkg.Some? <==>
              && choice.Some?
              && var pub := PublicKey(entityId, choice.value);
                 && lib.seal(pub, coins(None), old(bodyKey).value).Some?
                 && forall a :: a in attachmentKeys ==> lib.seal(pub, coins(Some(a)), attachmentKeys[a]).Some?
      ensures pkg.Some? ==>
                var choice := KeyChoice.EncryptionKeyOf(entity).value;
                && Qualifies(entity, choice)
                && InternalStep(lib, old(View()), addr, PublicKey(entityId, choice), coins) == (View(), true)
                && addr in addresses && addresses[addr] == pkg.value
    {
      var choice := KeyChoice.EncryptionKey(entity);
      if choice == None {
        return None;
      }
      pkg := AddInternal(addr, PublicKey(entityId, choice.value), coins);
    }
  }
}
