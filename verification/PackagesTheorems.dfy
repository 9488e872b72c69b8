/** What every run of Encrypt and Add calls on a package set guarantees. */
module PackagesTheorems {
  import opened Wrappers
  import opened Codec
  import opened Packages

  // ---- invariants ----

  ghost predicate PackedInv(lib: Library, s: State) {
    && (s.packedBody.Some? <==> Cleartext in s.kinds)
    && (s.packedAttachments.Some? <==> Cleartext in s.kinds)
    && (s.exposed.Some? <==> Cleartext in s.kinds)
    && (s.packedBody.Some? ==> Unpack(lib, s.packedBody.value) == s.exposed)
    && (s.packedAttachments.Some? ==>
          && s.packedAttachments.value.Keys == s.attachmentKeys.Keys
          && forall a :: a in s.attachmentKeys ==> Unpack(lib, s.packedAttachments.value[a]) == Some(s.attachmentKeys[a]))
  }

  function KindsMask(kinds: set<PackageKind>): bv64 {
    (if Internal in kinds then MASK_INTERNAL else 0) | (if Cleartext in kinds then MASK_CLEARTEXT else 0)
  }

  ghost predicate MaskInv(s: State) {
    && s.mask == KindsMask(s.kinds)
    && forall addr :: addr in s.addresses ==> s.addresses[addr].kind in s.kinds
  }

  ghost predicate Inv(lib: Library, s: State) {
    PackedInv(lib, s) && MaskInv(s)
  }

  // ---- preservation ----

  lemma CipherNamesDiffer()
    ensures "aes128" != "aes192" && "aes128" != "aes256" && "aes192" != "aes256"
  {
    assert "aes128"[3] == '1' && "aes192"[3] == '1' && "aes256"[3] == '2';
    assert "aes128"[4] == '2' && "aes192"[4] == '9';
  }

  lemma UnpackPacked(lib: Library, k: SymKey)
    requires Lawful(lib) && Supported(k.cipher)
    ensures Unpack(lib, Pack(lib, k)) == Some(k)
  {
    assert lib.decode(lib.encode(k.key)) == Some(k.key);
    CipherNamesDiffer();
  }

  lemma ClearKeepsPacked(lib: Library, s: State, addr: string)
    requires Lawful(lib) && Packable(s) && PackedInv(lib, s)
    ensures PackedInv(lib, ClearStep(lib, s, addr))
  {
    UnpackPacked(lib, s.bodyKey.value);
    forall a | a in s.attachmentKeys
      ensures Unpack(lib, Pack(lib, s.attachmentKeys[a])) == Some(s.attachmentKeys[a])
    {
      UnpackPacked(lib, s.attachmentKeys[a]);
    }
  }

  lemma MaskAdds(kinds: set<PackageKind>, kind: PackageKind)
    ensures KindsMask(kinds) | Mask(kind) == KindsMask(kinds + {kind})
  {}

  lemma ClearKeepsInv(lib: Library, s: State, addr: string)
    requires Lawful(lib) && Packable(s) && Inv(lib, s)
    ensures Inv(lib, ClearStep(lib, s, addr))
  {
    ClearKeepsPacked(lib, s, addr);
    MaskAdds(s.kinds, Cleartext);
  }

  // Encrypt changes no package, no packed key and no mask.
  lemma EncryptKeepsInv(lib: Library, s: State, mimeType: string, newKey: Option<seq<byte>>, signer: SignerChoice)
    requires Inv(lib, s)
    ensures Inv(lib, EncryptStep(s, mimeType, newKey, signer).0)
  {}

  lemma InternalKeepsInv(lib: Library, s: State, addr: string, pub: PublicKey, coins: Coins)
    requires s.bodyKey.Some? && Inv(lib, s)
    ensures Inv(lib, InternalStep(lib, s, addr, pub, coins).0)
  {
    if Sealable(lib, s, pub, coins) {
      MaskAdds(s.kinds, Internal);
    }
  }

  lemma StepKeepsInv(lib: Library, s: State, op: Op)
    requires Lawful(lib) && Allowed(s, op) && Inv(lib, s)
    ensures Inv(lib, Step(lib, s, op).0)
  {
    match op
    case Encrypt(mimeType, newKey, signer) => EncryptKeepsInv(lib, s, mimeType, newKey, signer);
    case AddCleartext(addr) => ClearKeepsInv(lib, s, addr);
    case AddInternal(addr, pub, coins) => InternalKeepsInv(lib, s, addr, pub, coins);
  }

  lemma {:induction false} RunKeepsInv(lib: Library, s: State, ops: seq<Op>)
    requires Lawful(lib) && Inv(lib, s) && Run(lib, s, ops).Some?
    ensures Inv(lib, Run(lib, s, ops).value)
    ensures Run(lib, s, ops).value.attachmentKeys == s.attachmentKeys
    decreases |ops|
  {
    if ops == [] {
    } else {
      StepKeepsInv(lib, s, ops[0]);
      RunKeepsInv(lib, Step(lib, s, ops[0]).0, ops[1..]);
    }
  }

  // ---- what one call does ----

  /**
    When each call succeeds, and that Encrypt records the MIME type and a new
    AES-256 key even when the signer is unusable, while a failed AddInternal
    changes nothing.
   */
  lemma StepSucceedsIff(lib: Library, s: State, op: Op)
    requires Allowed(s, op)
    ensures var (t, ok) := Step(lib, s, op);
            match op
            case Encrypt(mimeType, newKey, signer) =>
              && (ok <==> newKey.Some? && !signer.UnusableSigner?)
              && t.mimeType == mimeType
              && t.bodyKey == (if newKey.Some? then Some(SymKey(AES256, newKey.value)) else s.bodyKey)
              && t.signature == (if newKey.Some? && signer.GoodSigner? then 1 else s.signature)
              && t.addresses == s.addresses && t.mask == s.mask
              && t.packedBody == s.packedBody && t.packedAttachments == s.packedAttachments
            case AddCleartext(_) => ok
            case AddInternal(_, pub, coins) =>
              && (ok <==> lib.seal(pub, coins(None), s.bodyKey.value).Some?
                          && forall a :: a in s.attachmentKeys ==> lib.seal(pub, coins(Some(a)), s.attachmentKeys[a]).Some?)
              && (!ok ==> t == s)
  {}

  /** The MIME type of the last Encrypt. */
  function LastMimeType(mimeType: string, ops: seq<Op>): string {
    if ops == [] then mimeType
    else if ops[|ops| - 1].Encrypt? then ops[|ops| - 1].mimeType
    else LastMimeType(mimeType, ops[..|ops| - 1])
  }

  lemma {:induction false} LastMimeTypeCons(mimeType: string, op: Op, ops: seq<Op>)
    ensures LastMimeType(mimeType, [op] + ops) == LastMimeType(if op.Encrypt? then op.mimeType else mimeType, ops)
  {
    var all := [op] + ops;
    if ops == [] {
      assert all[..0] == [];
    } else {
      LastMimeTypeCons(mimeType, op, ops[..|ops| - 1]);
      assert all[..|all| - 1] == [op] + ops[..|ops| - 1];
    }
  }

  lemma StepMimeType(lib: Library, s: State, op: Op)
    requires Allowed(s, op)
    ensures Step(lib, s, op).0.mimeType == if op.Encrypt? then op.mimeType else s.mimeType
  {}

  /** The set is sent with the MIME type of its last Encrypt, whether or not that call succeeded. */
  lemma {:induction false} MimeTypeIsLast(lib: Library, s: State, ops: seq<Op>)
    requires Run(lib, s, ops).Some?
    ensures Run(lib, s, ops).value.mimeType == LastMimeType(s.mimeType, ops)
    decreases |ops|
  {
    if ops == [] {
    } else {
      StepMimeType(lib, s, ops[0]);
      MimeTypeIsLast(lib, Step(lib, s, ops[0]).0, ops[1..]);
      LastMimeTypeCons(s.mimeType, ops[0], ops[1..]);
      assert ops == [ops[0]] + ops[1..];
    }
  }

  // ---- the key in the clear ----

  function NextKey(key: Option<SymKey>, op: Op): Option<SymKey> {
    if op.Encrypt? && op.newKey.Some? then Some(SymKey(AES256, op.newKey.value)) else key
  }

  /** The body key in force after these calls: only an Encrypt that gets a key changes it. */
  function KeyAfter(key: Option<SymKey>, ops: seq<Op>): Option<SymKey>
    decreases |ops|
  {
    if ops == [] then key else KeyAfter(NextKey(key, ops[0]), ops[1..])
  }

  /** The body key in force when AddCleartext is called for the first time. */
  function KeyAtFirstCleartext(key: Option<SymKey>, ops: seq<Op>): Option<SymKey>
    decreases |ops|
  {
    if ops == [] then None
    else if ops[0].AddCleartext? then key
    else KeyAtFirstCleartext(NextKey(key, ops[0]), ops[1..])
  }

  lemma StepKeys(lib: Library, s: State, op: Op)
    requires Allowed(s, op)
    requires s.packedBody.Some? == s.packedAttachments.Some? == s.exposed.Some?
    ensures var t := Step(lib, s, op).0;
            && t.packedBody.Some? == t.packedAttachments.Some? == t.exposed.Some?
            && t.bodyKey == NextKey(s.bodyKey, op)
            && t.exposed == if s.exposed.None? && op.AddCleartext? then s.bodyKey else s.exposed
  {}

  lemma {:induction false} KeysFollowCalls(lib: Library, s: State, ops: seq<Op>)
    requires Run(lib, s, ops).Some?
    requires s.packedBody.Some? == s.packedAttachments.Some? == s.exposed.Some?
    ensures var t := Run(lib, s, ops).value;
            && t.bodyKey == KeyAfter(s.bodyKey, ops)
            && t.exposed == if s.exposed.Some? then s.exposed else KeyAtFirstCleartext(s.bodyKey, ops)
    decreases |ops|
  {
    if ops == [] {
    } else {
      StepKeys(lib, s, ops[0]);
      KeysFollowCalls(lib, Step(lib, s, ops[0]).0, ops[1..]);
    }
  }

  /**
    With any number of Encrypt calls, BodyKey is the key in force at the first
    AddCleartext, so it describes the current key exactly when that has not changed since.
   */
  lemma BodyKeyIsCurrentIff(lib: Library, attachments: map<string, SymKey>, ops: seq<Op>)
    requires Lawful(lib) && Run(lib, New(attachments), ops).Some?
    requires Run(lib, New(attachments), ops).value.packedBody.Some?
    ensures var s := Run(lib, New(attachments), ops).value;
            && Unpack(lib, s.packedBody.value) == KeyAtFirstCleartext(None, ops)
            && (Unpack(lib, s.packedBody.value) == s.bodyKey <==> KeyAtFirstCleartext(None, ops) == KeyAfter(None, ops))
  {
    RunKeepsInv(lib, New(attachments), ops);
    KeysFollowCalls(lib, New(attachments), ops);
  }

  /** Which name goes with which cipher, and that no others are known. */
  lemma CipherNames(name: string)
    ensures CipherNamed(name) == Some(AES128) <==> name == "aes128"
    ensures CipherNamed(name) == Some(AES192) <==> name == "aes192"
    ensures CipherNamed(name) == Some(AES256) <==> name == "aes256"
    ensures CipherNamed(name) == None <==> name !in {"aes128", "aes192", "aes256"}
  {
    CipherNamesDiffer();
  }

  lemma {:induction false} KeysAreAES256(key: Option<SymKey>, ops: seq<Op>)
    requires key.Some? ==> key.value.cipher == AES256
    ensures KeyAtFirstCleartext(key, ops).Some? ==> KeyAtFirstCleartext(key, ops).value.cipher == AES256
    decreases |ops|
  {
    if ops == [] {
    } else {
      KeysAreAES256(NextKey(key, ops[0]), ops[1..]);
    }
  }

  /** BodyKey always names AES-256, and each attachment key its own cipher. */
  lemma PackedAlgorithms(lib: Library, attachments: map<string, SymKey>, ops: seq<Op>)
    requires Lawful(lib) && Run(lib, New(attachments), ops).Some?
    requires Run(lib, New(attachments), ops).value.packedBody.Some?
    ensures var s := Run(lib, New(attachments), ops).value;
            && s.packedBody.value.algorithm == "aes256"
            && s.packedAttachments.Some? && s.packedAttachments.value.Keys == attachments.Keys
            && forall a :: a in attachments ==>
                 var name := s.packedAttachments.value[a].algorithm;
                 match attachments[a].cipher
                 case AES128 => name == "aes128"
                 case AES192 => name == "aes192"
                 case AES256 => name == "aes256"
                 case OtherCipher(_) => false
  {
    var s := Run(lib, New(attachments), ops).value;
    RunKeepsInv(lib, New(attachments), ops);
    KeysFollowCalls(lib, New(attachments), ops);
    KeysAreAES256(None, ops);
    CipherNames(s.packedBody.value.algorithm);
    forall a | a in attachments
      ensures Unpack(lib, s.packedAttachments.value[a]) == Some(attachments[a])
      ensures CipherNamed(s.packedAttachments.value[a].algorithm) == Some(attachments[a].cipher)
    {
      CipherNames(s.packedAttachments.value[a].algorithm);
    }
  }

  /** A second Encrypt with another key leaves BodyKey describing the first. */
  lemma SecondEncryptLeavesStaleKey(lib: Library, k1: seq<byte>, k2: seq<byte>)
    requires Lawful(lib) && k1 != k2
    ensures var ops := [Encrypt("text/html", Some(k1), Unsigned), AddCleartext("a"), Encrypt("text/html", Some(k2), Unsigned)];
            var end := Run(lib, New(map[]), ops);
            && end.Some? && end.value.packedBody.Some?
            && Unpack(lib, end.value.packedBody.value) == Some(SymKey(AES256, k1))
            && end.value.bodyKey == Some(SymKey(AES256, k2))
  {
    var a, b, c := Encrypt("text/html", Some(k1), Unsigned), AddCleartext("a"), Encrypt("text/html", Some(k2), Unsigned);
    var s0 := New(map[]);
    var s1 := Step(lib, s0, a).0;
    var s2 := Step(lib, s1, b).0;
    var s3 := Step(lib, s2, c).0;
    UnpackPacked(lib, SymKey(AES256, k1));
    assert [c][1..] == [] && Run(lib, s3, []) == Some(s3) && Run(lib, s2, [c]) == Some(s3);
    assert [b, c][1..] == [c] && Run(lib, s1, [b, c]) == Some(s3);
    assert [a, b, c][1..] == [b, c];
  }

  // ---- the calls and what they returned ----

  datatype Call = Call(op: Op, ok: bool)

  function Calls(lib: Library, s: State, ops: seq<Op>): seq<Call>
    requires Run(lib, s, ops).Some?
    decreases |ops|
  {
    if ops == [] then []
    else
      var (t, ok) := Step(lib, s, ops[0]);
      [Call(ops[0], ok)] + Calls(lib, t, ops[1..])
  }

  function AddedKind(op: Op): Option<(string, PackageKind)> {
    match op
    case Encrypt(_, _, _) => None
    case AddCleartext(addr) => Some((addr, Cleartext))
    case AddInternal(addr, _, _) => Some((addr, Internal))
  }

  /** The call added a package of this kind for the address. */
  predicate Adds(c: Call, addr: string, kind: PackageKind) {
    c.ok && AddedKind(c.op) == Some((addr, kind))
  }

  predicate AddsFor(c: Call, addr: string) {
    Adds(c, addr, Internal) || Adds(c, addr, Cleartext)
  }

  /** The last call that added a package for the address. */
  function LastAdd(calls: seq<Call>, addr: string): (r: Option<nat>)
    ensures r.Some? ==> r.value < |calls| && AddsFor(calls[r.value], addr)
    ensures forall i :: (if r.Some? then r.value else -1) < i < |calls| ==> !AddsFor(calls[i], addr)
  {
    if calls == [] then None
    else if AddsFor(calls[|calls| - 1], addr) then Some(|calls| - 1)
    else LastAdd(calls[..|calls| - 1], addr)
  }

  predicate InstallsSigned(c: Call) {
    c.op.Encrypt? && c.op.newKey.Some? && c.op.signer == GoodSigner
  }

  /** The mark of a package added by the i-th call: some earlier Encrypt had a usable signer. */
  function SignatureBefore(calls: seq<Call>, i: nat): int
    requires i <= |calls|
  {
    if exists j :: 0 <= j < i && InstallsSigned(calls[j]) then 1 else 0
  }

  predicate HoldsNoKeys(pkg: Package) {
    pkg.bodyKeyPacket == "" && pkg.attachmentKeyPackets == map[]
  }

  ghost predicate PackageFollows(s: State, calls: seq<Call>, addr: string) {
    match LastAdd(calls, addr)
    case None => addr !in s.addresses
    case Some(i) =>
      && addr in s.addresses
      && Adds(calls[i], addr, s.addresses[addr].kind)
      && s.addresses[addr].signature == SignatureBefore(calls, i)
      && (calls[i].op.AddCleartext? ==> HoldsNoKeys(s.addresses[addr]))
  }

  ghost predicate KindFollows(s: State, calls: seq<Call>, kind: PackageKind) {
    kind in s.kinds <==> exists i, addr :: 0 <= i < |calls| && Adds(calls[i], addr, kind)
  }

  /** What a set records of the calls made on it. */
  ghost predicate Follows(s: State, calls: seq<Call>) {
    && (forall addr :: PackageFollows(s, calls, addr))
    && (forall kind :: KindFollows(s, calls, kind))
    && s.signature == SignatureBefore(calls, |calls|)
  }

  lemma SignatureStable(calls: seq<Call>, c: Call, i: nat)
    requires i <= |calls|
    ensures SignatureBefore(calls + [c], i) == SignatureBefore(calls, i)
    ensures SignatureBefore(calls + [c], |calls| + 1) == if InstallsSigned(c) then 1 else SignatureBefore(calls, |calls|)
  {
    var more := calls + [c];
    assert forall j :: 0 <= j < |calls| ==> more[j] == calls[j];
    assert more[|calls|] == c;
  }

  // What one call does to the package of an address, to the kinds and to the mark.
  lemma StepEffect(lib: Library, s: State, op: Op, addr: string)
    requires Allowed(s, op)
    ensures var (t, ok) := Step(lib, s, op);
            && t.signature == (if InstallsSigned(Call(op, ok)) then 1 else s.signature)
            && (if AddsFor(Call(op, ok), addr)
                then addr in t.addresses && Adds(Call(op, ok), addr, t.addresses[addr].kind) && t.addresses[addr].signature == s.signature
                     && (op.AddCleartext? ==> HoldsNoKeys(t.addresses[addr]))
                else (addr in t.addresses <==> addr in s.addresses) && (addr in s.addresses ==> t.addresses[addr] == s.addresses[addr]))
  {}

  lemma StepKinds(lib: Library, s: State, op: Op, kind: PackageKind)
    requires Allowed(s, op)
    ensures var (t, ok) := Step(lib, s, op);
            kind in t.kinds <==> kind in s.kinds || exists addr :: Adds(Call(op, ok), addr, kind)
  {
    var (t, ok) := Step(lib, s, op);
    match op
    case Encrypt(_, _, _) =>
    case AddCleartext(addr) => assert Adds(Call(op, ok), addr, Cleartext);
    case AddInternal(addr, _, _) => assert ok ==> Adds(Call(op, ok), addr, Internal);
  }

  lemma StepKeepsPackage(lib: Library, s: State, calls: seq<Call>, op: Op, addr: string)
    requires Allowed(s, op) && PackageFollows(s, calls, addr) && s.signature == SignatureBefore(calls, |calls|)
    ensures var (t, ok) := Step(lib, s, op);
            PackageFollows(t, calls + [Call(op, ok)], addr)
  {
    var c := Call(op, Step(lib, s, op).1);
    StepEffect(lib, s, op, addr);
    assert (calls + [c])[..|calls|] == calls;
    SignatureStable(calls, c, |calls|);
    if LastAdd(calls, addr).Some? {
      SignatureStable(calls, c, LastAdd(calls, addr).value);
    }
  }

  lemma StepKeepsKind(lib: Library, s: State, calls: seq<Call>, op: Op, kind: PackageKind)
    requires Allowed(s, op) && KindFollows(s, calls, kind)
    ensures var (t, ok) := Step(lib, s, op);
            KindFollows(t, calls + [Call(op, ok)], kind)
  {
    var (t, ok) := Step(lib, s, op);
    var more := calls + [Call(op, ok)];
    StepKinds(lib, s, op, kind);
    assert more[|calls|] == Call(op, ok) && forall i :: 0 <= i < |calls| ==> more[i] == calls[i];
    if kind in t.kinds {
      if kind in s.kinds {
        var i, addr :| 0 <= i < |calls| && Adds(calls[i], addr, kind);
        assert Adds(more[i], addr, kind);
      } else {
        var addr :| Adds(Call(op, ok), addr, kind);
        assert Adds(more[|calls|], addr, kind);
      }
    }
  }

  lemma CallsFrom(lib: Library, s: State, calls: seq<Call>, ops: seq<Op>)
    requires ops != [] && Run(lib, s, ops).Some?
    ensures var (t, ok) := Step(lib, s, ops[0]);
            calls + Calls(lib, s, ops) == (calls + [Call(ops[0], ok)]) + Calls(lib, t, ops[1..])
  {}

  lemma {:induction false} RunFollows(lib: Library, s: State, calls: seq<Call>, ops: seq<Op>)
    requires Run(lib, s, ops).Some? && Follows(s, calls)
    ensures Follows(Run(lib, s, ops).value, calls + Calls(lib, s, ops))
    decreases |ops|
  {
    if ops == [] {
      assert calls + [] == calls;
    } else {
      var (t, ok) := Step(lib, s, ops[0]);
      var c := Call(ops[0], ok);
      forall addr ensures PackageFollows(t, calls + [c], addr) { StepKeepsPackage(lib, s, calls, ops[0], addr); }
      forall kind ensures KindFollows(t, calls + [c], kind) { StepKeepsKind(lib, s, calls, ops[0], kind); }
      SignatureStable(calls, c, |calls|);
      StepEffect(lib, s, ops[0], "");
      RunFollows(lib, t, calls + [c], ops[1..]);
      CallsFrom(lib, s, calls, ops);
    }
  }

  /**
    Addresses holds exactly the last package added for each address, and each is
    marked signed exactly when some Encrypt before that add had a usable signer,
    even if later ones had none.  A cleartext package carries no keys.
   */
  lemma PackagesExact(lib: Library, attachments: map<string, SymKey>, ops: seq<Op>, addr: string)
    requires Run(lib, New(attachments), ops).Some?
    ensures var s, calls := Run(lib, New(attachments), ops).value, Calls(lib, New(attachments), ops);
            match LastAdd(calls, addr)
            case None => addr !in s.addresses
            case Some(i) =>
              && addr in s.addresses
              && Adds(calls[i], addr, s.addresses[addr].kind)
              && s.addresses[addr].signature == (if exists j :: 0 <= j < i && InstallsSigned(calls[j]) then 1 else 0)
              && (calls[i].op.AddCleartext? ==>
                    s.addresses[addr].bodyKeyPacket == "" && s.addresses[addr].attachmentKeyPackets == map[])
  {
    RunFollows(lib, New(attachments), [], ops);
    assert [] + Calls(lib, New(attachments), ops) == Calls(lib, New(attachments), ops);
    assert PackageFollows(Run(lib, New(attachments), ops).value, Calls(lib, New(attachments), ops), addr);
  }

  // ---- what recipients can open ----

  /** The package opens, with the private half of `pub`, to the body key and to every attachment key. */
  ghost predicate OpensTo(lib: Library, pkg: Package, pub: PublicKey, key: SymKey, attachments: map<string, SymKey>) {
    && lib.unseal(pub, pkg.bodyKeyPacket) == Some(key)
    && pkg.attachmentKeyPackets.Keys == attachments.Keys
    && forall a :: a in attachments ==> lib.unseal(pub, pkg.attachmentKeyPackets[a]) == Some(attachments[a])
  }

  lemma {:induction false} ClearedIff(lib: Library, s: State, ops: seq<Op>)
    requires Run(lib, s, ops).Some?
    ensures Cleartext in Run(lib, s, ops).value.kinds <==> Cleartext in s.kinds || exists op :: op in ops && op.AddCleartext?
    decreases |ops|
  {
    if ops == [] {
    } else {
      ClearedIff(lib, Step(lib, s, ops[0]).0, ops[1..]);
      assert forall op :: op in ops <==> op == ops[0] || op in ops[1..];
    }
  }

  /** The calls themselves, without what they returned. */
  function Ops(calls: seq<Call>): (ops: seq<Op>)
    ensures |ops| == |calls| && forall i :: 0 <= i < |calls| ==> ops[i] == calls[i].op
  {
    seq(|calls|, i requires 0 <= i < |calls| => calls[i].op)
  }

  lemma {:induction false} OpsOfCalls(lib: Library, s: State, ops: seq<Op>)
    requires Run(lib, s, ops).Some?
    ensures Ops(Calls(lib, s, ops)) == ops
    decreases |ops|
  {
    if ops == [] {
    } else {
      var (t, ok) := Step(lib, s, ops[0]);
      OpsOfCalls(lib, t, ops[1..]);
      assert Ops([Call(ops[0], ok)] + Calls(lib, t, ops[1..])) == [ops[0]] + Ops(Calls(lib, t, ops[1..]));
      assert ops == [ops[0]] + ops[1..];
    }
  }

  lemma {:induction false} KeyAfterSnoc(key: Option<SymKey>, ops: seq<Op>, op: Op)
    ensures KeyAfter(key, ops + [op]) == NextKey(KeyAfter(key, ops), op)
    decreases |ops|
  {
    if ops == [] {
      assert [op][1..] == [];
    } else {
      KeyAfterSnoc(NextKey(key, ops[0]), ops[1..], op);
      assert (ops + [op])[1..] == ops[1..] + [op];
    }
  }

  /** An internal package opens, with the key passed for it, to the body key that was in force then. */
  ghost predicate SealedBy(lib: Library, s: State, calls: seq<Call>, addr: string) {
    match LastAdd(calls, addr)
    case None => true
    case Some(i) =>
      calls[i].op.AddInternal? ==>
        var key := KeyAfter(None, Ops(calls)[..i]);
        && addr in s.addresses && key.Some?
        && OpensTo(lib, s.addresses[addr], calls[i].op.pub, key.value, s.attachmentKeys)
  }

  lemma SealedOpens(lib: Library, s: State, op: Op)
    requires Lawful(lib) && Allowed(s, op) && op.AddInternal? && Step(lib, s, op).1
    ensures var t := Step(lib, s, op).0;
            op.addr in t.addresses && OpensTo(lib, t.addresses[op.addr], op.pub, s.bodyKey.value, s.attachmentKeys)
  {}

  lemma StepKeepsAttachments(lib: Library, s: State, op: Op)
    requires Allowed(s, op)
    ensures Step(lib, s, op).0.attachmentKeys == s.attachmentKeys
    ensures Step(lib, s, op).0.bodyKey == NextKey(s.bodyKey, op)
  {}

  lemma StepKeepsSealed(lib: Library, s: State, calls: seq<Call>, op: Op, addr: string)
    requires Lawful(lib) && Allowed(s, op) && SealedBy(lib, s, calls, addr) && s.bodyKey == KeyAfter(None, Ops(calls))
    requires LastAdd(calls, addr).Some? ==> addr in s.addresses
    ensures SealedBy(lib, Step(lib, s, op).0, calls + [Call(op, Step(lib, s, op).1)], addr)
  {
    var c := Call(op, Step(lib, s, op).1);
    assert (calls + [c])[..|calls|] == calls;
    assert Ops(calls + [c]) == Ops(calls) + [op];
    if AddsFor(c, addr) {
      assert Ops(calls + [c])[..|calls|] == Ops(calls);
      if op.AddInternal? { SealedOpens(lib, s, op); }
    } else {
      StepEffect(lib, s, op, addr);
      StepKeepsAttachments(lib, s, op);
      if LastAdd(calls, addr).Some? {
        var i := LastAdd(calls, addr).value;
        assert Ops(calls + [c])[..i] == Ops(calls)[..i];
      }
    }
  }

  ghost predicate SealInv(lib: Library, s: State, calls: seq<Call>, addr: string) {
    && SealedBy(lib, s, calls, addr)
    && s.bodyKey == KeyAfter(None, Ops(calls))
    && (LastAdd(calls, addr).Some? ==> addr in s.addresses)
  }

  lemma StepKeepsSealInv(lib: Library, s: State, calls: seq<Call>, op: Op, addr: string)
    requires Lawful(lib) && Allowed(s, op) && SealInv(lib, s, calls, addr)
    ensures SealInv(lib, Step(lib, s, op).0, calls + [Call(op, Step(lib, s, op).1)], addr)
  {
    var c := Call(op, Step(lib, s, op).1);
    StepKeepsSealed(lib, s, calls, op, addr);
    StepKeepsAttachments(lib, s, op);
    StepEffect(lib, s, op, addr);
    KeyAfterSnoc(None, Ops(calls), op);
    assert Ops(calls + [c]) == Ops(calls) + [op];
    assert (calls + [c])[..|calls|] == calls;
  }

  lemma {:induction false} RunSeals(lib: Library, s: State, calls: seq<Call>, ops: seq<Op>, addr: string)
    requires Lawful(lib) && Run(lib, s, ops).Some? && SealInv(lib, s, calls, addr)
    ensures SealInv(lib, Run(lib, s, ops).value, calls + Calls(lib, s, ops), addr)
    ensures Run(lib, s, ops).value.attachmentKeys == s.attachmentKeys
    decreases |ops|
  {
    if ops == [] {
      assert calls + [] == calls;
    } else {
      var (t, ok) := Step(lib, s, ops[0]);
      var c := Call(ops[0], ok);
      StepKeepsSealInv(lib, s, calls, ops[0], addr);
      StepKeepsAttachments(lib, s, ops[0]);
      RunSeals(lib, t, calls + [c], ops[1..], addr);
      CallsFrom(lib, s, calls, ops);
    }
  }

  /**
    With any number of Encrypt calls, the package of a recipient last added by
    AddInternal opens, with the key passed in that very call, to the body key in
    force at that call and to every attachment key.
   */
  lemma PackagesOpen(lib: Library, attachments: map<string, SymKey>, ops: seq<Op>, addr: string)
    requires Lawful(lib) && Run(lib, New(attachments), ops).Some?
    ensures var s, last := Run(lib, New(attachments), ops).value, LastAdd(Calls(lib, New(attachments), ops), addr);
            last.Some? ==>
              && last.value < |ops|
              && (ops[last.value].AddInternal? ==>
                    var key := KeyAfter(None, ops[..last.value]);
                    && addr in s.addresses && key.Some?
                    && OpensTo(lib, s.addresses[addr], ops[last.value].pub, key.value, attachments))
  {
    RunSeals(lib, New(attachments), [], ops, addr);
    OpsOfCalls(lib, New(attachments), ops);
    assert [] + Calls(lib, New(attachments), ops) == Calls(lib, New(attachments), ops);
  }

  // ---- one key for all ----

  /** How many Encrypt calls got a key. */
  function Installs(ops: seq<Op>): nat {
    if ops == [] then 0
    else (if ops[0].Encrypt? && ops[0].newKey.Some? then 1 else 0) + Installs(ops[1..])
  }

  lemma {:induction false} NoInstallKeepsKey(key: Option<SymKey>, ops: seq<Op>, i: nat)
    requires Installs(ops) == 0 && i <= |ops|
    ensures KeyAfter(key, ops[..i]) == key && KeyAfter(key, ops) == key
    ensures KeyAtFirstCleartext(key, ops) in {None, key}
    decreases |ops|
  {
    if ops == [] {
    } else if i == 0 {
      NoInstallKeepsKey(key, ops[1..], 0);
    } else {
      NoInstallKeepsKey(key, ops[1..], i - 1);
      assert ops[..i][1..] == ops[1..][..i - 1];
    }
  }

  // With one key ever installed, the key in force is none or that one.
  lemma {:induction false} OneInstallOneKey(ops: seq<Op>, i: nat)
    requires Installs(ops) == 1 && i <= |ops|
    ensures KeyAfter(None, ops[..i]) in {None, KeyAfter(None, ops)}
    ensures KeyAtFirstCleartext(None, ops) in {None, KeyAfter(None, ops)}
    decreases |ops|, 1
  {
    if i == 0 {
      OneInstallFrom(ops, 0);
    } else {
      OneInstallFrom(ops, i - 1);
      assert ops[..i][1..] == ops[1..][..i - 1];
    }
  }

  lemma {:induction false} OneInstallFrom(ops: seq<Op>, i: nat)
    requires Installs(ops) == 1 && i < |ops|
    ensures KeyAfter(NextKey(None, ops[0]), ops[1..][..i]) in {None, KeyAfter(None, ops)}
    ensures KeyAtFirstCleartext(None, ops) in {None, KeyAfter(None, ops)}
    decreases |ops|, 0
  {
    if ops[0].Encrypt? && ops[0].newKey.Some? {
      NoInstallKeepsKey(NextKey(None, ops[0]), ops[1..], i);
    } else {
      OneInstallOneKey(ops[1..], i);
    }
  }

  /** If the address was last added by AddInternal, its package opens with the key passed then to the final body key. */
  ghost predicate OpensForRecipient(lib: Library, attachments: map<string, SymKey>, ops: seq<Op>,
                                    s: State, calls: seq<Call>, addr: string) {
    var last := LastAdd(calls, addr);
    last.Some? && last.value < |ops| && ops[last.value].AddInternal? ==>
      && addr in s.addresses && s.bodyKey.Some?
      && OpensTo(lib, s.addresses[addr], ops[last.value].pub, s.bodyKey.value, attachments)
  }

  /**
    The packed keys exist exactly when some AddCleartext ran.  When one Encrypt
    got a key, they are the very keys, over the very attachments, that every
    internal recipient's package opens to with the key passed for that recipient.
   */
  lemma OneKeyForAll(lib: Library, attachments: map<string, SymKey>, ops: seq<Op>)
    requires Lawful(lib) && Run(lib, New(attachments), ops).Some?
    ensures var s, calls := Run(lib, New(attachments), ops).value, Calls(lib, New(attachments), ops);
            && (s.packedBody.Some? <==> exists op :: op in ops && op.AddCleartext?)
            && (s.packedAttachments.Some? <==> s.packedBody.Some?)
            && (s.packedAttachments.Some? ==>
                  && s.packedAttachments.value.Keys == attachments.Keys
                  && forall a :: a in attachments ==> Unpack(lib, s.packedAttachments.value[a]) == Some(attachments[a]))
            && s.bodyKey == KeyAfter(None, ops)
            && (Installs(ops) == 1 ==>
                  && (s.packedBody.Some? ==> Unpack(lib, s.packedBody.value) == s.bodyKey)
                  && forall addr :: OpensForRecipient(lib, attachments, ops, s, calls, addr))
  {
    var s, calls := Run(lib, New(attachments), ops).value, Calls(lib, New(attachments), ops);
    RunKeepsInv(lib, New(attachments), ops);
    ClearedIff(lib, New(attachments), ops);
    KeysFollowCalls(lib, New(attachments), ops);
    if Installs(ops) == 1 {
      OneInstallOneKey(ops, 0);
      forall addr ensures OpensForRecipient(lib, attachments, ops, s, calls, addr) {
        PackagesOpen(lib, attachments, ops, addr);
        if LastAdd(calls, addr).Some? { OneInstallOneKey(ops, LastAdd(calls, addr).value); }
      }
    }
  }

  // ---- when calls succeed ----

  /** The condition for a call to succeed while this body key is in force. */
  ghost predicate Succeeds(lib: Library, key: Option<SymKey>, attachments: map<string, SymKey>, op: Op) {
    match op
    case Encrypt(_, newKey, signer) => newKey.Some? && !signer.UnusableSigner?
    case AddCleartext(_) => true
    case AddInternal(_, pub, coins) =>
      && key.Some? && lib.seal(pub, coins(None), key.value).Some?
      && forall a :: a in attachments ==> lib.seal(pub, coins(Some(a)), attachments[a]).Some?
  }

  lemma {:induction false} CallsSucceedFrom(lib: Library, s: State, ops: seq<Op>, i: nat)
    requires Run(lib, s, ops).Some? && i < |ops|
    ensures |Calls(lib, s, ops)| == |ops|
    ensures Calls(lib, s, ops)[i].ok <==> Succeeds(lib, KeyAfter(s.bodyKey, ops[..i]), s.attachmentKeys, ops[i])
    decreases |ops|
  {
    OpsOfCalls(lib, s, ops);
    if i == 0 {
      StepSucceedsIff(lib, s, ops[0]);
      assert ops[..0] == [];
    } else {
      CallsSucceedFrom(lib, Step(lib, s, ops[0]).0, ops[1..], i - 1);
      StepKeepsAttachments(lib, s, ops[0]);
      assert ops[..i][1..] == ops[1..][..i - 1];
    }
  }

  /**
    In any run, Encrypt succeeds exactly with a key and without an unusable signer,
    AddCleartext always, and AddInternal exactly when the body key in force at that
    point and every attachment key can be sealed to the recipient.
   */
  lemma CallsSucceedIff(lib: Library, attachments: map<string, SymKey>, ops: seq<Op>, i: nat)
    requires Run(lib, New(attachments), ops).Some? && i < |ops|
    ensures |Calls(lib, New(attachments), ops)| == |ops|
    ensures Calls(lib, New(attachments), ops)[i].ok <==>
            match ops[i]
            case Encrypt(_, newKey, signer) => newKey.Some? && !signer.UnusableSigner?
            case AddCleartext(_) => true
            case AddInternal(_, pub, coins) =>
              var key := KeyAfter(None, ops[..i]);
              && key.Some? && lib.seal(pub, coins(None), key.value).Some?
              && forall a :: a in attachments ==> lib.seal(pub, coins(Some(a)), attachments[a]).Some?
  {
    CallsSucceedFrom(lib, New(attachments), ops, i);
  }

  // ---- the Type mask ----

  ghost function CurrentKinds(addresses: map<string, Package>): set<PackageKind> {
    set addr | addr in addresses :: addresses[addr].kind
  }

  /** The OR over the packages the set holds now. */
  ghost function CurrentMask(addresses: map<string, Package>): bv64 {
    KindsMask(CurrentKinds(addresses))
  }

  /** Some address's last add was of this kind. */
  ghost predicate StillPresent(calls: seq<Call>, kind: PackageKind) {
    exists addr :: LastAdd(calls, addr).Some? && Adds(calls[LastAdd(calls, addr).value], addr, kind)
  }

  ghost predicate EverAdded(calls: seq<Call>, kind: PackageKind) {
    exists i, addr :: 0 <= i < |calls| && Adds(calls[i], addr, kind)
  }

  lemma KindsAreAdded(s: State, calls: seq<Call>, kind: PackageKind)
    requires Follows(s, calls)
    ensures kind in s.kinds <==> EverAdded(calls, kind)
  {
    assert KindFollows(s, calls, kind);
  }

  lemma CurrentIsLast(s: State, calls: seq<Call>, kind: PackageKind)
    requires Follows(s, calls)
    ensures kind in CurrentKinds(s.addresses) <==> StillPresent(calls, kind)
  {
    if kind in CurrentKinds(s.addresses) {
      var addr :| addr in s.addresses && s.addresses[addr].kind == kind;
      assert PackageFollows(s, calls, addr);
    }
    if StillPresent(calls, kind) {
      var addr :| LastAdd(calls, addr).Some? && Adds(calls[LastAdd(calls, addr).value], addr, kind);
      assert PackageFollows(s, calls, addr);
      assert s.addresses[addr].kind in CurrentKinds(s.addresses);
    }
  }

  lemma MaskInjective(a: set<PackageKind>, b: set<PackageKind>)
    ensures KindsMask(a) == KindsMask(b) <==> a == b
  {
    if KindsMask(a) == KindsMask(b) {
      assert (Internal in a <==> Internal in b) && (Cleartext in a <==> Cleartext in b);
      forall k
        ensures k in a <==> k in b
      {
        match k
        case Internal =>
        case Cleartext =>
      }
    }
  }

  lemma MaskIsCurrent(s: State, calls: seq<Call>)
    requires Follows(s, calls) && MaskInv(s)
    ensures s.mask == CurrentMask(s.addresses) <==> forall kind :: EverAdded(calls, kind) ==> StillPresent(calls, kind)
  {
    var current := CurrentKinds(s.addresses);
    MaskInjective(current, s.kinds);
    forall kind
      ensures kind in current <==> StillPresent(calls, kind)
      ensures kind in s.kinds <==> EverAdded(calls, kind)
    {
      CurrentIsLast(s, calls, kind);
      KindsAreAdded(s, calls, kind);
    }
    assert current <= s.kinds;
    assert current == s.kinds <==> forall kind :: kind in s.kinds ==> kind in current;
  }

  lemma MaskContains(kinds: set<PackageKind>)
    ensures KindsMask(kinds) & 1 == 1 <==> Internal in kinds
    ensures KindsMask(kinds) & 4 == 4 <==> Cleartext in kinds
  {}

  lemma MaskBits(kinds: set<PackageKind>)
    ensures KindsMask(kinds) & !5 == 0
  {
    assert (1 as bv64) & !5 == 0 && (4 as bv64) & !5 == 0 && (0 as bv64) & !5 == 0;
    assert KindsMask(kinds) in {0 as bv64, 1, 4, 5};
  }

  /**
    Type is the OR of the kinds of all successful adds, 1 for internal and 4 for
    cleartext, with no other bit.  It is the OR over the
    packages present exactly when each kind ever added is the kind of some
    address's last add.
   */
  lemma TypeMask(lib: Library, attachments: map<string, SymKey>, ops: seq<Op>)
    requires Lawful(lib) && Run(lib, New(attachments), ops).Some?
    ensures var s, calls := Run(lib, New(attachments), ops).value, Calls(lib, New(attachments), ops);
            && s.mask & !5 == 0
            && (s.mask & 1 == 1 <==> EverAdded(calls, Internal))
            && (s.mask & 4 == 4 <==> EverAdded(calls, Cleartext))
            && (s.mask == CurrentMask(s.addresses) <==> forall kind :: EverAdded(calls, kind) ==> StillPresent(calls, kind))
  {
    RunKeepsInv(lib, New(attachments), ops);
    RunFollows(lib, New(attachments), [], ops);
    var s, calls := Run(lib, New(attachments), ops).value, Calls(lib, New(attachments), ops);
    assert [] + calls == calls;
    assert MaskInv(s);
    MaskBits(s.kinds);
    KindsAreAdded(s, calls, Internal);
    KindsAreAdded(s, calls, Cleartext);
    MaskContains(s.kinds);
    MaskIsCurrent(s, calls);
  }

  /** No address was added as two different kinds; adds that failed do not matter. */
  ghost predicate NoKindChange(calls: seq<Call>) {
    forall i, j, addr :: 0 <= i < |calls| && 0 <= j < |calls| && AddsFor(calls[i], addr) && AddsFor(calls[j], addr) ==>
      AddedKind(calls[i].op) == AddedKind(calls[j].op)
  }

  /** Then Type is the OR over the packages the set holds. */
  lemma TypeMaskIsCurrent(lib: Library, attachments: map<string, SymKey>, ops: seq<Op>)
    requires Lawful(lib) && Run(lib, New(attachments), ops).Some?
    requires NoKindChange(Calls(lib, New(attachments), ops))
    ensures var s := Run(lib, New(attachments), ops).value; s.mask == CurrentMask(s.addresses)
  {
    var calls := Calls(lib, New(attachments), ops);
    TypeMask(lib, attachments, ops);
    forall kind | EverAdded(calls, kind) ensures StillPresent(calls, kind) {
      var i, addr :| 0 <= i < |calls| && Adds(calls[i], addr, kind);
      assert AddsFor(calls[i], addr);
      var last := LastAdd(calls, addr).value;
      assert AddsFor(calls[last], addr);
    }
  }

  /** An address added in the clear and then sealed leaves its first kind in Type. */
  lemma TypeCanBeStale(lib: Library, key: seq<byte>, pub: PublicKey, coins: Coins)
    requires lib.seal(pub, coins(None), SymKey(AES256, key)).Some?
    ensures var ops := [Encrypt("text/html", Some(key), Unsigned), AddCleartext("a"), AddInternal("a", pub, coins)];
            var end := Run(lib, New(map[]), ops);
            && end.Some? && end.value.mask == 5
            && CurrentMask(end.value.addresses) == 1
  {
    var a, b, c := Encrypt("text/html", Some(key), Unsigned), AddCleartext("a"), AddInternal("a", pub, coins);
    var s1 := Step(lib, New(map[]), a).0;
    var s2 := Step(lib, s1, b).0;
    var s3 := Step(lib, s2, c).0;
    assert Sealable(lib, s2, pub, coins);
    assert s3.addresses.Keys == {"a"} && s3.addresses["a"].kind == Internal;
    assert CurrentKinds(s3.addresses) == {Internal};
    assert [c][1..] == [] && Run(lib, s3, []) == Some(s3) && Run(lib, s2, [c]) == Some(s3);
    assert [b, c][1..] == [c] && Run(lib, s1, [b, c]) == Some(s3);
    assert [a, b, c][1..] == [b, c];
  }
}
