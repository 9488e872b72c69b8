/**
  Choosing keys of an OpenPGP entity (crypto.go).  The iteration order of the
  identity map is the order of a sequence, and every order is considered.
 */
module KeyChoice {
  import opened Wrappers

  datatype Subkey = Subkey(
    flagsValid: bool,
    flagEncrypt: bool,
    flagSign: bool,
    canEncrypt: bool,
    canSign: bool,
    expired: bool,
    created: int)

  datatype Identity = Identity(name: string, isPrimary: bool, flagsValid: bool, flagEncrypt: bool, flagSign: bool, sigExpired: bool)

  datatype Entity = Entity(primaryCanEncrypt: bool, subkeys: seq<Subkey>, identities: seq<Identity>)

  datatype Choice = SubkeyAt(index: nat) | PrimaryAs(identity: Identity)

  /** Go's zero time; creation times are counted from it. */
  const ZERO_TIME := 0

  predicate CanEncryptWith(k: Subkey) {
    k.flagsValid && k.flagEncrypt && k.canEncrypt && !k.expired
  }

  predicate CanSignWith(k: Subkey) {
    k.flagsValid && k.flagSign && k.canSign && !k.expired
  }

  /** Without usage flags the primary key is taken as it is; otherwise it must be able and unexpired. */
  predicate PrimaryEncrypts(e: Entity, i: Identity) {
    !i.flagsValid || (i.flagEncrypt && e.primaryCanEncrypt && !i.sigExpired)
  }

  /** The eligible key at `i` is newer than all earlier eligible ones and no older than any later one. */
  ghost predicate NewestFirst(keys: seq<Subkey>, i: int) {
    && 0 <= i < |keys| && CanEncryptWith(keys[i])
    && (forall j :: 0 <= j < i && CanEncryptWith(keys[j]) ==> keys[j].created < keys[i].created)
    && (forall j :: i < j < |keys| && CanEncryptWith(keys[j]) ==> keys[j].created <= keys[i].created)
  }

  /** No newest key has the zero creation time and an eligible key after it. */
  ghost predicate ZeroTimeHarmless(keys: seq<Subkey>) {
    forall i, j :: NewestFirst(keys, i) && keys[i].created == ZERO_TIME && i < j < |keys| ==> !CanEncryptWith(keys[j])
  }

  ghost predicate IsPrimaryIdentity(identities: seq<Identity>, chosen: Identity) {
    exists i :: 0 <= i < |identities| && identities[i] == chosen
      && (forall j :: 0 <= j < i ==> !identities[j].isPrimary)
      && (chosen.isPrimary || (i == 0 && forall j :: 0 <= j < |identities| ==> !identities[j].isPrimary))
  }

  function FirstMarked(identities: seq<Identity>): Option<Identity> {
    if identities == [] then None
    else if identities[0].isPrimary then Some(identities[0])
    else FirstMarked(identities[1..])
  }

  function PrimaryIdentityOf(identities: seq<Identity>): Identity
    requires identities != []
  {
    var first := FirstMarked(identities);
    if first.Some? then first.value else identities[0]
  }

  method PrimaryIdentity(identities: seq<Identity>) returns (chosen: Identity)
    requires identities != []
    ensures IsPrimaryIdentity(identities, chosen) && chosen == PrimaryIdentityOf(identities)
  {
    var first: Option<Identity> := None;
    for i := 0 to |identities|
      invariant first == if i == 0 then None else Some(identities[0])
      invariant forall j :: 0 <= j < i ==> !identities[j].isPrimary
      invariant FirstMarked(identities) == FirstMarked(identities[i..])
    {
      var ident := identities[i];
      assert identities[i..][1..] == identities[i + 1..];
      if first == None {
        first := Some(ident);
      }
      if ident.isPrimary {
        return ident;
      }
    }
    chosen := first.value;
  }

  /** With exactly one identity marked primary the choice does not depend on the map order. */
  lemma PrimaryIdentityStable(a: seq<Identity>, b: seq<Identity>, x: Identity, y: Identity, marked: Identity)
    requires forall i :: i in a <==> i in b
    requires marked in a && forall i :: i in a && i.isPrimary <==> i == marked
    requires IsPrimaryIdentity(a, x) && IsPrimaryIdentity(b, y)
    ensures x == marked == y
  {
    var k :| 0 <= k < |a| && a[k] == marked;
    var l :| 0 <= l < |b| && b[l] == marked;
    assert marked.isPrimary;
  }

  /** What the scan's candidate is, relative to the first newest key: that key, or a later one once the zero time misled it. */
  ghost predicate Tracks(keys: seq<Subkey>, i: int, candidate: int)
    requires 0 <= i < |keys|
  {
    if keys[i].created != ZERO_TIME || (forall j :: i < j < |keys| ==> !CanEncryptWith(keys[j]))
    then candidate == i
    else candidate > i
  }

  lemma NewestUnique(keys: seq<Subkey>, i: int, j: int)
    requires NewestFirst(keys, i) && NewestFirst(keys, j)
    ensures i == j
  {}

  lemma NewestStep(before: seq<Subkey>, k: Subkey, candidate: int, candidate': int)
    requires -1 <= candidate < |before|
    requires candidate == -1 ==> forall j :: 0 <= j < |before| ==> !CanEncryptWith(before[j])
    requires candidate != -1 ==> CanEncryptWith(before[candidate]) && exists i :: NewestFirst(before, i)
    requires forall i :: NewestFirst(before, i) ==> Tracks(before, i, candidate)
    requires var replace := CanEncryptWith(k)
               && (candidate == -1 || before[candidate].created == ZERO_TIME || k.created > before[candidate].created);
             candidate' == if replace then |before| else candidate
    ensures var after := before + [k];
            && (candidate' != -1 ==> exists i :: NewestFirst(after, i))
            && forall i :: NewestFirst(after, i) ==> Tracks(after, i, candidate')
  {
    var after := before + [k];
    if candidate == -1 {
      if CanEncryptWith(k) {
        assert NewestFirst(after, |before|);
      }
    } else {
      var i :| NewestFirst(before, i);
      var newest := if CanEncryptWith(k) && k.created > before[i].created then |before| else i;
      assert before[candidate].created <= before[i].created;
      assert forall j :: 0 <= j < |before| ==> after[j] == before[j];
      assert NewestFirst(after, newest);
      if newest == i && before[i].created == ZERO_TIME {
        if CanEncryptWith(k) {
          assert CanEncryptWith(after[|before|]);
        } else if candidate == i {
          assert forall j :: i < j < |after| ==> !CanEncryptWith(after[j]);
        }
      }
      assert Tracks(after, newest, candidate');
      forall m | NewestFirst(after, m)
        ensures Tracks(after, m, candidate')
      {
        NewestUnique(after, m, newest);
      }
    }
  }

  lemma TrackedChoice(keys: seq<Subkey>, candidate: int)
    requires 0 <= candidate < |keys| && exists i :: NewestFirst(keys, i)
    requires forall i :: NewestFirst(keys, i) ==> Tracks(keys, i, candidate)
    ensures NewestFirst(keys, candidate) <==> ZeroTimeHarmless(keys)
  {
    var i :| NewestFirst(keys, i);
    if NewestFirst(keys, candidate) {
      NewestUnique(keys, i, candidate);
    }
    forall m | NewestFirst(keys, m)
      ensures m == i
    {
      NewestUnique(keys, m, i);
    }
  }

  /** The loop of `encryptionKey` over the subkeys: the index it ends with, or -1. */
  function Scan(keys: seq<Subkey>): (c: int)
    ensures -1 <= c < |keys| && (c != -1 ==> CanEncryptWith(keys[c]))
  {
    if keys == [] then -1
    else
      var before, k := keys[..|keys| - 1], keys[|keys| - 1];
      var c := Scan(before);
      if CanEncryptWith(k) && (c == -1 || before[c].created == ZERO_TIME || k.created > before[c].created)
      then |before| else c
  }

  lemma {:induction false} ScanTracks(keys: seq<Subkey>)
    ensures Scan(keys) == -1 ==> forall j :: 0 <= j < |keys| ==> !CanEncryptWith(keys[j])
    ensures Scan(keys) != -1 ==> exists i :: NewestFirst(keys, i)
    ensures forall i :: NewestFirst(keys, i) ==> Tracks(keys, i, Scan(keys))
  {
    if keys == [] {
    } else {
      var before, k := keys[..|keys| - 1], keys[|keys| - 1];
      ScanTracks(before);
      NewestStep(before, k, Scan(before), Scan(keys));
      assert keys == before + [k];
    }
  }

  /** `encryptionKey` panics on an entity without identities when no subkey is eligible. */
  ghost predicate Choosable(e: Entity) {
    e.identities == [] ==> exists k :: k in e.subkeys && CanEncryptWith(k)
  }

  lemma ScanFinds(keys: seq<Subkey>)
    ensures Scan(keys) != -1 <==> exists k :: k in keys && CanEncryptWith(k)
  {
    ScanTracks(keys);
    if Scan(keys) != -1 {
      assert keys[Scan(keys)] in keys;
    }
  }

  function EncryptionKeyOf(e: Entity): Option<Choice>
    requires Choosable(e)
  {
    ScanFinds(e.subkeys);
    var candidate := Scan(e.subkeys);
    if candidate != -1 then Some(SubkeyAt(candidate))
    else
      var i := PrimaryIdentityOf(e.identities);
      if PrimaryEncrypts(e, i) then Some(PrimaryAs(i)) else None
  }

  lemma {:induction false} FirstMarkedIs(identities: seq<Identity>)
    ensures match FirstMarked(identities)
            case None => forall j :: 0 <= j < |identities| ==> !identities[j].isPrimary
            case Some(x) =>
              exists i :: 0 <= i < |identities| && identities[i] == x && x.isPrimary && forall j :: 0 <= j < i ==> !identities[j].isPrimary
  {
    if identities == [] || identities[0].isPrimary {
    } else {
      var rest := identities[1..];
      FirstMarkedIs(rest);
      assert forall j :: 1 <= j < |identities| ==> identities[j] == rest[j - 1];
      if FirstMarked(rest).Some? {
        var x := FirstMarked(rest).value;
        var i :| 0 <= i < |rest| && rest[i] == x && x.isPrimary && forall j :: 0 <= j < i ==> !rest[j].isPrimary;
        assert identities[i + 1] == x;
      }
    }
  }

  lemma PrimaryIdentityIs(identities: seq<Identity>)
    requires identities != []
    ensures IsPrimaryIdentity(identities, PrimaryIdentityOf(identities))
  {
    FirstMarkedIs(identities);
    if FirstMarked(identities).None? {
      assert identities[0] == PrimaryIdentityOf(identities);
    }
  }

  /**
    Which key is chosen.  A subkey exactly when one is valid for encryption, able
    and unexpired, the first of the newest exactly when the zero time does no harm;
    otherwise the primary key, unless its identity's flags rule it out.
   */
  lemma EncryptionKeyExact(e: Entity)
    requires Choosable(e)
    ensures var r := EncryptionKeyOf(e);
            && (r.Some? && r.value.SubkeyAt? <==>
                exists k :: k in e.subkeys && k.flagsValid && k.flagEncrypt && k.canEncrypt && !k.expired)
            && (r.Some? && r.value.SubkeyAt? ==>
                  && r.value.index < |e.subkeys|
                  && (var k := e.subkeys[r.value.index]; k.flagsValid && k.flagEncrypt && k.canEncrypt && !k.expired)
                  && (NewestFirst(e.subkeys, r.value.index) <==> ZeroTimeHarmless(e.subkeys)))
            && (r.Some? && r.value.PrimaryAs? ==>
                  var i := r.value.identity;
                  IsPrimaryIdentity(e.identities, i) && (!i.flagsValid || (i.flagEncrypt && e.primaryCanEncrypt && !i.sigExpired)))
            && (r.None? ==>
                  exists i :: IsPrimaryIdentity(e.identities, i) && i.flagsValid && (!i.flagEncrypt || !e.primaryCanEncrypt || i.sigExpired))
  {
    ScanFinds(e.subkeys);
    ScanTracks(e.subkeys);
    if Scan(e.subkeys) != -1 {
      assert e.subkeys[Scan(e.subkeys)] in e.subkeys;
      TrackedChoice(e.subkeys, Scan(e.subkeys));
    } else {
      PrimaryIdentityIs(e.identities);
      forall k | k in e.subkeys ensures !CanEncryptWith(k) {}
    }
  }

  /** `encryptionKey`: the choice described by EncryptionKeyExact. */
  method EncryptionKey(e: Entity) returns (r: Option<Choice>)
    requires Choosable(e)
    ensures r == EncryptionKeyOf(e)
    ensures r.Some? && r.value.SubkeyAt? ==>
              && r.value.index < |e.subkeys| && CanEncryptWith(e.subkeys[r.value.index])
              && (NewestFirst(e.subkeys, r.value.index) <==> ZeroTimeHarmless(e.subkeys))
    ensures r.Some? && r.value.SubkeyAt? <==> exists k :: k in e.subkeys && CanEncryptWith(k)
    ensures r.Some? && r.value.PrimaryAs? ==>
              IsPrimaryIdentity(e.identities, r.value.identity) && PrimaryEncrypts(e, r.value.identity)
    ensures r.None? ==> exists i :: IsPrimaryIdentity(e.identities, i) && !PrimaryEncrypts(e, i)
  {
    var candidate: int := -1;
    var maxTime := ZERO_TIME;
    for n := 0 to |e.subkeys|
      invariant candidate == Scan(e.subkeys[..n])
      invariant maxTime == if candidate == -1 then ZERO_TIME else e.subkeys[candidate].created
    {
      var subkey := e.subkeys[n];
      assert e.subkeys[..n + 1][..n] == e.subkeys[..n];
      if subkey.flagsValid && subkey.flagEncrypt && subkey.canEncrypt && !subkey.expired
         && (maxTime == ZERO_TIME || subkey.created > maxTime) {
        candidate := n;
        maxTime := subkey.created;
      }
    }
    assert e.subkeys[..|e.subkeys|] == e.subkeys;
    EncryptionKeyExact(e);
    ScanFinds(e.subkeys);
    if candidate != -1 {
      return Some(SubkeyAt(candidate));
    }
    var i := PrimaryIdentity(e.identities);
    if !i.flagsValid || (i.flagEncrypt && e.primaryCanEncrypt && !i.sigExpired) {
      return Some(PrimaryAs(i));
    }
    r := None;
  }

  /** Of two eligible keys with the zero time the scan keeps the second, although the first is the newest-first choice. */
  lemma ZeroTimeCanHarm(k: Subkey)
    requires CanEncryptWith(k) && k.created == ZERO_TIME
    ensures NewestFirst([k, k], 0) && !NewestFirst([k, k], 1) && !ZeroTimeHarmless([k, k])
  {
    var keys := [k, k];
    assert NewestFirst(keys, 0);
    assert CanEncryptWith(keys[1]);
  }

  /** Creation times after the zero time, as OpenPGP's are, never do harm. */
  lemma PositiveTimesAreHarmless(keys: seq<Subkey>)
    requires forall k :: k in keys && CanEncryptWith(k) ==> k.created > ZERO_TIME
    ensures ZeroTimeHarmless(keys)
  {
    forall i | NewestFirst(keys, i)
      ensures keys[i].created != ZERO_TIME
    {
      assert keys[i] in keys;
    }
  }

  /** `signingKey`: the first eligible subkey, else the primary key if it may sign. */
  method SigningKey(e: Entity) returns (r: Option<Choice>)
    requires e.identities == [] ==> exists k :: k in e.subkeys && CanSignWith(k)
    ensures r.Some? && r.value.SubkeyAt? ==>
              && r.value.index < |e.subkeys|
              && (var k := e.subkeys[r.value.index]; k.flagsValid && k.flagSign && k.canSign && !k.expired)
              && forall j :: 0 <= j < r.value.index ==> !CanSignWith(e.subkeys[j])
    ensures r.Some? && r.value.SubkeyAt? <==>
            exists k :: k in e.subkeys && k.flagsValid && k.flagSign && k.canSign && !k.expired
    ensures r.Some? && r.value.PrimaryAs? ==>
              var i := r.value.identity; IsPrimaryIdentity(e.identities, i) && (!i.flagsValid || (i.flagSign && !i.sigExpired))
    ensures r.None? ==> exists i :: IsPrimaryIdentity(e.identities, i) && i.flagsValid && (!i.flagSign || i.sigExpired)
  {
    var candidate: int := -1;
    for n := 0 to |e.subkeys|
      invariant candidate == -1 && forall j :: 0 <= j < n ==> !CanSignWith(e.subkeys[j])
    {
      var subkey := e.subkeys[n];
      if subkey.flagsValid && subkey.flagSign && subkey.canSign && !subkey.expired {
        candidate := n;
        break;
      }
    }
    if candidate != -1 {
      assert e.subkeys[candidate] in e.subkeys;
      return Some(SubkeyAt(candidate));
    }
    var i := PrimaryIdentity(e.identities);
    if !i.flagsValid || (i.flagSign && !i.sigExpired) {
      return Some(PrimaryAs(i));
    }
    r := None;
  }
}
