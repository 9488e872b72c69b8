/**
  Session state (auth.go): refreshing a session from inside the ReAuth callback,
  unlocking the key ring, and logging out.
 */
module Session {
  import opened Wrappers
  import opened Codec
  import opened Errors
  import opened Request
  import opened RequestTheorems

  // ---- requests as newRequest and newJSONRequest build them ----

  function PlainRequest(n: Net): Req {
    Authorize(n, Req(None, None, None, NotReplayable))
  }

  function JsonRequest(n: Net, bytes: seq<byte>): Req {
    Authorize(n, Req(None, None, Some(bytes), Replays(bytes)))
  }

  function RefreshRequest(n: Net, bytes: seq<byte>, expiredUid: string): Req {
    JsonRequest(n, bytes).(uid := Some(expiredUid))
  }

  /** Both kinds of request can be replayed faithfully, so every attempt of a call carries the same body. */
  lemma BuiltRequestsAreFaithful(n: Net, bytes: seq<byte>)
    ensures Faithful(JsonRequest(n, bytes)) && CanRetry(JsonRequest(n, bytes))
    ensures Faithful(PlainRequest(n)) && CanRetry(PlainRequest(n))
    ensures Retryable(n, JsonRequest(n, bytes)) <==> n.reauth && n.uid != "" && n.token != ""
  {}

  /** A request over a pipe, as Import builds it: it has a body and no GetBody. */
  function StreamRequest(n: Net, bytes: seq<byte>): Req {
    Authorize(n, Req(None, None, Some(bytes), NotReplayable))
  }

  /** A streamed body is sent once and never replayed: a 401 goes straight to the caller and no callback runs. */
  lemma StreamsAreSentOnce(n: Net, bytes: seq<byte>)
    ensures var r := StreamRequest(n, bytes);
            var (n1, r1, o) := Do(n, r);
            && n1.sent == n.sent + [Attempt(r.uid, r.authorization, Some(bytes), n.closes)]
            && n1.calls == n.calls && n1.token == n.token
            && (n.replies != [] && n.replies[0].Received? ==> o == Got(n.replies[0].response, |n.closes|))
  {
    var r := StreamRequest(n, bytes);
    assert !Retryable(n, r) && Activate(n, r).Stop?;
  }

  // ---- AuthRefresh ----

  lemma UnauthenticatedSendsOnce(n: Net, r: Req)
    requires r.authorization.None?
    ensures Activate(n, r).Stop?
    ensures Do(n, r).0.calls == n.calls && Do(n, r).0.refreshes == n.refreshes
    ensures Do(n, r).0.sent == n.sent + [Attempt(r.uid, r.authorization, r.body, n.closes)]
  {}

  /**
    Run inside the callback, AuthRefresh sends one unauthenticated request and
    never runs the callback again, whatever the server answers.
   */
  lemma RefreshInsideCallback(n: Net, body: nat, bytes: seq<byte>, expiredUid: string)
    ensures var inside := BeforeCallback(n, body);
            var n1 := DoJson(inside, RefreshRequest(inside, bytes, expiredUid)).0;
            && n1.calls == inside.calls && n1.refreshes == inside.refreshes
            && n1.sent == inside.sent + [Attempt(Some(expiredUid), None, Some(bytes), inside.closes)]
  {
    var inside := BeforeCallback(n, body);
    UnauthenticatedSendsOnce(inside, RefreshRequest(inside, bytes, expiredUid));
  }

  /** Outside the callback AuthRefresh can run it: exactly on a 401 while the client still holds credentials. */
  lemma RefreshReentersIff(n: Net, bytes: seq<byte>, expiredUid: string)
    ensures DoJson(n, RefreshRequest(n, bytes, expiredUid)).0.calls > n.calls <==>
            n.uid != "" && n.token != "" && n.reauth && n.replies != [] && IsUnauthorized(n.replies[0])
  {
    var r := RefreshRequest(n, bytes, expiredUid);
    var a := Activate(n, r);
    ActivationFacts(n, r);
    if a.Again? {
      CallsGrow(a.net, a.req);
    }
  }

  // ---- credentials left behind by a call ----

  /** The credentials after `c` callbacks. */
  function Credentials(n: Net, c: nat): (string, string)
    requires c <= |n.refreshes|
  {
    if c == 0 then (n.uid, n.token) else (n.refreshes[c - 1].uid, n.refreshes[c - 1].token)
  }

  /** `n1` is what a finished call, or several, left of `n`. */
  predicate Leaves(n: Net, n1: Net) {
    var c := n1.calls - n.calls;
    0 <= c <= |n.refreshes| && (n1.uid, n1.token) == Credentials(n, c) && n1.refreshes == n.refreshes[c..]
  }

  lemma AgainCredentialsLeft(n: Net, r: Req)
    requires Activate(n, r).Again?
    ensures var a := Activate(n, r);
            && n.refreshes != [] && a.net.refreshes == n.refreshes[1..] && a.net.calls == n.calls + 1
            && a.net.uid == n.refreshes[0].uid && a.net.token == n.refreshes[0].token
  {}

  // One callback more, in front.
  lemma LeavesThrough(n: Net, m: Net, end: Net)
    requires n.refreshes != [] && m.refreshes == n.refreshes[1..] && m.calls == n.calls + 1
    requires m.uid == n.refreshes[0].uid && m.token == n.refreshes[0].token
    requires Leaves(m, end)
    ensures Leaves(n, end)
  {
    var c := end.calls - m.calls;
    assert n.refreshes[1..][c..] == n.refreshes[c + 1..];
  }

  lemma StopLeaves(n: Net, r: Req)
    requires Activate(n, r).Stop? && !Activate(n, r).outcome.Waiting?
    ensures Leaves(n, Activate(n, r).net)
  {}

  lemma {:induction false} FinishedLeaves(n: Net, r: Req)
    requires !Do(n, r).2.Waiting?
    ensures Leaves(n, Do(n, r).0)
    decreases |n.replies|
  {
    var a := Activate(n, r);
    ActivationFacts(n, r);
    if a.Stop? {
      StopLeaves(n, r);
    } else {
      FinishedLeaves(a.net, a.req);
      AgainCredentialsLeft(n, r);
      LeavesThrough(n, a.net, Do(n, r).0);
    }
  }

  /** A finished call leaves the credentials of its last callback, and any call the old ones if it ran none. */
  lemma CredentialsAfter(n: Net, r: Req)
    ensures var (n1, r1, o) := Do(n, r);
            var c := n1.calls - n.calls;
            && c >= 0
            && (c == 0 ==> n1.uid == n.uid && n1.token == n.token)
            && (!o.Waiting? ==> Leaves(n, n1))
  {
    var a := Activate(n, r);
    if !Do(n, r).2.Waiting? { FinishedLeaves(n, r); }
    ActivationFacts(n, r);
    if a.Again? {
      CallsGrow(a.net, a.req);
    } else {
      StopFacts(n, r);
    }
  }

  // ---- Unlock and Logout ----

  datatype PrivateKey = PrivateKey(id: string, active: int)

  type Entity = string

  /** `unlockPrivateKey` with the salts and passphrase fixed: a key and the user's key ring to an entity. */
  type Unlocker = (PrivateKey, seq<Entity>) -> Option<Entity>

  const NO_UNLOCKABLE_KEYS := Wrapped(Plain(ErrNoUnlockableKeys))

  function Opened(key: PrivateKey, ring: seq<Entity>, unlock: Unlocker): seq<Entity> {
    var e := unlock(key, ring);
    if key.active == 1 && e.Some? then [e.value] else []
  }

  function Unlockable(keys: seq<PrivateKey>, ring: seq<Entity>, unlock: Unlocker): seq<Entity> {
    if keys == [] then [] else Opened(keys[0], ring, unlock) + Unlockable(keys[1..], ring, unlock)
  }

  function AllUnlockable(addresses: seq<seq<PrivateKey>>, ring: seq<Entity>, unlock: Unlocker): seq<Entity> {
    if addresses == [] then []
    else Unlockable(addresses[0], ring, unlock) + AllUnlockable(addresses[1..], ring, unlock)
  }

  lemma ConcatAssociates(a: seq<Entity>, b: seq<Entity>, c: seq<Entity>)
    ensures a + (b + c) == (a + b) + c
  {}

  lemma {:induction false} UnlockableConcat(keys: seq<PrivateKey>, more: seq<PrivateKey>, ring: seq<Entity>, unlock: Unlocker)
    ensures Unlockable(keys + more, ring, unlock) == Unlockable(keys, ring, unlock) + Unlockable(more, ring, unlock)
  {
    if keys == [] {
      assert keys + more == more;
    } else {
      UnlockableConcat(keys[1..], more, ring, unlock);
      assert (keys + more)[0] == keys[0] && (keys + more)[1..] == keys[1..] + more;
      ConcatAssociates(Opened(keys[0], ring, unlock), Unlockable(keys[1..], ring, unlock), Unlockable(more, ring, unlock));
    }
  }

  lemma UnlockableSnoc(keys: seq<PrivateKey>, key: PrivateKey, ring: seq<Entity>, unlock: Unlocker)
    ensures Unlockable(keys + [key], ring, unlock) == Unlockable(keys, ring, unlock) + Opened(key, ring, unlock)
  {
    UnlockableConcat(keys, [key], ring, unlock);
    assert [key][1..] == [];
  }

  lemma {:induction false} AllUnlockableSnoc(addresses: seq<seq<PrivateKey>>, last: seq<PrivateKey>, ring: seq<Entity>, unlock: Unlocker)
    ensures AllUnlockable(addresses + [last], ring, unlock) == AllUnlockable(addresses, ring, unlock) + Unlockable(last, ring, unlock)
  {
    var all := addresses + [last];
    if addresses == [] {
      assert all[0] == last && all[1..] == [];
    } else {
      AllUnlockableSnoc(addresses[1..], last, ring, unlock);
      assert all[0] == addresses[0] && all[1..] == addresses[1..] + [last];
      ConcatAssociates(Unlockable(all[0], ring, unlock), AllUnlockable(addresses[1..], ring, unlock), Unlockable(last, ring, unlock));
    }
  }

  /** The ring holds exactly the entities of the active keys that unlock. */
  lemma {:induction false} UnlockableExact(keys: seq<PrivateKey>, ring: seq<Entity>, unlock: Unlocker, e: Entity)
    ensures e in Unlockable(keys, ring, unlock) <==> exists k :: k in keys && k.active == 1 && unlock(k, ring) == Some(e)
  {
    if keys == [] {
    } else {
      UnlockableExact(keys[1..], ring, unlock, e);
      assert forall k :: k in keys <==> k == keys[0] || k in keys[1..];
    }
  }

  /** `unlockKeyRing`: keys that fail to unlock are skipped; only an empty ring is an error. */
  method UnlockKeyRing(keys: seq<PrivateKey>, ring: seq<Entity>, unlock: Unlocker) returns (r: Result<seq<Entity>, Error>)
    ensures var all := Unlockable(keys, ring, unlock);
            r == if all == [] then Err(NO_UNLOCKABLE_KEYS) else Ok(all)
  {
    var keyRing: seq<Entity> := [];
    for i := 0 to |keys|
      invariant keyRing == Unlockable(keys[..i], ring, unlock)
    {
      UnlockableSnoc(keys[..i], keys[i], ring, unlock);
      assert keys[..i + 1] == keys[..i] + [keys[i]];
      if keys[i].active != 1 {
        continue;
      }
      var entity := unlock(keys[i], ring);
      if entity == None {
        continue;
      }
      keyRing := keyRing + [entity.value];
    }
    assert keys[..|keys|] == keys;
    if |keyRing| == 0 {
      return Err(NO_UNLOCKABLE_KEYS);
    }
    r := Ok(keyRing);
  }

  /** The stored ring holds exactly what some address's active keys unlock to, given the user's ring. */
  lemma {:induction false} AddressRingExact(addresses: seq<seq<PrivateKey>>, ring: seq<Entity>, unlock: Unlocker, e: Entity)
    ensures e in AllUnlockable(addresses, ring, unlock) <==>
            exists a, k :: a in addresses && k in a && k.active == 1 && unlock(k, ring) == Some(e)
  {
    if addresses == [] {
    } else {
      AddressRingExact(addresses[1..], ring, unlock, e);
      UnlockableExact(addresses[0], ring, unlock, e);
      assert forall a :: a in addresses <==> a == addresses[0] || a in addresses[1..];
    }
  }

  datatype Decoders = Decoders(user: string -> seq<PrivateKey>, addresses: string -> seq<seq<PrivateKey>>)

  /** `Unlock`: the new client, the new stored ring, and the result (None while a request is still waiting). */
  function UnlockSpec(n: Net, stored: seq<Entity>, uid: string, token: string, d: Decoders, unlock: Unlocker)
    : (Net, seq<Entity>, Option<Result<seq<Entity>, Error>>)
  {
    var n0 := n.(uid := uid, token := token);
    var (n1, _, o1) := DoJson(n0, PlainRequest(n0));
    match o1
    case JsonWaiting => (n1, stored, None)
    case JsonFailed(e) => (n1, stored, Some(Err(e)))
    case Decoded(user) =>
      var userRing := Unlockable(d.user(user), [], unlock);
      if userRing == [] then (n1, stored, Some(Err(NO_UNLOCKABLE_KEYS)))
      else
        var (n2, _, o2) := DoJson(n1, PlainRequest(n1));
        match o2
        case JsonWaiting => (n2, stored, None)
        case JsonFailed(e) => (n2, stored, Some(Err(e)))
        case Decoded(addresses) =>
          var ring := AllUnlockable(d.addresses(addresses), userRing, unlock);
          if ring == [] then (n2, stored, Some(Err(NO_UNLOCKABLE_KEYS))) else (n2, ring, Some(Ok(ring)))
  }

  function LogoutSpec(n: Net, stored: seq<Entity>): (Net, seq<Entity>, Option<Result<(), Error>>) {
    var (n1, _, o) := DoJson(n, PlainRequest(n));
    match o
    case JsonWaiting => (n1, stored, None)
    case JsonFailed(e) => (n1, stored, Some(Err(e)))
    case Decoded(_) => (n1.(uid := "", token := ""), [], Some(Ok(())))
  }

  class SessionClient {
    const client: Client
    var keyRing: seq<Entity>

    constructor (client: Client)
      ensures this.client == client && keyRing == []
    {
      this.client := client;
      keyRing := [];
    }

    /** `newRequest` without a body. */
    method NewPlainRequest() returns (req: HttpRequest)
      ensures fresh(req) && req.View() == PlainRequest(client.View())
    {
      req := new HttpRequest(None, NotReplayable);
      client.SetRequestAuthorization(req);
    }

    /** The address loop of `Unlock`: an address without usable keys is skipped. */
    static method UnlockAddresses(addresses: seq<seq<PrivateKey>>, userRing: seq<Entity>, unlock: Unlocker)
      returns (ring: seq<Entity>)
      ensures ring == AllUnlockable(addresses, userRing, unlock)
    {
      ring := [];
      for i := 0 to |addresses|
        invariant ring == AllUnlockable(addresses[..i], userRing, unlock)
      {
        AllUnlockableSnoc(addresses[..i], addresses[i], userRing, unlock);
        assert addresses[..i + 1] == addresses[..i] + [addresses[i]];
        var addrKeyRing := UnlockKeyRing(addresses[i], userRing, unlock);
        if addrKeyRing.Err? {
          continue;
        }
        ring := ring + addrKeyRing.value;
      }
      assert addresses[..|addresses|] == addresses;
    }

    method Unlock(uid: string, token: string, d: Decoders, unlock: Unlocker) returns (r: Option<Result<seq<Entity>, Error>>)
      modifies this, client
      ensures (client.View(), keyRing, r) == UnlockSpec(old(client.View()), old(keyRing), uid, token, d, unlock)
    {
      client.uid := uid;
      client.accessToken := token;

      var req := NewPlainRequest();
      var user := client.PerformJson(req);
      if user.JsonWaiting? { return None; }
      if user.JsonFailed? { return Some(Err(user.err)); }
      var userRing := UnlockKeyRing(d.user(user.payload), [], unlock);
      if userRing.Err? { return Some(Err(userRing.error)); }

      req := NewPlainRequest();
      var addrs := client.PerformJson(req);
      if addrs.JsonWaiting? { return None; }
      if addrs.JsonFailed? { return Some(Err(addrs.err)); }

      var addresses := d.addresses(addrs.payload);
      var ring := UnlockAddresses(addresses, userRing.value, unlock);
      if |ring| == 0 {
        return Some(Err(NO_UNLOCKABLE_KEYS));
      }
      keyRing := ring;
      r := Some(Ok(ring));
    }

    method Logout() returns (r: Option<Result<(), Error>>)
      modifies this, client
      ensures (client.View(), keyRing, r) == LogoutSpec(old(client.View()), old(keyRing))
    {
      var req := NewPlainRequest();
      var o := client.PerformJson(req);
      if o.JsonWaiting? { return None; }
      if o.JsonFailed? { return Some(Err(o.err)); }
      client.uid := "";
      client.accessToken := "";
      keyRing := [];
      r := Some(Ok(()));
    }
  }

  /**
    Logout succeeds exactly when its response is a decodable 2xx without an error
    envelope, and then uid, token and ring are gone; a failed request's error is returned.
   */
  lemma LogoutExact(n: Net, stored: seq<Entity>)
    ensures var (n1, ring, r) := LogoutSpec(n, stored);
            var o := Do(n, PlainRequest(n)).2;
            && (r == Some(Ok(())) <==>
                  o.Got? && o.response.status / 100 == 2 && o.response.envelope.Some? && o.response.envelope.value.message.None?)
            && (r == Some(Ok(())) ==> n1.uid == "" && n1.token == "" && ring == [])
            && (r == None <==> o.Waiting?)
            && (o.Failed? ==> r == Some(Err(o.err)))
            && (r.Some? && r.value.Err? && o.Got? ==> JsonFailed(r.value.error) == Classify(o.response))
  {
    JsonOutcomeIs(n, PlainRequest(n));
  }

  predicate LogoutFails(n: Net, stored: seq<Entity>) {
    LogoutSpec(n, stored).2.Some? && LogoutSpec(n, stored).2.value.Err?
  }

  /** A failed Logout keeps the key ring, and leaves the credentials of the last callback that ran. */
  lemma FailedLogoutLeaves(n: Net, stored: seq<Entity>)
    requires LogoutFails(n, stored)
    ensures var (n1, ring, _) := LogoutSpec(n, stored);
            var c := n1.calls - n.calls;
            && ring == stored
            && 0 <= c <= |n.refreshes| && (n1.uid, n1.token) == Credentials(n, c)
  {
    CredentialsAfter(n, PlainRequest(n));
  }

  predicate KeepsSession(n: Net, stored: seq<Entity>) {
    var (n1, ring, r) := LogoutSpec(n, stored);
    LogoutFails(n, stored) ==> n1.uid == n.uid && n1.token == n.token && ring == stored
  }

  /** Whatever the server and the callback do from here, a failed Logout keeps uid, token and ring. */
  ghost predicate FailureKeepsSession(n: Net) {
    forall replies, refreshes, stored :: KeepsSession(n.(replies := replies, refreshes := refreshes), stored)
  }

  lemma LogoutFailureLosesToken(n: Net, e: Error, stored: seq<Entity>)
    requires n.reauth && n.uid != "" && n.token != ""
    ensures !KeepsSession(n.(replies := [Received(Response(401, None, ""))], refreshes := [Refresh(Some(e), n.uid, "")]), stored)
  {
    var m := n.(replies := [Received(Response(401, None, ""))], refreshes := [Refresh(Some(e), n.uid, "")]);
    var r := PlainRequest(m);
    assert Retryable(m, r);
    assert Activate(m, r).Stop? && Activate(m, r).outcome == Failed(e);
  }

  /** The promise of preserved state holds exactly for clients that cannot run the callback. */
  lemma LogoutFailureKeepsSessionIff(n: Net)
    ensures FailureKeepsSession(n) <==> !(n.reauth && n.uid != "" && n.token != "")
  {
    if n.reauth && n.uid != "" && n.token != "" {
      LogoutFailureLosesToken(n, Other(""), []);
    } else {
      forall replies, refreshes, stored ensures KeepsSession(n.(replies := replies, refreshes := refreshes), stored) {
        var m := n.(replies := replies, refreshes := refreshes);
        assert !Retryable(m, PlainRequest(m));
        assert Activate(m, PlainRequest(m)).Stop?;
      }
    }
  }

  /** A failing callback makes a failed Logout lose the token, although its comment promises to preserve it. */
  lemma LogoutCanLoseToken(e: Error, stored: seq<Entity>)
    ensures var n := Net("uid", "token", true, [Received(Response(401, None, ""))], [Refresh(Some(e), "uid", "")], [], [], 0);
            var (n1, ring, r) := LogoutSpec(n, stored);
            r == Some(Err(e)) && n1.token == "" && ring == stored
  {
    var n := Net("uid", "token", true, [Received(Response(401, None, ""))], [Refresh(Some(e), "uid", "")], [], [], 0);
    var r := PlainRequest(n);
    assert Retryable(n, r);
    assert Activate(n, r).Stop? && Activate(n, r).outcome == Failed(e);
  }

  lemma ClosingLeaves(n: Net, n1: Net, body: nat)
    requires Leaves(n, n1)
    ensures Leaves(n, CloseBody(n1, body))
  {}

  lemma JsonLeaves(n: Net, r: Req)
    ensures !DoJson(n, r).2.JsonWaiting? ==> Leaves(n, DoJson(n, r).0)
  {
    CredentialsAfter(n, r);
    var (n1, _, o) := Do(n, r);
    if o.Got? && Leaves(n, n1) { ClosingLeaves(n, n1, o.body); }
  }

  lemma LeavesTwice(n: Net, n1: Net, n2: Net)
    requires Leaves(n, n1) && Leaves(n1, n2)
    ensures Leaves(n, n2)
  {}

  /** Some active key of the user opens without any other key. */
  ghost predicate OpensUserRing(keys: seq<PrivateKey>, unlock: Unlocker) {
    exists k :: k in keys && k.active == 1 && unlock(k, []).Some?
  }

  /** Some active key of some address opens with the user's ring. */
  ghost predicate OpensAddressRing(addresses: seq<seq<PrivateKey>>, userRing: seq<Entity>, unlock: Unlocker) {
    exists a, k :: a in addresses && k in a && k.active == 1 && unlock(k, userRing).Some?
  }

  lemma UserRingExact(keys: seq<PrivateKey>, unlock: Unlocker)
    ensures var ring := Unlockable(keys, [], unlock);
            && (ring != [] <==> OpensUserRing(keys, unlock))
            && forall e :: e in ring <==> exists k :: k in keys && k.active == 1 && unlock(k, []) == Some(e)
  {
    var ring := Unlockable(keys, [], unlock);
    forall e ensures e in ring <==> exists k :: k in keys && k.active == 1 && unlock(k, []) == Some(e) {
      UnlockableExact(keys, [], unlock, e);
    }
    if ring != [] {
      assert ring[0] in ring;
    }
    if k :| k in keys && k.active == 1 && unlock(k, []).Some? {
      assert unlock(k, []).value in ring;
    }
  }

  lemma AddressesRingExact(addresses: seq<seq<PrivateKey>>, userRing: seq<Entity>, unlock: Unlocker)
    ensures var ring := AllUnlockable(addresses, userRing, unlock);
            && (ring != [] <==> OpensAddressRing(addresses, userRing, unlock))
            && forall e :: e in ring <==> exists a, k :: a in addresses && k in a && k.active == 1 && unlock(k, userRing) == Some(e)
  {
    var ring := AllUnlockable(addresses, userRing, unlock);
    forall e
      ensures e in ring <==> exists a, k :: a in addresses && k in a && k.active == 1 && unlock(k, userRing) == Some(e)
    {
      AddressRingExact(addresses, userRing, unlock, e);
    }
    if ring != [] {
      assert ring[0] in ring;
    }
    if a, k :| a in addresses && k in a && k.active == 1 && unlock(k, userRing).Some? {
      assert unlock(k, userRing).value in ring;
    }
  }

  predicate NoKeys(r: Option<Result<seq<Entity>, Error>>) {
    r.Some? && r.value.Err? && Is(r.value.error, ErrNoUnlockableKeys)
  }

  /** The result and the stored ring, from the keys of the user and of the addresses. */
  ghost predicate RingFrom(r: Option<Result<seq<Entity>, Error>>, stored: seq<Entity>,
                           userKeys: seq<PrivateKey>, addresses: seq<seq<PrivateKey>>, unlock: Unlocker) {
    var userRing := Unlockable(userKeys, [], unlock);
    && (forall e :: e in userRing <==> exists k :: k in userKeys && k.active == 1 && unlock(k, []) == Some(e))
    && if !OpensAddressRing(addresses, userRing, unlock) then NoKeys(r)
       else
         && r == Some(Ok(stored)) && stored == AllUnlockable(addresses, userRing, unlock)
         && forall e :: e in stored <==> exists a, k :: a in addresses && k in a && k.active == 1 && unlock(k, userRing) == Some(e)
  }

  /**
    Unlock returns a ring exactly when both requests decode, some active key of the
    user opens, and some active address key opens with the ring of those keys; the
    ring then holds exactly what the active address keys open to with that ring.
    Otherwise it returns the failed request's error, or one that matches
    ErrNoUnlockableKeys.
   */
  lemma UnlockExact(n: Net, stored: seq<Entity>, uid: string, token: string, d: Decoders, unlock: Unlocker)
    ensures var n0 := n.(uid := uid, token := token);
            var (n1, _, first) := DoJson(n0, PlainRequest(n0));
            var second := DoJson(n1, PlainRequest(n1)).2;
            var (end, ring, r) := UnlockSpec(n, stored, uid, token, d, unlock);
            match first
            case JsonWaiting => r == None
            case JsonFailed(e) => r == Some(Err(e))
            case Decoded(user) =>
              if !OpensUserRing(d.user(user), unlock) then NoKeys(r)
              else match second
                case JsonWaiting => r == None
                case JsonFailed(e) => r == Some(Err(e))
                case Decoded(addresses) => RingFrom(r, ring, d.user(user), d.addresses(addresses), unlock)
  {
    var n0 := n.(uid := uid, token := token);
    var (n1, _, first) := DoJson(n0, PlainRequest(n0));
    if first.Decoded? {
      UserRingExact(d.user(first.payload), unlock);
      var second := DoJson(n1, PlainRequest(n1)).2;
      if second.Decoded? {
        AddressesRingExact(d.addresses(second.payload), Unlockable(d.user(first.payload), [], unlock), unlock);
      }
    }
  }

  // The calls behind a finished Unlock, and the ring it leaves.
  lemma UnlockShape(n: Net, stored: seq<Entity>, uid: string, token: string, d: Decoders, unlock: Unlocker)
    ensures var n0 := n.(uid := uid, token := token);
            var (n1, _, o1) := DoJson(n0, PlainRequest(n0));
            var (n2, _, o2) := DoJson(n1, PlainRequest(n1));
            var (end, ring, r) := UnlockSpec(n, stored, uid, token, d, unlock);
            && (if r.Some? && r.value.Ok? then ring == r.value.value != [] else ring == stored)
            && (r.Some? ==> !o1.JsonWaiting? && (end == n1 || (end == n2 && !o2.JsonWaiting?)))
  {}

  /**
    A failed Unlock leaves the stored ring alone but has already replaced the
    credentials: by the given ones, or by those of the last callback of its requests.
   */
  lemma UnlockOutcome(n: Net, stored: seq<Entity>, uid: string, token: string, d: Decoders, unlock: Unlocker)
    ensures var (end, ring, r) := UnlockSpec(n, stored, uid, token, d, unlock);
            && (if r.Some? && r.value.Ok? then ring == r.value.value != [] else ring == stored)
            && (r.Some? ==> Leaves(n.(uid := uid, token := token), end))
  {
    var n0 := n.(uid := uid, token := token);
    UnlockShape(n, stored, uid, token, d, unlock);
    JsonLeaves(n0, PlainRequest(n0));
    var n1 := DoJson(n0, PlainRequest(n0)).0;
    JsonLeaves(n1, PlainRequest(n1));
    var end := UnlockSpec(n, stored, uid, token, d, unlock).0;
    if Leaves(n0, n1) && Leaves(n1, end) {
      LeavesTwice(n0, n1, end);
    }
  }
}
