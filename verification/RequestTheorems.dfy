/** What `do` and `doJSON` guarantee for every server trace and every callback. */
module RequestTheorems {
  import opened Wrappers
  import opened Errors
  import opened Request

  // ---- one activation ----

  /** What survives from one activation of `do` to the next. */
  lemma ActivationFacts(n: Net, r: Req)
    ensures var a := Activate(n, r);
            && a.net.sent == n.sent + [Attempt(r.uid, r.authorization, r.body, n.closes)]
            && (a.Again? ==>
                  && Retryable(n, r) && Retryable(a.net, a.req)
                  && a.net.calls == n.calls + 1
                  && a.net.closes == n.closes + [1]
                  && a.req.source == r.source
                  && (r.body.None? ==> a.req.body.None?)
                  && (r.body.Some? ==> r.source.Replays? && a.req.body == Some(r.source.bytes)))
  {}

  lemma StopFacts(n: Net, r: Req)
    requires Activate(n, r).Stop?
    ensures var a := Activate(n, r);
            match a.outcome
            case Got(response, body) =>
              && a.net.calls == n.calls && a.net.closes == n.closes + [0] && body == |n.closes|
              && (response.status == STATUS_UNAUTHORIZED ==> !Retryable(n, r))
            case _ =>
              && (a.net.calls == n.calls || a.net.calls == n.calls + 1)
              && (a.net.closes == n.closes || a.net.closes == n.closes + [1])
  {}

  // ---- whole runs ----

  /** Each callback run costs exactly one more send; the log only grows. */
  lemma {:induction false} SendsMatchCallbacks(n: Net, r: Req)
    ensures var (n1, r1, o) := Do(n, r);
            && n.sent <= n1.sent && |n1.sent| > |n.sent|
            && (o.Got? ==> |n1.sent| - |n.sent| == n1.calls - n.calls + 1)
            && n1.calls - n.calls <= |n1.sent| - |n.sent| <= n1.calls - n.calls + 1
    decreases |n.replies|
  {
    var a := Activate(n, r);
    ActivationFacts(n, r);
    if a.Again? {
      SendsMatchCallbacks(a.net, a.req);
    } else {
      StopFacts(n, r);
    }
  }

  /** GetBody gives back what the request first carried, as `newJSONRequest` sets it up. */
  predicate Faithful(r: Req) {
    r.body.Some? && r.source.Replays? ==> r.source.bytes == r.body.value
  }

  /** Every attempt offers the same bytes, although each send consumes the body it was given. */
  lemma {:induction false} AttemptsCarrySameBody(n: Net, r: Req)
    requires Faithful(r)
    ensures var n1 := Do(n, r).0;
            forall i :: |n.sent| <= i < |n1.sent| ==> n1.sent[i].body == r.body
    decreases |n.replies|
  {
    var a := Activate(n, r);
    ActivationFacts(n, r);
    if a.Stop? {
    } else {
      AttemptsCarrySameBody(a.net, a.req);
      SendsMatchCallbacks(a.net, a.req);
    }
  }

  /** A 401 reaches the caller only if this request could not have been retried. */
  lemma {:induction false} UnauthorizedOnlyIfNotRetryable(n: Net, r: Req)
    ensures var o := Do(n, r).2;
            o.Got? && o.response.status == STATUS_UNAUTHORIZED ==>
              r.authorization.None? || !n.reauth || (r.body.Some? && r.source == NotReplayable)
    decreases |n.replies|
  {
    var a := Activate(n, r);
    ActivationFacts(n, r);
    if a.Again? {
      UnauthorizedOnlyIfNotRetryable(a.net, a.req);
    } else {
      StopFacts(n, r);
    }
  }

  /** How the credentials of one attempt follow from the previous attempt and the callback between them. */
  predicate Refreshed(before: Attempt, f: Refresh, after: Attempt) {
    if f.uid != "" && f.token != ""
    then after.uid == Some(f.uid) && after.authorization == Some("Bearer " + f.token)
    else after.uid == before.uid && after.authorization == before.authorization
  }

  /** Attempts `start + i` and the next, with the i-th callback between them. */
  predicate Carries(end: Net, start: nat, refreshes: seq<Refresh>, i: nat) {
    && start + i + 1 < |end.sent| && i < |refreshes| && refreshes[i].err.None?
    && Refreshed(end.sent[start + i], refreshes[i], end.sent[start + i + 1])
  }

  lemma CarriesShifts(end: Net, start: nat, refreshes: seq<Refresh>, i: nat)
    requires i > 0 && refreshes != [] && Carries(end, start + 1, refreshes[1..], i - 1)
    ensures Carries(end, start, refreshes, i)
  {}

  // A call that sends more than once goes on after its first attempt.
  lemma OneSend(n: Net, r: Req)
    ensures var a := Activate(n, r);
            && |a.net.sent| == |n.sent| + 1
            && (a.Stop? ==> Do(n, r).0 == a.net)
            && (a.Again? ==> Do(n, r).0 == Do(a.net, a.req).0 && n.refreshes != [] && a.net.refreshes == n.refreshes[1..])
  {}

  lemma AgainCredentials(n: Net, r: Req)
    requires Activate(n, r).Again?
    ensures var a := Activate(n, r);
            && n.refreshes != [] && n.refreshes[0].err.None? && a.net.refreshes == n.refreshes[1..]
            && var f := n.refreshes[0];
               if f.uid != "" && f.token != ""
               then a.req.uid == Some(f.uid) && a.req.authorization == Some("Bearer " + f.token)
               else a.req.uid == r.uid && a.req.authorization == r.authorization
  {}

  lemma FirstAttempt(n: Net, r: Req)
    ensures var n1 := Do(n, r).0;
            && |n1.sent| > |n.sent| && n1.sent[|n.sent|].uid == r.uid && n1.sent[|n.sent|].authorization == r.authorization
  {
    var a := Activate(n, r);
    ActivationFacts(n, r);
    if a.Again? {
      SendsMatchCallbacks(a.net, a.req);
    }
  }

  lemma SecondAttempt(n: Net, r: Req)
    requires Activate(n, r).Again?
    ensures |Do(n, r).0.sent| > |n.sent| + 1 && n.refreshes != [] && n.refreshes[0].err.None?
    ensures Refreshed(Do(n, r).0.sent[|n.sent|], n.refreshes[0], Do(n, r).0.sent[|n.sent| + 1])
  {
    var a := Activate(n, r);
    ActivationFacts(n, r);
    AgainCredentials(n, r);
    FirstAttempt(a.net, a.req);
    SendsMatchCallbacks(a.net, a.req);
    assert Do(n, r).0.sent[|n.sent|] == a.net.sent[|n.sent|];
  }

  lemma {:induction false} RetryAfter(n: Net, r: Req, end: Net, i: nat)
    requires end == Do(n, r).0 && |n.sent| + i + 1 < |end.sent|
    ensures Carries(end, |n.sent|, n.refreshes, i)
    decreases |n.replies|
  {
    OneSend(n, r);
    if i == 0 {
      SecondAttempt(n, r);
    } else {
      var a := Activate(n, r);
      RetryAfter(a.net, a.req, end, i - 1);
      CarriesShifts(end, |n.sent|, n.refreshes, i);
    }
  }

  /**
    The attempt after the i-th callback carries what that callback left in the
    client; if it left the uid or the token empty, the stale headers go out again.
   */
  lemma RetriesCarryNewCredentials(n: Net, r: Req, i: nat)
    requires |n.sent| + i + 1 < |Do(n, r).0.sent|
    ensures i < |n.refreshes| && n.refreshes[i].err.None?
    ensures Refreshed(Do(n, r).0.sent[|n.sent| + i], n.refreshes[i], Do(n, r).0.sent[|n.sent| + i + 1])
  {
    RetryAfter(n, r, Do(n, r).0, i);
  }

  /** The body can be produced again for a further attempt. */
  predicate Replayable(r: Req) {
    r.body.None? || r.source.Replays?
  }

  predicate IsUnauthorized(reply: Reply) {
    reply.Received? && reply.response.status == STATUS_UNAUTHORIZED
  }

  lemma AgainShifts(n: Net, r: Req)
    requires Retryable(n, r) && Replayable(r)
    requires n.replies != [] && n.refreshes != [] && IsUnauthorized(n.replies[0]) && n.refreshes[0].err.None?
    ensures var a := Activate(n, r);
            && a.Again? && a.net.replies == n.replies[1..] && a.net.refreshes == n.refreshes[1..]
            && Replayable(a.req)
  {}

  /**
    There is no limit of one retry: as long as the callback succeeds, `do` goes on
    through any number k of 401s and returns the first other response.
   */
  lemma {:induction false} RetriesUntilAuthorized(n: Net, r: Req, k: nat)
    requires Retryable(n, r) && Replayable(r)
    requires k < |n.replies| && k <= |n.refreshes|
    requires forall i :: 0 <= i < k ==> IsUnauthorized(n.replies[i]) && n.refreshes[i].err.None?
    requires n.replies[k].Received? && !IsUnauthorized(n.replies[k])
    ensures var (n1, r1, o) := Do(n, r);
            && o == Got(n.replies[k].response, |n.closes| + k)
            && n1.calls == n.calls + k && |n1.sent| == |n.sent| + k + 1
    decreases k
  {
    ActivationFacts(n, r);
    if k == 0 {
    } else {
      var a := Activate(n, r);
      assert n.refreshes[0].err.None? && IsUnauthorized(n.replies[0]);
      AgainShifts(n, r);
      RetriesUntilAuthorized(a.net, a.req, k - 1);
    }
  }

  /** The first k attempts were refused and retried: the callbacks after them succeeded. */
  predicate RetriedTimes(n: Net, k: nat) {
    && k <= |n.replies| && k <= |n.refreshes|
    && forall i :: 0 <= i < k ==> IsUnauthorized(n.replies[i]) && n.refreshes[i].err.None?
  }

  /**
    How a call ends once k attempts have been retried, by the next reply: a lost
    connection and a failing callback give their own error, any response but a
    401 is returned, and without a reply or a callback result it is still waiting.
   */
  lemma {:induction false} OutcomeAfterRetries(n: Net, r: Req, k: nat)
    requires RetriedTimes(n, k) && Retryable(n, r) && Replayable(r)
    ensures var o := Do(n, r).2;
            if k == |n.replies| then o == Waiting
            else match n.replies[k]
              case Lost(text) => o == Failed(Other(text))
              case Received(response) =>
                if response.status != 401 then o == Got(response, |n.closes| + k)
                else if k == |n.refreshes| then o == Waiting
                else n.refreshes[k].err.Some? ==> o == Failed(n.refreshes[k].err.value)
    decreases k
  {
    ActivationFacts(n, r);
    if k == 0 {
    } else {
      var a := Activate(n, r);
      AgainShifts(n, r);
      OutcomeAfterRetries(a.net, a.req, k - 1);
    }
  }

  /** The outcome of a request that cannot be retried: that of its one send, a 401 included. */
  lemma OutcomeWithoutRetry(n: Net, r: Req)
    requires !Retryable(n, r)
    ensures var o := Do(n, r).2;
            if n.replies == [] then o == Waiting
            else match n.replies[0]
              case Lost(text) => o == Failed(Other(text))
              case Received(response) => o == Got(response, |n.closes|)
  {
    assert Activate(n, r).Stop?;
  }

  /** A body that cannot be produced again ends the call after one successful callback. */
  lemma ReplayFailureIsReported(n: Net, r: Req)
    requires Retryable(n, r) && r.body.Some? && r.source.ReplayFails?
    requires n.replies != [] && IsUnauthorized(n.replies[0]) && n.refreshes != [] && n.refreshes[0].err.None?
    ensures Do(n, r).2 == Failed(Other(r.source.text))
  {
    assert Activate(n, r).Stop?;
  }

  lemma ClassifiedPayload(response: Response)
    ensures Classify(response) != JsonWaiting
    ensures Classify(response).Decoded? <==>
            response.status / 100 == 2 && response.envelope.Some? && response.envelope.value.message.None?
    ensures Classify(response).Decoded? ==> Classify(response).payload == response.payload
  {}

  /** doJSON passes errors on and otherwise classifies the response that was returned. */
  lemma JsonOutcomeIs(n: Net, r: Req)
    ensures var o, j := Do(n, r).2, DoJson(n, r).2;
            && (j == JsonWaiting <==> o.Waiting?)
            && (o.Failed? ==> j == JsonFailed(o.err))
            && (j.Decoded? <==>
                  o.Got? && o.response.status / 100 == 2 && o.response.envelope.Some? && o.response.envelope.value.message.None?)
            && (j.Decoded? ==> j.payload == o.response.payload)
  {
    if Do(n, r).2.Got? { ClassifiedPayload(Do(n, r).2.response); }
  }

  /** The server refuses the first k attempts, and the callbacks between them succeed. */
  predicate RefusedTimes(n: Net, k: nat)
    requires k >= 1
  {
    && k <= |n.replies| && (forall i :: 0 <= i < k ==> IsUnauthorized(n.replies[i]))
    && k - 1 <= |n.refreshes| && (forall i :: 0 <= i < k - 1 ==> n.refreshes[i].err.None?)
  }

  lemma AgainMeans(n: Net, r: Req)
    requires Activate(n, r).Again?
    ensures n.replies != [] && n.refreshes != [] && IsUnauthorized(n.replies[0]) && n.refreshes[0].err.None?
    ensures Replayable(r)
    ensures var a := Activate(n, r);
            Replayable(a.req) && a.net.replies == n.replies[1..] && a.net.refreshes == n.refreshes[1..]
  {}

  lemma StopMeans(n: Net, r: Req)
    requires Activate(n, r).Stop?
    ensures var a := Activate(n, r);
            a.net.calls == n.calls + if Retryable(n, r) && RefusedTimes(n, 1) then 1 else 0
    ensures Retryable(n, r) && RefusedTimes(n, 1) ==> n.refreshes == [] || n.refreshes[0].err.Some? || !Replayable(r)
  {}

  lemma RefusedShifts(n: Net, n': Net, k: nat)
    requires k >= 2 && n.replies != [] && n.refreshes != []
    requires IsUnauthorized(n.replies[0]) && n.refreshes[0].err.None?
    requires n'.replies == n.replies[1..] && n'.refreshes == n.refreshes[1..]
    ensures RefusedTimes(n, k) <==> RefusedTimes(n', k - 1)
  {
    if RefusedTimes(n', k - 1) {
      assert forall i :: 1 <= i < k ==> n.replies[i] == n'.replies[i - 1];
      assert forall i :: 1 <= i < k - 1 ==> n.refreshes[i] == n'.refreshes[i - 1];
    }
  }

  lemma {:induction false} CallsGrow(n: Net, r: Req)
    ensures Do(n, r).0.calls >= n.calls
    decreases |n.replies|
  {
    var a := Activate(n, r);
    ActivationFacts(n, r);
    if a.Again? {
      CallsGrow(a.net, a.req);
    } else {
      StopFacts(n, r);
    }
  }

  /** Exactly when the callback runs k times or more. */
  lemma {:induction false} CallbacksIff(n: Net, r: Req, k: nat)
    requires k >= 1
    ensures Do(n, r).0.calls - n.calls >= k <==>
            Retryable(n, r) && RefusedTimes(n, k) && (k >= 2 ==> Replayable(r))
    decreases |n.replies|
  {
    var a := Activate(n, r);
    ActivationFacts(n, r);
    if a.Again? {
      AgainMeans(n, r);
      if k >= 2 {
        CallbacksIff(a.net, a.req, k - 1);
        RefusedShifts(n, a.net, k);
      } else {
        CallsGrow(a.net, a.req);
      }
    } else {
      StopMeans(n, r);
    }
  }

  /** The announced single re-authentication: exactly what breaks it is a second 401 after a callback that succeeded. */
  lemma SingleRetryIff(n: Net, r: Req)
    ensures Do(n, r).0.calls - n.calls <= 1 <==>
            !(Retryable(n, r) && Replayable(r) && |n.replies| >= 2 && IsUnauthorized(n.replies[0]) && IsUnauthorized(n.replies[1])
              && n.refreshes != [] && n.refreshes[0].err.None?)
  {
    CallbacksIff(n, r, 2);
  }

  /** Whatever the server and the callback do from here, the callback runs at most once. */
  ghost predicate AtMostOneRetry(n: Net, r: Req) {
    forall replies, refreshes :: Do(n.(replies := replies, refreshes := refreshes), r).0.calls - n.calls <= 1
  }

  /** The announced limit holds for all servers exactly if no second attempt can be made. */
  lemma SingleRetryForAllIff(n: Net, r: Req)
    ensures AtMostOneRetry(n, r) <==> !(Retryable(n, r) && Replayable(r))
  {
    if Retryable(n, r) && Replayable(r) {
      var refused := Received(Response(STATUS_UNAUTHORIZED, None, ""));
      var replies, refreshes := [refused, refused], [Refresh(None, "", "")];
      SingleRetryIff(n.(replies := replies, refreshes := refreshes), r);
      assert Do(n.(replies := replies, refreshes := refreshes), r).0.calls - n.calls > 1;
    } else {
      forall replies, refreshes ensures Do(n.(replies := replies, refreshes := refreshes), r).0.calls - n.calls <= 1 {
        SingleRetryIff(n.(replies := replies, refreshes := refreshes), r);
      }
    }
  }

  // ---- response bodies ----

  /** Every body this request obtained is closed exactly once, except the one handed to the caller. */
  lemma {:induction false} BodiesClosedOnce(n: Net, r: Req)
    ensures var (n1, r1, o) := Do(n, r);
            && n.closes <= n1.closes
            && (forall b :: |n.closes| <= b < |n1.closes| ==> n1.closes[b] == if o.Got? && b == o.body then 0 else 1)
            && (o.Got? ==> o.body == |n1.closes| - 1 && o.body >= |n.closes|)
    decreases |n.replies|
  {
    var a := Activate(n, r);
    ActivationFacts(n, r);
    if a.Again? {
      BodiesClosedOnce(a.net, a.req);
    } else {
      StopFacts(n, r);
    }
  }

  // Each logged attempt extends the close counts of the state it came from.
  lemma {:induction false} AttemptsRemember(n: Net, r: Req)
    ensures var n1 := Do(n, r).0;
            forall i :: |n.sent| <= i < |n1.sent| ==> n.closes <= n1.sent[i].closes
    decreases |n.replies|
  {
    var a := Activate(n, r);
    ActivationFacts(n, r);
    if a.Stop? {
    } else {
      AttemptsRemember(a.net, a.req);
      SendsMatchCallbacks(a.net, a.req);
      assert Do(n, r).0.sent[|n.sent|].closes == n.closes;
    }
  }

  /** Whenever a request goes out, every body obtained for it before is already closed. */
  lemma {:induction false} NoBodyOpenWhileSending(n: Net, r: Req)
    ensures var n1 := Do(n, r).0;
            forall i, b :: |n.sent| <= i < |n1.sent| && |n.closes| <= b < |n1.sent[i].closes| ==> n1.sent[i].closes[b] == 1
    decreases |n.replies|
  {
    var a := Activate(n, r);
    ActivationFacts(n, r);
    if a.Stop? {
    } else {
      NoBodyOpenWhileSending(a.net, a.req);
      SendsMatchCallbacks(a.net, a.req);
      AttemptsRemember(a.net, a.req);
      var n1 := Do(n, r).0;
      assert n1.sent[|n.sent|].closes == n.closes;
    }
  }

  /** Once `doJSON` has returned, every body it ever held is closed exactly once. */
  lemma JsonClosesEveryBody(n: Net, r: Req)
    ensures var (n1, r1, o) := DoJson(n, r);
            && n.closes <= n1.closes
            && (!o.JsonWaiting? ==> forall b :: |n.closes| <= b < |n1.closes| ==> n1.closes[b] == 1)
  {
    BodiesClosedOnce(n, r);
  }

  // ---- classification ----

  /** An empty Error string hides the envelope of a failed status, but not that of a 2xx response. */
  predicate Surfaced(response: Response) {
    && response.envelope.Some? && response.envelope.value.message.Some?
    && (response.status / 100 == 2 || response.envelope.value.message.value != "")
  }

  /**
    Which sentinels a failed response matches: by HTTP status outside 2xx, and by
    Proton's code whenever an error envelope was surfaced.
   */
  lemma ClassifiedErrors(response: Response, target: Sentinel)
    ensures Classify(response).Decoded? <==>
            response.status / 100 == 2 && response.envelope.Some? && response.envelope.value.message.None?
    ensures Classify(response).JsonFailed? ==>
            (Is(Classify(response).err, target) <==>
              || (response.status / 100 != 2 && HttpIs(HttpError(response.status), target))
              || (target == ErrUnauthorized && Surfaced(response) && response.envelope.value.code in {8002, 401}))
  {
    match response.envelope
    case Some(Envelope(code, Some(message))) =>
      var http := HttpError(response.status);
      assert Is(Http(http), target) <==> HttpIs(http, target);
      assert Is(Api(ApiError(code, message, Some(http))), target)
             <==> ApiIs(ApiError(code, message, Some(http)), target) || Is(Http(http), target);
    case _ =>
  }

  /**
    What a classified response carries: its own payload on success, otherwise the
    code and message of a surfaced envelope, the HTTP status of a failed response,
    or a decoding error for a 2xx that is not an envelope.
   */
  lemma ClassifiedValue(response: Response)
    ensures match Classify(response)
            case JsonWaiting => false
            case Decoded(payload) => payload == response.payload
            case JsonFailed(Api(a)) =>
              && Surfaced(response)
              && a.code == response.envelope.value.code && Some(a.message) == response.envelope.value.message
              && a.http == if response.status / 100 == 2 then None else Some(HttpError(response.status))
            case JsonFailed(Http(h)) => response.status / 100 != 2 && !Surfaced(response) && h.status == response.status
            case JsonFailed(Other(_)) => response.status / 100 == 2 && response.envelope.None?
            case JsonFailed(_) => false
  {}

  /** A 401 that gets through `doJSON` always matches ErrUnauthorized, whatever its body. */
  lemma UnauthorizedSurfaces(response: Response)
    requires response.status == STATUS_UNAUTHORIZED
    ensures Classify(response).JsonFailed? && Is(Classify(response).err, ErrUnauthorized)
  {
    ClassifiedErrors(response, ErrUnauthorized);
  }
}
