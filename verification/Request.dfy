/**
  The request engine (protonmail.go): authorization headers, the recursive `do`
  with its re-authentication callback, and `doJSON`'s classification.

  The server is an arbitrary finite trace of replies and the callback an
  arbitrary finite list of effects on the client's credentials.  When either
  list runs out the call is still waiting: it has not returned.
 */
module Request {
  import opened Wrappers
  import opened Codec
  import opened Errors

  /** `json` decoding of a response: the envelope's code and its optional Error string. */
  datatype Envelope = Envelope(code: int, message: Option<string>)

  datatype Response = Response(status: nat, envelope: Option<Envelope>, payload: string)

  datatype Reply = Lost(text: string) | Received(response: Response)

  /** What one run of the ReAuth callback leaves behind. */
  datatype Refresh = Refresh(err: Option<Error>, uid: string, token: string)

  datatype BodySource = NotReplayable | Replays(bytes: seq<byte>) | ReplayFails(text: string)

  /** One send, as the server sees it, and the close counts of all response bodies at that moment. */
  datatype Attempt = Attempt(uid: Option<string>, authorization: Option<string>, body: Option<seq<byte>>, closes: seq<nat>)

  /** The value of a request: two headers, the unread rest of its body, and GetBody. */
  datatype Req = Req(uid: Option<string>, authorization: Option<string>, body: Option<seq<byte>>, source: BodySource)

  /** The value of a client and of everything it has exchanged so far. */
  datatype Net = Net(
    uid: string,
    token: string,
    reauth: bool,
    replies: seq<Reply>,
    refreshes: seq<Refresh>,
    sent: seq<Attempt>,
    closes: seq<nat>,     // how often each response body obtained was closed
    calls: nat)           // callback invocations

  /** `Got` names the response body its caller now owns. */
  datatype Outcome = Got(response: Response, body: nat) | Failed(err: Error) | Waiting

  // ---- specification ----

  function Authorize(n: Net, r: Req): Req {
    if n.uid != "" && n.token != ""
    then r.(uid := Some(n.uid), authorization := Some("Bearer " + n.token))
    else r
  }

  predicate CanRetry(r: Req) {
    r.body.None? || r.source != NotReplayable
  }

  /** A 401 to this request runs the callback. */
  predicate Retryable(n: Net, r: Req) {
    r.authorization.Some? && n.reauth && CanRetry(r)
  }

  function Send(n: Net, r: Req): Net {
    n.(sent := n.sent + [Attempt(r.uid, r.authorization, r.body, n.closes)])
  }

  function Consumed(r: Req): Req {
    if r.body.Some? then r.(body := Some([])) else r
  }

  function CloseBody(n: Net, body: nat): Net {
    if body < |n.closes| then n.(closes := n.closes[body := n.closes[body] + 1]) else n
  }

  function Rewound(r: Req): Result<Req, Error> {
    if r.body.None? then Ok(r)
    else match r.source
      case Replays(bytes) => Ok(r.(body := Some(bytes)))
      case ReplayFails(text) => Err(Other(text))
      case NotReplayable => Err(Other(""))
  }

  /** One activation of `do`: it stops, or calls itself again on a new state. */
  datatype Activation = Stop(net: Net, req: Req, outcome: Outcome) | Again(net: Net, req: Req)

  /** The client as the callback finds it: the 401's body closed and the expired token gone. */
  function BeforeCallback(n: Net, body: nat): Net {
    CloseBody(n, body).(token := "", calls := n.calls + 1)
  }

  function Reauthenticate(n: Net, r: Req): (a: Activation)
    ensures a.Again? ==> a.net.replies == n.replies
  {
    if n.refreshes == [] then Stop(n, r, Waiting)
    else
      var f := n.refreshes[0];
      var n1 := n.(refreshes := n.refreshes[1..], uid := f.uid, token := f.token);
      if f.err.Some? then Stop(n1, r, Failed(f.err.value))
      else
        var r1 := Authorize(n1, r);
        match Rewound(r1)
        case Err(e) => Stop(n1, r1, Failed(e))
        case Ok(r2) => Again(n1, r2)
  }

  function Activate(n: Net, r: Req): (a: Activation)
    ensures a.Again? ==> |a.net.replies| < |n.replies|
  {
    var n1 := Send(n, r);
    if n.replies == [] then Stop(n1, r, Waiting)
    else
      var n2 := n1.(replies := n.replies[1..]);
      var r2 := Consumed(r);
      match n.replies[0]
      case Lost(text) => Stop(n2, r2, Failed(Other(text)))
      case Received(response) =>
        var body := |n2.closes|;
        var n3 := n2.(closes := n2.closes + [0]);
        if response.status == STATUS_UNAUTHORIZED && Retryable(n, r)
        then Reauthenticate(BeforeCallback(n3, body), r2)
        else Stop(n3, r2, Got(response, body))
  }

  function Do(n: Net, r: Req): (Net, Req, Outcome)
    decreases |n.replies|
  {
    match Activate(n, r)
    case Stop(n', r', o) => (n', r', o)
    case Again(n', r') => Do(n', r')
  }

  datatype JsonOutcome = Decoded(payload: string) | JsonFailed(err: Error) | JsonWaiting

  /** What `doJSON` makes of the response it received. */
  function Classify(response: Response): JsonOutcome {
    if response.status / 100 != 2 then
      var http := HttpError(response.status);
      match response.envelope
      case Some(Envelope(code, Some(message))) =>
        if message != "" then JsonFailed(Api(ApiError(code, message, Some(http)))) else JsonFailed(Http(http))
      case _ => JsonFailed(Http(http))
    else match response.envelope
      case None => JsonFailed(Other("malformed JSON"))
      case Some(Envelope(code, Some(message))) => JsonFailed(Api(ApiError(code, message, None)))
      case Some(Envelope(_, None)) => Decoded(response.payload)
  }

  function DoJson(n: Net, r: Req): (Net, Req, JsonOutcome) {
    var (n1, r1, o) := Do(n, r);
    match o
    case Waiting => (n1, r1, JsonWaiting)
    case Failed(e) => (n1, r1, JsonFailed(e))
    case Got(response, body) => (CloseBody(n1, body), r1, Classify(response))
  }

  // ---- the code ----

  class HttpRequest {
    var uid: Option<string>
    var authorization: Option<string>
    var body: Option<seq<byte>>
    var source: BodySource

    function View(): Req
      reads this
    {
      Req(uid, authorization, body, source)
    }

    constructor (body: Option<seq<byte>>, source: BodySource)
      ensures View() == Req(None, None, body, source)
    {
      this.uid, this.authorization := None, None;
      this.body, this.source := body, source;
    }
  }

  lemma {:induction false} GotBodyExists(n: Net, r: Req)
    ensures var (n1, _, o) := Do(n, r); o.Got? ==> o.body < |n1.closes|
    decreases |n.replies|
  {
    var a := Activate(n, r);
    if a.Stop? {
    } else {
      GotBodyExists(a.net, a.req);
    }
  }

  class Client {
    var uid: string
    var accessToken: string
    const hasReauth: bool
    // the wire
    var replies: seq<Reply>
    var refreshes: seq<Refresh>
    var sent: seq<Attempt>
    var closes: seq<nat>
    var calls: nat

    function View(): Net
      reads this
    {
      Net(uid, accessToken, hasReauth, replies, refreshes, sent, closes, calls)
    }

    constructor (hasReauth: bool, replies: seq<Reply>, refreshes: seq<Refresh>)
      ensures View() == Net("", "", hasReauth, replies, refreshes, [], [], 0)
    {
      this.uid, this.accessToken, this.hasReauth := "", "", hasReauth;
      this.replies, this.refreshes := replies, refreshes;
      this.sent, this.closes, this.calls := [], [], 0;
    }

    method SetRequestAuthorization(req: HttpRequest)
      modifies req
      ensures req.View() == Authorize(View(), old(req.View()))
    {
      if uid != "" && accessToken != "" {
        req.uid := Some(uid);
        req.authorization := Some("Bearer " + accessToken);
      }
    }

    /** `drainAndClose`, and the deferred Close of `doJSON`. */
    method DrainAndClose(body: nat)
      requires body < |closes|
      modifies this`closes
      ensures View() == CloseBody(old(View()), body)
    {
      closes := closes[body := closes[body] + 1];
    }

    /** `httpClient.Do`: the body offered is the unread rest, and is consumed. */
    method RoundTrip(req: HttpRequest) returns (reply: Option<Reply>)
      modifies this`sent, this`replies, this`closes, req`body
      ensures old(replies) == [] ==> reply == None && View() == Send(old(View()), old(req.View())) && req.View() == old(req.View())
      ensures old(replies) != [] ==>
                && reply == Some(old(replies)[0])
                && req.View() == Consumed(old(req.View()))
                && var n := Send(old(View()), old(req.View())).(replies := old(replies)[1..]);
                   View() == if reply.value.Received? then n.(closes := n.closes + [0]) else n
    {
      sent := sent + [Attempt(req.uid, req.authorization, req.body, closes)];
      if replies == [] {
        return None;
      }
      reply := Some(replies[0]);
      replies := replies[1..];
      if req.body.Some? {
        req.body := Some([]);
      }
      if reply.value.Received? {
        closes := closes + [0];
      }
    }

    /** The ReAuth callback, with whatever it does to the client's credentials. */
    method RunReauth() returns (ran: bool, err: Option<Error>)
      modifies this`refreshes, this`uid, this`accessToken
      ensures ran <==> old(refreshes) != []
      ensures !ran ==> View() == old(View())
      ensures ran ==> var f := old(refreshes)[0];
                      && View() == old(View()).(refreshes := old(refreshes)[1..], uid := f.uid, token := f.token)
                      && err == f.err
    {
      if refreshes == [] {
        return false, None;
      }
      var f := refreshes[0];
      refreshes := refreshes[1..];
      uid, accessToken := f.uid, f.token;
      return true, f.err;
    }

    /** `do`. */
    method Perform(req: HttpRequest) returns (o: Outcome)
      modifies this, req
      ensures (View(), req.View(), o) == Do(old(View()), old(req.View()))
      decreases |replies|
    {
      var reply := RoundTrip(req);
      if reply == None {
        return Waiting;
      }
      if reply.value.Lost? {
        return Failed(Other(reply.value.text));
      }
      var response := reply.value.response;
      var body := |closes| - 1;
      var hasAuth := req.authorization.Some?;
      var canRetry := req.body.None? || req.source != NotReplayable;
      if response.status == STATUS_UNAUTHORIZED && hasAuth && hasReauth && canRetry {
        DrainAndClose(body);
        accessToken := "";
        calls := calls + 1;
        var ran, err := RunReauth();
        if !ran {
          return Waiting;
        }
        if err.Some? {
          return Failed(err.value);
        }
        SetRequestAuthorization(req);
        if req.body.Some? {
          match req.source {
            case Replays(bytes) => req.body := Some(bytes);
            case ReplayFails(text) => return Failed(Other(text));
            case NotReplayable => assert false;
          }
        }
        o := Perform(req);
        return;
      }
      o := Got(response, body);
    }

    /** `doJSON`. */
    method PerformJson(req: HttpRequest) returns (o: JsonOutcome)
      modifies this, req
      ensures (View(), req.View(), o) == DoJson(old(View()), old(req.View()))
    {
      var raw := Perform(req);
      if raw.Waiting? {
        return JsonWaiting;
      }
      if raw.Failed? {
        return JsonFailed(raw.err);
      }
      var response := raw.response;
      if response.status / 100 != 2 {
        var httpErr := HttpError(response.status);
        o := JsonFailed(Http(httpErr));
        if response.envelope.Some? && response.envelope.value.message.Some? && response.envelope.value.message.value != "" {
          o := JsonFailed(Api(ApiError(response.envelope.value.code, response.envelope.value.message.value, Some(httpErr))));
        }
      } else if response.envelope.None? {
        o := JsonFailed(Other("malformed JSON"));
      } else if response.envelope.value.message.Some? {
        o := JsonFailed(Api(ApiError(response.envelope.value.code, response.envelope.value.message.value, None)));
      } else {
        o := Decoded(response.payload);
      }
      GotBodyExists(old(View()), old(req.View()));
      DrainAndClose(raw.body);
    }
  }
}
