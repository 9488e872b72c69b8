/** The error values of errors.go and the chain walk of `errors.Is`. */
module Errors {
  import opened Wrappers

  datatype Sentinel = ErrUnauthorized | ErrNotFound | ErrRateLimited | ErrNoUnlockableKeys | ErrImporterClosed

  datatype HttpError = HttpError(status: nat)

  datatype ApiError = ApiError(code: int, message: string, http: Option<HttpError>)

  datatype Error =
    | Api(api: ApiError)
    | Http(http: HttpError)
    | Plain(sentinel: Sentinel)
    | Wrapped(inner: Error)      // fmt.Errorf with %w
    | Other(text: string)        // an error with neither Is nor Unwrap

  const API_CODE_INVALID_CREDENTIALS := 8002
  const STATUS_UNAUTHORIZED := 401
  const STATUS_NOT_FOUND := 404
  const STATUS_TOO_MANY_REQUESTS := 429

  predicate ApiIs(e: ApiError, target: Sentinel) {
    target == ErrUnauthorized && (e.code == API_CODE_INVALID_CREDENTIALS || e.code == STATUS_UNAUTHORIZED)
  }

  predicate HttpIs(e: HttpError, target: Sentinel) {
    match target
    case ErrUnauthorized => e.status == STATUS_UNAUTHORIZED
    case ErrNotFound => e.status == STATUS_NOT_FOUND
    case ErrRateLimited => e.status == STATUS_TOO_MANY_REQUESTS
    case _ => false
  }

  function Unwrap(e: Error): Option<Error> {
    match e
    case Api(a) => if a.http.Some? then Some(Http(a.http.value)) else None
    case Wrapped(inner) => Some(inner)
    case _ => None
  }

  predicate SelfIs(e: Error, target: Sentinel) {
    match e
    case Api(a) => ApiIs(a, target)
    case Http(h) => HttpIs(h, target)
    case Plain(s) => s == target
    case _ => false
  }

  function Depth(e: Error): nat {
    match e
    case Api(_) => 1
    case Wrapped(inner) => 1 + Depth(inner)
    case _ => 0
  }

  /** `errors.Is`: some error on the Unwrap chain matches. */
  predicate Is(e: Error, target: Sentinel)
    decreases Depth(e)
  {
    SelfIs(e, target) || (Unwrap(e).Some? && Is(Unwrap(e).value, target))
  }

  /** Context added with %w. */
  function Layered(e: Error, layers: nat): Error {
    if layers == 0 then e else Wrapped(Layered(e, layers - 1))
  }

  lemma {:induction false} WrappingIsTransparent(e: Error, target: Sentinel, layers: nat)
    ensures Is(Layered(e, layers), target) <==> Is(e, target)
  {
    if layers == 0 {
    } else {
      WrappingIsTransparent(e, target, layers - 1);
    }
  }

  /**
    Through any number of layers an APIError matches ErrUnauthorized by its code,
    or what its HTTPError matches by status, and nothing else; a bare sentinel
    matches itself.
   */
  lemma SentinelsMatched(a: ApiError, h: HttpError, s: Sentinel, target: Sentinel, layers: nat)
    ensures Is(Layered(Api(a), layers), target) <==>
            || (target == ErrUnauthorized && a.code in {8002, 401})
            || (a.http.Some? && Is(Http(a.http.value), target))
    ensures Is(Layered(Http(h), layers), target) <==>
            (target, h.status) in {(ErrUnauthorized, 401), (ErrNotFound, 404), (ErrRateLimited, 429)}
    ensures Is(Layered(Plain(s), layers), target) <==> s == target
  {
    WrappingIsTransparent(Api(a), target, layers);
    WrappingIsTransparent(Http(h), target, layers);
    WrappingIsTransparent(Plain(s), target, layers);
  }
}
