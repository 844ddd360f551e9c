/**
 * The server pipeline's own logic: the middleware that turns a thrown error
 * into a status and an error body and a bare 404 into a structured one, and
 * the CORS origin chosen for a request.
 */
module Server {
  import opened Wrappers
  import opened Errors

  const PRODUCTION := "production"
  const INTERNAL_SERVER_ERROR := "INTERNAL_SERVER_ERROR"
  const NOT_FOUND := "NOT_FOUND"

  /** The `{code, message, details, stack}` body of an error response; `stack` is omitted in production. */
  datatype ErrorBody = ErrorBody(code: string, message: string, details: map<string, string>, stack: Option<string>)

  /** A response body: none yet, one a route handler set, the unknown-resource body, or an error body. */
  datatype Body =
    | Unset
    | Content(payload: string)
    | UnknownResource(code: string, message: string)
    | Failed(error: ErrorBody)

  /**
   * The status a thrown error is answered with. A service error is
   * classified by its flags, the most significant set flag deciding:
   * forbidden (403) over unauthorized (401) over validation (400) over not
   * found (404). Any other error keeps its own non-zero status, else 500.
   */
  function ExpectedStatus(e: ThrownError): int {
    if e.kind.ServiceError? && e.kind.isForbidden then 403
    else if e.kind.ServiceError? && e.kind.isUnauthorized then 401
    else if e.kind.ServiceError? && e.kind.isValidationFailed then 400
    else if e.kind.ServiceError? && e.kind.isNotFound then 404
    else if e.status.Some? && e.status.value != 0 then e.status.value
    else 500
  }

  /**
   * The handler's status computation: start from `error.status || 500`,
   * then let each set flag of a service error overwrite it in turn.
   */
  method ErrorStatus(e: ThrownError) returns (statusCode: int)
    ensures statusCode == ExpectedStatus(e)
    ensures e.kind.PlainError? ==> statusCode == (if e.status.Some? && e.status.value != 0 then e.status.value else 500)
  {
    statusCode := if e.status.Some? && e.status.value != 0 then e.status.value else 500;
    if e.kind.ServiceError? {
      if e.kind.isNotFound {
        statusCode := 404;
      }
      if e.kind.isValidationFailed {
        statusCode := 400;
      }
      if e.kind.isUnauthorized {
        statusCode := 401;
      }
      if e.kind.isForbidden {
        statusCode := 403;
      }
    }
  }

  /** A service error with exactly one flag set is answered with that flag's status, whatever its own status says. */
  lemma SingleFlagStatus(e: ThrownError)
    requires e.kind.ServiceError?
    ensures e.kind == ServiceError(true, false, false, false) ==> ExpectedStatus(e) == 404
    ensures e.kind == ServiceError(false, true, false, false) ==> ExpectedStatus(e) == 400
    ensures e.kind == ServiceError(false, false, true, false) ==> ExpectedStatus(e) == 401
    ensures e.kind == ServiceError(false, false, false, true) ==> ExpectedStatus(e) == 403
    ensures e.kind == ServiceError(false, false, false, false) ==> ExpectedStatus(e) == (if e.status.Some? && e.status.value != 0 then e.status.value else 500)
  {
  }

  /**
   * The error body: the error's code or `INTERNAL_SERVER_ERROR`, its
   * message, its details or `{}`, and its stack except in production.
   */
  function ErrorBodyOf(e: ThrownError, env: string): (b: ErrorBody)
    ensures b.code != ""
    ensures e.code.Some? && e.code.value != "" ==> b.code == e.code.value
    ensures b.code == INTERNAL_SERVER_ERROR <==> e.code.None? || e.code.value == "" || e.code.value == INTERNAL_SERVER_ERROR
    ensures b.message == e.message
    ensures b.details == e.details.GetOr(map[])
    ensures b.stack.Some? <==> env != PRODUCTION
    ensures b.stack.Some? ==> b.stack.value == e.stack
  {
    ErrorBody(
      if e.code.Some? && e.code.value != "" then e.code.value else INTERNAL_SERVER_ERROR,
      e.message,
      e.details.GetOr(map[]),
      if env != PRODUCTION then Some(e.stack) else None)
  }

  /** How the handlers after this middleware finished: normally, with a status and a body, or by throwing. */
  datatype Outcome = Completed(status: int, body: Body) | Threw(error: ThrownError)

  /** The request context as the middleware sees it: the status and body of the response, and the request's url. */
  class Context {
    var status: int
    var body: Body
    const url: string

    /** A fresh context: no body yet, and status 404 until a handler sets one. */
    constructor (url: string)
      ensures this.url == url && status == 404 && body == Unset
    {
      this.url := url;
      status, body := 404, Unset;
    }
  }

  /** The body a response ends with when no handler found the resource. */
  function UnknownResourceBody(url: string): (b: Body)
    ensures b.UnknownResource? && b.code == NOT_FOUND
    ensures b.message == "Unknown resource: " + url
  {
    UnknownResource(NOT_FOUND, "Unknown resource: " + url)
  }

  /**
   * The error-handling middleware. It runs the remaining handlers (`next`);
   * in this model the handler does not throw: a thrown error becomes a response with its
   * status and error body; a normal completion with status 404 gets the
   * unknown-resource body; any other response is left as the handlers made it.
   */
  method HandleErrors(ctx: Context, next: Outcome, env: string)
    modifies ctx
    ensures next.Completed? && next.status == 404 ==>
      ctx.status == 404 && ctx.body == UnknownResourceBody(ctx.url)
    ensures next.Completed? && next.status != 404 ==>
      ctx.status == next.status && ctx.body == next.body
    ensures next.Threw? ==>
      ctx.status == ExpectedStatus(next.error) && ctx.body == Failed(ErrorBodyOf(next.error, env))
  {
    match next
    case Completed(status, body) =>
      ctx.status, ctx.body := status, body;
      if ctx.status == 404 {
        ctx.body := UnknownResourceBody(ctx.url);
      }
    case Threw(error) =>
      var statusCode := ErrorStatus(error);
      var errorBody := ErrorBodyOf(error, env);
      ctx.status := statusCode;
      ctx.body := Failed(errorBody);
  }

  /** `indexOf`: the first position of `x` in `s`, or -1. */
  function IndexOf(s: seq<string>, x: string): (r: int)
    ensures -1 <= r < |s|
    ensures r == -1 <==> x !in s
    ensures r >= 0 ==> s[r] == x && forall k :: 0 <= k < r ==> s[k] != x
  {
    if s == [] then -1
    else if s[0] == x then 0
    else
      var r := IndexOf(s[1..], x);
      if r == -1 then -1 else r + 1
  }

  /**
   * The CORS `origin` callback: the request's origin when it is one of the
   * configured origins, else the first configured origin (none when the
   * list is empty); a request without an origin header gets the first.
   */
  function CorsOrigin(origins: seq<string>, requestOrigin: Option<string>): (r: Option<string>)
    ensures r.Some? <==> origins != []
    ensures r.Some? ==> r.value in origins
    ensures requestOrigin.Some? && requestOrigin.value in origins ==> r == requestOrigin
    ensures !(requestOrigin.Some? && requestOrigin.value in origins) && origins != [] ==> r == Some(origins[0])
  {
    if requestOrigin.Some? && IndexOf(origins, requestOrigin.value) != -1 then requestOrigin
    else if |origins| > 0 then Some(origins[0])
    else None
  }

  /** Answering with the chosen origin chooses it again: the choice is stable. */
  lemma {:induction false} CorsOriginIsIdempotent(origins: seq<string>, requestOrigin: Option<string>)
    ensures CorsOrigin(origins, CorsOrigin(origins, requestOrigin)) == CorsOrigin(origins, requestOrigin)
  {
    var r := CorsOrigin(origins, requestOrigin);
    if r.Some? {
      assert r.value in origins;
    }
  }
}
