/** The error taxonomy (lib/utils/errors.ts): `AuthError` and its four
    subclasses, each fixing a code and an HTTP status. */
module Errors {
  import opened Base

  /** One thrown `AuthError`. `Custom` is the base class constructed directly. */
  datatype AuthError =
    | Custom(message: string, code: string, statusCode: int)
    | Validation(message: string)
    | Unauthorized(message: string)
    | NotFound(message: string)
    | RateLimit(message: string)
  {
    function Code(): string {
      match this
      case Custom(_, code, _) => code
      case Validation(_) => "VALIDATION_ERROR"
      case Unauthorized(_) => "UNAUTHORIZED"
      case NotFound(_) => "NOT_FOUND"
      case RateLimit(_) => "RATE_LIMIT_EXCEEDED"
    }

    function StatusCode(): int {
      match this
      case Custom(_, _, status) => status
      case Validation(_) => 400
      case Unauthorized(_) => 401
      case NotFound(_) => 404
      case RateLimit(_) => 429
    }
  }

  /** Anything a route handler's `try` block can throw. */
  datatype Thrown = Auth(error: AuthError) | Unexpected

  const DefaultAuthStatus: int := 400

  /** `new AuthError(message, code, statusCode?)`: the status defaults to 400. */
  function NewAuthError(message: string, code: string, statusCode: Option<int>): (e: AuthError)
    ensures e.message == message && e.Code() == code
    ensures statusCode.None? ==> e.StatusCode() == DefaultAuthStatus
    ensures statusCode.Some? ==> e.StatusCode() == statusCode.value
  {
    Custom(message, code, statusCode.GetOr(DefaultAuthStatus))
  }

  /** `new UnauthorizedError(message?)` */
  function NewUnauthorized(message: Option<string>): (e: AuthError)
    ensures e.Code() == "UNAUTHORIZED" && e.StatusCode() == 401
    ensures message.None? ==> e.message == "Unauthorized"
    ensures message.Some? ==> e.message == message.value
  {
    Unauthorized(message.GetOr("Unauthorized"))
  }

  /** `new NotFoundError(message?)` */
  function NewNotFound(message: Option<string>): (e: AuthError)
    ensures e.Code() == "NOT_FOUND" && e.StatusCode() == 404
    ensures message.None? ==> e.message == "Resource not found"
    ensures message.Some? ==> e.message == message.value
  {
    NotFound(message.GetOr("Resource not found"))
  }

  /** `new RateLimitError(message?)` */
  function NewRateLimit(message: Option<string>): (e: AuthError)
    ensures e.Code() == "RATE_LIMIT_EXCEEDED" && e.StatusCode() == 429
    ensures message.None? ==> e.message == "Too many requests"
    ensures message.Some? ==> e.message == message.value
  {
    RateLimit(message.GetOr("Too many requests"))
  }

  /** The status each of the four fixed codes stands for, as an independent table. */
  function StandardStatus(code: string): Option<int> {
    if code == "VALIDATION_ERROR" then Some(400)
    else if code == "UNAUTHORIZED" then Some(401)
    else if code == "NOT_FOUND" then Some(404)
    else if code == "RATE_LIMIT_EXCEEDED" then Some(429)
    else None
  }

  /** Every subclass error carries the status its code stands for, a client-error status. */
  lemma SubclassStatusFollowsCode(e: AuthError)
    requires !e.Custom?
    ensures StandardStatus(e.Code()) == Some(e.StatusCode())
    ensures 400 <= e.StatusCode() < 500
  {
  }

  /** Two subclass errors with the same code have the same status, whatever their messages. */
  lemma CodeDeterminesStatus(e1: AuthError, e2: AuthError)
    requires !e1.Custom? && !e2.Custom? && e1.Code() == e2.Code()
    ensures e1.StatusCode() == e2.StatusCode()
  {
    SubclassStatusFollowsCode(e1);
    SubclassStatusFollowsCode(e2);
  }
}
