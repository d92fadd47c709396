/** The JSON envelope of every API answer (lib/utils/response.ts):
    `{ success, message, data }` or `{ success: false, error: { code, message, details? } }`
    with an HTTP status. */
module Responses {
  import opened Base
  import opened Errors

  datatype ErrorInfo = ErrorInfo(code: string, message: string, details: Option<map<string, string>>)

  datatype Body<D> = Succeeded(message: Option<string>, data: D) | Failed(error: ErrorInfo)

  datatype Response<D> = Response(status: int, body: Body<D>) {
    /** The `success` field of the JSON body. */
    predicate Success() {
      body.Succeeded?
    }
  }

  const DefaultSuccessStatus: int := 200

  const InternalErrorCode: string := "INTERNAL_ERROR"
  const InternalErrorMessage: string := "An unexpected error occurred"

  /** `successResponse(data, message?, statusCode = 200)` */
  function SuccessResponse<D>(data: D, message: Option<string>, status: int): (r: Response<D>)
    ensures r.Success() && r.status == status
    ensures r.body.data == data && r.body.message == message
  {
    Response(status, Succeeded(message, data))
  }

  /** `errorResponse(error)`: an `AuthError` keeps its code, message and status;
      anything else becomes an opaque 500. */
  function ErrorResponse<D>(t: Thrown): (r: Response<D>)
    ensures !r.Success() && r.body.error.details.None?
    ensures t.Auth? ==> r.status == t.error.StatusCode()
                        && r.body.error.code == t.error.Code()
                        && r.body.error.message == t.error.message
    ensures t.Unexpected? ==> r.status == 500
                              && r.body.error.code == InternalErrorCode
                              && r.body.error.message == InternalErrorMessage
  {
    match t
    case Auth(e) => Response(e.StatusCode(), Failed(ErrorInfo(e.Code(), e.message, None)))
    case Unexpected => Response(500, Failed(ErrorInfo(InternalErrorCode, InternalErrorMessage, None)))
  }

  /** `validationErrorResponse(errors)`: 400 with the per-field map as details. */
  function ValidationErrorResponse<D>(errors: map<string, string>): (r: Response<D>)
    ensures !r.Success() && r.status == 400
    ensures r.body.error.code == "VALIDATION_ERROR" && r.body.error.message == "Validation failed"
    ensures r.body.error.details == Some(errors)
  {
    Response(400, Failed(ErrorInfo("VALIDATION_ERROR", "Validation failed", Some(errors))))
  }

  /** A schema failure and a thrown `ValidationError` reach the client with the same
      code and status; only the message and the details differ. */
  lemma ValidationPathsAgree<D>(errors: map<string, string>, message: string)
    ensures var a: Response<D> := ValidationErrorResponse(errors);
            var b: Response<D> := ErrorResponse(Auth(Validation(message)));
            a.status == b.status && a.body.error.code == b.body.error.code
  {
  }

  /** A subclass error's response carries a status in the 4xx range that agrees with
      its code; only an unexpected error or a custom `AuthError` can produce another. */
  lemma ErrorResponseStatus<D>(t: Thrown)
    requires t.Auth? && !t.error.Custom?
    ensures var r: Response<D> := ErrorResponse(t);
            400 <= r.status < 500 && StandardStatus(r.body.error.code) == Some(r.status)
  {
    SubclassStatusFollowsCode(t.error);
  }
}
