/** What a handler hands back to the web layer: a payload on success, or one of
    the three HTTP errors the application registers handlers for, together with
    the JSON envelope each of those handlers produces. */
module Responses {
  import opened Common

  /** The errors the handlers raise with `abort`. */
  datatype ErrorCode = BadRequest | NotFound | Unprocessable

  /** The result of one request: `{"success": true, ...payload}` or an aborted request. */
  datatype Outcome<+T> = Success(payload: T) | Error(code: ErrorCode)

  /** The JSON body `{"success": ..., "error": ..., "message": ...}` of an error response. */
  datatype ErrorBody = ErrorBody(success: bool, error: int, message: string)

  /** The HTTP status of an error. */
  function Status(code: ErrorCode): (status: int)
    ensures 400 <= status < 500
  {
    match code
    case BadRequest => 400
    case NotFound => 404
    case Unprocessable => 422
  }

  /** Which registered error handler Flask dispatches an aborted status to. */
  function HandlerFor(status: int): (code: Option<ErrorCode>)
    ensures code.Some? <==> status in {400, 404, 422}
    ensures code.Some? ==> Status(code.value) == status
  {
    if status == 400 then Some(BadRequest)
    else if status == 404 then Some(NotFound)
    else if status == 422 then Some(Unprocessable)
    else None
  }

  /** The body each registered error handler returns. The 404 handler reuses
      the 400 handler's message. */
  function ErrorEnvelope(code: ErrorCode): (body: ErrorBody)
    ensures !body.success
    ensures HandlerFor(body.error) == Some(code)
    ensures body.message == (if code == Unprocessable then "unprocessable" else "bad request")
  {
    match code
    case BadRequest => ErrorBody(false, 400, "bad request")
    case NotFound => ErrorBody(false, 404, "bad request")
    case Unprocessable => ErrorBody(false, 422, "unprocessable")
  }

  /** Every error is dispatched back to its own handler: the status in the
      envelope identifies the error even where two messages coincide. */
  lemma {:induction false} EnvelopeIdentifiesError(a: ErrorCode, b: ErrorCode)
    ensures ErrorEnvelope(a).error == ErrorEnvelope(b).error <==> a == b
  {
    if ErrorEnvelope(a).error == ErrorEnvelope(b).error {
      assert HandlerFor(ErrorEnvelope(a).error) == Some(a);
      assert HandlerFor(ErrorEnvelope(b).error) == Some(b);
    }
  }
}
