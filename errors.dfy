/** Structured errors raised by the handlers and the single responder that renders
    them (middlewares/handelError.js). `appError.create` and the status words of
    utils/statusText.js are represented by `Create` and `StatusText`. */
module Errors {
  import opened Wrappers

  /** The status words of a response envelope. */
  datatype StatusText = SUCCESS | FAIL | ERROR

  /** An error as `appError.create(message, statusCode, statusText)` builds it;
      an argument the caller leaves out stays absent. */
  datatype AppError = AppError(message: string, statusCode: Option<int>, statusText: Option<StatusText>)

  function Create(message: string, statusCode: int, statusText: StatusText): AppError {
    AppError(message, Some(statusCode), Some(statusText))
  }

  /** `appError.create(message)` with neither a status code nor a status word. */
  function CreateBare(message: string): AppError {
    AppError(message, None, None)
  }

  /** What a validator does: return normally, or throw an error. */
  datatype Outcome = Pass | Fail(error: AppError)

  /** What a handler does: send a success envelope (its HTTP status, `message` and
      `data`), hand an error to `next`, or let a rejected store write escape: the
      handler's promise rejects outside the reach of catchError, and nothing is sent. */
  datatype Reply<T> = Ok(code: int, message: string, data: T) | Err(error: AppError) | Escaped(reason: string)

  /** The HTTP status and the JSON body `{status, message, code, data}` that
      handelError writes. The body's `data` is always `null` and is not represented. */
  datatype ErrorResponse = ErrorResponse(httpStatus: int, status: StatusText, message: string, code: int)

  /** JavaScript truthiness of an optional string from a request body or query:
      absent and empty are falsy. */
  predicate IsTruthyText(s: Option<string>) {
    s.Some? && s.value != ""
  }

  /** JavaScript truthiness of an optional number: absent and 0 are falsy. */
  predicate IsTruthyCode(code: Option<int>) {
    code.Some? && code.value != 0
  }

  /** The error envelope: the error's own code when it has a truthy one, otherwise 500;
      the same number in the body; its status word, otherwise ERROR; its message as is. */
  function HandleError(e: AppError): (r: ErrorResponse)
    ensures r.code == r.httpStatus && r.httpStatus != 0
    ensures IsTruthyCode(e.statusCode) ==> r.httpStatus == e.statusCode.value
    ensures !IsTruthyCode(e.statusCode) ==> r.httpStatus == 500
    ensures r.status == (match e.statusText case Some(t) => t case None => ERROR)
    ensures r.message == e.message
  {
    var status := if IsTruthyCode(e.statusCode) then e.statusCode.value else 500;
    var word := if e.statusText.Some? then e.statusText.value else ERROR;
    ErrorResponse(status, word, e.message, status)
  }

  /** An error built with a non-zero code and a status word is rendered with exactly those. */
  lemma CreatedErrorRendering(message: string, statusCode: int, statusText: StatusText)
    requires statusCode != 0
    ensures HandleError(Create(message, statusCode, statusText)) == ErrorResponse(statusCode, statusText, message, statusCode)
  {
  }

  /** An error built from a message alone is rendered as a 500 with status word ERROR. */
  lemma BareErrorRendering(message: string)
    ensures HandleError(CreateBare(message)) == ErrorResponse(500, ERROR, message, 500)
  {
  }
}
