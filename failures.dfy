/**
 * The shape of a failure as the sync engine sees it. In the source an error is an
 * object whose `code` field is inspected for its runtime type; here that field is
 * a tagged variant.
 */
module Failures {
  import opened Results
  import opened Js

  /** `error.code`: a number (an HTTP status), a string (a system error) or absent. */
  datatype Code = NumCode(n: JsNumber) | StrCode(s: string) | NoCode

  /** `error.response` as set by `formatError`: `{ status, data }`. */
  datatype Response = Response(status: JsNumber, data: string)

  datatype Failure = Failure(message: string, code: Code, response: Option<Response>)

  /** `new HttpError(status, message)`: an error whose code is the status. */
  function HttpError(status: int, message: string): (f: Failure)
    ensures f.code == NumCode(Int(status)) && f.message == message
  {
    Failure(message, NumCode(Int(status)), None)
  }

  /** `new Error(message)`: an error without a code. */
  function PlainError(message: string): (f: Failure)
    ensures f.code == NoCode && f.message == message
  {
    Failure(message, NoCode, None)
  }

  /** `e.code === n` for a numeric literal `n`. */
  predicate HasStatus(f: Failure, status: int) {
    f.code == NumCode(Int(status))
  }
}
