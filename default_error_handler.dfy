/**
 * The retryability predicate every remote call is retried with: server errors
 * (status 500 and up) and four connection-level system errors are worth retrying.
 */
module ErrorHandler {
  import opened Js
  import opened Failures

  /** The system error codes treated as transient. */
  const RetryableSystemCodes: seq<string> := ["ETIMEDOUT", "ECONNABORTED", "ECONNRESET", "EPIPE"]

  /** `defaultErrorHandler(error)`: decided by the runtime type and value of `error.code` only. */
  predicate DefaultErrorHandler(error: Failure) {
    match error.code
    case NumCode(n) => n.Int? && n.value >= 500
    case StrCode(s) => s in RetryableSystemCodes
    case NoCode => false
  }

  /** A numeric code is retryable exactly when it is at least 500 (NaN never is). */
  lemma NumericCodeRetryable(error: Failure, status: int)
    requires error.code == NumCode(Int(status))
    ensures DefaultErrorHandler(error) <==> status >= 500
  {
  }

  /** No 4xx status is retryable. */
  lemma ClientErrorsNotRetryable(error: Failure, status: int)
    requires error.code == NumCode(Int(status)) && 400 <= status <= 499
    ensures !DefaultErrorHandler(error)
  {
  }

  /** A string code is retryable exactly when it is one of the four transient codes. */
  lemma SystemCodeRetryable(error: Failure, s: string)
    requires error.code == StrCode(s)
    ensures DefaultErrorHandler(error) <==>
      (s == "ETIMEDOUT" || s == "ECONNABORTED" || s == "ECONNRESET" || s == "EPIPE")
  {
  }

  /** An error without a code, or with a NaN code, is not retryable. */
  lemma OtherErrorsNotRetryable(error: Failure)
    requires error.code == NoCode || error.code == NumCode(NaN)
    ensures !DefaultErrorHandler(error)
  {
  }

  /** Only the code matters: the message and the response never change the verdict. */
  lemma OnlyCodeMatters(a: Failure, b: Failure)
    requires a.code == b.code
    ensures DefaultErrorHandler(a) == DefaultErrorHandler(b)
  {
  }
}
