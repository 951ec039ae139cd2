/** The error values the client returns: the sentinel errors of errors.go, the
    "unknown error: <text>" values built with fmt.Errorf, errors passed through
    from the HTTP layer, and the context's own error. */
module Errors {

  /** What ctx.Err() reports once the context is done. */
  datatype ContextReason = Canceled | DeadlineExceeded

  datatype Error =
    | MaxPriceExceeded
    | NoNumbers
    | TooManyActiveRentals
    | NoMoney
    | WrongID
    | RentalCanceled
      /** fmt.Errorf("unknown error: %s", raw): a response the client does not recognise, kept verbatim. */
    | Unknown(raw: string)
      /** An error from sending the request or reading the body, returned as it came (opaque here). */
    | Transport(cause: string)
      /** ctx.Err(), returned when the polling loop sees the context done. */
    | ContextErr(reason: ContextReason)

  /** A value with a nil error, or the error (the Go pair (value, error)). */
  datatype Result<T> = Ok(value: T) | Err(error: Error)

  /** An operation that returns only an error: nil or the error. */
  datatype Outcome = Pass | Fail(error: Error)
}
