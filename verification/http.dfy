/** What a request handler or a dependency ends in, as the web framework reports it. */
module Http {

  /** The `detail` of an HTTPException: either a plain message or an error/resolution pair. */
  datatype Detail =
    | Text(text: string)
    | ErrorResolution(error: string, resolution: string)

  datatype HttpError = HttpError(status: nat, detail: Detail)

  const FORBIDDEN: nat := 403

  /**
   * Done: the handler returned a value.
   * Raised: it raised an HTTPException.
   * Unprocessable: request-body validation failed before the handler ran (status 422).
   * Crashed: some other exception escaped, which the framework turns into status 500.
   */
  datatype Outcome<+T> =
    | Done(value: T)
    | Raised(error: HttpError)
    | Unprocessable
    | Crashed(exception: string)
  {
    predicate Rejected() { !Done? }

    /** The same failure, at another result type: how an exception passes through a caller. */
    function PropagateFailure<U>(): (r: Outcome<U>)
      requires !Done?
      ensures !r.Done?
    {
      if Raised? then Raised(error)
      else if Crashed? then Crashed(exception)
      else Unprocessable
    }
  }
}
