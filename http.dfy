/**
 * What an Express handler does with its response, and how JavaScript decides
 * whether a request-body field "is there" (its truthiness).
 */
module Http {
  import opened Wrappers

  /** The single reply a handler produces. */
  datatype Reply<T> =
    | Json(status: nat, body: T)             // res.status(status).json(body)
    | Message(status: nat, message: string)  // res.status(status).json({ message })
    | Error(status: nat, error: string)      // res.status(status).json({ error })
    | Forwarded                              // next(err): an error handler outside the model answers

  /**
   * A numeric body field is truthy when it is present and not 0.
   * None stands for undefined and null.
   */
  predicate TruthyNumber(x: Option<int>) {
    x.Some? && x.value != 0
  }

  /** A string body field is truthy when it is present and not "". */
  predicate TruthyString(x: Option<string>) {
    x.Some? && x.value != ""
  }
}
