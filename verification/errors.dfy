/** Python's `None` and its raised exceptions, as values. */
module Errors {

  datatype Option<+T> = None | Some(value: T)

  /** The exceptions the modelled code raises. Messages are the source's own
      literals where it has them and a short fixed text for library errors. */
  datatype Exception =
    | ValueError(message: string)
    | KeyError(key: string)
    | TypeError(message: string)
    | AttributeError(name: string)
    | GtpConnectionBroken
    | GameTurnError
    | GameEngineError

  /** A call that returns a value or raises. */
  datatype Result<+T> = Ok(value: T) | Raised(exc: Exception)

  /** A call that returns `None` or raises. */
  datatype Outcome = Done | Fail(exc: Exception)
}
