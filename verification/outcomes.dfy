/** Failure-carrying wrappers shared by every module of the model. */
module Outcomes {

  /** A value that may be absent: Python's `None` versus a present value. */
  datatype Option<+T> = None | Some(value: T) {

    /** The wrapped value, or `default` when absent (Python's `dict.get(key, default)`). */
    function GetOr(default: T): (r: T)
      ensures Some? ==> r == value
      ensures None? ==> r == default
    {
      match this
      case Some(v) => v
      case None => default
    }
  }

  /** The outcome of a call that either returns a value or raises an error. */
  datatype Result<+T, +E> = Success(value: T) | Failure(error: E)

  /** Why a stage of a request raised instead of returning. */
  datatype Fault =
    | MissingApiKey                 // RuntimeError("GEMINI_API_KEY is not set")
    | ServiceError(detail: string)  // any other exception raised by a remote call

  /** The text `str(e)` of the exception a fault stands for. */
  function Detail(f: Fault): string {
    match f
    case MissingApiKey => "GEMINI_API_KEY is not set"
    case ServiceError(d) => d
  }
}
