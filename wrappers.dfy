/** Optional values and results with a failure case, usable with `:-`. */
module Wrappers {

  datatype Option<+T> = None | Some(value: T) {
    function GetOr(default: T): T {
      match this
      case Some(v) => v
      case None => default
    }
  }

  datatype Result<+T, +E> = Success(value: T) | Failure(error: E) {
    predicate IsFailure() {
      Failure?
    }

    function PropagateFailure<U>(): Result<U, E>
      requires Failure?
    {
      Failure(error)
    }

    function Extract(): T
      requires Success?
    {
      value
    }
  }
}

/**
 * The exception kinds the resolvers raise or let through; the web layer turns
 * each into an error payload.  The message is what `str()` of the exception gives.
 */
module Errors {

  datatype Error =
    | ValueError(message: string)
    | PermissionError(message: string)
    | TypeError(message: string)
    | KeyError(message: string)
}
