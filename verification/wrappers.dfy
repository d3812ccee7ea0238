/** Plain option and result types used across the model: `Option` for the
    source's `T | null` / `T | undefined`, `Result` for observables that
    either emit a value or error. */
module Wrappers {

  datatype Option<T> = None | Some(value: T) {

    /** The wrapped value, or `default` when there is none. */
    function GetOr(default: T): T {
      match this
      case Some(v) => v
      case None => default
    }
  }

  datatype Result<R, E> = Success(value: R) | Failure(error: E)
}
