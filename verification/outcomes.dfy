/** Outcomes of the chain operations: an optional argument and a success-or-error result.
    Every `throw` of the drafts becomes an `Err` carrying a tagged error. */
module Outcomes {

  /** An argument the caller may leave out (`undefined` in the drafts). */
  datatype Option<+T> = None | Some(value: T) {

    /** The value, or `default` when it was left out (the `??` and default-parameter forms). */
    function GetOr(default: T): T {
      match this
      case Some(v) => v
      case None => default
    }
  }

  /** The value returned, or the error thrown, by one call. */
  datatype Result<+R, +E> = Ok(value: R) | Err(error: E)
}
