/** Option and Result for the source's `Option`/`Result` values, and Completion for the
    `panic!`, `unwrap`, `expect`, `todo!` and `unreachable!` paths: a call that panics
    never returns to its caller, and the model says so with `Aborts`. */
module Wrappers {

  datatype Option<+T> = None | Some(value: T) {
    function GetOr(default: T): T {
      match this
      case Some(v) => v
      case None => default
    }
  }

  datatype Result<+R, +E> = Success(value: R) | Failure(error: E)

  /** The outcome of a call that may panic instead of returning. */
  datatype Completion<+T> = Returns(value: T) | Aborts
}
