/** Option and Result values shared by the other modules. */
module Outcomes {

  /** An optional value: `None` when there is nothing to report. */
  datatype Option<+T> = None | Some(value: T)

  /** The outcome of a computation that can raise an error instead of returning. */
  datatype Result<+R, +E> = Success(value: R) | Failure(error: E)
}
