/** Absent values and failed steps, as the pipeline's data frames expose them. */
module Wrappers {

  /** None stands for a missing key, a null, a NaT or a NaN cell. */
  datatype Option<+T> = None | Some(value: T)

  /** The outcome of a step that may raise instead of producing a value. */
  datatype Result<+R, +E> = Success(value: R) | Failure(error: E)
}
