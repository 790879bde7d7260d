/** Optional values and results with an error, used where the components have `null` or throw. */
module Wrappers {

  /** `null` / `undefined` versus a present value. */
  datatype Option<+T> = None | Some(value: T)

  /** A computation that either produced a value or failed with a message. */
  datatype Result<+R, +E> = Success(value: R) | Failure(error: E)
}
