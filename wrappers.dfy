/** Optional values and results with an error, shared by the other modules. */
module Wrappers {

  /** A value that may be missing: TypeScript's `T | null` (and `undefined`). */
  datatype Option<+T> = None | Some(value: T)

  /** The outcome of an operation that can throw instead of returning. */
  datatype Result<+R, +E> = Success(value: R) | Failure(error: E)
}
