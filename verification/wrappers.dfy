/** Optional values and results shared by the other modules. */
module Wrappers {

  /** An optional value: a JavaScript `undefined`, a Rust `None`, or a value. */
  datatype Option<+T> = None | Some(value: T)

  /** Either a value or the error that stopped the computation. */
  datatype Result<+R, +E> = Success(value: R) | Failure(error: E)
}
