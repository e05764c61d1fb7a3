/** Option and Result values used in place of null pointers and of the
    undefined behaviour the parser's stack operations can run into. */
module Wrappers {

  /** `None` stands where the source returns a null `shared_ptr`. */
  datatype Option<+T> = None | Some(value: T)

  /** A computation that either produced a value or stopped with an error. */
  datatype Result<+T, +E> = Success(value: T) | Failure(error: E)
}
