/** The two result shapes of the Rust sources. */
module Wrappers {

  datatype Option<+T> = None | Some(value: T)

  /** `first.or(second)` */
  function FirstOf<T>(first: Option<T>, second: Option<T>): Option<T> {
    if first.Some? then first else second
  }

  datatype Result<+R, +E> = Success(value: R) | Failure(error: E)
}
