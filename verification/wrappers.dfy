/** Optional values and results with an error, used where the Go code returns
    `(value, ok)` or `(value, error)`. */
module Wrappers {
  datatype Option<+T> = None | Some(value: T)

  datatype Result<+T, +E> = Ok(value: T) | Err(error: E)

  /** One for each time something holds. */
  function One(b: bool): nat {
    if b then 1 else 0
  }
}
