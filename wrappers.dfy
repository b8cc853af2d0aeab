/**
 * Failure-carrying return values used in place of the exceptions the plugin
 * raises (every `raise ValueError(...)` becomes an `Err` with its own constructor),
 * and `Optional`, the counterpart of `typing.Optional` parameters.
 */
module Wrappers {

  /** A value that may be absent, as a Python argument that may be `None`. */
  datatype Optional<+T> = None | Some(value: T)

  /** Either a computed value or the error the source would have raised. */
  datatype Result<+T, +E> = Ok(value: T) | Err(error: E)
}
