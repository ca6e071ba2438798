/** Option and Result, shaped like the Rust types the runtime uses. */
module Wrappers {

  datatype Option<+T> = None | Some(value: T)

  datatype Result<+T, +E> = Ok(value: T) | Err(error: E) {

    /** `unwrap_or(default)`: the value on success, `default` on error. */
    function UnwrapOr(default: T): T {
      match this
      case Ok(v) => v
      case Err(_) => default
    }
  }
}
