/** Option and Result values shared by the modules of the model. */
module Wrappers {

  datatype Option<+T> = None | Some(value: T) {
    /** `Option::unwrap_or` */
    function UnwrapOr(default: T): T {
      match this
      case Some(v) => v
      case None => default
    }
  }

  /** A Rust `Result<T, E>`: `Ok(value)` or `Err(error)`. */
  datatype Result<+T, +E> = Ok(value: T) | Err(error: E)
}
