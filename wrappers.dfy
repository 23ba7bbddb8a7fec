/** Optional values and error results, standing in for std::optional and for
    the exceptions the library throws. */
module Wrappers {

  /** std::optional: a value or nothing. */
  datatype Option<+T> = None | Some(value: T) {

    /** std::optional::value_or */
    function GetOr(default: T): T {
      match this
      case Some(v) => v
      case None => default
    }
  }

  /** The value an operation returns, or the error it throws. */
  datatype Result<+T, +E> = Ok(value: T) | Err(error: E)

  /** A void operation that either completes or throws. */
  datatype Outcome<+E> = Pass | Fail(error: E)
}
