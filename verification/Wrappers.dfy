/** Option and Result values standing in for Python's `None` and for raised exceptions. */
module Wrappers {

  /** A value that may be absent (`None` in Python, or an operation that raised). */
  datatype Option<+T> = None | Some(value: T)

  /** A computation that either returns a value or raises an exception carrying a message. */
  datatype Result<+T> = Ok(value: T) | Err(error: string) {

    /** Forgets the error message: the shape of a `try` block whose `except` swallows it. */
    function ToOption(): Option<T> {
      match this
      case Ok(v) => Some(v)
      case Err(_) => None
    }
  }
}
