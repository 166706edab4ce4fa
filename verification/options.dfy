/** Optional values and fallible results, the Dafny counterparts of Rust's
    `Option<T>` and `Result<T, String>` as the blog manager's core uses them. */
module Options {

  datatype Option<+T> = None | Some(value: T) {

    /** Rust's `unwrap_or`: the contained value, or `default` when absent. */
    function GetOr(default: T): T {
      match this
      case Some(v) => v
      case None => default
    }

    /** Rust's `or_else(|| other)`: this value when present, otherwise `other`. */
    function OrElse(other: Option<T>): Option<T> {
      match this
      case Some(_) => this
      case None => other
    }
  }

  datatype Result<+T, +E> = Ok(value: T) | Err(error: E)

  /** What reading a file yields: it is not there, it cannot be read (with
      the error text), or its contents. */
  datatype FileRead = Missing | Unreadable(error: string) | Text(text: string)
}
