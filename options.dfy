/** Optional values (a C# reference or nullable that may be null) and results
    of operations that may throw. */
module Options {

  /** `None` stands for C#'s `null`. */
  datatype Option<+T> = None | Some(value: T) {
    /** The value, or `default` when null (C#'s `GetValueOrDefault`). */
    function GetOr(default: T): T {
      match this
      case Some(v) => v
      case None => default
    }
  }

  /** The outcome of an operation that either returns a value or throws. */
  datatype Result<+T, +E> = Ok(value: T) | Err(error: E)
}
