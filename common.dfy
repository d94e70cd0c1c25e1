/** Shared vocabulary: optional values, results, and what a JavaScript `throw` carries. */
module Common {

  /** An optional value: a JSON field that may be absent, or a nullable column. */
  datatype Option<+T> = None | Some(value: T) {
    function GetOr(default: T): T {
      match this
      case Some(v) => v
      case None => default
    }
  }

  /** The outcome of an operation that may throw. */
  datatype Result<+T, +E> = Success(value: T) | Failure(error: E)

  /** A thrown JavaScript value: an `Error` instance carries a message; anything else does not. */
  datatype Thrown = ErrorInstance(message: string) | NonErrorValue
}
