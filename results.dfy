/** Outcome types shared by the post operations: every controller either
    succeeds with a value or fails with one of three error kinds. */
module Results {

  datatype Option<T> = None | Some(value: T) {
    /** The carried value, or `default` when there is none. */
    function GetOr(default: T): T {
      match this
      case Some(v) => v
      case None => default
    }
  }

  /** The kinds of failure a controller reports. */
  datatype Error =
    | NotFound       // the post or user referred to does not exist
    | Unauthorized   // the acting user is not the one the operation requires
    | Invalid        // a required field is missing, empty or too long

  datatype Result<T> = Ok(value: T) | Err(error: Error)

  /** The outcome of a guard: the operation may proceed, or fails with `error`. */
  datatype Check = Pass | Fail(error: Error)
}
