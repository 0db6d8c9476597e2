/** Failure-carrying datatypes shared by every module of the model. */
module Common {

  /** A value that may be missing: PHP `null`/unset, JavaScript `undefined`. */
  datatype Option<+T> = None | Some(value: T) {
    function GetOr(default: T): T {
      match this
      case Some(v) => v
      case None => default
    }
  }

  /** The outcome of an operation that can fail with a message for the admin user. */
  datatype Result<+T> = Ok(value: T) | Err(message: string)
}
