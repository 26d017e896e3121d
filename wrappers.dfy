/** Option and Result values used in place of `undefined` and thrown errors. */
module Wrappers {

  datatype Option<+T> = None | Some(value: T) {
    function GetOr(default: T): T {
      match this
      case Some(v) => v
      case None => default
    }
  }

  /** An application error: an HTTP status code and the message sent to the client. */
  datatype Error = Error(status: nat, message: string)

  /** The outcome of an operation that either returns a value or throws an error. */
  datatype Result<+T> = Ok(value: T) | Err(error: Error)

  const BadRequest: nat := 400
  const Forbidden: nat := 403
  const NotFound: nat := 404
  /** The status the error handler gives to a plain `Error` that carries no status code. */
  const InternalError: nat := 500
}
