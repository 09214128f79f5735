/** Option and Result values, and the exceptions the NestJS services throw. */
module Wrappers {

  /** A value that may be absent: `undefined` or `null` in the services. */
  datatype Option<+T> = None | Some(value: T) {
    function GetOr(default: T): T {
      match this
      case Some(v) => v
      case None => default
    }
  }

  /** The outcome of an operation that either returns a value or throws. */
  datatype Result<+T, +E> = Ok(value: T) | Err(error: E)

  /** The HTTP exceptions of `@nestjs/common` raised by the core, with their messages. */
  datatype Exception =
    | BadRequest(message: string)
    | NotFound(message: string)
    | Conflict(message: string)
    | Unauthorized(message: string)
}
