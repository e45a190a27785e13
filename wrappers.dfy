/** Failure-compatible wrappers shared by the other modules. */
module Wrappers {

  /** A value that may be absent: JavaScript's `null`/`undefined` on one side, a value on the other. */
  datatype Option<+T> = None | Some(value: T)

  /** The HTTP status codes the handlers answer with. */
  datatype Status = Ok200 | BadRequest400 | NotFound404 | ServerError500

  /** What a request handler answers: a payload with status 200, or an error status. */
  datatype Reply<+T> = Success(value: T) | Failure(status: Status)
}
