/** Failure-carrying results shared by the route handlers: an HTTP error is a
    status code plus the `detail` text the handler raises with. */
module Outcomes {

  const BAD_REQUEST: int := 400
  const UNAUTHORIZED: int := 401
  const INTERNAL_SERVER_ERROR: int := 500

  /** The body the framework answers with when a handler raises an
      exception it does not catch (status 500). */
  const UNHANDLED_ERROR: string := "Internal Server Error"

  /** A raised HTTP exception: status code and detail message. */
  datatype Failure = Failure(status: int, detail: string)

  /** Either the handler's response body or the HTTP error it raises. */
  datatype Result<+T> = Ok(value: T) | Err(failure: Failure)

  /** A value that may be absent (Python's `None`). */
  datatype Option<+T> = None | Some(value: T)
}
