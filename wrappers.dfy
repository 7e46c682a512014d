/** Optional values and results with an error, used wherever the
    application returns `undefined`, responds with an HTTP error or throws. */
module Wrappers {

  datatype Option<+T> = None | Some(value: T)

  datatype Result<+T, +E> = Ok(value: T) | Err(error: E)

  /** An HTTP error response: its status code and its message. */
  datatype HttpError = HttpError(status: int, message: string)
}
