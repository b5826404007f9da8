/** Optional values and the outcomes of a request handler: the HTTP statuses
    the controllers answer with, without the Express response object. */
module Outcomes {

  datatype Option<T> = None | Some(value: T)

  /** 200/201 with a body, 400 with an error message, 404 with an error
      message. */
  datatype Response<T> =
    | Ok(value: T)
    | BadRequest(message: string)
    | NotFound(message: string)
}
