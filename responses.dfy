/**
 * The outcomes of a request handler: the responses the handlers send through
 * the response helper (`respond`, `respondCreated`, `failValidationError`,
 * `failNotFound`), the rejection of a body by the validation gate, and a failure
 * raised inside a transaction and passed to the Express error handler.
 */
module Responses {

  datatype Response<T> =
    | Ok(data: T)                                         // res.respond(data)
    | Created(message: string)                            // res.respondCreated(null, message)
    | ValidationError(errors: seq<string>, code: string)  // res.failValidationError(errors, code)
    | NotFound(message: string)                           // res.failNotFound(message)
    | RequestInvalid                                      // the body failed the route's joi rule
    | ServerError                                         // next(err): res.failServerError()
}
