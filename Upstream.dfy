/** What a call to an upstream node can come back with, and what a caller of the gateway
    can be told. */
module Upstream {
  import opened Js

  /** The result of one HTTP exchange: a 2xx answer with its parsed body, a non-2xx answer
      (the client throws, and the error carries the response body), or no answer at all
      (connection failure, timeout). */
  datatype Reply = Answered(data: Json) | HttpFailed(body: Json) | NetworkFailed

  /** A record, or the exception the caller sees: NotFoundException (404),
      ServiceUnavailableException (503) or BadRequestException (400). */
  datatype Outcome<T> = Ok(value: T) | NotFound | Unavailable | BadRequest

  /** A value or JavaScript `null`. */
  datatype Option<T> = None | Some(value: T)
}
