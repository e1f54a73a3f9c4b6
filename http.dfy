/** What an Express handler does with a request: answer with a status and a
    JSON body, or pass the caught error to `next(error)`. */
module Http {
  datatype Response<B> = Respond(status: int, body: B) | Forward(error: string)

  /** The error thrown when a handler destructures a `null` or `undefined` body. */
  const DestructureError := "TypeError: Cannot destructure the request body"
}
