/** Values shared by the gateway's handlers: optional query arguments,
    upstream responses and the API error that the handlers raise. */
module Api {

  /** A query argument that may be missing from the request. */
  datatype Option<+T> = None | Some(value: T)

  /** What a handler produces: its JSON payload, or the error it raises. */
  datatype Result<+T> = Ok(value: T) | Err(error: ApiError)

  /** An `ApiError` carries the message shown to the client and the HTTP
      status of the error response. */
  datatype ApiError = ApiError(message: string, statusCode: int)

  /** An upstream HTTP response: its status code and its body. */
  datatype Response = Response(statusCode: int, content: string)

  /** The only upstream status the handlers accept. */
  const HTTP_OK: int := 200

  /** The status of every error response the handlers raise. */
  const HTTP_BAD_REQUEST: int := 400

  const UPSTREAM_FAILURE_MESSAGE: string := "Something went wrong on the API side"

  const BAD_AMOUNT_MESSAGE: string := "Non relevant n amount"

  /** The error raised when an upstream service answers with a status other than 200. */
  const UpstreamFailure: ApiError := ApiError(UPSTREAM_FAILURE_MESSAGE, HTTP_BAD_REQUEST)

  /** The error raised when the requested amount of words is not a positive number. */
  const BadAmount: ApiError := ApiError(BAD_AMOUNT_MESSAGE, HTTP_BAD_REQUEST)
}
