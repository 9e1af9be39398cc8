/** Option and Result, the two failure-carrying shapes the model uses. */
module Wrappers {

  /** A value that may be absent (Python's None, JavaScript's null). */
  datatype Option<T> = None | Some(value: T)

  /** The outcome of an endpoint: a value, or the error it raised. */
  datatype Result<T, E> = Success(value: T) | Failure(error: E)
}

/** The HTTP errors the backend raises. */
module Http {

  /** An `HTTPException`: status code and detail text. */
  datatype HttpError = HttpError(status: int, detail: string)

  const NotFound: HttpError := HttpError(404, "Message not found")
}
