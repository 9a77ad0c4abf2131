/** Shared result shapes: an optional value, and the outcome of a route or of the
    request gate, whose failure is the HTTP error the framework would render. */
module Common {

  /** A value that may be absent (Python's `Optional[...]`, or a falsy `False` result). */
  datatype Option<+T> = None | Some(value: T)

  /** An HTTP error as raised with `HTTPException`: status code, detail text, headers. */
  datatype HttpError = HttpError(status: int, detail: string, headers: map<string, string>)

  /** Either the value a handler returns, or the `HTTPException` it raises. */
  datatype Result<+T> = Ok(value: T) | Err(error: HttpError)

  const BadRequest: int := 400
  const Unauthorized: int := 401
  const NotFound: int := 404

  /** The challenge header carried by every 401 of this service. */
  const BearerChallenge: map<string, string> := map["WWW-Authenticate" := "Bearer"]
}
