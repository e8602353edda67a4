/**
 * The outcome of an endpoint: a value, or the `HTTPException` it raises,
 * carrying the status code and the `detail` string the client receives.
 */
module Http {

  datatype HttpError = HttpError(status: int, detail: string)

  datatype Result<+T> = Ok(value: T) | Err(error: HttpError)

  const BadRequest: int := 400
  const Unauthorized: int := 401
  const Forbidden: int := 403
  const NotFound: int := 404
  const Conflict: int := 409
  const InternalServerError: int := 500

  /** What the framework answers for an exception no handler catches. */
  const Unhandled: HttpError := HttpError(InternalServerError, "Internal Server Error")

}
