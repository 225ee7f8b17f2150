/** Option values and the outcome taxonomy shared by the message routes. */
module Results {

  datatype Option<+T> = None | Some(value: T)
  {
    function GetOr(default: T): T
    {
      match this
      case Some(v) => v
      case None => default
    }
  }

  /** What a route handler answers: 2xx, 400, 404, 403 or 500. */
  datatype Status = Ok | ValidationError | NotFound | Forbidden | InternalError

  /** A value, or the status a handler answers instead of it. */
  datatype Result<+T> = Success(value: T) | Failure(status: Status)
}
