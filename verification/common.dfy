/** Shared vocabulary: identifiers, optional values and endpoint outcomes. */
module Common {

  /** Every id in the system is a UUID rendered as text, so it is never empty. */
  type Uuid = s: string | s != "" witness "0"

  datatype Option<T> = None | Some(value: T) {

    /** The wrapped value, or `default` when there is none. */
    function GetOr(default: T): T {
      match this
      case Some(v) => v
      case None => default
    }
  }

  /** The HTTP errors the routers raise (404, 403, 400), plus an unhandled
      exception, which the server answers with 500. */
  datatype Status = NotFound | Forbidden | BadRequest | ServerError

  /** What an endpoint returns: a value (often paired with the new store) or an error status. */
  datatype Result<T> = Ok(value: T) | Err(status: Status)
}
