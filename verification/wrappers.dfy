/** Failure-carrying datatypes shared by the whole model.

    The server endpoints either answer with a value or raise an HTTP error;
    `Result` carries one of the three error kinds the endpoints raise. */
module Wrappers {

  datatype Option<+T> = None | Some(value: T) {

    /** The value, or `default` when absent. */
    function GetOr(default: T): T {
      match this
      case Some(v) => v
      case None => default
    }
  }

  /** The HTTP errors the modelled endpoints raise. */
  datatype HttpError = Forbidden | NotFound | InternalError

  /** The status code sent for each error. */
  function StatusCode(e: HttpError): (code: nat)
    ensures 400 <= code < 600
    ensures code == 404 <==> e == NotFound
    ensures code == 403 <==> e == Forbidden
  {
    match e
    case Forbidden => 403
    case NotFound => 404
    case InternalError => 500
  }

  datatype Result<+T> = Ok(value: T) | Err(error: HttpError)
}
