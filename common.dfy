/** Vocabulary shared by every part of the model: optional values, the
    HTTP outcomes the handlers answer with, and the ids of stored entities. */
module Common {

  /** A value that may be absent (an undefined request field, a lookup
      that found nothing). */
  datatype Option<+T> = None | Some(value: T) {
    function GetOr(default: T): T {
      match this
      case Some(v) => v
      case None => default
    }
  }

  /** A value or the status a handler answers with instead. */
  datatype Result<+T> = Success(value: T) | Failure(status: Status)

  /** The HTTP statuses the modelled handlers and middleware answer with:
      200, 201, 400, 401, 403 and 404. */
  datatype Status = Ok | Created | BadRequest | Unauthorized | Forbidden | NotFound

  /** JavaScript's `!x` for a request field that should hold a string:
      undefined and the empty string are both falsy. */
  predicate Falsy(x: Option<string>) {
    x.None? || x.value == ""
  }

  type PlaylistId = string
  type TrackId = string
  type TagId = string
  type UserId = string
  type Auth0Id = string
}
