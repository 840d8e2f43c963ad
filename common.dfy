/** Identifiers and the error outcomes shared by every handler. */
module Common {

  /** A user's id as the handlers compare it: the string form of a Mongo ObjectId. */
  type UserId = string

  /** Blog and comment ids: allocated in creation order by the store. */
  type BlogId = nat
  type CommentId = nat

  /** The error statuses the handlers send. */
  datatype Status = BadRequest | Unauthorized | Forbidden | NotFound | ServerError {
    function Code(): int {
      match this
      case BadRequest => 400
      case Unauthorized => 401
      case Forbidden => 403
      case NotFound => 404
      case ServerError => 500
    }
  }

  /** What a handler answers: a 200 response carrying a value, or an error status with its message. */
  datatype Outcome<+T> = Success(value: T) | Failure(status: Status, message: string)
}
