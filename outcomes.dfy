/** Outcomes shared by every service of the backend: the HTTP status with which a
    request is refused, and the Option/Result wrappers used for Java's nullable
    references, Optional and thrown ResponseStatusException. */
module Outcomes {

  /** The refusal statuses the services throw as ResponseStatusException.
      InternalServerError also stands for an unchecked Java exception
      (NullPointerException, IllegalArgumentException, an index out of bounds). */
  datatype Status = Conflict | NotFound | NotAcceptable | BadRequest | InternalServerError

  datatype Option<+T> = None | Some(value: T)

  datatype Result<+T> = Ok(value: T) | Fail(status: Status)
}
