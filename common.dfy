/** Values shared by every part of the model: optional (nullable) values,
    the outcome of an operation that may throw, and the kinds of failure
    the services raise. */
module Common {

  /** A Java reference that may be null. */
  datatype Option<+T> = None | Some(value: T)

  /** The failures the services raise, one per exception family:
      NotFound        - NotFoundException (absent user, item, booking, request)
      Validation      - jakarta ValidationException and WrongDataException
      Permission      - PermissionException
      InvalidArgument - IllegalArgumentException (no query for a filter)
      DuplicateEmail  - UserDataException (e-mail already in use) */
  datatype Error = NotFound | Validation | Permission | InvalidArgument | DuplicateEmail

  /** The outcome of a call that either returns a value or throws. */
  datatype Result<+T> = Ok(value: T) | Err(error: Error)

  /** A time instant (LocalDateTime), as an integer on a common scale. */
  type Instant = int
}
