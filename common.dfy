/** Vocabulary shared by both services: identifiers, timestamps, nullable
    values and the exceptions the services throw, written as values. */
module Common {

  /** A `Guid`. The value 0 plays `Guid.Empty`, the value of a key that
      Entity Framework has not generated yet. */
  type Guid = nat

  const EmptyGuid: Guid := 0

  /** A `DateTime`; `DateTime.UtcNow` is always an input of the model. */
  type Time = int

  /** A nullable reference (`string?`, `decimal?`, `Guid?`, ...). */
  datatype Option<+T> = None | Some(value: T) {

    /** The `??` operator: the value when there is one, else `default`. */
    function GetOr(default: T): T {
      match this
      case Some(v) => v
      case None => default
    }
  }

  /** The exceptions the core throws, one constructor per exception type.
      Only `AuthException` is told apart by its message. */
  datatype Error =
    | KeyNotFound           // KeyNotFoundException
    | UnauthorizedAccess    // UnauthorizedAccessException
    | InvalidOperation      // InvalidOperationException
    | Argument              // ArgumentException
    | Validation            // FluentValidation.ValidationException
    | Auth(message: string) // AuthException
    | NotImplemented        // NotImplementedException

  /** A call that returns a value or throws. */
  datatype Result<+T> = Success(value: T) | Failure(error: Error)

  /** A call that returns nothing or throws. */
  datatype Outcome = Pass | Fail(error: Error)
}
