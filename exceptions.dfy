/** The exceptions the services throw, as values. */
module Exceptions {
  import opened Wrappers

  /** One entry of a `BindingResult`: the field name and its default message. */
  datatype FieldError = FieldError(field: string, defaultMessage: Option<string>)

  datatype Exception =
    | AnalysisException(message: string)
      /** Spring's `ResponseStatusException(status, reason)`. */
    | ResponseStatusException(status: int, reason: string)
      /** The project's `UnauthorizedException(message)`. */
    | UnauthorizedException(message: string)
      /** `MethodArgumentNotValidException` with its field errors in binding order. */
    | ValidationException(fieldErrors: seq<FieldError>)
      /** A Spring `DataAccessException` subclass with its simple class name and message. */
    | DataAccessException(simpleName: string, detail: Option<string>)
      /** Any other runtime exception (a `NullPointerException`, for one). */
    | OtherException(simpleName: string, detail: Option<string>)
}
