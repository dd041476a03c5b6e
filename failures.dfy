/** The exceptions the core throws, as values, and the result of an operation that may throw. */
module Failures {

  /** One `FieldError` of a failed bean validation: the field and its default message. */
  datatype FieldError = FieldError(field: string, message: string)

  /** Runtime exceptions the code does not throw on purpose; all reach the generic handler. */
  datatype InternalCause =
    | NullValue             // NullPointerException (Map.of with a null, a null result list)
    | ConstraintViolation   // bean validation of the entity on persist or update
    | DuplicateTmdbId       // unique constraint on tmdb_id
    | DuplicateMapKey       // IllegalStateException of Collectors.toMap

  datatype Failure =
    | NotFound(message: string)                 // ResourceNotFoundException
    | TmdbApi(message: string)                  // TmdbApiException
    | Validation(fieldErrors: seq<FieldError>)  // MethodArgumentNotValidException
    | IllegalArgument(message: string)          // IllegalArgumentException
    | NoResource(resourcePath: string)          // NoResourceFoundException
    | Completion(cause: Failure)                // CompletionException thrown by join()
    | Internal(reason: InternalCause)

  datatype Result<+T> = Ok(value: T) | Err(error: Failure)
}
