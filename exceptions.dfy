/** The exceptions the backend throws and the Spring exceptions the handler translates. */
module TaskExceptions {
  import opened Wrappers

  /** One entry of a BindingResult: the rejected field and its default message. */
  datatype FieldError = FieldError(field: string, defaultMessage: string)

  datatype Exception =
    | IllegalArgument(message: Option<string>)
    | ResourceNotFound(notFoundMessage: string)
    | TaskAlreadyDeleted(deletedMessage: string)
    | TaskAlreadyCompleted(completedMessage: string)
    | NoHandlerFound(httpMethod: string, requestUrl: string)
    | MessageNotReadable(detail: string)
    | MethodArgumentNotValid(fieldErrors: seq<FieldError>)
    | TypeMismatch(name: string, requiredType: Option<string>)
    | MethodNotSupported(requestMethod: string, supportedMethods: Option<seq<string>>)

  /** A backend call that either returns a value or throws one of the exceptions above. */
  type Outcome<T> = Result<T, Exception>

  /** new IllegalArgumentException(message). */
  function Illegal<T>(message: string): Outcome<T> {
    Err(IllegalArgument(Some(message)))
  }
}
