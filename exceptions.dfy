/**
 * The closed set of failures that reach the global exception handler: the
 * application's own exceptions (TarefaNotFoundException,
 * BusinessRuleException, DataConflictException) and the framework exceptions
 * the handler has a method for. Each constructor carries exactly the
 * accessors the handler reads.
 */
module Exceptions {
  import opened Common
  import opened Entity

  /** The cause of an unreadable request body, as Jackson reports it. */
  datatype JsonCause =
    | InvalidFormat(targetIsEnum: bool, pathFields: seq<string>, value: string, enumConstants: seq<string>)
    | JsonMapping(pathFields: seq<string>)
    | OtherCause

  datatype Failure =
    | TarefaNotFound(id: int)
    | BusinessRule(rule: Option<string>, currentState: Option<string>, message: string)
    | DataConflict(field: Option<string>, value: Option<string>, message: string)
    | MethodArgumentNotValid(fieldErrors: seq<Violation>)
    | ConstraintViolations(violations: seq<Violation>)
    | MessageNotReadable(cause: JsonCause)
    | ArgumentTypeMismatch(name: string, receivedValue: string, requiredType: string)
    | MethodNotSupported(httpMethod: string, supportedMethods: seq<string>, url: string)
    | MediaTypeNotSupported(contentType: Option<string>, supportedMediaTypes: seq<string>)
    | NoHandlerFound(httpMethod: string, requestUrl: string)
    | MissingParameter(parameterName: string, parameterType: string)
    | MissingPathVariable(variableName: string)
    | DataIntegrityViolation(message: string)
    | Unexpected(simpleClassName: string)

  /** The message TarefaNotFoundException builds from the id. */
  function NotFoundMessage(id: int): string
  {
    "Task with ID " + IntToString(id) + " was not found"
  }

}
