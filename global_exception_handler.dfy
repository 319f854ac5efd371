/**
 * GlobalExceptionHandler: every failure that escapes a controller becomes an
 * HTTP response whose body is an ErrorResponse {timestamp, status, error,
 * message, details}. Each @ExceptionHandler is one function below; Handle
 * dispatches on the kind of failure. The two handlers that fold a list of
 * field errors into a HashMap do so with a loop, modelled by CollectErrors
 * against the last-wins fold LastWins.
 */
module ExceptionHandler {
  import opened Common
  import opened Entity
  import opened Exceptions

  const BAD_REQUEST := 400
  const NOT_FOUND := 404
  const METHOD_NOT_ALLOWED := 405
  const CONFLICT := 409
  const UNSUPPORTED_MEDIA_TYPE := 415
  const UNPROCESSABLE_ENTITY := 422
  const INTERNAL_SERVER_ERROR := 500

  /** The response body; the timestamp is the handler's clock reading, passed in. */
  datatype ErrorResponse = ErrorResponse(timestamp: nat, status: int, error: string, message: string, details: map<string, string>)

  /** The Java exception a handler itself throws on a null or missing accessor value. */
  datatype Fault = NullPointer | IndexOutOfBounds

  /** The ResponseEntity a handler returns (its HTTP status and its body), or the handler's own exception. */
  datatype Handled = Response(httpStatus: int, body: ErrorResponse) | HandlerFault(fault: Fault)

  /** The HTTP status the handler returns for each kind of failure (client errors 4xx, server error 500). */
  function StatusOf(e: Failure): int
  {
    match e
    case TarefaNotFound(_) => NOT_FOUND
    case BusinessRule(_, _, _) => UNPROCESSABLE_ENTITY
    case DataConflict(_, _, _) => CONFLICT
    case MethodArgumentNotValid(_) => BAD_REQUEST
    case ConstraintViolations(_) => BAD_REQUEST
    case MessageNotReadable(_) => BAD_REQUEST
    case ArgumentTypeMismatch(_, _, _) => BAD_REQUEST
    case MethodNotSupported(_, _, _) => METHOD_NOT_ALLOWED
    case MediaTypeNotSupported(_, _) => UNSUPPORTED_MEDIA_TYPE
    case NoHandlerFound(_, _) => NOT_FOUND
    case MissingParameter(_, _) => BAD_REQUEST
    case MissingPathVariable(_) => BAD_REQUEST
    case DataIntegrityViolation(_) => CONFLICT
    case Unexpected(_) => INTERNAL_SERVER_ERROR
  }

  /** The inputs on which a handler dereferences a null or reads past the end of an empty path. */
  predicate Faults(e: Failure)
  {
    || (e.DataConflict? && e.field.Some? && e.value.None?)
    || (e.MessageNotReadable? && e.cause.InvalidFormat? && e.cause.targetIsEnum && e.cause.pathFields == [])
  }

  // ---------------------------------------------------------------------------
  // Folding field errors into a map

  /** `errors.put(field, message)` for each error in turn: a later error on a field overwrites an earlier one. */
  function LastWins(vs: seq<Violation>): (m: map<string, string>)
    ensures forall k :: 0 <= k < |vs| ==> vs[k].field in m
    ensures forall f :: f in m ==> exists k :: 0 <= k < |vs| && vs[k].field == f
  {
    if vs == [] then map[]
    else
      var m0 := LastWins(vs[..|vs| - 1]);
      assert forall k :: 0 <= k < |vs| - 1 ==> vs[..|vs| - 1][k] == vs[k];
      m0[vs[|vs| - 1].field := vs[|vs| - 1].message]
  }

  /** The value stored under a field is the message of the last error on that field. */
  lemma {:induction false} LastWinsValue(vs: seq<Violation>, i: nat)
    requires i < |vs|
    requires forall j :: i < j < |vs| ==> vs[j].field != vs[i].field
    ensures vs[i].field in LastWins(vs) && LastWins(vs)[vs[i].field] == vs[i].message
  {
    if i < |vs| - 1 {
      var init := vs[..|vs| - 1];
      assert init[i] == vs[i];
      assert forall j :: i < j < |init| ==> init[j] == vs[j];
      LastWinsValue(init, i);
    }
  }

  /** The forEach / for loop of handleValidationExceptions and handleConstraintViolationException. */
  method CollectErrors(vs: seq<Violation>) returns (errors: map<string, string>)
    ensures errors == LastWins(vs)
  {
    errors := map[];
    var i := 0;
    while i < |vs|
      invariant 0 <= i <= |vs|
      invariant errors == LastWins(vs[..i])
    {
      assert vs[..i + 1][..i] == vs[..i];
      errors := errors[vs[i].field := vs[i].message];
      i := i + 1;
    }
    assert vs[..i] == vs;
  }

  // ---------------------------------------------------------------------------
  // One function per @ExceptionHandler

  function HandleValidation(fieldErrors: seq<Violation>, now: nat): (r: Handled)
    ensures r.Response? && r.httpStatus == BAD_REQUEST && r.body.status == r.httpStatus
    ensures r.body.error == "Validation Error" && r.body.message == "Invalid data provided"
    ensures forall k :: 0 <= k < |fieldErrors| ==> fieldErrors[k].field in r.body.details
    ensures forall f :: f in r.body.details ==> exists k :: 0 <= k < |fieldErrors| && fieldErrors[k].field == f
  {
    Response(BAD_REQUEST, ErrorResponse(now, BAD_REQUEST, "Validation Error", "Invalid data provided", LastWins(fieldErrors)))
  }

  function HandleConstraintViolation(violations: seq<Violation>, now: nat): (r: Handled)
    ensures r.Response? && r.httpStatus == BAD_REQUEST && r.body.status == r.httpStatus
    ensures r.body.error == "Constraint Violation" && r.body.message == "Data does not meet validation criteria"
    ensures forall k :: 0 <= k < |violations| ==> violations[k].field in r.body.details
    ensures forall f :: f in r.body.details ==> exists k :: 0 <= k < |violations| && violations[k].field == f
  {
    Response(BAD_REQUEST, ErrorResponse(now, BAD_REQUEST, "Constraint Violation",
                                        "Data does not meet validation criteria", LastWins(violations)))
  }

  function HandleGeneral(simpleClassName: string, now: nat): (r: Handled)
    ensures r.Response? && r.httpStatus == INTERNAL_SERVER_ERROR && r.body.status == r.httpStatus
    ensures r.body.message == "An unexpected error occurred"
    ensures r.body.details.Keys == {"exception"} && r.body.details["exception"] == simpleClassName
  {
    Response(INTERNAL_SERVER_ERROR, ErrorResponse(now, INTERNAL_SERVER_ERROR, "Internal Server Error",
                                                  "An unexpected error occurred", map["exception" := simpleClassName]))
  }

  function HandleNotFound(id: int, now: nat): (r: Handled)
    ensures r.Response? && r.httpStatus == NOT_FOUND && r.body.status == r.httpStatus
    ensures r.body.message == NotFoundMessage(id)
    ensures r.body.details.Keys == {"id"} && r.body.details["id"] == IntToString(id)
  {
    Response(NOT_FOUND, ErrorResponse(now, NOT_FOUND, "Tarefa Não Encontrada", NotFoundMessage(id),
                                      map["id" := IntToString(id)]))
  }

  const GENERIC_JSON_MESSAGE := "JSON inválido ou malformado"
  const ENUM_JSON_MESSAGE := "Valor inválido para campo enum"

  /**
   * An enum format error names the field, the received value and the valid
   * constants; any other mapping error names the first path field, or "root"
   * for an empty path; any other cause gives empty details.
   */
  function HandleNotReadable(cause: JsonCause, now: nat): (r: Handled)
    ensures r.HandlerFault? <==> cause.InvalidFormat? && cause.targetIsEnum && cause.pathFields == []
    ensures r.Response? ==> r.httpStatus == BAD_REQUEST && r.body.status == r.httpStatus && r.body.error == "JSON Inválido"
    ensures r.Response? && cause.InvalidFormat? && cause.targetIsEnum ==>
              r.body.message == ENUM_JSON_MESSAGE
              && r.body.details.Keys == {"campo", "valorRecebido", "valoresValidos"}
              && r.body.details["campo"] == cause.pathFields[0]
              && r.body.details["valorRecebido"] == cause.value
              && r.body.details["valoresValidos"] == ListToString(cause.enumConstants)
    ensures cause.JsonMapping? ==>
              r.body.message == GENERIC_JSON_MESSAGE && r.body.details.Keys == {"campo"}
              && r.body.details["campo"] == (if cause.pathFields == [] then "root" else cause.pathFields[0])
    ensures cause.OtherCause? || (cause.InvalidFormat? && !cause.targetIsEnum) ==>
              r.body.message == GENERIC_JSON_MESSAGE && r.body.details == map[]
  {
    match cause
    case InvalidFormat(isEnum, path, value, constants) =>
      if !isEnum then Response(BAD_REQUEST, ErrorResponse(now, BAD_REQUEST, "JSON Inválido", GENERIC_JSON_MESSAGE, map[]))
      else if path == [] then HandlerFault(IndexOutOfBounds)
      else Response(BAD_REQUEST, ErrorResponse(now, BAD_REQUEST, "JSON Inválido", ENUM_JSON_MESSAGE,
                                               map["campo" := path[0], "valorRecebido" := value,
                                                   "valoresValidos" := ListToString(constants)]))
    case JsonMapping(path) =>
      Response(BAD_REQUEST, ErrorResponse(now, BAD_REQUEST, "JSON Inválido", GENERIC_JSON_MESSAGE,
                                          map["campo" := if path == [] then "root" else path[0]]))
    case OtherCause =>
      Response(BAD_REQUEST, ErrorResponse(now, BAD_REQUEST, "JSON Inválido", GENERIC_JSON_MESSAGE, map[]))
  }

  function HandleTypeMismatch(name: string, value: string, requiredType: string, now: nat): (r: Handled)
    ensures r.Response? && r.httpStatus == BAD_REQUEST && r.body.status == r.httpStatus
    ensures r.body.details.Keys == {"parametro", "valorRecebido", "tipoEsperado"}
    ensures r.body.details["parametro"] == name && r.body.details["valorRecebido"] == value
            && r.body.details["tipoEsperado"] == requiredType
  {
    Response(BAD_REQUEST, ErrorResponse(now, BAD_REQUEST, "Tipo de Parâmetro Inválido",
                                        "O parâmetro '" + name + "' deve ser do tipo " + requiredType,
                                        map["parametro" := name, "valorRecebido" := value, "tipoEsperado" := requiredType]))
  }

  function HandleMethodNotSupported(httpMethod: string, supported: seq<string>, url: string, now: nat): (r: Handled)
    ensures r.Response? && r.httpStatus == METHOD_NOT_ALLOWED && r.body.status == r.httpStatus
    ensures r.body.details.Keys == {"metodoRecebido", "metodosSuportados", "url"}
    ensures r.body.details["metodoRecebido"] == httpMethod && r.body.details["url"] == url
            && r.body.details["metodosSuportados"] == Join(", ", supported)
  {
    Response(METHOD_NOT_ALLOWED, ErrorResponse(now, METHOD_NOT_ALLOWED, "Método Não Permitido",
                                               "Método HTTP '" + httpMethod + "' não é suportado para esta URL",
                                               map["metodoRecebido" := httpMethod,
                                                   "metodosSuportados" := Join(", ", supported), "url" := url]))
  }

  function HandleMediaTypeNotSupported(contentType: Option<string>, supported: seq<string>, now: nat): (r: Handled)
    ensures r.Response? && r.httpStatus == UNSUPPORTED_MEDIA_TYPE && r.body.status == r.httpStatus
    ensures r.body.details.Keys == {"tipoRecebido", "tiposSuportados"}
    ensures r.body.details["tipoRecebido"] == (if contentType.Some? then contentType.value else "null")
    ensures r.body.details["tiposSuportados"] == ListToString(supported)
  {
    Response(UNSUPPORTED_MEDIA_TYPE, ErrorResponse(now, UNSUPPORTED_MEDIA_TYPE, "Tipo de Mídia Não Suportado",
                                                   "O tipo de conteúdo da requisição não é suportado",
                                                   map["tipoRecebido" := if contentType.Some? then contentType.value else "null",
                                                       "tiposSuportados" := ListToString(supported)]))
  }

  function HandleNoHandlerFound(httpMethod: string, requestUrl: string, now: nat): (r: Handled)
    ensures r.Response? && r.httpStatus == NOT_FOUND && r.body.status == r.httpStatus
    ensures r.body.details.Keys == {"metodo", "url"}
    ensures r.body.details["metodo"] == httpMethod && r.body.details["url"] == requestUrl
  {
    Response(NOT_FOUND, ErrorResponse(now, NOT_FOUND, "Endpoint Não Encontrado",
                                      "O endpoint '" + httpMethod + " " + requestUrl + "' não existe",
                                      map["metodo" := httpMethod, "url" := requestUrl]))
  }

  function HandleMissingParameter(parameterName: string, parameterType: string, now: nat): (r: Handled)
    ensures r.Response? && r.httpStatus == BAD_REQUEST && r.body.status == r.httpStatus
    ensures r.body.details.Keys == {"parametro", "tipo"}
    ensures r.body.details["parametro"] == parameterName && r.body.details["tipo"] == parameterType
  {
    Response(BAD_REQUEST, ErrorResponse(now, BAD_REQUEST, "Parâmetro Obrigatório Ausente",
                                        "O parâmetro obrigatório '" + parameterName + "' não foi fornecido",
                                        map["parametro" := parameterName, "tipo" := parameterType]))
  }

  function HandleMissingPathVariable(variableName: string, now: nat): (r: Handled)
    ensures r.Response? && r.httpStatus == BAD_REQUEST && r.body.status == r.httpStatus
    ensures r.body.details.Keys == {"variavel"} && r.body.details["variavel"] == variableName
  {
    Response(BAD_REQUEST, ErrorResponse(now, BAD_REQUEST, "Variável de Path Ausente",
                                        "A variável de path '" + variableName + "' é obrigatória",
                                        map["variavel" := variableName]))
  }

  /** The kind of integrity violation the handler reads from the exception message. */
  datatype IntegrityKind = Duplicate | Relationship | OtherIntegrity

  /** "duplicate" or "unique" is tested first, then "foreign key" or "constraint". */
  function IntegrityKindOf(message: string): (k: IntegrityKind)
    ensures k == Duplicate <==> Contains(message, "duplicate") || Contains(message, "unique")
    ensures k == Relationship <==> !Contains(message, "duplicate") && !Contains(message, "unique")
                                   && (Contains(message, "foreign key") || Contains(message, "constraint"))
  {
    if Contains(message, "duplicate") || Contains(message, "unique") then Duplicate
    else if Contains(message, "foreign key") || Contains(message, "constraint") then Relationship
    else OtherIntegrity
  }

  function HandleDataIntegrity(message: string, now: nat): (r: Handled)
    ensures r.Response? && r.httpStatus == CONFLICT && r.body.status == r.httpStatus && r.body.error == "Conflito de Dados"
    ensures IntegrityKindOf(message) == Duplicate ==>
              r.body.details == map["tipo" := "DUPLICIDADE"] && r.body.message == "Já existe um registro com esses dados únicos"
    ensures IntegrityKindOf(message) == Relationship ==>
              r.body.details == map["tipo" := "CONSTRAINT"] && r.body.message == "Violação de relacionamento entre dados"
    ensures IntegrityKindOf(message) == OtherIntegrity ==>
              r.body.details == map[] && r.body.message == "Violação de regra de integridade dos dados"
  {
    var body := match IntegrityKindOf(message)
      case Duplicate => ErrorResponse(now, CONFLICT, "Conflito de Dados", "Já existe um registro com esses dados únicos",
                                      map["tipo" := "DUPLICIDADE"])
      case Relationship => ErrorResponse(now, CONFLICT, "Conflito de Dados", "Violação de relacionamento entre dados",
                                         map["tipo" := "CONSTRAINT"])
      case OtherIntegrity => ErrorResponse(now, CONFLICT, "Conflito de Dados", "Violação de regra de integridade dos dados",
                                           map[]);
    Response(CONFLICT, body)
  }

  /** The field name and its value appear exactly when the exception names a field; a named field with a null value faults. */
  function HandleDataConflict(field: Option<string>, value: Option<string>, message: string, now: nat): (r: Handled)
    ensures r.HandlerFault? <==> field.Some? && value.None?
    ensures r.Response? ==> r.httpStatus == CONFLICT && r.body.status == r.httpStatus && r.body.message == message
    ensures r.Response? ==> ("campo" in r.body.details <==> field.Some?) && ("valor" in r.body.details <==> field.Some?)
    ensures r.Response? ==> r.body.details.Keys <= {"campo", "valor"}
    ensures r.Response? && field.Some? ==> r.body.details["campo"] == field.value && r.body.details["valor"] == value.value
  {
    if field.None? then Response(CONFLICT, ErrorResponse(now, CONFLICT, "Conflito de Dados", message, map[]))
    else if value.None? then HandlerFault(NullPointer)
    else Response(CONFLICT, ErrorResponse(now, CONFLICT, "Conflito de Dados", message,
                                          map["campo" := field.value, "valor" := value.value]))
  }

  /** The details carry the rule exactly when it is non-null and the current state exactly when it is non-null. */
  function HandleBusinessRule(rule: Option<string>, currentState: Option<string>, message: string, now: nat): (r: Handled)
    ensures r.Response? && r.httpStatus == UNPROCESSABLE_ENTITY && r.body.status == r.httpStatus
    ensures r.body.error == "Regra de Negócio Violada" && r.body.message == message
    ensures ("regra" in r.body.details <==> rule.Some?) && ("estadoAtual" in r.body.details <==> currentState.Some?)
    ensures r.body.details.Keys <= {"regra", "estadoAtual"}
    ensures rule.Some? ==> r.body.details["regra"] == rule.value
    ensures currentState.Some? ==> r.body.details["estadoAtual"] == currentState.value
  {
    var withRule: map<string, string> := if rule.Some? then map["regra" := rule.value] else map[];
    var details := if currentState.Some? then withRule["estadoAtual" := currentState.value] else withRule;
    Response(UNPROCESSABLE_ENTITY, ErrorResponse(now, UNPROCESSABLE_ENTITY, "Regra de Negócio Violada", message, details))
  }

  /** The failures the application raises itself for a missing task or a refused transition. */
  predicate IsTaskFailure(e: Failure)
  {
    e.TarefaNotFound? || e.BusinessRule?
  }

  /** The conflicts: the application's DataConflictException and the persistence layer's integrity violations. */
  predicate IsConflict(e: Failure)
  {
    e.DataConflict? || e.DataIntegrityViolation?
  }

  /** The failures raised while reading and validating a request body. */
  predicate IsBodyFailure(e: Failure)
  {
    e.MethodArgumentNotValid? || e.ConstraintViolations? || e.MessageNotReadable?
  }

  function HandleTaskFailure(e: Failure, now: nat): (r: Handled)
    requires IsTaskFailure(e)
    ensures r.Response? && r.httpStatus == StatusOf(e) && r.body.status == r.httpStatus && r.body.timestamp == now
  {
    match e
    case TarefaNotFound(id) => HandleNotFound(id, now)
    case BusinessRule(rule, state, message) => HandleBusinessRule(rule, state, message, now)
  }

  function HandleConflict(e: Failure, now: nat): (r: Handled)
    requires IsConflict(e)
    ensures r.HandlerFault? <==> Faults(e)
    ensures r.Response? ==> r.httpStatus == StatusOf(e) && r.body.status == r.httpStatus && r.body.timestamp == now
  {
    match e
    case DataConflict(field, value, message) => HandleDataConflict(field, value, message, now)
    case DataIntegrityViolation(message) => HandleDataIntegrity(message, now)
  }

  function HandleBody(e: Failure, now: nat): (r: Handled)
    requires IsBodyFailure(e)
    ensures r.HandlerFault? <==> Faults(e)
    ensures r.Response? ==> r.httpStatus == StatusOf(e) && r.body.status == r.httpStatus && r.body.timestamp == now
  {
    match e
    case MethodArgumentNotValid(fieldErrors) => HandleValidation(fieldErrors, now)
    case ConstraintViolations(violations) => HandleConstraintViolation(violations, now)
    case MessageNotReadable(cause) => HandleNotReadable(cause, now)
  }

  function HandleRequest(e: Failure, now: nat): (r: Handled)
    requires !IsTaskFailure(e) && !IsConflict(e) && !IsBodyFailure(e)
    ensures r.Response? && r.httpStatus == StatusOf(e) && r.body.status == r.httpStatus && r.body.timestamp == now
  {
    match e
    case ArgumentTypeMismatch(name, value, requiredType) => HandleTypeMismatch(name, value, requiredType, now)
    case MethodNotSupported(httpMethod, supported, url) => HandleMethodNotSupported(httpMethod, supported, url, now)
    case MediaTypeNotSupported(contentType, supported) => HandleMediaTypeNotSupported(contentType, supported, now)
    case NoHandlerFound(httpMethod, requestUrl) => HandleNoHandlerFound(httpMethod, requestUrl, now)
    case MissingParameter(name, parameterType) => HandleMissingParameter(name, parameterType, now)
    case MissingPathVariable(name) => HandleMissingPathVariable(name, now)
    case Unexpected(simpleClassName) => HandleGeneral(simpleClassName, now)
  }

  /**
   * The handler Spring selects for each failure. Every response carries in
   * its body the HTTP status it is sent with, that status is the error class
   * of the failure, and the handler faults exactly on the two inputs where it
   * dereferences a missing value.
   */
  function Handle(e: Failure, now: nat): (r: Handled)
    ensures r.HandlerFault? <==> Faults(e)
    ensures r.Response? ==> r.httpStatus == StatusOf(e) && r.body.status == r.httpStatus && r.body.timestamp == now
  {
    if IsTaskFailure(e) then HandleTaskFailure(e, now)
    else if IsConflict(e) then HandleConflict(e, now)
    else if IsBodyFailure(e) then HandleBody(e, now)
    else HandleRequest(e, now)
  }

  // ---------------------------------------------------------------------------
  // Properties relating several handlers

  /**
   * DUPLICIDADE takes precedence: a message that mentions both a unique key
   * and a constraint, as database drivers usually phrase it, is reported as
   * a duplicate.
   */
  lemma DuplicateTakesPrecedence(now: nat)
    ensures var m := "duplicate" + " key value violates unique " + "constraint";
            Contains(m, "constraint") && Handle(DataIntegrityViolation(m), now).body.details == map["tipo" := "DUPLICIDADE"]
  {
    var a, b, c := "duplicate", " key value violates unique ", "constraint";
    var m := a + b + c;
    assert m[0..|a|] == a;
    ContainsAt(m, a, 0);
    assert m[|a| + |b|..|a| + |b| + |c|] == c;
    ContainsAt(m, c, |a| + |b|);
  }

  /** Two validation errors on one field: the response keeps the later message. */
  lemma ValidationKeepsLastMessage(field: string, first: string, second: string, now: nat)
    ensures var r := Handle(MethodArgumentNotValid([Violation(field, first), Violation(field, second)]), now);
            r.body.details == map[field := second]
  {
    var vs := [Violation(field, first), Violation(field, second)];
    assert vs[..1] == [Violation(field, first)];
    assert [Violation(field, first)][..0] == [];
  }
}
