/**
 * The HTTP client of the tarefas REST API (TaskService.api.ts): client-side
 * validation, the payload transformation, the guards every call runs before
 * it issues a request, the module-level buffer of request metrics and the
 * translation of a failed request into an ApiError. The network itself is
 * left out: an operation returns the request it would send, or the error it
 * throws first.
 */
module TaskApi {
  import opened Common
  import opened TaskTypes
  import opened Exceptions
  import opened ExceptionHandler

  const BASE_URL := "http://localhost:8080/tasks"
  const TITLE_LIMIT := 100
  const DESCRIPTION_LIMIT := 500

  const TITLE_REQUIRED := "Título é obrigatório"
  const TITLE_TOO_LONG := "Título não pode exceder 100 caracteres"
  const DESCRIPTION_REQUIRED := "Descrição é obrigatória"
  const DESCRIPTION_TOO_LONG := "Descrição não pode exceder 500 caracteres"
  const STATUS_REQUIRED := "Status é obrigatório"
  const STATUS_INVALID := "Status inválido"
  const INVALID_ID := "ID da tarefa inválido"

  // ---------------------------------------------------------------------------
  // validateTaskData and transformTaskForApi

  /** The data validateTaskData accepts: limits are on the untrimmed strings, the status is one of the three names. */
  predicate TaskDataValid(t: TaskData)
  {
    && !IsBlank(JavaScript, t.titulo) && |t.titulo| <= TITLE_LIMIT
    && !IsBlank(JavaScript, t.descricao) && |t.descricao| <= DESCRIPTION_LIMIT
    && IsKnownStatus(t.status)
  }

  function TitleErrors(titulo: string): (r: seq<string>)
    ensures |r| <= 1
    ensures r == [] <==> !IsBlank(JavaScript, titulo) && |titulo| <= TITLE_LIMIT
    ensures IsBlank(JavaScript, titulo) ==> r == [TITLE_REQUIRED]
  {
    if IsBlank(JavaScript, titulo) then [TITLE_REQUIRED]
    else if |titulo| > TITLE_LIMIT then [TITLE_TOO_LONG]
    else []
  }

  function DescriptionErrors(descricao: string): (r: seq<string>)
    ensures |r| <= 1
    ensures r == [] <==> !IsBlank(JavaScript, descricao) && |descricao| <= DESCRIPTION_LIMIT
    ensures IsBlank(JavaScript, descricao) ==> r == [DESCRIPTION_REQUIRED]
  {
    if IsBlank(JavaScript, descricao) then [DESCRIPTION_REQUIRED]
    else if |descricao| > DESCRIPTION_LIMIT then [DESCRIPTION_TOO_LONG]
    else []
  }

  /** An empty status is falsy and reported as missing; any other unknown string as invalid. */
  function StatusErrors(status: string): (r: seq<string>)
    ensures |r| <= 1
    ensures r == [] <==> IsKnownStatus(status)
    ensures status == "" ==> r == [STATUS_REQUIRED]
  {
    if status == "" then [STATUS_REQUIRED]
    else if !IsKnownStatus(status) then [STATUS_INVALID]
    else []
  }

  /** The field a message of validateTaskData is about: 0 title, 1 description, 2 status. */
  function FieldRank(message: string): nat
  {
    if message == TITLE_REQUIRED || message == TITLE_TOO_LONG then 0
    else if message == DESCRIPTION_REQUIRED || message == DESCRIPTION_TOO_LONG then 1
    else 2
  }

  /** The list is empty exactly on valid data. */
  function ValidateTaskData(t: TaskData): (r: seq<string>)
    ensures r == [] <==> TaskDataValid(t)
    ensures |r| <= 3
  {
    TitleErrors(t.titulo) + DescriptionErrors(t.descricao) + StatusErrors(t.status)
  }

  /** validateTaskData holds at most one message per field: title first, then description, then status. */
  lemma ValidateTaskDataOrder(t: TaskData)
    ensures var r := ValidateTaskData(t);
            forall i, j :: 0 <= i < j < |r| ==> FieldRank(r[i]) < FieldRank(r[j])
  {
    var a, b, c := TitleErrors(t.titulo), DescriptionErrors(t.descricao), StatusErrors(t.status);
    assert forall m :: m in a ==> FieldRank(m) == 0;
    assert forall m :: m in b ==> FieldRank(m) == 1;
    assert forall m :: m in c ==> FieldRank(m) == 2;
    assert ValidateTaskData(t) == a + b + c;
  }

  /** The title length is checked before trimming: 100 characters and a trailing space are refused though their trim fits. */
  lemma PaddedTitleRefused(s: string, t: TaskData)
    requires |s| == TITLE_LIMIT && !IsBlank(JavaScript, s) && t.titulo == s + [' ']
    ensures TITLE_TOO_LONG in ValidateTaskData(t)
    ensures |Trim(JavaScript, t.titulo)| <= TITLE_LIMIT
  {
    TrailingSpaceTrimmed(s);
    assert TitleErrors(t.titulo) == [TITLE_TOO_LONG];
  }

  /** Trimming a string that is not blank drops a trailing space. */
  lemma TrailingSpaceTrimmed(s: string)
    requires !AllSpace(JavaScript, s)
    ensures !AllSpace(JavaScript, s + [' '])
    ensures |Trim(JavaScript, s + [' '])| <= |s|
  {
    var u := s + [' '];
    var k :| 0 <= k < |s| && !IsSpace(JavaScript, s[k]);
    assert u[k] == s[k];
    var l := TrimLeft(JavaScript, u);
    assert l == u[|u| - |l|..];
    assert l != [];
    assert l[|l| - 1] == ' ';
    TrimRightShortens(l);
  }

  lemma TrimRightShortens(l: string)
    requires l != [] && l[|l| - 1] == ' '
    ensures |TrimRight(JavaScript, l)| < |l|
  {
  }

  /** transformTaskForApi: title and description trimmed, status kept. */
  function TransformForApi(t: TaskData): (r: TaskData)
    ensures r.titulo == Trim(JavaScript, t.titulo) && r.descricao == Trim(JavaScript, t.descricao)
    ensures r.status == t.status
    ensures Trimmed(JavaScript, r.titulo) && Trimmed(JavaScript, r.descricao)
    ensures |r.titulo| <= |t.titulo| && |r.descricao| <= |t.descricao|
    ensures TaskDataValid(t) ==> TaskDataValid(r)
  {
    TaskData(Trim(JavaScript, t.titulo), Trim(JavaScript, t.descricao), t.status)
  }

  /** Transforming twice is transforming once. */
  lemma TransformIdempotent(t: TaskData)
    ensures TransformForApi(TransformForApi(t)) == TransformForApi(t)
  {
    TrimIdempotent(JavaScript, t.titulo);
    TrimIdempotent(JavaScript, t.descricao);
  }

  // ---------------------------------------------------------------------------
  // The guards run before a request is sent

  datatype Request =
    | Get(url: string)
    | Post(url: string, body: TaskData)
    | Put(url: string, body: TaskData)
    | Delete(url: string)

  /** `!id || id <= 0` is false: the id is present, non-zero and positive. */
  predicate IdValid(id: Option<int>)
  {
    id.Some? && id.value > 0
  }

  function TaskUrl(id: int): string
  {
    BASE_URL + "/" + IntToString(id)
  }

  /** Each id has a url of its own: a request by id reaches only that task. */
  lemma TaskUrlInjective(a: int, b: int)
    requires TaskUrl(a) == TaskUrl(b)
    ensures a == b
  {
    var prefix := BASE_URL + "/";
    assert IntToString(a) == TaskUrl(a)[|prefix|..];
    assert IntToString(b) == TaskUrl(b)[|prefix|..];
    IntToStringInjective(a, b);
  }

  function InvalidDataMessage(errors: seq<string>): string
  {
    "Dados inválidos: " + Join(", ", errors)
  }

  function GetTaskById(id: Option<int>): (r: Result<Request, string>)
    ensures r.Err? <==> !IdValid(id)
    ensures r.Err? ==> r.error == INVALID_ID
    ensures r.Ok? ==> r.value == Get(TaskUrl(id.value))
  {
    if !IdValid(id) then Err(INVALID_ID) else Ok(Get(TaskUrl(id.value)))
  }

  function CreateTask(t: TaskData): (r: Result<Request, string>)
    ensures r.Err? <==> !TaskDataValid(t)
    ensures r.Err? ==> r.error == InvalidDataMessage(ValidateTaskData(t))
    ensures r.Ok? ==> r.value.Post? && r.value.url == BASE_URL && r.value.body == TransformForApi(t)
  {
    var errors := ValidateTaskData(t);
    if errors == [] then Ok(Post(BASE_URL, TransformForApi(t))) else Err(InvalidDataMessage(errors))
  }

  /** The id is checked before the data. */
  function UpdateTask(id: Option<int>, t: TaskData): (r: Result<Request, string>)
    ensures r.Err? <==> !IdValid(id) || !TaskDataValid(t)
    ensures !IdValid(id) ==> r == Err(INVALID_ID)
    ensures IdValid(id) && !TaskDataValid(t) ==> r == Err(InvalidDataMessage(ValidateTaskData(t)))
    ensures r.Ok? ==> r.value == Put(TaskUrl(id.value), TransformForApi(t))
  {
    if !IdValid(id) then Err(INVALID_ID)
    else
      var errors := ValidateTaskData(t);
      if errors != [] then Err(InvalidDataMessage(errors)) else Ok(Put(TaskUrl(id.value), TransformForApi(t)))
  }

  function DeleteTask(id: Option<int>): (r: Result<Request, string>)
    ensures r.Err? <==> !IdValid(id)
    ensures r.Err? ==> r.error == INVALID_ID
    ensures r.Ok? ==> r.value == Delete(TaskUrl(id.value))
  {
    if !IdValid(id) then Err(INVALID_ID) else Ok(Delete(TaskUrl(id.value)))
  }

  /** Only the three upper-case names pass; the comparison is exact. */
  function GetTasksByStatus(status: string): (r: Result<Request, string>)
    ensures r.Err? <==> !IsKnownStatus(status)
    ensures r.Err? ==> r.error == STATUS_INVALID
    ensures r.Ok? ==> r.value == Get(BASE_URL + "/status/" + status)
  {
    if status == "" || !IsKnownStatus(status) then Err(STATUS_INVALID) else Ok(Get(BASE_URL + "/status/" + status))
  }

  /** Unlike the server, the client refuses a lower-case status name. */
  lemma LowerCaseStatusRefused()
    ensures GetTasksByStatus("pendente").Err?
  {
    assert "pendente"[0] != PENDENTE[0];
    assert "pendente"[0] != CONCLUIDA[0];
    assert "pendente"[0] != CANCELADA[0];
  }

  // ---------------------------------------------------------------------------
  // The metrics buffer

  const METRICS_CAP := 100

  /** A request's method, url, duration, response status and completion time. */
  datatype Metric = Metric(httpMethod: string, url: string, duration: int, status: int, timestamp: nat)

  /** `xs.slice(-n)` when xs is longer than n: the last n elements. */
  function KeepLast<T>(xs: seq<T>, n: nat): (r: seq<T>)
    ensures |r| == if |xs| <= n then |xs| else n
    ensures r == xs[|xs| - |r|..]
  {
    if |xs| <= n then xs else xs[|xs| - n..]
  }

  /** After a push and a cut to n, the pushed element is last and the n - 1 newest older ones precede it. */
  lemma KeepLastAfterPush<T>(xs: seq<T>, x: T, n: nat)
    requires n > 0
    ensures var r := KeepLast(xs + [x], n);
            r != [] && r[|r| - 1] == x && r[..|r| - 1] == KeepLast(xs, n - 1)
  {
    var r := KeepLast(xs + [x], n);
    assert r == (xs + [x])[|xs| + 1 - |r|..];
    assert r[..|r| - 1] == xs[|xs| - (|r| - 1)..];
  }

  /** The module-level performanceMetrics array. */
  class PerformanceLog {
    var metrics: seq<Metric>

    predicate Valid()
      reads this
    {
      |metrics| <= METRICS_CAP
    }

    constructor()
      ensures Valid() && metrics == []
    {
      metrics := [];
    }

    /** measurePerformance: records the request and keeps the 100 newest metrics. */
    method MeasurePerformance(httpMethod: string, url: string, startTime: int, now: nat, status: int) returns (m: Metric)
      requires Valid()
      modifies this
      ensures Valid()
      ensures m == Metric(httpMethod, url, now - startTime, status, now)
      ensures metrics == KeepLast(old(metrics) + [m], METRICS_CAP)
    {
      m := Metric(httpMethod, url, now - startTime, status, now);
      metrics := metrics + [m];
      if |metrics| > METRICS_CAP {
        metrics := metrics[|metrics| - METRICS_CAP..];
      }
    }

    /** getPerformanceMetrics returns a copy of the buffer. */
    function Snapshot(): (r: seq<Metric>)
      reads this
      requires Valid()
      ensures r == metrics && |r| <= METRICS_CAP
    {
      metrics
    }

    method Clear()
      modifies this
      ensures Valid() && metrics == []
    {
      metrics := [];
    }
  }

  // ---------------------------------------------------------------------------
  // createApiError

  /** The response body as axios decoded it: an object with the error envelope's optional fields, or anything else. */
  datatype ResponseData =
    | JsonObject(message: Option<string>, status: Option<int>, error: Option<string>, details: Option<map<string, string>>)
    | NotAnObject

  datatype HttpResponse = HttpResponse(status: int, data: ResponseData)

  /** An AxiosError: its message and code, and the response when the server answered. */
  datatype HttpError = HttpError(message: string, code: Option<string>, response: Option<HttpResponse>)

  datatype ApiError = ApiError(message: string, status: Option<int>, code: Option<string>, details: Option<map<string, string>>)

  /** `a || b` on a string: an absent or empty string falls back to b. */
  function OrElse(a: Option<string>, b: string): (r: string)
    ensures a.Some? && a.value != "" ==> r == a.value
    ensures a.None? || a.value == "" ==> r == b
    ensures b != "" ==> r != ""
  {
    if a.Some? && a.value != "" then a.value else b
  }

  /**
   * With an object body the message is the server's (or 'Erro na API'), the
   * status the body's (or the response's) and the code the body's error;
   * otherwise the message is the transport error's (or 'Erro de conexão').
   * The message is never empty.
   */
  function CreateApiError(e: HttpError): (r: ApiError)
    ensures r.message != ""
    ensures e.response.Some? && e.response.value.data.JsonObject? ==>
              var body := e.response.value.data;
              && r.message == OrElse(body.message, "Erro na API")
              && r.code == body.error && r.details == body.details
              && r.status == Some(if body.status.Some? && body.status.value != 0 then body.status.value else e.response.value.status)
    ensures !(e.response.Some? && e.response.value.data.JsonObject?) ==>
              r.message == OrElse(Some(e.message), "Erro de conexão") && r.code == e.code && r.details.None?
              && (r.status.Some? <==> e.response.Some?)
  {
    match e.response
    case Some(HttpResponse(status, JsonObject(message, bodyStatus, error, details))) =>
      ApiError(OrElse(message, "Erro na API"),
               Some(if bodyStatus.Some? && bodyStatus.value != 0 then bodyStatus.value else status), error, details)
    case Some(HttpResponse(status, NotAnObject)) =>
      ApiError(OrElse(Some(e.message), "Erro de conexão"), Some(status), e.code, None)
    case None =>
      ApiError(OrElse(Some(e.message), "Erro de conexão"), None, e.code, None)
  }

  /** The envelope the server's exception handler sends, as the client decodes it. */
  function Decoded(body: ErrorResponse): ResponseData
  {
    JsonObject(Some(body.message), Some(body.status), Some(body.error), Some(body.details))
  }

  /**
   * End to end: when the server's handler answers with a response, the
   * client's ApiError carries the handler's status, its error title as code,
   * its details, and its message unless that message is empty.
   */
  lemma ClientReadsHandlerEnvelope(failure: Failure, now: nat, transportMessage: string, code: Option<string>)
    requires Handle(failure, now).Response?
    ensures var h := Handle(failure, now);
            var r := CreateApiError(HttpError(transportMessage, code, Some(HttpResponse(h.httpStatus, Decoded(h.body)))));
            && r.status == Some(h.httpStatus) && r.code == Some(h.body.error) && r.details == Some(h.body.details)
            && (h.body.message != "" ==> r.message == h.body.message)
  {
  }
}
