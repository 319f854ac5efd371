/**
 * TarefaSearchController: status and title search with their input guards,
 * and the two PATCH endpoints that complete or cancel a task. The endpoints
 * form a small state machine over the status: PENDENTE may go to CONCLUIDA
 * or CANCELADA, and both of those are final, because each endpoint refuses
 * a task that is already in either of them.
 */
module SearchController {
  import opened Common
  import opened Entity
  import opened Dto
  import opened Exceptions
  import opened Repository
  import opened Service

  /** `String.format("%s", s)`: a null string is written as "null". */
  function Shown(s: Option<string>): string
  {
    if s.Some? then s.value else "null"
  }

  function InvalidStatusMessage(raw: string): string
  {
    "Status '" + raw + "' is invalid. Accepted values: PENDENTE, CONCLUIDA, CANCELADA"
  }

  /**
   * searchByStatus's parsing: `StatusTarefa.valueOf(status.toUpperCase())`;
   * the IllegalArgumentException of an unknown name becomes STATUS_INVALID
   * carrying the raw input.
   */
  function ParseStatus(raw: string): (r: Result<StatusTarefa, Failure>)
    ensures r.Ok? ==> Name(r.value) == ToUpper(raw)
    ensures r.Err? ==> (forall s :: Name(s) != ToUpper(raw))
                       && r.error == BusinessRule(Some("STATUS_INVALID"), Some(raw), InvalidStatusMessage(raw))
  {
    var parsed := ValueOf(ToUpper(raw));
    if parsed.Some? then Ok(parsed.value)
    else Err(BusinessRule(Some("STATUS_INVALID"), Some(raw), InvalidStatusMessage(raw)))
  }

  /** Every status name is accepted in any mix of ASCII case: lower-case input parses too. */
  lemma ParseStatusIgnoresCase(s: StatusTarefa)
    ensures ParseStatus(Name(s)) == Ok(s)
    ensures ParseStatus(ToLower(Name(s))) == Ok(s)
  {
    var n := Name(s);
    assert ToUpper(n) == n;
    assert ToUpper(ToLower(n)) == n;
  }

  /** The two transition endpoints. */
  datatype Command = Complete | Cancel

  /** The status each endpoint writes. */
  function Target(cmd: Command): StatusTarefa
  {
    match cmd
    case Complete => Concluida
    case Cancel => Cancelada
  }

  /** The four refusals of the transition endpoints. */
  datatype Refusal = AlreadyCompleted | CannotCompleteCancelled | AlreadyCancelled | CannotCancelCompleted

  /**
   * The endpoint's checks on the fetched task's status, in source order:
   * completing checks CONCLUIDA then CANCELADA, cancelling checks CANCELADA
   * then CONCLUIDA. None lets the update proceed.
   */
  function Guard(cmd: Command, status: Option<StatusTarefa>): Option<Refusal>
  {
    match cmd
    case Complete =>
      if status == Some(Concluida) then Some(AlreadyCompleted)
      else if status == Some(Cancelada) then Some(CannotCompleteCancelled)
      else None
    case Cancel =>
      if status == Some(Cancelada) then Some(AlreadyCancelled)
      else if status == Some(Concluida) then Some(CannotCancelCompleted)
      else None
  }

  /** The rule name each refusal carries. */
  function RuleName(r: Refusal): string
  {
    match r
    case AlreadyCompleted => "ALREADY_COMPLETED"
    case CannotCompleteCancelled => "CANNOT_COMPLETE_CANCELLED"
    case AlreadyCancelled => "ALREADY_CANCELLED"
    case CannotCancelCompleted => "CANNOT_CANCEL_COMPLETED"
  }

  /** The status a refusal is about, whose name is reported as the current state. */
  function RefusedStatus(r: Refusal): StatusTarefa
  {
    match r
    case AlreadyCompleted => Concluida
    case CannotCompleteCancelled => Cancelada
    case AlreadyCancelled => Cancelada
    case CannotCancelCompleted => Concluida
  }

  /** The BusinessRuleException thrown for a refusal; its message names the tarefa's title. */
  function RefusalFailure(r: Refusal, titulo: Option<string>): Failure
  {
    var message :=
      match r
      case AlreadyCompleted => "Task '" + Shown(titulo) + "' is already completed"
      case CannotCompleteCancelled => "Cannot complete task '" + Shown(titulo) + "' because it was cancelled"
      case AlreadyCancelled => "Task '" + Shown(titulo) + "' is already cancelled"
      case CannotCancelCompleted => "Cannot cancel task '" + Shown(titulo) + "' because it is already completed";
    BusinessRule(Some(RuleName(r)), Some(Name(RefusedStatus(r))), message)
  }

  /**
   * The guards refuse exactly the final statuses, and the refusal is about the
   * status the tarefa has: completing a CONCLUIDA task is ALREADY_COMPLETED and
   * a CANCELADA one CANNOT_COMPLETE_CANCELLED; cancelling a CANCELADA task is
   * ALREADY_CANCELLED and a CONCLUIDA one CANNOT_CANCEL_COMPLETED.
   */
  lemma GuardRefusesFinalStatuses(cmd: Command, status: Option<StatusTarefa>)
    ensures Guard(cmd, status).None? <==> !(status.Some? && IsTerminal(status.value))
    ensures Guard(cmd, status).Some? ==> status == Some(RefusedStatus(Guard(cmd, status).value))
    ensures status == Some(Concluida) ==>
              Guard(cmd, status) == Some(if cmd == Complete then AlreadyCompleted else CannotCancelCompleted)
    ensures status == Some(Cancelada) ==>
              Guard(cmd, status) == Some(if cmd == Complete then CannotCompleteCancelled else AlreadyCancelled)
  {
  }

  /** The DTO an endpoint hands to updateTask: the fetched title and description, the target status. */
  function TransitionDto(cmd: Command, v: TarefaValue): TarefaDTO
  {
    TarefaDTO(v.titulo, v.descricao, Some(Target(cmd)))
  }

  /**
   * markAsCompleted (Complete) or cancelTask (Cancel) on the table: not-found
   * before any guard, then the guard, then updateTask.
   */
  function CommandSpec(cmd: Command, rows: map<int, TarefaValue>, nextId: int, clock: nat, id: int): Outcome
  {
    if id !in rows then Outcome(Err(TarefaNotFound(id)), rows, nextId)
    else if Guard(cmd, rows[id].status).Some? then
      Outcome(Err(RefusalFailure(Guard(cmd, rows[id].status).value, rows[id].titulo)), rows, nextId)
    else UpdateSpec(rows, nextId, clock, id, TransitionDto(cmd, rows[id]))
  }

  /** An absent id fails with not-found for either endpoint, and nothing is saved. */
  lemma CommandOnAbsentId(cmd: Command, rows: map<int, TarefaValue>, nextId: int, clock: nat, id: int)
    requires id !in rows
    ensures CommandSpec(cmd, rows, nextId, clock, id) == Outcome(Err(TarefaNotFound(id)), rows, nextId)
  {
  }

  /** A task in a final status is refused by both endpoints and the table is unchanged. */
  lemma CommandOnFinalStatusChangesNothing(cmd: Command, rows: map<int, TarefaValue>, nextId: int, clock: nat, id: int)
    requires id in rows && rows[id].status.Some? && IsTerminal(rows[id].status.value)
    ensures CommandSpec(cmd, rows, nextId, clock, id).result.Err?
    ensures CommandSpec(cmd, rows, nextId, clock, id).rows == rows
    ensures CommandSpec(cmd, rows, nextId, clock, id).nextId == nextId
  {
    GuardRefusesFinalStatuses(cmd, rows[id].status);
  }

  /** The round trip through updateTask leaves a stored row's trimmed, non-blank title and its description as they are. */
  lemma TransitionPatchOnlyChangesStatus(cmd: Command, stored: TarefaValue)
    requires EntityConstraints(stored) && TrimmedOrNull(stored.titulo) && TrimmedOrNull(stored.descricao)
    ensures Patched(stored, TransitionDto(cmd, stored)) == stored.(status := Some(Target(cmd)))
    ensures EntityConstraints(stored.(status := Some(Target(cmd))))
  {
    TrimOrNullFixesTrimmed(stored.titulo);
    TrimOrNullFixesTrimmed(stored.descricao);
  }

  /**
   * From PENDENTE, markAsCompleted stores CONCLUIDA and cancelTask stores
   * CANCELADA; title, description and creation time pass through unchanged,
   * the update time is the clock, and no other row changes.
   */
  lemma CommandFromPendente(cmd: Command, rows: map<int, TarefaValue>, nextId: int, clock: nat, id: int)
    requires TableInvariant(rows, nextId, clock) && RowsTrimmed(rows)
    requires id in rows && rows[id].status == Some(Pendente)
    ensures var o := CommandSpec(cmd, rows, nextId, clock, id);
            && o.result == Ok(rows[id].(status := Some(Target(cmd)), dataAtualizacao := Some(clock)))
            && o.rows == rows[id := o.result.value]
            && o.nextId == nextId
  {
    var stored := rows[id];
    assert Persisted(id, stored, clock);
    TransitionPatchOnlyChangesStatus(cmd, stored);
    var moved := stored.(status := Some(Target(cmd)));
    SaveValidStored(rows, nextId, clock, moved);
    GuardRefusesFinalStatuses(cmd, stored.status);
    assert CommandSpec(cmd, rows, nextId, clock, id) == UpdateSpec(rows, nextId, clock, id, TransitionDto(cmd, stored));
    assert UpdateSpec(rows, nextId, clock, id, TransitionDto(cmd, stored)) == FromSaved(SaveSpec(rows, nextId, clock, moved));
  }

  /** The status a stored task has after one endpoint call. */
  function Next(cmd: Command, s: StatusTarefa): StatusTarefa
  {
    if IsTerminal(s) then s else Target(cmd)
  }

  /** The status after a sequence of endpoint calls. */
  function Run(s: StatusTarefa, cmds: seq<Command>): StatusTarefa
    decreases |cmds|
  {
    if cmds == [] then s else Run(Next(cmds[0], s), cmds[1..])
  }

  /** One endpoint call on a stored task moves its status as Next says. */
  lemma CommandFollowsNext(cmd: Command, rows: map<int, TarefaValue>, nextId: int, clock: nat, id: int)
    requires TableInvariant(rows, nextId, clock) && RowsTrimmed(rows) && id in rows
    ensures var o := CommandSpec(cmd, rows, nextId, clock, id);
            id in o.rows && o.rows[id].status == Some(Next(cmd, rows[id].status.value))
  {
    assert Persisted(id, rows[id], clock);
    if IsTerminal(rows[id].status.value) {
      CommandOnFinalStatusChangesNothing(cmd, rows, nextId, clock, id);
    } else {
      CommandFromPendente(cmd, rows, nextId, clock, id);
    }
  }

  /** CONCLUIDA and CANCELADA are absorbing: no sequence of complete and cancel calls leaves them. */
  lemma {:induction false} FinalStatusIsAbsorbing(s: StatusTarefa, cmds: seq<Command>)
    requires IsTerminal(s)
    ensures Run(s, cmds) == s
    decreases |cmds|
  {
    if cmds != [] {
      FinalStatusIsAbsorbing(s, cmds[1..]);
    }
  }

  /** From PENDENTE, the first call decides the final status for good. */
  lemma {:induction false} FirstCommandDecides(cmds: seq<Command>)
    requires cmds != []
    ensures Run(Pendente, cmds) == Target(cmds[0])
  {
    FinalStatusIsAbsorbing(Target(cmds[0]), cmds[1..]);
  }

  class TarefaSearchController {
    const service: TarefaService

    ghost predicate Valid()
      reads service.repo
    {
      service.Valid()
    }

    constructor (service: TarefaService)
      requires service.Valid()
      ensures this.service == service && Valid()
    {
      this.service := service;
    }

    /** searchByStatus: parse the path variable case-insensitively, then list that status. */
    function SearchByStatus(raw: string): Result<seq<TarefaValue>, Failure>
      reads service.repo
    {
      var parsed := ParseStatus(raw);
      if parsed.Ok? then Ok(service.GetTasksByStatus(parsed.value)) else Err(parsed.error)
    }

    /** searchByTitle: a term shorter than 2 characters after trimming is refused before any query. */
    function SearchByTitle(titulo: string): Result<seq<TarefaValue>, Failure>
      reads service.repo
    {
      if |Trim(Java, titulo)| < 2 then
        Err(BusinessRule(Some("SEARCH_TOO_SHORT"), Some(titulo), "Search term must have at least 2 characters"))
      else Ok(service.GetTasksByTitle(Some(titulo)))
    }

    /**
     * searchByStatus answers with exactly the stored tasks whose status name is
     * the upper-cased input, or with STATUS_INVALID carrying the raw input.
     */
    lemma SearchByStatusExact(raw: string)
      requires Valid()
      ensures SearchByStatus(raw).Err? <==> forall s :: Name(s) != ToUpper(raw)
      ensures SearchByStatus(raw).Err? ==>
                SearchByStatus(raw).error == BusinessRule(Some("STATUS_INVALID"), Some(raw), InvalidStatusMessage(raw))
      ensures SearchByStatus(raw).Ok? ==>
                forall v :: v in SearchByStatus(raw).value <==>
                  Stored(service.repo.rows, v) && v.status.Some? && Name(v.status.value) == ToUpper(raw)
    {
      var parsed := ParseStatus(raw);
      if parsed.Ok? {
        service.GetTasksByStatusExact(parsed.value);
        forall v: TarefaValue ensures v.status.Some? && Name(v.status.value) == ToUpper(raw) <==> v.status == Some(parsed.value) {
          if v.status.Some? && Name(v.status.value) == ToUpper(raw) {
            NameInjective(v.status.value, parsed.value);
          }
        }
      }
    }

    /**
     * searchByTitle refuses a term whose trimmed length is below 2 with
     * SEARCH_TOO_SHORT; otherwise it answers with exactly the stored tasks
     * whose title contains the trimmed term.
     */
    lemma SearchByTitleExact(titulo: string)
      requires Valid()
      ensures SearchByTitle(titulo).Err? <==> |Trim(Java, titulo)| < 2
      ensures SearchByTitle(titulo).Err? ==>
                SearchByTitle(titulo).error
                == BusinessRule(Some("SEARCH_TOO_SHORT"), Some(titulo), "Search term must have at least 2 characters")
      ensures SearchByTitle(titulo).Ok? ==>
                forall v :: v in SearchByTitle(titulo).value <==>
                  Stored(service.repo.rows, v) && v.titulo.Some? && Contains(v.titulo.value, Trim(Java, titulo))
    {
      service.GetTasksByTitleExact(Some(titulo));
    }

    /** markAsCompleted: fetch, refuse a final status, then update with status CONCLUIDA. */
    method MarkAsCompleted(id: int) returns (r: Result<TarefaValue, Failure>)
      requires Valid()
      modifies service.repo
      ensures Valid() && service.repo.clock == old(service.repo.clock)
      ensures Outcome(r, service.repo.rows, service.repo.nextId)
              == CommandSpec(Complete, old(service.repo.rows), old(service.repo.nextId), old(service.repo.clock), id)
    {
      var tarefa := service.GetTaskById(id);
      if tarefa.Err? {
        return Err(tarefa.error);
      }
      var refused := Guard(Complete, tarefa.value.status);
      if refused.Some? {
        return Err(RefusalFailure(refused.value, tarefa.value.titulo));
      }
      r := service.UpdateTask(id, TarefaDTO(tarefa.value.titulo, tarefa.value.descricao, Some(Concluida)));
    }

    /** cancelTask: fetch, refuse a final status, then update with status CANCELADA. */
    method CancelTask(id: int) returns (r: Result<TarefaValue, Failure>)
      requires Valid()
      modifies service.repo
      ensures Valid() && service.repo.clock == old(service.repo.clock)
      ensures Outcome(r, service.repo.rows, service.repo.nextId)
              == CommandSpec(Cancel, old(service.repo.rows), old(service.repo.nextId), old(service.repo.clock), id)
    {
      var tarefa := service.GetTaskById(id);
      if tarefa.Err? {
        return Err(tarefa.error);
      }
      var refused := Guard(Cancel, tarefa.value.status);
      if refused.Some? {
        return Err(RefusalFailure(refused.value, tarefa.value.titulo));
      }
      r := service.UpdateTask(id, TarefaDTO(tarefa.value.titulo, tarefa.value.descricao, Some(Cancelada)));
    }
  }
}
