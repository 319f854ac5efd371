/**
 * TarefaService: the operations behind the tarefa endpoints. Each mutating
 * operation builds or fetches a Tarefa object, changes it through its
 * setters and hands it to the repository's save. Responses are modelled by
 * TarefaValue itself, because TarefaResponseDTO.fromEntity copies all six
 * fields unchanged.
 */
module Service {
  import opened Common
  import opened Entity
  import opened Dto
  import opened Exceptions
  import opened Repository

  /** The service trims every title and description it writes, so stored strings are trimmed. */
  ghost predicate RowsTrimmed(rows: map<int, TarefaValue>)
  {
    forall k | k in rows :: TrimmedOrNull(rows[k].titulo) && TrimmedOrNull(rows[k].descricao)
  }

  /** What a service operation returns and the table it leaves behind. */
  datatype Outcome = Outcome(result: Result<TarefaValue, Failure>, rows: map<int, TarefaValue>, nextId: int)

  /** A failed bean validation surfaces from save as a ConstraintViolationException. */
  function FromSaved(s: Saved): Outcome
  {
    Outcome(if s.result.Ok? then Ok(s.result.value) else Err(ConstraintViolations(s.result.error)), s.rows, s.nextId)
  }

  /** A null status becomes PENDENTE; any other status is kept. */
  function WithDefaultStatus(v: TarefaValue): TarefaValue
  {
    if v.status.None? then v.(status := Some(Pendente)) else v
  }

  /** The entity createTask hands to save: the DTO converted, with a null status defaulted to PENDENTE. */
  function CreationEntity(d: TarefaDTO): TarefaValue
  {
    WithDefaultStatus(ToEntity(d))
  }

  /** createTask's status default, applied through the setter. */
  method DefaultStatus(t: Tarefa)
    modifies t
    ensures t.Value() == WithDefaultStatus(old(t.Value()))
  {
    if t.status.None? {
      t.status := Some(Pendente);
    }
  }

  function CreateSpec(rows: map<int, TarefaValue>, nextId: int, clock: nat, d: TarefaDTO): Outcome
  {
    FromSaved(SaveSpec(rows, nextId, clock, CreationEntity(d)))
  }

  /**
   * updateTask's changes to the stored entity: the title only when the input
   * title is non-null and not blank (then trimmed), the description always
   * (trimmed, or null), the status only when the input status is non-null.
   */
  function Patched(stored: TarefaValue, d: TarefaDTO): TarefaValue
  {
    stored.(titulo := if d.titulo.Some? && !IsBlank(Java, d.titulo.value) then Some(Trim(Java, d.titulo.value)) else stored.titulo,
            descricao := TrimOrNull(d.descricao),
            status := if d.status.Some? then d.status else stored.status)
  }

  function UpdateSpec(rows: map<int, TarefaValue>, nextId: int, clock: nat, id: int, d: TarefaDTO): Outcome
  {
    if id !in rows then Outcome(Err(TarefaNotFound(id)), rows, nextId)
    else FromSaved(SaveSpec(rows, nextId, clock, Patched(rows[id], d)))
  }

  function DeleteSpec(rows: map<int, TarefaValue>, id: int): (Result<(), Failure>, map<int, TarefaValue>)
  {
    if id !in rows then (Err(TarefaNotFound(id)), rows) else (Ok(()), rows - {id})
  }

  /** updateTask's setter calls on the fetched entity. */
  method ApplyPatch(t: Tarefa, d: TarefaDTO)
    modifies t
    ensures t.Value() == Patched(old(t.Value()), d)
  {
    if d.titulo.Some? && !IsBlank(Java, d.titulo.value) {
      t.titulo := Some(Trim(Java, d.titulo.value));
    }
    t.descricao := TrimOrNull(d.descricao);
    if d.status.Some? {
      t.status := d.status;
    }
  }

  /** Patching a stored entity keeps its id and leaves its strings trimmed. */
  lemma PatchedKeepsTrimmed(stored: TarefaValue, d: TarefaDTO)
    requires TrimmedOrNull(stored.titulo)
    ensures Patched(stored, d).id == stored.id
    ensures TrimmedOrNull(Patched(stored, d).titulo) && TrimmedOrNull(Patched(stored, d).descricao)
  {
  }

  /** Saving a trimmed entity keeps every stored string trimmed. */
  lemma SaveKeepsTrimmed(rows: map<int, TarefaValue>, nextId: int, clock: nat, v: TarefaValue)
    requires RowsTrimmed(rows) && TrimmedOrNull(v.titulo) && TrimmedOrNull(v.descricao)
    ensures RowsTrimmed(SaveSpec(rows, nextId, clock, v).rows)
  {
    var s := SaveSpec(rows, nextId, clock, v);
    if s.result.Ok? {
      var key := s.result.value.id.value;
      assert s.rows == rows[key := s.result.value];
    }
  }

  /**
   * createTask stores PENDENTE when the input status is null and the given
   * status otherwise, with the trimmed title and description, under the next
   * identity value; it succeeds exactly when that entity is valid.
   */
  lemma CreateStoresDefaultedStatus(rows: map<int, TarefaValue>, nextId: int, clock: nat, d: TarefaDTO)
    requires TableInvariant(rows, nextId, clock)
    ensures var o := CreateSpec(rows, nextId, clock, d);
            && (o.result.Ok? <==> EntityConstraints(CreationEntity(d)))
            && (o.result.Ok? ==>
                  && o.rows == rows[nextId := o.result.value] && nextId !in rows
                  && o.result.value.id == Some(nextId)
                  && o.result.value.status == (if d.status.None? then Some(Pendente) else d.status)
                  && o.result.value.titulo == TrimOrNull(d.titulo)
                  && o.result.value.descricao == TrimOrNull(d.descricao)
                  && o.result.value.dataCriacao == o.result.value.dataAtualizacao == Some(clock))
            && (o.result.Err? ==> o.rows == rows && o.nextId == nextId && o.result.error.ConstraintViolations?)
  {
    SaveNewAssignsFreshId(rows, nextId, clock, CreationEntity(d));
  }

  /** updateTask on an absent id fails with not-found for that id and saves nothing. */
  lemma UpdateAbsentIdFails(rows: map<int, TarefaValue>, nextId: int, clock: nat, id: int, d: TarefaDTO)
    requires id !in rows
    ensures UpdateSpec(rows, nextId, clock, id, d) == Outcome(Err(TarefaNotFound(id)), rows, nextId)
  {
  }

  /**
   * updateTask on a stored id: the title is replaced by its trim only when
   * the input title is non-blank, the description is always overwritten, the
   * status only when one is given; the creation time is kept, the update time
   * is the clock, and no other row changes.
   */
  lemma UpdateIsPartial(rows: map<int, TarefaValue>, nextId: int, clock: nat, id: int, d: TarefaDTO)
    requires TableInvariant(rows, nextId, clock) && id in rows
    ensures var o := UpdateSpec(rows, nextId, clock, id, d);
            && o.nextId == nextId
            && (o.result.Ok? <==> EntityConstraints(Patched(rows[id], d)))
            && (o.result.Err? ==> o.rows == rows && o.result.error.ConstraintViolations?)
            && (o.result.Ok? ==>
                  var row := o.result.value;
                  && o.rows == rows[id := row]
                  && row.id == Some(id)
                  && (d.titulo.Some? && !IsBlank(Java, d.titulo.value) ==> row.titulo == Some(Trim(Java, d.titulo.value)))
                  && (d.titulo.None? || IsBlank(Java, d.titulo.value) ==> row.titulo == rows[id].titulo)
                  && row.descricao == TrimOrNull(d.descricao)
                  && row.status == (if d.status.Some? then d.status else rows[id].status)
                  && row.dataCriacao == rows[id].dataCriacao
                  && row.dataAtualizacao == Some(clock))
  {
    assert Persisted(id, rows[id], clock);
    SaveExistingKeepsCreation(rows, nextId, clock, Patched(rows[id], d));
  }

  /**
   * updateTask imposes no transition rule: a stored task of any status can
   * be moved to any status, CONCLUIDA back to PENDENTE included, by a DTO
   * carrying only that status.
   */
  lemma UpdateAllowsAnyTransition(rows: map<int, TarefaValue>, nextId: int, clock: nat, id: int, s: StatusTarefa)
    requires TableInvariant(rows, nextId, clock) && id in rows
    ensures var o := UpdateSpec(rows, nextId, clock, id, TarefaDTO(None, None, Some(s)));
            o.result.Ok? && o.result.value.status == Some(s)
  {
    assert Persisted(id, rows[id], clock);
    UpdateIsPartial(rows, nextId, clock, id, TarefaDTO(None, None, Some(s)));
  }

  /** deleteTask on an absent id fails and changes nothing; on a stored id it removes that id alone. */
  lemma DeleteRemovesOnlyThatId(rows: map<int, TarefaValue>, id: int)
    ensures id !in rows ==> DeleteSpec(rows, id) == (Err(TarefaNotFound(id)), rows)
    ensures id in rows ==> DeleteSpec(rows, id).0.Ok?
                           && DeleteSpec(rows, id).1.Keys == rows.Keys - {id}
                           && forall k | k in DeleteSpec(rows, id).1 :: DeleteSpec(rows, id).1[k] == rows[k]
  {
  }

  class TarefaService {
    const repo: TarefaRepository

    ghost predicate Valid()
      reads repo
    {
      repo.Valid() && RowsTrimmed(repo.rows)
    }

    constructor (repo: TarefaRepository)
      requires repo.Valid() && RowsTrimmed(repo.rows)
      ensures this.repo == repo && Valid()
    {
      this.repo := repo;
    }

    /** createTask: convert, default the status, save. */
    method CreateTask(d: TarefaDTO) returns (r: Result<TarefaValue, Failure>)
      requires Valid()
      modifies repo
      ensures Valid() && repo.clock == old(repo.clock)
      ensures Outcome(r, repo.rows, repo.nextId) == CreateSpec(old(repo.rows), old(repo.nextId), old(repo.clock), d)
    {
      var t := new Tarefa.Build(ToEntity(d));
      DefaultStatus(t);
      ghost var spec := SaveSpec(repo.rows, repo.nextId, repo.clock, CreationEntity(d));
      SaveKeepsTrimmed(repo.rows, repo.nextId, repo.clock, CreationEntity(d));
      var saved := repo.Save(t);
      assert Saved(saved, repo.rows, repo.nextId) == spec;
      r := if saved.Ok? then Ok(saved.value) else Err(ConstraintViolations(saved.error));
    }

    /** getAllTasks: every task, newest first. */
    function GetAllTasks(): seq<TarefaValue>
      reads repo
    {
      repo.FindAllByOrderByDataCriacaoDesc()
    }

    /** getTaskById: the stored task, or not-found carrying the id. */
    function GetTaskById(id: int): (r: Result<TarefaValue, Failure>)
      reads repo
      ensures r.Ok? <==> id in repo.rows
      ensures r.Ok? ==> r.value == repo.rows[id]
      ensures r.Err? ==> r.error == TarefaNotFound(id)
    {
      var found := repo.FindById(id);
      if found.Some? then Ok(found.value) else Err(TarefaNotFound(id))
    }

    /** updateTask: fetch, patch through the setters, save. */
    method UpdateTask(id: int, d: TarefaDTO) returns (r: Result<TarefaValue, Failure>)
      requires Valid()
      modifies repo
      ensures Valid() && repo.clock == old(repo.clock)
      ensures Outcome(r, repo.rows, repo.nextId) == UpdateSpec(old(repo.rows), old(repo.nextId), old(repo.clock), id, d)
    {
      var found := repo.FindById(id);
      if found.None? {
        return Err(TarefaNotFound(id));
      }
      ghost var rows0, nextId0, clock0 := repo.rows, repo.nextId, repo.clock;
      assert Persisted(id, found.value, repo.clock) && TrimmedOrNull(found.value.titulo);
      var t := new Tarefa.Build(found.value);
      ApplyPatch(t, d);
      PatchedKeepsTrimmed(found.value, d);
      SaveKeepsTrimmed(repo.rows, repo.nextId, repo.clock, t.Value());
      ghost var spec := SaveSpec(rows0, nextId0, clock0, Patched(found.value, d));
      assert UpdateSpec(rows0, nextId0, clock0, id, d) == FromSaved(spec);
      var saved := repo.Save(t);
      assert Saved(saved, repo.rows, repo.nextId) == spec;
      r := if saved.Ok? then Ok(saved.value) else Err(ConstraintViolations(saved.error));
    }

    /** deleteTask: not-found unless the id exists, then deleteById. */
    method DeleteTask(id: int) returns (r: Result<(), Failure>)
      requires Valid()
      modifies repo
      ensures Valid() && repo.nextId == old(repo.nextId) && repo.clock == old(repo.clock)
      ensures (r, repo.rows) == DeleteSpec(old(repo.rows), id)
    {
      if !repo.ExistsById(id) {
        return Err(TarefaNotFound(id));
      }
      repo.DeleteById(id);
      r := Ok(());
    }

    function GetTasksByStatus(s: StatusTarefa): seq<TarefaValue>
      reads repo
    {
      repo.FindByStatus(s)
    }

    /** getTasksByTitle: nothing for a null or blank term, otherwise the tasks whose title contains the trimmed term. */
    function GetTasksByTitle(titulo: Option<string>): seq<TarefaValue>
      reads repo
    {
      if titulo.None? || IsBlank(Java, titulo.value) then []
      else repo.FindByTituloContaining(Trim(Java, titulo.value))
    }

    /** getAllTasks lists every stored task once, with non-increasing creation times. */
    lemma GetAllTasksIsOrderedTable()
      requires Valid()
      ensures multiset(GetAllTasks()) == multiset(repo.FindAll())
      ensures |GetAllTasks()| == repo.Count()
      ensures forall v :: v in GetAllTasks() <==> Stored(repo.rows, v)
      ensures SortedNewestFirst(GetAllTasks())
    {
      repo.OrderedListingIsPermutation();
    }

    /** getTasksByStatus(s) returns exactly the stored tasks whose status is s. */
    lemma GetTasksByStatusExact(s: StatusTarefa)
      requires Valid()
      ensures forall v :: v in GetTasksByStatus(s) <==> Stored(repo.rows, v) && v.status == Some(s)
    {
      repo.FindByStatusExact(s);
    }

    /**
     * getTasksByTitle: a null or blank term gives the empty list; otherwise
     * exactly the stored tasks whose title contains the trimmed term.
     */
    lemma GetTasksByTitleExact(titulo: Option<string>)
      requires Valid()
      ensures titulo.None? || IsBlank(Java, titulo.value) ==> GetTasksByTitle(titulo) == []
      ensures titulo.Some? && !IsBlank(Java, titulo.value) ==>
                forall v :: v in GetTasksByTitle(titulo) <==>
                  Stored(repo.rows, v) && v.titulo.Some? && Contains(v.titulo.value, Trim(Java, titulo.value))
    {
      if titulo.Some? && !IsBlank(Java, titulo.value) {
        repo.FindByTituloExact(Trim(Java, titulo.value));
      }
    }
  }
}
