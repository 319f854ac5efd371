/**
 * The useTasks hook the application screen uses (hooks/useTasks.ts): the
 * displayed list `tasks`, the last fetched list `allTasks`, the loading
 * flag, the error text and the counters. Every list the screen shows is
 * computed from `allTasks`, so a status filter and a search replace each
 * other rather than combine. A call into the API client is a parameter
 * holding what the awaited call resolved to or threw.
 */
module UseTasks {
  import opened Common
  import opened TaskTypes

  /**
   * What a catch block received, seen through `err.response?.data?.message`:
   * the message of the server's body when the thrown value carries an HTTP
   * response with one, None otherwise. The API client rejects with plain
   * ApiError objects and Error instances, which carry no `response`.
   */
  datatype Caught = Caught(responseMessage: Option<string>)

  const LOAD_FALLBACK := "Erro ao carregar tarefas"
  const CREATE_FALLBACK := "Erro ao criar tarefa"
  const UPDATE_FALLBACK := "Erro ao atualizar tarefa"
  const DELETE_FALLBACK := "Erro ao deletar tarefa"

  /** `err.response?.data?.message || fallback`: an absent or empty message gives the fallback. */
  function ErrorText(err: Caught, fallback: string): (r: string)
    ensures fallback != "" ==> r != ""
    ensures r == fallback || (err.responseMessage.Some? && r == err.responseMessage.value)
    ensures (err.responseMessage.None? || err.responseMessage.value == "") ==> r == fallback
  {
    if err.responseMessage.Some? && err.responseMessage.value != "" then err.responseMessage.value else fallback
  }

  /** filterByStatus: null shows every task, a status shows the tasks with it, in their order. */
  function StatusView(all: seq<TaskResponse>, status: Option<string>): (r: seq<TaskResponse>)
    ensures status.None? ==> r == all
    ensures status.Some? ==> forall x :: x in r <==> x in all && x.status == status.value
  {
    if status.None? then all else WithStatus(all, status.value)
  }

  /**
   * searchTasks: a term that trims to nothing shows every task; otherwise the
   * tasks whose title or description contains the term, lower-cased and NOT
   * trimmed.
   */
  function SearchView(all: seq<TaskResponse>, term: string): (r: seq<TaskResponse>)
    ensures AllSpace(JavaScript, term) ==> r == all
    ensures !AllSpace(JavaScript, term) ==> forall x :: x in r <==> x in all && MatchesSearch(x, term)
  {
    if Trim(JavaScript, term) == [] then all else Search(all, term)
  }

  /** A string contains only strings no longer than itself. */
  lemma ContainsNeedsRoom(s: string, t: string)
    requires Contains(s, t)
    ensures |t| <= |s|
  {
    var i := ContainsWitness(s, t);
  }

  /**
   * The search term is used untrimmed: a title found by its exact text is
   * not found once the term carries a leading space, although the blank
   * test trims it.
   */
  lemma PaddedTermMissesTask(t: TaskResponse)
    requires t.titulo == "tarefa" && t.descricao == "lista"
    ensures SearchView([t], "tarefa") == [t]
    ensures SearchView([t], " tarefa") == []
  {
    assert StartsWith(ToLower(t.titulo), ToLower("tarefa"));
    assert MatchesSearch(t, "tarefa");
    assert !AllSpace(JavaScript, " tarefa") by { assert !IsSpace(JavaScript, " tarefa"[1]); }
    if Contains(ToLower(t.titulo), ToLower(" tarefa")) {
      ContainsNeedsRoom(ToLower(t.titulo), ToLower(" tarefa"));
    }
    if Contains(ToLower(t.descricao), ToLower(" tarefa")) {
      ContainsNeedsRoom(ToLower(t.descricao), ToLower(" tarefa"));
    }
  }

  class TasksHook {
    var tasks: seq<TaskResponse>
    var allTasks: seq<TaskResponse>
    var loading: bool
    var error: Option<string>
    var stats: TaskStats

    /** The state before the first load: empty lists, loading on, no error, zero counters. */
    constructor()
      ensures tasks == [] && allTasks == [] && loading && error.None? && stats == TaskStats(0, 0, 0, 0)
    {
      tasks, allTasks := [], [];
      loading := true;
      error := None;
      stats := TaskStats(0, 0, 0, 0);
    }

    /**
     * refreshTasks: both lists become the fetched list and the counters the
     * fetched ones; on failure they are kept and the error text is stored.
     * The failure is not passed on. Loading is off at the end either way.
     */
    method RefreshTasks(fetched: Result<(seq<TaskResponse>, TaskStats), Caught>)
      modifies this
      ensures !loading
      ensures fetched.Ok? ==> tasks == fetched.value.0 && allTasks == fetched.value.0
                              && stats == fetched.value.1 && error.None?
      ensures fetched.Err? ==> tasks == old(tasks) && allTasks == old(allTasks) && stats == old(stats)
                               && error == Some(ErrorText(fetched.error, LOAD_FALLBACK))
    {
      loading := true;
      error := None;
      if fetched.Ok? {
        tasks := fetched.value.0;
        allTasks := fetched.value.0;
        stats := fetched.value.1;
      } else {
        error := Some(ErrorText(fetched.error, LOAD_FALLBACK));
      }
      loading := false;
    }

    /**
     * createTask: on success the list is refreshed and the created task
     * returned, even when the refresh then fails; on failure null is
     * returned, the error text stored and nothing else changes.
     */
    method CreateTask(created: Result<TaskResponse, Caught>, fetched: Result<(seq<TaskResponse>, TaskStats), Caught>)
      returns (r: Option<TaskResponse>)
      modifies this
      ensures created.Ok? ==> r == Some(created.value)
      ensures created.Err? ==> r.None?
      ensures created.Err? ==> tasks == old(tasks) && allTasks == old(allTasks) && stats == old(stats)
                               && loading == old(loading) && error == Some(ErrorText(created.error, CREATE_FALLBACK))
      ensures created.Ok? ==> !loading
      ensures created.Ok? && fetched.Ok? ==> tasks == fetched.value.0 && allTasks == fetched.value.0
                                             && stats == fetched.value.1 && error.None?
      ensures created.Ok? && fetched.Err? ==> tasks == old(tasks) && allTasks == old(allTasks) && stats == old(stats)
                                              && error == Some(ErrorText(fetched.error, LOAD_FALLBACK))
    {
      error := None;
      if created.Err? {
        error := Some(ErrorText(created.error, CREATE_FALLBACK));
        return None;
      }
      RefreshTasks(fetched);
      return Some(created.value);
    }

    /** updateTask: as createTask. */
    method UpdateTask(id: int, updated: Result<TaskResponse, Caught>, fetched: Result<(seq<TaskResponse>, TaskStats), Caught>)
      returns (r: Option<TaskResponse>)
      modifies this
      ensures updated.Ok? ==> r == Some(updated.value)
      ensures updated.Err? ==> r.None?
      ensures updated.Err? ==> tasks == old(tasks) && allTasks == old(allTasks) && stats == old(stats)
                               && loading == old(loading) && error == Some(ErrorText(updated.error, UPDATE_FALLBACK))
      ensures updated.Ok? ==> !loading
      ensures updated.Ok? && fetched.Ok? ==> tasks == fetched.value.0 && allTasks == fetched.value.0
                                             && stats == fetched.value.1 && error.None?
      ensures updated.Ok? && fetched.Err? ==> tasks == old(tasks) && allTasks == old(allTasks) && stats == old(stats)
                                              && error == Some(ErrorText(fetched.error, LOAD_FALLBACK))
    {
      error := None;
      if updated.Err? {
        error := Some(ErrorText(updated.error, UPDATE_FALLBACK));
        return None;
      }
      RefreshTasks(fetched);
      return Some(updated.value);
    }

    /** deleteTask: true once the deletion succeeded (the list refreshed), false on failure. */
    method DeleteTask(id: int, deleted: Result<(), Caught>, fetched: Result<(seq<TaskResponse>, TaskStats), Caught>)
      returns (ok: bool)
      modifies this
      ensures ok <==> deleted.Ok?
      ensures deleted.Err? ==> tasks == old(tasks) && allTasks == old(allTasks) && stats == old(stats)
                               && loading == old(loading) && error == Some(ErrorText(deleted.error, DELETE_FALLBACK))
      ensures deleted.Ok? ==> !loading
      ensures deleted.Ok? && fetched.Ok? ==> tasks == fetched.value.0 && allTasks == fetched.value.0
                                             && stats == fetched.value.1 && error.None?
      ensures deleted.Ok? && fetched.Err? ==> tasks == old(tasks) && allTasks == old(allTasks) && stats == old(stats)
                                              && error == Some(ErrorText(fetched.error, LOAD_FALLBACK))
    {
      error := None;
      if deleted.Err? {
        error := Some(ErrorText(deleted.error, DELETE_FALLBACK));
        return false;
      }
      RefreshTasks(fetched);
      return true;
    }

    /** filterByStatus: the displayed list is recomputed from allTasks. */
    method FilterByStatus(status: Option<string>)
      modifies this
      ensures tasks == StatusView(allTasks, status)
      ensures allTasks == old(allTasks) && loading == old(loading) && error == old(error) && stats == old(stats)
    {
      if status.None? {
        tasks := allTasks;
      } else {
        tasks := WithStatus(allTasks, status.value);
      }
    }

    /** searchTasks: the displayed list is recomputed from allTasks. */
    method SearchTasks(term: string)
      modifies this
      ensures tasks == SearchView(allTasks, term)
      ensures allTasks == old(allTasks) && loading == old(loading) && error == old(error) && stats == old(stats)
    {
      if Trim(JavaScript, term) == [] {
        tasks := allTasks;
      } else {
        tasks := Search(allTasks, term);
      }
    }
  }

  /**
   * The views do not combine: searching after a status filter shows the
   * tasks of every status that match, the same as searching alone.
   */
  method StatusThenSearch(h: TasksHook, status: Option<string>, term: string)
    modifies h
    ensures h.tasks == SearchView(old(h.allTasks), term)
  {
    h.FilterByStatus(status);
    h.SearchTasks(term);
  }
}
