/**
 * The React hooks over the API client (TaskService.hooks.ts): the useTasks
 * store with its loading and error slots and its list reducers, the
 * useTaskFilter view (filter by status, search, then sort in place), and the
 * bounded list of useApiMetrics. A call into the API client is a parameter
 * holding what that call resolved to or threw.
 */
module TaskServiceHooks {
  import opened Common
  import opened TaskTypes
  import opened TaskApi

  // ---------------------------------------------------------------------------
  // The list reducers passed to setState

  /** `[...prev.tasks, newTask]`: the existing tasks unchanged, the new one last. */
  function AppendTask(tasks: seq<TaskResponse>, t: TaskResponse): (r: seq<TaskResponse>)
    ensures |r| == |tasks| + 1 && r[..|tasks|] == tasks && r[|tasks|] == t
  {
    tasks + [t]
  }

  /** `prev.tasks.map(task => task.id === id ? updatedTask : task)`. */
  function ReplaceById(tasks: seq<TaskResponse>, id: int, t: TaskResponse): (r: seq<TaskResponse>)
    ensures |r| == |tasks|
    ensures forall k :: 0 <= k < |tasks| && tasks[k].id == id ==> r[k] == t
    ensures forall k :: 0 <= k < |tasks| && tasks[k].id != id ==> r[k] == tasks[k]
  {
    seq(|tasks|, k requires 0 <= k < |tasks| => if tasks[k].id == id then t else tasks[k])
  }

  /** Replacing by the id the replacement carries a second time changes nothing more. */
  lemma ReplaceByIdIdempotent(tasks: seq<TaskResponse>, t: TaskResponse)
    ensures ReplaceById(ReplaceById(tasks, t.id, t), t.id, t) == ReplaceById(tasks, t.id, t)
  {
  }

  /** `prev.tasks.filter(task => task.id !== id)`. */
  function RemoveById(tasks: seq<TaskResponse>, id: int): (r: seq<TaskResponse>)
    ensures forall x :: x in r <==> x in tasks && x.id != id
  {
    Filter(tasks, (t: TaskResponse) => t.id != id)
  }

  /** Removal keeps the order of the remaining tasks: it distributes over concatenation. */
  lemma RemoveByIdKeepsOrder(a: seq<TaskResponse>, b: seq<TaskResponse>, id: int)
    ensures RemoveById(a + b, id) == RemoveById(a, id) + RemoveById(b, id)
  {
    FilterAppend(a, b, (t: TaskResponse) => t.id != id);
  }

  /** A list without that id is left as it is. */
  lemma RemoveAbsentId(tasks: seq<TaskResponse>, id: int)
    requires forall x :: x in tasks ==> x.id != id
    ensures RemoveById(tasks, id) == tasks
  {
    FilterKeepingAll(tasks, (t: TaskResponse) => t.id != id);
  }

  // ---------------------------------------------------------------------------
  // The useTasks store

  /** What an awaited call threw: an Error with its message, or any other value. */
  datatype Thrown = ErrorInstance(message: string) | OtherValue

  /**
   * `error instanceof Error ? error.message : fallback`: the message of an
   * Error the client threw (its id, status and data guards) reaches the
   * store; any other value, such as the plain ApiError object the response
   * interceptor rejects with, is shown as the operation's fallback.
   */
  function ErrorMessage(e: Thrown, fallback: string): (r: string)
    ensures e.ErrorInstance? ==> r == e.message
    ensures e.OtherValue? ==> r == fallback
  {
    if e.ErrorInstance? then e.message else fallback
  }

  class TaskStore {
    var tasks: seq<TaskResponse>
    var loading: bool
    var error: Option<string>
    var stats: TaskStats

    constructor()
      ensures tasks == [] && !loading && error.None? && stats == TaskStats(0, 0, 0, 0)
    {
      tasks := [];
      loading := false;
      error := None;
      stats := TaskStats(0, 0, 0, 0);
    }

    /** The update every operation starts with: loading on, error cleared. */
    method Begin()
      modifies this
      ensures loading && error.None? && tasks == old(tasks) && stats == old(stats)
    {
      loading := true;
      error := None;
    }

    /** The update after a failure: the message stored, loading off, the list kept. */
    method Fail(message: string)
      modifies this
      ensures !loading && error == Some(message) && tasks == old(tasks) && stats == old(stats)
    {
      error := Some(message);
      loading := false;
    }

    /**
     * fetchTasks: on success the list and the counters are those fetched;
     * on failure they are kept and the error is stored; loading is off.
     */
    method FetchTasks(fetched: Result<(seq<TaskResponse>, TaskStats), Thrown>) returns (r: Result<(), Thrown>)
      modifies this
      ensures !loading
      ensures r.Ok? <==> fetched.Ok?
      ensures fetched.Ok? ==> tasks == fetched.value.0
                                              && stats == fetched.value.1 && error.None?
      ensures fetched.Err? ==> r == Err(fetched.error) && tasks == old(tasks) && stats == old(stats)
                               && error == Some(ErrorMessage(fetched.error, "Erro ao buscar tarefas"))
    {
      Begin();
      if fetched.Err? {
        Fail(ErrorMessage(fetched.error, "Erro ao buscar tarefas"));
        return Err(fetched.error);
      }
      tasks, stats, loading, error := fetched.value.0, fetched.value.1, false, None;
      return Ok(());
    }

    /**
     * createTask: the created task is appended, then the list is fetched
     * again; a failure of either call is stored with the create fallback.
     */
    method CreateTask(created: Result<TaskResponse, Thrown>, fetched: Result<(seq<TaskResponse>, TaskStats), Thrown>)
      returns (r: Result<TaskResponse, Thrown>)
      modifies this
      ensures !loading
      ensures created.Err? ==> r == Err(created.error) && tasks == old(tasks) && stats == old(stats)
                               && error == Some(ErrorMessage(created.error, "Erro ao criar tarefa"))
      ensures created.Ok? && fetched.Ok? ==> r == Ok(created.value) && tasks == fetched.value.0
                                              && stats == fetched.value.1 && error.None?
      ensures created.Ok? && fetched.Err? ==> r == Err(fetched.error) && tasks == AppendTask(old(tasks), created.value)
                                              && stats == old(stats) && error == Some(ErrorMessage(fetched.error, "Erro ao criar tarefa"))
    {
      Begin();
      if created.Err? {
        Fail(ErrorMessage(created.error, "Erro ao criar tarefa"));
        return Err(created.error);
      }
      tasks, loading := AppendTask(tasks, created.value), false;
      var f := FetchTasks(fetched);
      if f.Err? {
        Fail(ErrorMessage(fetched.error, "Erro ao criar tarefa"));
        return Err(fetched.error);
      }
      return Ok(created.value);
    }

    /** updateTask: as createTask, with the replace-by-id reducer. */
    method UpdateTask(id: int, updated: Result<TaskResponse, Thrown>, fetched: Result<(seq<TaskResponse>, TaskStats), Thrown>)
      returns (r: Result<TaskResponse, Thrown>)
      modifies this
      ensures !loading
      ensures updated.Err? ==> r == Err(updated.error) && tasks == old(tasks) && stats == old(stats)
                               && error == Some(ErrorMessage(updated.error, "Erro ao atualizar tarefa"))
      ensures updated.Ok? && fetched.Ok? ==> r == Ok(updated.value) && tasks == fetched.value.0
                                              && stats == fetched.value.1 && error.None?
      ensures updated.Ok? && fetched.Err? ==> r == Err(fetched.error) && tasks == ReplaceById(old(tasks), id, updated.value)
                                              && stats == old(stats) && error == Some(ErrorMessage(fetched.error, "Erro ao atualizar tarefa"))
    {
      Begin();
      if updated.Err? {
        Fail(ErrorMessage(updated.error, "Erro ao atualizar tarefa"));
        return Err(updated.error);
      }
      tasks, loading := ReplaceById(tasks, id, updated.value), false;
      var f := FetchTasks(fetched);
      if f.Err? {
        Fail(ErrorMessage(fetched.error, "Erro ao atualizar tarefa"));
        return Err(fetched.error);
      }
      return Ok(updated.value);
    }

    /** deleteTask: as createTask, with the remove-by-id reducer. */
    method DeleteTask(id: int, deleted: Result<(), Thrown>, fetched: Result<(seq<TaskResponse>, TaskStats), Thrown>)
      returns (r: Result<(), Thrown>)
      modifies this
      ensures !loading
      ensures deleted.Err? ==> r == Err(deleted.error) && tasks == old(tasks) && stats == old(stats)
                               && error == Some(ErrorMessage(deleted.error, "Erro ao deletar tarefa"))
      ensures deleted.Ok? && fetched.Ok? ==> r.Ok? && tasks == fetched.value.0
                                              && stats == fetched.value.1 && error.None?
      ensures deleted.Ok? && fetched.Err? ==> r == Err(fetched.error) && tasks == RemoveById(old(tasks), id)
                                              && stats == old(stats) && error == Some(ErrorMessage(fetched.error, "Erro ao deletar tarefa"))
    {
      Begin();
      if deleted.Err? {
        Fail(ErrorMessage(deleted.error, "Erro ao deletar tarefa"));
        return Err(deleted.error);
      }
      tasks, loading := RemoveById(tasks, id), false;
      var f := FetchTasks(fetched);
      if f.Err? {
        Fail(ErrorMessage(fetched.error, "Erro ao deletar tarefa"));
        return Err(fetched.error);
      }
      return Ok(());
    }
  }

  // ---------------------------------------------------------------------------
  // useTaskFilter

  datatype SortKey = ByTitulo | ByDataCriacao | ByDataAtualizacao
  datatype SortOrder = Asc | Desc

  datatype TaskFilter = TaskFilter(status: Option<string>, searchTerm: Option<string>,
                                   sortBy: Option<SortKey>, sortOrder: Option<SortOrder>)

  function KeyOf(t: TaskResponse, key: SortKey): string
  {
    match key
    case ByTitulo => t.titulo
    case ByDataCriacao => t.dataCriacao
    case ByDataAtualizacao => t.dataAtualizacao
  }

  /** The comparator: -1, 0 or 1 by the key's string order, negated for 'desc'. */
  function Compare(a: TaskResponse, b: TaskResponse, key: SortKey, order: SortOrder): (r: int)
    ensures -1 <= r <= 1
  {
    var ka, kb := KeyOf(a, key), KeyOf(b, key);
    var comparison := if StrLt(kb, ka) then 1 else if StrLt(ka, kb) then -1 else 0;
    if order == Desc then -comparison else comparison
  }

  /** The comparator is antisymmetric: if a sorts after b then b sorts before a. */
  lemma CompareAntisymmetric(a: TaskResponse, b: TaskResponse, key: SortKey, order: SortOrder)
    ensures Compare(a, b, key, order) > 0 ==> Compare(b, a, key, order) < 0
  {
    var ka, kb := KeyOf(a, key), KeyOf(b, key);
    if StrLt(ka, kb) && StrLt(kb, ka) {
      StrLtTransitive(ka, kb, ka);
      StrLtIrreflexive(ka);
    }
  }

  /**
   * What the comparator means: 0 exactly when the keys are equal, and
   * negative exactly when a's key comes first in the requested direction.
   */
  lemma CompareMeaning(a: TaskResponse, b: TaskResponse, key: SortKey, order: SortOrder)
    ensures Compare(a, b, key, order) == 0 <==> KeyOf(a, key) == KeyOf(b, key)
    ensures order == Asc ==> (Compare(a, b, key, order) < 0 <==> StrLt(KeyOf(a, key), KeyOf(b, key)))
    ensures order == Desc ==> (Compare(a, b, key, order) < 0 <==> StrLt(KeyOf(b, key), KeyOf(a, key)))
  {
    var ka, kb := KeyOf(a, key), KeyOf(b, key);
    StrLtIrreflexive(ka);
    StrLtTotal(ka, kb);
    if StrLt(ka, kb) && StrLt(kb, ka) {
      StrLtTransitive(ka, kb, ka);
    }
  }

  /** The comparator as an order test: a may stay before b. */
  function InOrder(key: SortKey, order: SortOrder): (TaskResponse, TaskResponse) -> bool
  {
    (x: TaskResponse, y: TaskResponse) => Compare(x, y, key, order) <= 0
  }

  /** Any two tasks can be put in order one way or the other. */
  lemma InOrderTotal(key: SortKey, order: SortOrder)
    ensures forall x, y :: InOrder(key, order)(x, y) || InOrder(key, order)(y, x)
  {
    forall x, y ensures InOrder(key, order)(x, y) || InOrder(key, order)(y, x) {
      CompareAntisymmetric(x, y, key, order);
    }
  }

  /** No neighbouring pair is out of order. */
  predicate Ordered<T>(s: seq<T>, inOrder: (T, T) -> bool)
  {
    forall k :: 0 < k < |s| ==> inOrder(s[k - 1], s[k])
  }

  predicate SortedBy(s: seq<TaskResponse>, key: SortKey, order: SortOrder)
  {
    Ordered(s, InOrder(key, order))
  }

  /** Ascending unless the order is 'desc'. */
  function OrderOf(filter: TaskFilter): SortOrder
  {
    if filter.sortOrder == Some(Desc) then Desc else Asc
  }

  /**
   * The tasks the filter keeps, in their original order: a non-empty status
   * keeps that status, a non-empty search term keeps the tasks that match it.
   */
  function Selected(tasks: seq<TaskResponse>, filter: TaskFilter): (r: seq<TaskResponse>)
    ensures forall x :: x in r <==> (&& x in tasks
                                   && (filter.status.Some? && filter.status.value != "" ==> x.status == filter.status.value)
                                   && (filter.searchTerm.Some? && filter.searchTerm.value != "" ==> MatchesSearch(x, filter.searchTerm.value)))
  {
    var byStatus := if filter.status.Some? && filter.status.value != "" then WithStatus(tasks, filter.status.value) else tasks;
    if filter.searchTerm.Some? && filter.searchTerm.value != "" then Search(byStatus, filter.searchTerm.value) else byStatus
  }

  /**
   * x placed into t from the right: it moves left past every element that
   * must come after it and stops behind the first one it may follow.
   */
  function Inserted(t: seq<TaskResponse>, x: TaskResponse, inOrder: (TaskResponse, TaskResponse) -> bool): (r: seq<TaskResponse>)
    ensures |r| == |t| + 1
    ensures r[|r| - 1] == x || (t != [] && r[|r| - 1] == t[|t| - 1])
    decreases |t|
  {
    if t == [] then [x]
    else if inOrder(t[|t| - 1], x) then t + [x]
    else Inserted(t[..|t| - 1], x, inOrder) + [t[|t| - 1]]
  }

  /** Insertion sort as a value: each element in turn is inserted into the sorted prefix. */
  function InsertionSorted(s: seq<TaskResponse>, inOrder: (TaskResponse, TaskResponse) -> bool): (r: seq<TaskResponse>)
    ensures |r| == |s|
    decreases |s|
  {
    if s == [] then []
    else Inserted(InsertionSorted(s[..|s| - 1], inOrder), s[|s| - 1], inOrder)
  }

  /** Inserting adds x and keeps every other element. */
  lemma {:induction false} InsertedPermutes(t: seq<TaskResponse>, x: TaskResponse, inOrder: (TaskResponse, TaskResponse) -> bool)
    ensures multiset(Inserted(t, x, inOrder)) == multiset(t) + multiset{x}
    decreases |t|
  {
    if t != [] && !inOrder(t[|t| - 1], x) {
      var front := t[..|t| - 1];
      InsertedPermutes(front, x, inOrder);
      assert t == front + [t[|t| - 1]];
    }
  }

  /** Insertion sort is a permutation. */
  lemma {:induction false} InsertionSortedPermutes(s: seq<TaskResponse>, inOrder: (TaskResponse, TaskResponse) -> bool)
    ensures multiset(InsertionSorted(s, inOrder)) == multiset(s)
    decreases |s|
  {
    if s != [] {
      var front := s[..|s| - 1];
      InsertionSortedPermutes(front, inOrder);
      InsertedPermutes(InsertionSorted(front, inOrder), s[|s| - 1], inOrder);
      assert s == front + [s[|s| - 1]];
    }
  }

  /** Inserting into an ordered sequence keeps it ordered. */
  lemma {:induction false} InsertedOrdered(t: seq<TaskResponse>, x: TaskResponse, inOrder: (TaskResponse, TaskResponse) -> bool)
    requires forall x, y :: inOrder(x, y) || inOrder(y, x)
    requires Ordered(t, inOrder)
    ensures Ordered(Inserted(t, x, inOrder), inOrder)
    decreases |t|
  {
    if t != [] && !inOrder(t[|t| - 1], x) {
      var front := t[..|t| - 1];
      assert Ordered(front, inOrder) by {
        forall k | 0 < k < |front| ensures inOrder(front[k - 1], front[k]) {
          assert front[k - 1] == t[k - 1] && front[k] == t[k];
        }
      }
      InsertedOrdered(front, x, inOrder);
      var u := Inserted(front, x, inOrder);
      assert inOrder(u[|u| - 1], t[|t| - 1]) by {
        if u[|u| - 1] != x {
          assert u[|u| - 1] == t[|t| - 2];
        }
      }
    }
  }

  /** Insertion sort orders its result. */
  lemma {:induction false} InsertionSortedOrdered(s: seq<TaskResponse>, inOrder: (TaskResponse, TaskResponse) -> bool)
    requires forall x, y :: inOrder(x, y) || inOrder(y, x)
    ensures Ordered(InsertionSorted(s, inOrder), inOrder)
    decreases |s|
  {
    if s != [] {
      InsertionSortedOrdered(s[..|s| - 1], inOrder);
      InsertedOrdered(InsertionSorted(s[..|s| - 1], inOrder), s[|s| - 1], inOrder);
    }
  }

  /** The tasks of s whose sort key is k, in their order in s. */
  function WithKey(s: seq<TaskResponse>, key: SortKey, k: string): seq<TaskResponse>
    decreases |s|
  {
    if s == [] then []
    else WithKey(s[..|s| - 1], key, k) + (if KeyOf(s[|s| - 1], key) == k then [s[|s| - 1]] else [])
  }

  /** WithKey keeps exactly the tasks of s whose key is k. */
  lemma {:induction false} WithKeyMembers(s: seq<TaskResponse>, key: SortKey, k: string)
    ensures forall x :: x in WithKey(s, key, k) <==> x in s && KeyOf(x, key) == k
    decreases |s|
  {
    if s != [] {
      var front := s[..|s| - 1];
      WithKeyMembers(front, key, k);
      assert s == front + [s[|s| - 1]];
    }
  }

  /** Tasks with the same key are in order either way round. */
  lemma TiesInOrder(key: SortKey, order: SortOrder)
    ensures forall x, y :: KeyOf(x, key) == KeyOf(y, key) ==> InOrder(key, order)(x, y)
  {
    forall x, y | KeyOf(x, key) == KeyOf(y, key) ensures InOrder(key, order)(x, y) {
      StrLtIrreflexive(KeyOf(x, key));
    }
  }

  /** A task appended at the end is kept by WithKey exactly when its key is k. */
  lemma WithKeyAppend(s: seq<TaskResponse>, y: TaskResponse, key: SortKey, k: string)
    ensures WithKey(s + [y], key, k) == WithKey(s, key, k) + (if KeyOf(y, key) == k then [y] else [])
  {
    assert (s + [y])[..|s|] == s;
  }

  /** A comparator that keeps ties in order lets a task pass only over tasks with another key. */
  lemma {:induction false} InsertedKeepsTies(t: seq<TaskResponse>, x: TaskResponse, inOrder: (TaskResponse, TaskResponse) -> bool, key: SortKey, k: string)
    requires forall x, y {:trigger inOrder(x, y)} :: KeyOf(x, key) == KeyOf(y, key) ==> inOrder(x, y)
    ensures WithKey(Inserted(t, x, inOrder), key, k)
            == WithKey(t, key, k) + (if KeyOf(x, key) == k then [x] else [])
    decreases |t|
  {
    if t == [] {
      WithKeyAppend([], x, key, k);
      assert [] + [x] == [x];
    } else if inOrder(t[|t| - 1], x) {
      WithKeyAppend(t, x, key, k);
    } else {
      var last := t[|t| - 1];
      var front := t[..|t| - 1];
      assert KeyOf(last, key) != KeyOf(x, key);
      InsertedKeepsTies(front, x, inOrder, key, k);
      WithKeyAppend(Inserted(front, x, inOrder), last, key, k);
      WithKeyAppend(front, last, key, k);
      assert front + [last] == t;
    }
  }

  /** Insertion sort is stable: the tasks that share a key keep their order. */
  lemma {:induction false} InsertionSortedStable(s: seq<TaskResponse>, inOrder: (TaskResponse, TaskResponse) -> bool, key: SortKey, k: string)
    requires forall x, y {:trigger inOrder(x, y)} :: KeyOf(x, key) == KeyOf(y, key) ==> inOrder(x, y)
    ensures WithKey(InsertionSorted(s, inOrder), key, k) == WithKey(s, key, k)
    decreases |s|
  {
    if s != [] {
      var front := s[..|s| - 1];
      InsertionSortedStable(front, inOrder, key, k);
      InsertedKeepsTies(InsertionSorted(front, inOrder), s[|s| - 1], inOrder, key, k);
    }
  }

  /** Inserting the next element of the original into the sorted prefix sorts one more element. */
  lemma SortStep(original: seq<TaskResponse>, before: seq<TaskResponse>, after: seq<TaskResponse>, i: int,
                 inOrder: (TaskResponse, TaskResponse) -> bool)
    requires 0 <= i < |before| == |original| == |after|
    requires before[..i] == InsertionSorted(original[..i], inOrder) && before[i..] == original[i..]
    requires after[..i + 1] == Inserted(before[..i], before[i], inOrder) && after[i + 1..] == before[i + 1..]
    ensures after[..i + 1] == InsertionSorted(original[..i + 1], inOrder) && after[i + 1..] == original[i + 1..]
  {
    assert original[..i + 1][..i] == original[..i];
    assert before[i] == before[i..][0] == original[i];
    assert before[i + 1..] == before[i..][1..];
  }

  /** The in-place sort of useTaskFilter: each element in turn is moved into the sorted prefix. */
  method SortInPlace(a: array<TaskResponse>, inOrder: (TaskResponse, TaskResponse) -> bool)
    requires forall x, y :: inOrder(x, y) || inOrder(y, x)
    modifies a
    ensures a[..] == InsertionSorted(old(a[..]), inOrder)
    ensures Ordered(a[..], inOrder)
    ensures multiset(a[..]) == multiset(old(a[..]))
  {
    ghost var original := a[..];
    var i := 0;
    while i < a.Length
      invariant 0 <= i <= a.Length
      invariant a[..i] == InsertionSorted(original[..i], inOrder)
      invariant a[i..] == original[i..]
    {
      ghost var before := a[..];
      InsertLeft(a, i, inOrder);
      SortStep(original, before, a[..], i, inOrder);
      i := i + 1;
    }
    assert a[..] == a[..a.Length] && original == original[..a.Length];
    InsertionSortedOrdered(original, inOrder);
    InsertionSortedPermutes(original, inOrder);
  }

  /** One insertion step: a[i] is swapped left past every element that must come after it. */
  method InsertLeft(a: array<TaskResponse>, i: int, inOrder: (TaskResponse, TaskResponse) -> bool)
    requires 0 <= i < a.Length
    modifies a
    ensures a[..i + 1] == Inserted(old(a[..i]), old(a[i]), inOrder)
    ensures a[i + 1..] == old(a[i + 1..])
  {
    ghost var original := a[..];
    var j := i;
    while j > 0 && !inOrder(a[j - 1], a[j])
      invariant 0 <= j <= i && a[j] == original[i]
      invariant forall k :: 0 <= k < a.Length && (k < j || i < k) ==> a[k] == original[k]
      invariant forall k :: j < k <= i ==> a[k] == original[k - 1]
      invariant forall k :: j <= k < i ==> !inOrder(original[k], original[i])
    {
      a[j - 1], a[j] := a[j], a[j - 1];
      j := j - 1;
    }
    Placed(a[..], original, i, j, inOrder);
  }

  /** The layout InsertLeft leaves behind is the insertion of original[i] into original[..i]. */
  lemma Placed(s: seq<TaskResponse>, original: seq<TaskResponse>, i: int, j: int, inOrder: (TaskResponse, TaskResponse) -> bool)
    requires 0 <= j <= i < |s| == |original|
    requires j == 0 || inOrder(original[j - 1], original[i])
    requires forall k :: j <= k < i ==> !inOrder(original[k], original[i])
    requires s[j] == original[i]
    requires forall k :: 0 <= k < |s| && (k < j || i < k) ==> s[k] == original[k]
    requires forall k :: j < k <= i ==> s[k] == original[k - 1]
    ensures s[..i + 1] == Inserted(original[..i], original[i], inOrder)
    ensures s[i + 1..] == original[i + 1..]
  {
    var prefix := original[..i];
    InsertedAt(prefix, original[i], j, inOrder);
    assert forall k :: 0 <= k <= i ==> s[k] == (prefix[..j] + [original[i]] + prefix[j..])[k];
  }

  /**
   * Inserting x lands it just after the last element it may follow, when every
   * element after that one is one it may not follow.
   */
  lemma {:induction false} InsertedAt(prefix: seq<TaskResponse>, x: TaskResponse, j: int, inOrder: (TaskResponse, TaskResponse) -> bool)
    requires 0 <= j <= |prefix| && (j == 0 || inOrder(prefix[j - 1], x))
    requires forall k :: j <= k < |prefix| ==> !inOrder(prefix[k], x)
    ensures Inserted(prefix, x, inOrder) == prefix[..j] + [x] + prefix[j..]
    decreases |prefix|
  {
    if j < |prefix| {
      var front, last := prefix[..|prefix| - 1], prefix[|prefix| - 1];
      InsertedAt(front, x, j, inOrder);
      assert front[..j] == prefix[..j] && front[j..] + [last] == prefix[j..];
    } else {
      assert prefix[..j] == prefix && prefix[j..] == [];
    }
  }

  /**
   * useTaskFilter: the selected tasks, sorted when a key is set. The input
   * sequence is a value, so it is never changed; the sort works on a copy.
   */
  method FilterTasks(tasks: seq<TaskResponse>, filter: TaskFilter) returns (r: seq<TaskResponse>)
    ensures multiset(r) == multiset(Selected(tasks, filter))
    ensures filter.sortBy.None? ==> r == Selected(tasks, filter)
    ensures filter.sortBy.Some? ==> SortedBy(r, filter.sortBy.value, OrderOf(filter))
    ensures filter.sortBy.Some? ==> forall k :: WithKey(r, filter.sortBy.value, k) == WithKey(Selected(tasks, filter), filter.sortBy.value, k)
  {
    var filtered := tasks;
    if filter.status.Some? && filter.status.value != "" {
      filtered := WithStatus(filtered, filter.status.value);
    }
    if filter.searchTerm.Some? && filter.searchTerm.value != "" {
      filtered := Search(filtered, filter.searchTerm.value);
    }
    if filter.sortBy.Some? {
      var a := new TaskResponse[|filtered|](k requires 0 <= k < |filtered| => filtered[k]);
      assert a[..] == filtered;
      InOrderTotal(filter.sortBy.value, OrderOf(filter));
      SortInPlace(a, InOrder(filter.sortBy.value, OrderOf(filter)));
      TiesInOrder(filter.sortBy.value, OrderOf(filter));
      forall k ensures WithKey(a[..], filter.sortBy.value, k) == WithKey(filtered, filter.sortBy.value, k) {
        InsertionSortedStable(filtered, InOrder(filter.sortBy.value, OrderOf(filter)), filter.sortBy.value, k);
      }
      filtered := a[..];
    }
    r := filtered;
  }

  // ---------------------------------------------------------------------------
  // useApiMetrics.addMetric

  /** `[...prev.slice(-99), metric]`: at most 100 entries, the new one last, the 99 newest before it. */
  function AddMetric<T>(prev: seq<T>, metric: T): (r: seq<T>)
    ensures |r| <= METRICS_CAP && |r| == (if |prev| < METRICS_CAP then |prev| + 1 else METRICS_CAP)
    ensures r[|r| - 1] == metric && r[..|r| - 1] == KeepLast(prev, METRICS_CAP - 1)
  {
    KeepLast(prev, METRICS_CAP - 1) + [metric]
  }

  /** The hook's list and the client's buffer agree: both are the 100 newest after the push. */
  lemma AddMetricIsBufferPush<T>(prev: seq<T>, metric: T)
    ensures AddMetric(prev, metric) == KeepLast(prev + [metric], METRICS_CAP)
  {
    KeepLastAfterPush(prev, metric, METRICS_CAP);
  }
}
