/**
 * The client's view of a task (TarefaResponseDTO and TarefaDTO of the
 * frontend types) and the list operations that several hooks share: the
 * order-preserving filter, the status test, the lower-cased text search and
 * the lookup of a task by id. Status values are the strings the server
 * sends; the three known names are PENDENTE, CONCLUIDA and CANCELADA.
 */
module TaskTypes {
  import opened Common

  datatype TaskResponse = TaskResponse(id: int, titulo: string, descricao: string, status: string,
                                       dataCriacao: string, dataAtualizacao: string)

  datatype TaskData = TaskData(titulo: string, descricao: string, status: string)

  /** The counters shown above the list: all tasks and the tasks of each status. */
  datatype TaskStats = TaskStats(total: int, pendentes: int, concluidas: int, canceladas: int)

  const PENDENTE := "PENDENTE"
  const CONCLUIDA := "CONCLUIDA"
  const CANCELADA := "CANCELADA"

  predicate IsKnownStatus(s: string)
  {
    s == PENDENTE || s == CONCLUIDA || s == CANCELADA
  }

  /** `xs.filter(keep)`: the elements that satisfy keep, in their original order. */
  function Filter(xs: seq<TaskResponse>, keep: TaskResponse -> bool): (r: seq<TaskResponse>)
    ensures |r| <= |xs|
    ensures forall x :: x in r <==> x in xs && keep(x)
  {
    if xs == [] then []
    else (if keep(xs[0]) then [xs[0]] else []) + Filter(xs[1..], keep)
  }

  /** Filtering a concatenation filters each part and keeps them in order. */
  lemma {:induction false} FilterAppend(a: seq<TaskResponse>, b: seq<TaskResponse>, keep: TaskResponse -> bool)
    ensures Filter(a + b, keep) == Filter(a, keep) + Filter(b, keep)
  {
    if a != [] {
      assert (a + b)[1..] == a[1..] + b;
      FilterAppend(a[1..], b, keep);
    } else {
      assert a + b == b;
    }
  }

  /** A filter that keeps every element returns the list unchanged. */
  lemma {:induction false} FilterKeepingAll(xs: seq<TaskResponse>, keep: TaskResponse -> bool)
    requires forall x :: x in xs ==> keep(x)
    ensures Filter(xs, keep) == xs
  {
    if xs != [] {
      assert forall x :: x in xs[1..] ==> x in xs;
      FilterKeepingAll(xs[1..], keep);
    }
  }

  /** `tasks.filter(task => task.status === status)`. */
  function WithStatus(xs: seq<TaskResponse>, status: string): (r: seq<TaskResponse>)
    ensures forall x :: x in r <==> x in xs && x.status == status
  {
    Filter(xs, (t: TaskResponse) => t.status == status)
  }

  /** The title or the description contains the term, both lower-cased. */
  predicate MatchesSearch(t: TaskResponse, term: string)
  {
    Contains(ToLower(t.titulo), ToLower(term)) || Contains(ToLower(t.descricao), ToLower(term))
  }

  function Search(xs: seq<TaskResponse>, term: string): (r: seq<TaskResponse>)
    ensures forall x :: x in r <==> x in xs && MatchesSearch(x, term)
  {
    Filter(xs, (t: TaskResponse) => MatchesSearch(t, term))
  }

  /** `tasks.find(t => t.id === id)`: the first task with that id. */
  function FindById(xs: seq<TaskResponse>, id: int): (r: Option<TaskResponse>)
    ensures r.None? <==> forall k :: 0 <= k < |xs| ==> xs[k].id != id
    ensures r.Some? ==> exists k :: 0 <= k < |xs| && xs[k] == r.value && r.value.id == id
                                    && forall j :: 0 <= j < k ==> xs[j].id != id
  {
    if xs == [] then None
    else if xs[0].id == id then Some(xs[0])
    else
      var r := FindById(xs[1..], id);
      assert forall k :: 1 <= k < |xs| ==> xs[1..][k - 1] == xs[k];
      if r.Some? then
        ghost var k :| 0 <= k < |xs[1..]| && xs[1..][k] == r.value && r.value.id == id
                       && forall j :: 0 <= j < k ==> xs[1..][j].id != id;
        assert xs[k + 1] == r.value;
        r
      else r
  }
}
