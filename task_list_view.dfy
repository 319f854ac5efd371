/**
 * The logic inside the TaskList component (TaskList.tsx): the status
 * cycle of the item button, the text of the confirmation modal and the
 * per-item busy test. The markup itself is not part of this model.
 */
module TaskListView {
  import opened Common
  import opened TaskTypes
  import opened TaskListHooks

  const STATUS_ORDER: seq<string> := [PENDENTE, CONCLUIDA, CANCELADA]

  /** `xs.indexOf(x)`: the first position of x, or -1. */
  function IndexOf(xs: seq<string>, x: string): (r: int)
    ensures -1 <= r < |xs|
    ensures r == -1 <==> x !in xs
    ensures r >= 0 ==> xs[r] == x && forall k :: 0 <= k < r ==> xs[k] != x
  {
    if xs == [] then -1
    else if xs[0] == x then 0
    else
      var r := IndexOf(xs[1..], x);
      assert forall k :: 1 <= k < |xs| ==> xs[1..][k - 1] == xs[k];
      if r == -1 then -1 else r + 1
  }

  /** handleStatusCycle: the status after the current one in STATUS_ORDER, wrapping round. */
  function NextStatus(status: string): (r: string)
    ensures r in STATUS_ORDER
  {
    var next := (IndexOf(STATUS_ORDER, status) + 1) % |STATUS_ORDER|;
    STATUS_ORDER[next]
  }

  /** The cycle: PENDENTE to CONCLUIDA to CANCELADA and back to PENDENTE. */
  lemma CycleOrder()
    ensures NextStatus(PENDENTE) == CONCLUIDA
    ensures NextStatus(CONCLUIDA) == CANCELADA
    ensures NextStatus(CANCELADA) == PENDENTE
  {
    assert IndexOf(STATUS_ORDER, PENDENTE) == 0;
    assert IndexOf(STATUS_ORDER, CONCLUIDA) == 1 by { assert STATUS_ORDER[0] != CONCLUIDA; }
    assert IndexOf(STATUS_ORDER, CANCELADA) == 2 by {
      assert STATUS_ORDER[0] != CANCELADA && STATUS_ORDER[1] != CANCELADA;
    }
  }

  /** Three presses bring a known status back. */
  lemma CycleReturns(status: string)
    requires IsKnownStatus(status)
    ensures NextStatus(NextStatus(NextStatus(status))) == status
  {
    CycleOrder();
  }

  /** An unknown status is not found (-1), so the next one is the first, PENDENTE. */
  lemma UnknownStatusCyclesToPendente(status: string)
    requires !IsKnownStatus(status)
    ensures NextStatus(status) == PENDENTE
  {
  }

  const DELETE_PREFIX := "Tem certeza que deseja excluir a tarefa \""
  const DELETE_SUFFIX := "\"? Esta ação não pode ser desfeita."
  const CHANGE_PREFIX := "Alterar status da tarefa \""
  const CHANGE_MIDDLE := "\" para \""
  const CHANGE_SUFFIX := "\"?"

  /** `statusLabels[newStatus]`, with "undefined" for a key the table lacks. */
  function StatusLabel(status: string): (r: string)
    ensures IsKnownStatus(status) <==> r != "undefined"
    ensures status == PENDENTE ==> r == "Pendente"
    ensures status == CONCLUIDA ==> r == "Concluída"
    ensures status == CANCELADA ==> r == "Cancelada"
  {
    if status == PENDENTE then "Pendente"
    else if status == CONCLUIDA then "Concluída"
    else if status == CANCELADA then "Cancelada"
    else "undefined"
  }

  /**
   * getConfirmMessage: empty without a pending action, when no task with its id is
   * listed, or for a status change without a new status; otherwise the
   * delete question or the status-change question about that task's title.
   */
  function ConfirmMessage(pending: Option<PendingAction>, tasks: seq<TaskResponse>): (r: string)
    ensures r == "" <==> || pending.None?
                         || FindById(tasks, pending.value.taskId).None?
                         || (pending.value.kind == StatusChange
                             && (pending.value.newStatus.None? || pending.value.newStatus.value == ""))
  {
    if pending.None? then ""
    else
      var task := FindById(tasks, pending.value.taskId);
      if task.None? then ""
      else if pending.value.kind == DeleteAction then
        assert |DELETE_PREFIX| > 0;
        DELETE_PREFIX + task.value.titulo + DELETE_SUFFIX
      else if pending.value.newStatus.Some? && pending.value.newStatus.value != "" then
        assert |CHANGE_PREFIX| > 0;
        CHANGE_PREFIX + task.value.titulo + CHANGE_MIDDLE + StatusLabel(pending.value.newStatus.value) + CHANGE_SUFFIX
      else
        assert pending.value.kind == StatusChange;
        assert pending.value.newStatus.None? || pending.value.newStatus.value == "";
        ""
  }

  /** The delete question quotes the title of the listed task the action names. */
  lemma DeleteMessageNamesTitle(pending: PendingAction, tasks: seq<TaskResponse>)
    requires pending.kind == DeleteAction && FindById(tasks, pending.taskId).Some?
    ensures var titulo := FindById(tasks, pending.taskId).value.titulo;
            var r := ConfirmMessage(Some(pending), tasks);
            && StartsWith(r, DELETE_PREFIX)
            && |r| == |DELETE_PREFIX| + |titulo| + |DELETE_SUFFIX|
            && r[|DELETE_PREFIX|..|DELETE_PREFIX| + |titulo|] == titulo
  {
  }

  /** The status-change question names that task's title and the new status's label. */
  lemma ChangeMessageNamesTitleAndLabel(pending: PendingAction, tasks: seq<TaskResponse>)
    requires pending.kind == StatusChange && pending.newStatus.Some? && pending.newStatus.value != ""
    requires FindById(tasks, pending.taskId).Some?
    ensures var titulo := FindById(tasks, pending.taskId).value.titulo;
            var shown := StatusLabel(pending.newStatus.value);
            var r := ConfirmMessage(Some(pending), tasks);
            && StartsWith(r, CHANGE_PREFIX)
            && r[|CHANGE_PREFIX|..|CHANGE_PREFIX| + |titulo|] == titulo
            && Contains(r, shown)
  {
    var titulo := FindById(tasks, pending.taskId).value.titulo;
    var shown := StatusLabel(pending.newStatus.value);
    var r := ConfirmMessage(Some(pending), tasks);
    var i := |CHANGE_PREFIX| + |titulo| + |CHANGE_MIDDLE|;
    assert r[i..i + |shown|] == shown;
    ContainsAt(r, shown, i);
  }

  /** `(loadingStates[id] || 'idle') !== 'idle'`: the item is busy exactly when it has a non-idle entry. */
  predicate IsItemLoading(loadingStates: map<int, LoadingState>, id: int)
  {
    (if id in loadingStates then loadingStates[id] else Idle) != Idle
  }

  /** While confirmAction awaits its callback the item is busy, and after it the item is not. */
  lemma ItemBusyDuringAction(loadingStates: map<int, LoadingState>, a: PendingAction)
    ensures IsItemLoading(loadingStates[a.taskId := BusyState(a.kind)], a.taskId)
    ensures !IsItemLoading(loadingStates[a.taskId := Idle], a.taskId)
    ensures forall id :: id != a.taskId ==>
              IsItemLoading(loadingStates[a.taskId := Idle], id) == IsItemLoading(loadingStates, id)
  {
  }
}
