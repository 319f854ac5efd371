/**
 * The hooks behind the TaskList component (TaskList.hooks.ts): the counters over the
 * displayed tasks, the confirmation state machine (a pending action, the
 * modal flag and a per-task busy state), the selection set, and the pure
 * text and status helpers. A JavaScript Set iterates in insertion order, so
 * the selection is a sequence without repetitions.
 */
module TaskListHooks {
  import opened Common
  import opened TaskTypes
  import Entity

  // ---------------------------------------------------------------------------
  // Counters

  /** The stats memo: the list's length and the number of tasks of each status. */
  function ListStats(tasks: seq<TaskResponse>): (r: TaskStats)
    ensures r.total == |tasks|
    ensures r.pendentes == |WithStatus(tasks, PENDENTE)| && r.concluidas == |WithStatus(tasks, CONCLUIDA)|
            && r.canceladas == |WithStatus(tasks, CANCELADA)|
  {
    TaskStats(|tasks|, |WithStatus(tasks, PENDENTE)|, |WithStatus(tasks, CONCLUIDA)|, |WithStatus(tasks, CANCELADA)|)
  }

  /** Filtering a non-empty list counts its head once if it has the status. */
  lemma WithStatusCount(xs: seq<TaskResponse>, s: string)
    requires xs != []
    ensures |WithStatus(xs, s)| == (if xs[0].status == s then 1 else 0) + |WithStatus(xs[1..], s)|
  {
  }

  /**
   * The three status counters never exceed the total, and they add up to it
   * exactly when every task has one of the three known statuses.
   */
  lemma {:induction false} StatsAddUp(tasks: seq<TaskResponse>)
    ensures var st := ListStats(tasks);
            && st.pendentes + st.concluidas + st.canceladas <= st.total
            && (st.pendentes + st.concluidas + st.canceladas == st.total
                <==> forall k :: 0 <= k < |tasks| ==> IsKnownStatus(tasks[k].status))
  {
    if tasks != [] {
      WithStatusCount(tasks, PENDENTE);
      WithStatusCount(tasks, CONCLUIDA);
      WithStatusCount(tasks, CANCELADA);
      StatsAddUp(tasks[1..]);
      assert forall k :: 1 <= k < |tasks| ==> tasks[1..][k - 1] == tasks[k];
    }
  }

  // ---------------------------------------------------------------------------
  // The selection

  predicate NoDuplicates(s: seq<int>)
  {
    forall i, j :: 0 <= i < j < |s| ==> s[i] != s[j]
  }

  /** `set.delete(id)`: the other ids, in their order. */
  function RemoveId(s: seq<int>, id: int): (r: seq<int>)
    ensures forall x :: x in r <==> x in s && x != id
    ensures NoDuplicates(s) ==> NoDuplicates(r)
    ensures id !in s ==> r == s
  {
    if s == [] then []
    else if s[0] == id then RemoveId(s[1..], id)
    else
      var rest := RemoveId(s[1..], id);
      assert NoDuplicates(s) ==> s[0] !in s[1..] && NoDuplicates(s[1..]) by {
        if NoDuplicates(s) {
          forall k | 0 <= k < |s[1..]| ensures s[1..][k] != s[0] {
            assert s[1..][k] == s[k + 1];
          }
        }
      }
      [s[0]] + rest
  }

  /** toggleTaskSelection: an id in the set leaves it, any other id joins it at the end. */
  function Toggle(s: seq<int>, id: int): (r: seq<int>)
    ensures id in r <==> id !in s
    ensures forall x :: x != id ==> (x in r <==> x in s)
    ensures NoDuplicates(s) ==> NoDuplicates(r)
  {
    if id in s then RemoveId(s, id) else s + [id]
  }

  /** Toggling twice restores the membership of every id. */
  lemma ToggleTwice(s: seq<int>, id: int)
    ensures forall x :: x in Toggle(Toggle(s, id), id) <==> x in s
  {
  }

  /** Toggling an unselected id twice restores the selection exactly, order included. */
  lemma {:induction false} ToggleTwiceUnselected(s: seq<int>, id: int)
    requires id !in s
    ensures Toggle(Toggle(s, id), id) == s
  {
    RemoveAppended(s, id);
  }

  lemma {:induction false} RemoveAppended(s: seq<int>, id: int)
    requires id !in s
    ensures RemoveId(s + [id], id) == s
  {
    if s != [] {
      assert (s + [id])[1..] == s[1..] + [id];
      RemoveAppended(s[1..], id);
    }
  }

  /** `new Set(ids)`: each id once, at its first occurrence, after the ids of acc. */
  function AddAll(acc: seq<int>, ids: seq<int>): (r: seq<int>)
    ensures forall x :: x in r <==> x in acc || x in ids
    ensures NoDuplicates(acc) ==> NoDuplicates(r)
    decreases |ids|
  {
    if ids == [] then acc
    else AddAll(if ids[0] in acc then acc else acc + [ids[0]], ids[1..])
  }

  /** The ids of the listed tasks, in list order. */
  function Ids(tasks: seq<TaskResponse>): (r: seq<int>)
    ensures |r| == |tasks| && forall k :: 0 <= k < |tasks| ==> r[k] == tasks[k].id
  {
    seq(|tasks|, k requires 0 <= k < |tasks| => tasks[k].id)
  }

  // ---------------------------------------------------------------------------
  // The confirmation state machine

  datatype LoadingState = Idle | Loading | Deleting | Updating

  datatype ActionKind = DeleteAction | StatusChange

  /** `{ type, taskId, newStatus? }`. */
  datatype PendingAction = PendingAction(kind: ActionKind, taskId: int, newStatus: Option<string>)

  /** The callback confirmAction awaits. */
  datatype Invocation = CallDelete(id: int) | CallStatusChange(id: int, status: string)

  /** The callback a pending action leads to: none for a status change without a new status. */
  function InvocationOf(a: PendingAction): (r: Option<Invocation>)
    ensures a.kind == DeleteAction ==> r == Some(CallDelete(a.taskId))
    ensures a.kind == StatusChange ==> (r.Some? <==> a.newStatus.Some? && a.newStatus.value != "")
    ensures r.Some? && r.value.CallStatusChange? ==> r.value.id == a.taskId && Some(r.value.status) == a.newStatus
  {
    if a.kind == DeleteAction then Some(CallDelete(a.taskId))
    else if a.newStatus.Some? && a.newStatus.value != "" then Some(CallStatusChange(a.taskId, a.newStatus.value))
    else None
  }

  /** The busy state shown while an action runs. */
  function BusyState(kind: ActionKind): LoadingState
  {
    if kind == DeleteAction then Deleting else Updating
  }

  class TaskListState {
    var loadingStates: map<int, LoadingState>
    var selected: seq<int>
    var showConfirmModal: bool
    var actionPending: Option<PendingAction>

    /** The selection never repeats an id. */
    ghost predicate Valid()
      reads this
    {
      NoDuplicates(selected)
    }

    constructor()
      ensures Valid()
      ensures loadingStates == map[] && selected == [] && !showConfirmModal && actionPending.None?
    {
      loadingStates := map[];
      selected := [];
      showConfirmModal := false;
      actionPending := None;
    }

    /** handleDelete: always records a pending delete and opens the modal. */
    method HandleDelete(taskId: int)
      modifies this
      ensures actionPending == Some(PendingAction(DeleteAction, taskId, None)) && showConfirmModal
      ensures loadingStates == old(loadingStates) && selected == old(selected)
    {
      actionPending := Some(PendingAction(DeleteAction, taskId, None));
      showConfirmModal := true;
    }

    /**
     * handleStatusChange: records a pending change and opens the modal only
     * when a task with that id is listed and its status differs.
     */
    method HandleStatusChange(tasks: seq<TaskResponse>, taskId: int, newStatus: string)
      modifies this
      ensures var t := FindById(tasks, taskId);
              if t.Some? && t.value.status != newStatus
              then actionPending == Some(PendingAction(StatusChange, taskId, Some(newStatus))) && showConfirmModal
              else actionPending == old(actionPending) && showConfirmModal == old(showConfirmModal)
      ensures loadingStates == old(loadingStates) && selected == old(selected)
    {
      var task := FindById(tasks, taskId);
      if task.Some? && task.value.status != newStatus {
        actionPending := Some(PendingAction(StatusChange, taskId, Some(newStatus)));
        showConfirmModal := true;
      }
    }

    /**
     * The first half of confirmAction: with an action pending, its task is
     * marked busy and the callback to await is returned; without one,
     * nothing happens.
     */
    method StartConfirm() returns (call: Option<Invocation>)
      modifies this
      ensures old(actionPending).None? ==> call.None? && loadingStates == old(loadingStates)
      ensures old(actionPending).Some? ==>
                && call == InvocationOf(old(actionPending).value)
                && loadingStates == old(loadingStates)[old(actionPending).value.taskId := BusyState(old(actionPending).value.kind)]
      ensures actionPending == old(actionPending) && showConfirmModal == old(showConfirmModal) && selected == old(selected)
    {
      if actionPending.None? {
        return None;
      }
      var a := actionPending.value;
      loadingStates := loadingStates[a.taskId := BusyState(a.kind)];
      call := InvocationOf(a);
    }

    /** The finally block of confirmAction, whatever the callback did: its item idle, the modal closed, nothing pending. */
    method FinishConfirm(taskId: int)
      modifies this
      ensures loadingStates == old(loadingStates)[taskId := Idle]
      ensures !showConfirmModal && actionPending.None? && selected == old(selected)
    {
      loadingStates := loadingStates[taskId := Idle];
      showConfirmModal := false;
      actionPending := None;
    }

    /**
     * confirmAction: nothing without a pending action; otherwise the callback
     * is invoked and, succeed or fail, the item ends idle, the modal closed
     * and no action pending.
     */
    method ConfirmAction() returns (call: Option<Invocation>)
      modifies this
      ensures old(actionPending).None? ==>
                && call.None? && loadingStates == old(loadingStates)
                && showConfirmModal == old(showConfirmModal) && actionPending.None?
      ensures old(actionPending).Some? ==>
                && call == InvocationOf(old(actionPending).value)
                && loadingStates == old(loadingStates)[old(actionPending).value.taskId := Idle]
                && !showConfirmModal && actionPending.None?
      ensures selected == old(selected)
    {
      if actionPending.None? {
        return None;
      }
      var taskId := actionPending.value.taskId;
      call := StartConfirm();
      FinishConfirm(taskId);
    }

    /** cancelAction: the modal closed and nothing pending; the busy states are untouched. */
    method CancelAction()
      modifies this
      ensures !showConfirmModal && actionPending.None?
      ensures loadingStates == old(loadingStates) && selected == old(selected)
    {
      showConfirmModal := false;
      actionPending := None;
    }

    /** toggleTaskSelection. */
    method ToggleTaskSelection(taskId: int)
      requires Valid()
      modifies this
      ensures Valid() && selected == Toggle(old(selected), taskId)
      ensures loadingStates == old(loadingStates) && showConfirmModal == old(showConfirmModal)
              && actionPending == old(actionPending)
    {
      selected := Toggle(selected, taskId);
    }

    /** selectAllTasks: exactly the ids of the listed tasks, in list order. */
    method SelectAllTasks(tasks: seq<TaskResponse>)
      modifies this
      ensures Valid() && selected == AddAll([], Ids(tasks))
      ensures forall id :: id in selected <==> exists k :: 0 <= k < |tasks| && tasks[k].id == id
      ensures loadingStates == old(loadingStates) && showConfirmModal == old(showConfirmModal)
              && actionPending == old(actionPending)
    {
      selected := AddAll([], Ids(tasks));
      assert forall id :: id in Ids(tasks) <==> exists k :: 0 <= k < |tasks| && tasks[k].id == id by {
        forall id | id in Ids(tasks) ensures exists k :: 0 <= k < |tasks| && tasks[k].id == id {
          var k :| 0 <= k < |Ids(tasks)| && Ids(tasks)[k] == id;
          assert tasks[k].id == id;
        }
        forall id | exists k :: 0 <= k < |tasks| && tasks[k].id == id ensures id in Ids(tasks) {
          var k :| 0 <= k < |tasks| && tasks[k].id == id;
          assert Ids(tasks)[k] == id;
        }
      }
    }

    /** clearSelection. */
    method ClearSelection()
      modifies this
      ensures Valid() && selected == []
      ensures loadingStates == old(loadingStates) && showConfirmModal == old(showConfirmModal)
              && actionPending == old(actionPending)
    {
      selected := [];
    }

    /**
     * deleteSelectedTasks: handleDelete for each selected id in turn. Each
     * call overwrites the pending action, so with a non-empty selection only
     * the last selected id ends up pending.
     */
    method DeleteSelectedTasks()
      modifies this
      ensures |old(selected)| > 0 ==>
                actionPending == Some(PendingAction(DeleteAction, old(selected)[|old(selected)| - 1], None)) && showConfirmModal
      ensures |old(selected)| == 0 ==> actionPending == old(actionPending) && showConfirmModal == old(showConfirmModal)
      ensures loadingStates == old(loadingStates) && selected == old(selected)
    {
      if |selected| > 0 {
        var k := 0;
        while k < |selected|
          invariant 0 <= k <= |selected| && selected == old(selected) && loadingStates == old(loadingStates)
          invariant k > 0 ==> actionPending == Some(PendingAction(DeleteAction, selected[k - 1], None)) && showConfirmModal
        {
          HandleDelete(selected[k]);
          k := k + 1;
        }
      }
    }
  }

  // ---------------------------------------------------------------------------
  // Text and status helpers

  const TITLE_PREVIEW := 50
  const DESCRIPTION_PREVIEW := 120
  const ELLIPSIS := "..."

  /**
   * truncateText: a text within the limit is returned as it is; a longer one
   * is cut to its first max characters, trimmed, and followed by "...".
   */
  function TruncateText(text: string, max: nat): (r: string)
    ensures |text| <= max ==> r == text
    ensures |text| > max ==> r == Trim(JavaScript, text[..max]) + ELLIPSIS
    ensures |text| > max ==> |ELLIPSIS| <= |r| <= max + |ELLIPSIS| && r[|r| - |ELLIPSIS|..] == ELLIPSIS
                             && Contains(text[..max], r[..|r| - |ELLIPSIS|])
                             && Trimmed(JavaScript, r[..|r| - |ELLIPSIS|])
  {
    if |text| <= max then text
    else
      var kept := Trim(JavaScript, text[..max]);
      TrimInside(JavaScript, text[..max]);
      assert (kept + ELLIPSIS)[..|kept|] == kept;
      kept + ELLIPSIS
  }

  /** The previews of a title and of a description stay within their limit plus the ellipsis. */
  lemma PreviewBounds(titulo: string, descricao: string)
    ensures |TruncateText(titulo, TITLE_PREVIEW)| <= TITLE_PREVIEW + 3
    ensures |TruncateText(descricao, DESCRIPTION_PREVIEW)| <= DESCRIPTION_PREVIEW + 3
  {
  }

  /** isFinalStatus: CONCLUIDA and CANCELADA, the known statuses other than PENDENTE. */
  predicate IsFinalStatus(status: string): (r: bool)
    ensures r <==> IsKnownStatus(status) && status != PENDENTE
  {
    status == CONCLUIDA || status == CANCELADA
  }

  /** The list's final statuses are the server's terminal ones, name for name, and no other string is final. */
  lemma FinalStatusIsTerminal(s: Entity.StatusTarefa)
    ensures IsFinalStatus(Entity.Name(s)) <==> Entity.IsTerminal(s)
  {
  }

  /** getStatusClass: "status-" followed by the lower-cased status. */
  function StatusClass(status: string): (r: string)
    ensures |r| == 7 + |status| && r[..7] == "status-"
    ensures forall k :: 0 <= k < |status| ==> r[7 + k] == LowerChar(status[k])
  {
    "status-" + ToLower(status)
  }
}
