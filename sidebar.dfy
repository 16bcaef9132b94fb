/** The task list of the sidebar (src/components/Sidebar.tsx): the reorder
    list a drag produces, and the add, rename and drag handlers with the
    panel's own `newTaskName` and `contextMenu` state. */
module Sidebar {
  import opened Types
  import opened Sequences
  import opened Db
  import opened Tasks
  import opened Categories

  function TaskIndex(ts: seq<Task>, id: string): (r: Option<nat>)
    ensures r.Some? ==> r.value < |ts| && ts[r.value].id == id && forall j :: 0 <= j < r.value ==> ts[j].id != id
    ensures r.None? <==> forall j :: 0 <= j < |ts| ==> ts[j].id != id
  {
    FirstIndex(ts, (t: Task) => t.id == id)
  }

  /** `ts.map((task, index) => ({ id: task.id, order: index }))`. */
  function Renumber(ts: seq<Task>): (r: seq<OrderUpdate>)
    ensures |r| == |ts|
    ensures forall i :: 0 <= i < |ts| ==> r[i] == OrderUpdate(ts[i].id, i)
  {
    seq(|ts|, i requires 0 <= i < |ts| => OrderUpdate(ts[i].id, i))
  }

  function UpdateIds(us: seq<OrderUpdate>): (r: seq<string>)
    ensures |r| == |us| && forall i :: 0 <= i < |us| ==> r[i] == us[i].id
  {
    seq(|us|, i requires 0 <= i < |us| => us[i].id)
  }

  function TaskIds(ts: seq<Task>): (r: seq<string>)
    ensures |r| == |ts| && forall i :: 0 <= i < |ts| ==> r[i] == ts[i].id
  {
    seq(|ts|, i requires 0 <= i < |ts| => ts[i].id)
  }

  /** The update list of `handleDragEnd`, or `None` when the drag changes
      nothing: no drop target, dropped on itself, or an id not in the list. */
  function DragUpdates(ts: seq<Task>, activeId: string, overId: Option<string>): (r: Option<seq<OrderUpdate>>)
    ensures r.None? <==> overId.None? || activeId == overId.value ||
                         TaskIndex(ts, activeId).None? || TaskIndex(ts, overId.value).None?
    ensures r.Some? ==> |r.value| == |ts|
  {
    if overId.None? || activeId == overId.value then None
    else
      match (TaskIndex(ts, activeId), TaskIndex(ts, overId.value))
      case (Some(from), Some(to)) => Some(Renumber(ArrayMove(ts, from, to)))
      case _ => None
  }

  /** Taking the ids commutes with `arrayMove`. */
  lemma IdsOfMove(ts: seq<Task>, from: nat, to: nat)
    requires from < |ts| && to < |ts|
    ensures TaskIds(ArrayMove(ts, from, to)) == ArrayMove(TaskIds(ts), from, to)
  {
    forall i | 0 <= i < |ts|
      ensures TaskIds(ArrayMove(ts, from, to))[i] == ArrayMove(TaskIds(ts), from, to)[i]
    {
      ArrayMoveAt(ts, from, to, i);
      ArrayMoveAt(TaskIds(ts), from, to, i);
    }
  }

  /** A drag lists every task of the list exactly as often as the list holds
      it, numbers the orders 0..n-1 by position, and puts the dragged task
      at the position the drop target had. */
  lemma DragUpdatesSpec(ts: seq<Task>, activeId: string, overId: Option<string>)
    requires DragUpdates(ts, activeId, overId).Some?
    ensures var us := DragUpdates(ts, activeId, overId).value;
            && |us| == |ts|
            && multiset(UpdateIds(us)) == multiset(TaskIds(ts))
            && (forall i :: 0 <= i < |us| ==> us[i].order == i)
            && us[TaskIndex(ts, overId.value).value].id == activeId
  {
    var from := TaskIndex(ts, activeId).value;
    var to := TaskIndex(ts, overId.value).value;
    var moved := ArrayMove(ts, from, to);
    RenumberIds(moved);
    IdsOfMove(ts, from, to);
    assert Renumber(moved)[to].id == moved[to].id == ts[from].id;
  }

  lemma RenumberIds(ts: seq<Task>)
    ensures UpdateIds(Renumber(ts)) == TaskIds(ts)
  {
    assert forall i :: 0 <= i < |ts| ==> UpdateIds(Renumber(ts))[i] == TaskIds(ts)[i];
  }

  /** The title `handleEditTask` stores: the trimmed answer, when the task
      is in the shown list and the answer is non-null, not blank and differs
      from the title before trimming. */
  function NewTitle(shown: seq<Task>, id: string, answer: Option<string>): (r: Option<string>)
    ensures r.Some? <==> FindById(shown, id).Some? && answer.Some? && !AllSpace(answer.value) &&
                         answer.value != FindById(shown, id).value.title
    ensures r.Some? ==> r.value == Trim(answer.value) && r.value != ""
  {
    TrimEmptyIffBlank(answer.GetOr(""));
    match FindById(shown, id)
    case None => None
    case Some(task) =>
      if answer.Some? && Trim(answer.value) != "" && answer.value != task.title then Some(Trim(answer.value))
      else None
  }

  class SidebarPanel {
    var newTaskName: string
    /** The task whose context menu is open (its screen position is UI). */
    var contextMenu: Option<string>

    constructor ()
      ensures newTaskName == "" && contextMenu.None?
    {
      newTaskName := "";
      contextMenu := None;
    }

    /** `handleAddTask`: with a non-blank name and a selected category, the
        trimmed name is added as a medium-priority task and the input is
        cleared once the add succeeded; a rejected add keeps the input. */
    method HandleAddTask(store: TaskStore, cats: CategoryStore, freshId: string, now: Timestamp)
      requires store.Valid()
      modifies this, store, store.db
      ensures store.Valid() && store.db.storageFault == old(store.db.storageFault)
      ensures var go := !AllSpace(old(newTaskName)) && Truthy(cats.selectedCategoryId);
              var ok := go && !old(store.db.storageFault) && freshId !in old(store.db.tasks);
              && (ok ==>
                    store.tasks == [NewTask(freshId, cats.selectedCategoryId.value, Trim(old(newTaskName)), Medium,
                                            TodoCount(old(store.tasks), cats.selectedCategoryId.value), now)] + old(store.tasks)
                    && store.db.tasks == old(store.db.tasks)[freshId := store.tasks[0]]
                    && store.db.taskDetails == old(store.db.taskDetails)[freshId := EmptyDetail(freshId, now)]
                    && newTaskName == "")
              && (!ok ==> store.tasks == old(store.tasks) && store.db.tasks == old(store.db.tasks) &&
                          store.db.taskDetails == old(store.db.taskDetails) && newTaskName == old(newTaskName))
      ensures store.db.categories == old(store.db.categories) && store.db.appSettings == old(store.db.appSettings)
      ensures contextMenu == old(contextMenu)
    {
      TrimEmptyIffBlank(newTaskName);
      if Trim(newTaskName) == "" || !Truthy(cats.selectedCategoryId) {
        return;
      }
      var r := store.AddTask(cats.selectedCategoryId.value, Trim(newTaskName), Medium, freshId, now);
      if r.Ok? {
        newTaskName := "";
      }
    }

    /** `handleEditTask`, given the prompt's answer: the task is looked up
        in the list the panel shows, and gets the title `NewTitle` gives. An
        id not in that list returns before the menu is closed. */
    method HandleEditTask(store: TaskStore, cats: CategoryStore, id: string, answer: Option<string>, now: Timestamp)
      requires store.Valid()
      modifies this, store, store.db
      ensures store.Valid() && store.db.storageFault == old(store.db.storageFault)
      ensures var shown := if Truthy(cats.selectedCategoryId)
                           then old(store.TasksByCategory(cats.selectedCategoryId.value)) else [];
              var title := NewTitle(shown, id, answer);
              && (title.Some? && !old(store.db.storageFault) ==>
                    && store.tasks == MergeWhere(old(store.tasks), id, NoTaskChange.(title := title))
                    && store.db.tasks == if id in old(store.db.tasks)
                                         then old(store.db.tasks)[id := old(store.db.tasks)[id].(title := title.value, updatedAt := now)]
                                         else old(store.db.tasks))
              && (title.None? || old(store.db.storageFault) ==>
                    store.tasks == old(store.tasks) && store.db.tasks == old(store.db.tasks))
              && contextMenu == if FindById(shown, id).Some? then None else old(contextMenu)
      ensures store.db.categories == old(store.db.categories) && store.db.taskDetails == old(store.db.taskDetails) &&
              store.db.appSettings == old(store.db.appSettings)
      ensures newTaskName == old(newTaskName)
    {
      var shown := if Truthy(cats.selectedCategoryId) then store.TasksByCategory(cats.selectedCategoryId.value) else [];
      if FindById(shown, id).None? {
        return;
      }
      var title := NewTitle(shown, id, answer);
      if title.Some? {
        store.UpdateTask(id, NoTaskChange.(title := title), now);
      }
      contextMenu := None;
    }

    /** `handleDragEnd`: the update list of the drag over the selected
        category's tasks (all statuses, cache order) goes to `reorderTasks`
        with status `todo`. */
    method HandleDragEnd(store: TaskStore, cats: CategoryStore, activeId: string, overId: Option<string>, now: Timestamp)
      requires store.Valid()
      modifies store, store.db
      ensures store.Valid() && store.db.storageFault == old(store.db.storageFault)
      ensures var us := if Truthy(cats.selectedCategoryId)
                        then DragUpdates(old(store.TasksByCategory(cats.selectedCategoryId.value)), activeId, overId)
                        else None;
              && (us.None? || old(store.db.storageFault) ==> store.tasks == old(store.tasks) && store.db.tasks == old(store.db.tasks))
              && (us.Some? && !old(store.db.storageFault) ==>
                    && store.tasks == ReorderCache(old(store.tasks), cats.selectedCategoryId.value, Todo, us.value)
                    && store.db.tasks == ApplyOrders(old(store.db.tasks), us.value, now))
      ensures store.db.categories == old(store.db.categories) && store.db.taskDetails == old(store.db.taskDetails) &&
              store.db.appSettings == old(store.db.appSettings)
    {
      if !Truthy(cats.selectedCategoryId) {
        return;
      }
      var us := DragUpdates(store.TasksByCategory(cats.selectedCategoryId.value), activeId, overId);
      if us.Some? {
        store.ReorderTasks(cats.selectedCategoryId.value, Todo, us.value, now);
      }
    }
  }
}
