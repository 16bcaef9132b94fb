/** The task-detail editing session (src/components/WorkSpace.tsx): the
    loaded detail, the two debounce timers (autosave and item detail), the
    selected checklist item and the new-item input fields, driven by
    discrete events. One event is one batched React commit; an effect re-runs
    after a commit in which one of its dependencies changed, and a timer is
    represented by whether it is armed and, for the autosave timer, by the
    detail its callback will write. */
module WorkSpace {
  import opened Types
  import opened Sequences
  import opened Db
  import opened Tasks
  import opened Checklist

  class EditingSession {
    const db: Database
    var taskId: Option<string>
    var detail: Option<TaskDetail>
    /** The armed autosave timer and the detail its callback writes. */
    var pendingSave: Option<TaskDetail>
    /** Whether the item-detail timer is armed. */
    var detailTimer: bool
    var selectedItemId: Option<string>
    var selectedItemDetail: string
    var newPlanText: string
    var newExecutionText: string

    /** The autosave timer always holds the current detail (a change of the
        detail cancels it and arms a fresh one), and the item-detail timer
        is only armed while a non-empty item id is selected. */
    ghost predicate Valid()
      reads this, db
    {
      && db.Valid()
      && (pendingSave.Some? ==> pendingSave == detail)
      && (detailTimer ==> Truthy(selectedItemId))
    }

    function NewText(p: Panel): string
      reads this
    {
      match p
      case PlanPanel => newPlanText
      case ExecutionPanel => newExecutionText
    }

    constructor (db: Database)
      requires db.Valid()
      ensures Valid() && this.db == db
      ensures taskId.None? && detail.None? && pendingSave.None? && !detailTimer
      ensures selectedItemId.None? && selectedItemDetail == "" && newPlanText == "" && newExecutionText == ""
    {
      this.db := db;
      taskId := None;
      detail := None;
      pendingSave := None;
      detailTimer := false;
      selectedItemId := None;
      selectedItemDetail := "";
      newPlanText := "";
      newExecutionText := "";
    }

    /** One commit of `detail`, `selectedItemId` and `selectedItemDetail`.
        `replaced` says whether the handler called `setTaskDetail` (always
        with a fresh object; setting null over null is no change). The
        autosave effect re-arms on a new detail and stays cleared on null;
        the item-detail effect re-arms when any of its three dependencies
        changed and the selected item id is truthy (`if (!selectedItemId)
        return`). */
    method Commit(next: Option<TaskDetail>, replaced: bool, sel: Option<string>, selDetail: string)
      requires Valid()
      requires !replaced ==> next == detail
      modifies this
      ensures Valid()
      ensures detail == next && selectedItemId == sel && selectedItemDetail == selDetail
      ensures var changed := replaced && (next.Some? || old(detail).Some?);
              && pendingSave == (if changed then next else old(pendingSave))
              && detailTimer == (if changed || sel != old(selectedItemId) || selDetail != old(selectedItemDetail)
                                 then Truthy(sel) else old(detailTimer))
      ensures taskId == old(taskId) && newPlanText == old(newPlanText) && newExecutionText == old(newExecutionText)
    {
      var changed := replaced && (next.Some? || detail.Some?);
      if changed || sel != selectedItemId || selDetail != selectedItemDetail {
        detailTimer := Truthy(sel);
      }
      if changed {
        pendingSave := next;
      }
      detail := next;
      selectedItemId := sel;
      selectedItemDetail := selDetail;
    }

    /** The load effect, run when the task id changes: read the detail;
        when there is none, create an empty one for the task and read it
        back; then show it with no item selected. A rejected call shows
        nothing and leaves the selection as it was. */
    method Open(id: Option<string>, now: Timestamp)
      requires Valid()
      modifies this, db
      ensures Valid() && taskId == id && db.storageFault == old(db.storageFault)
      ensures id.None? || old(db.storageFault) ==>
                && detail.None? && pendingSave.None?
                && selectedItemId == old(selectedItemId) && selectedItemDetail == old(selectedItemDetail)
                && detailTimer == (if old(detail).Some? then Truthy(old(selectedItemId)) else old(detailTimer))
                && db.taskDetails == old(db.taskDetails)
      ensures id.Some? && !old(db.storageFault) ==>
                && detail == Some(if id.value in old(db.taskDetails) then old(db.taskDetails)[id.value]
                                  else EmptyDetail(id.value, now))
                && pendingSave == detail
                && selectedItemId.None? && selectedItemDetail == "" && !detailTimer
                && db.taskDetails == if id.value in old(db.taskDetails) then old(db.taskDetails)
                                     else old(db.taskDetails)[id.value := EmptyDetail(id.value, now)]
      ensures db.categories == old(db.categories) && db.tasks == old(db.tasks) && db.appSettings == old(db.appSettings)
      ensures newPlanText == old(newPlanText) && newExecutionText == old(newExecutionText)
    {
      taskId := id;
      if id.None? {
        Commit(None, true, selectedItemId, selectedItemDetail);
        return;
      }
      var got := db.DetailGetByTaskId(id.value);
      if got.Err? {
        Commit(None, true, selectedItemId, selectedItemDetail);
        return;
      }
      var found := got.value;
      if found.None? {
        var created := db.DetailCreate(TaskDetail("", id.value, None, EmptySection, EmptySection, now));
        if created.Err? {
          assert false;
          return;
        }
        var again := db.DetailGetByTaskId(created.value);
        if again.Err? {
          assert false;
          return;
        }
        found := again.value;
      }
      Commit(found, true, None, "");
    }

    /** The autosave timer fires: the detail it holds, which is the current
        one, is stored with `put`; a rejection is swallowed. */
    method AutosaveExpire()
      requires Valid()
      modifies this, db
      ensures Valid() && pendingSave.None? && db.storageFault == old(db.storageFault)
      ensures db.taskDetails == if old(pendingSave).None? || old(db.storageFault) then old(db.taskDetails)
                                else old(db.taskDetails)[old(detail).value.taskId := old(detail).value]
      ensures detail == old(detail) && detailTimer == old(detailTimer)
      ensures selectedItemId == old(selectedItemId) && selectedItemDetail == old(selectedItemDetail)
      ensures db.categories == old(db.categories) && db.tasks == old(db.tasks) && db.appSettings == old(db.appSettings)
      ensures taskId == old(taskId) && newPlanText == old(newPlanText) && newExecutionText == old(newExecutionText)
    {
      if pendingSave.Some? {
        var d := pendingSave.value;
        pendingSave := None;
        var ok := db.DetailPut(d);
      }
    }

    /** The item-detail timer fires: the typed detail text is written into
        the selected item of the plan section and committed, which re-arms
        both timers. When the item is not in the plan section nothing is
        committed; with no detail loaded the callback throws and nothing
        changes. */
    method DetailTimerExpire()
      requires Valid()
      modifies this
      ensures Valid()
      ensures var fires := old(detailTimer) && old(detail).Some? &&
                           IndexOf(old(detail).value.plan.checklist, old(selectedItemId).value).Some?;
              && (fires ==>
                    && detail == Some(WithChecklist(old(detail).value, PlanPanel,
                                        SetDetail(old(detail).value.plan.checklist, old(selectedItemId).value, old(selectedItemDetail))))
                    && pendingSave == detail && detailTimer)
              && (!fires ==> detail == old(detail) && pendingSave == old(pendingSave) && !detailTimer)
      ensures selectedItemId == old(selectedItemId) && selectedItemDetail == old(selectedItemDetail)
      ensures taskId == old(taskId) && newPlanText == old(newPlanText) && newExecutionText == old(newExecutionText)
    {
      if !detailTimer {
        return;
      }
      detailTimer := false;
      if detail.None? {
        return;
      }
      var d := detail.value;
      var id := selectedItemId.value;
      if IndexOf(d.plan.checklist, id).Some? {
        var next := WithChecklist(d, PlanPanel, SetDetail(d.plan.checklist, id, selectedItemDetail));
        Commit(Some(next), true, selectedItemId, selectedItemDetail);
      }
    }

    /** `handleSave`: cancel the autosave timer and store the current
        detail at once; nothing without a detail. */
    method SaveNow()
      requires Valid()
      modifies this, db
      ensures Valid() && db.storageFault == old(db.storageFault)
      ensures pendingSave == if old(detail).None? then old(pendingSave) else None
      ensures db.taskDetails == if old(detail).None? || old(db.storageFault) then old(db.taskDetails)
                                else old(db.taskDetails)[old(detail).value.taskId := old(detail).value]
      ensures detail == old(detail) && detailTimer == old(detailTimer)
      ensures selectedItemId == old(selectedItemId) && selectedItemDetail == old(selectedItemDetail)
      ensures db.categories == old(db.categories) && db.tasks == old(db.tasks) && db.appSettings == old(db.appSettings)
      ensures taskId == old(taskId) && newPlanText == old(newPlanText) && newExecutionText == old(newExecutionText)
    {
      if detail.None? {
        return;
      }
      pendingSave := None;
      var ok := db.DetailPut(detail.value);
    }

    /** Unmount: the effect clean-ups clear both timers, so nothing pending
        is written. */
    method Teardown()
      requires Valid()
      modifies this
      ensures Valid() && pendingSave.None? && !detailTimer
      ensures detail == old(detail) && selectedItemId == old(selectedItemId) && selectedItemDetail == old(selectedItemDetail)
      ensures taskId == old(taskId) && newPlanText == old(newPlanText) && newExecutionText == old(newExecutionText)
    {
      pendingSave := None;
      detailTimer := false;
    }

    /** A click on a plan item selects it and shows its detail text
        (`item.detail || ''`). */
    method SelectItem(id: string)
      requires Valid()
      modifies this
      ensures Valid() && detail == old(detail) && pendingSave == old(pendingSave)
      ensures old(detail).Some? && IndexOf(old(detail).value.plan.checklist, id).Some? ==>
                var items := old(detail).value.plan.checklist;
                && selectedItemId == Some(id) && selectedItemDetail == items[IndexOf(items, id).value].detail.GetOr("")
                && detailTimer == (if Some(id) != old(selectedItemId) || selectedItemDetail != old(selectedItemDetail)
                                   then id != "" else old(detailTimer))
      ensures old(detail).None? || IndexOf(old(detail).value.plan.checklist, id).None? ==>
                selectedItemId == old(selectedItemId) && selectedItemDetail == old(selectedItemDetail) &&
                detailTimer == old(detailTimer)
      ensures taskId == old(taskId) && newPlanText == old(newPlanText) && newExecutionText == old(newExecutionText)
    {
      if detail.None? {
        return;
      }
      var items := detail.value.plan.checklist;
      var i := IndexOf(items, id);
      if i.Some? {
        Commit(detail, false, Some(id), items[i.value].detail.GetOr(""));
      }
    }

    /** Typing in the detail box (shown only while an item is selected). */
    method EditSelectedDetail(text: string)
      requires Valid()
      modifies this
      ensures Valid() && detail == old(detail) && pendingSave == old(pendingSave)
      ensures selectedItemId == old(selectedItemId)
      ensures old(selectedItemId).Some? ==>
                selectedItemDetail == text && detailTimer == (if text != old(selectedItemDetail) then old(selectedItemId).value != "" else old(detailTimer))
      ensures old(selectedItemId).None? ==> selectedItemDetail == old(selectedItemDetail) && detailTimer == old(detailTimer)
      ensures taskId == old(taskId) && newPlanText == old(newPlanText) && newExecutionText == old(newExecutionText)
    {
      if selectedItemId.None? {
        return;
      }
      Commit(detail, false, selectedItemId, text);
    }

    /** Typing in a section's new-item field. */
    method TypeNewItem(p: Panel, text: string)
      modifies this
      ensures NewText(p) == text
      ensures p == PlanPanel ==> newExecutionText == old(newExecutionText)
      ensures p == ExecutionPanel ==> newPlanText == old(newPlanText)
      ensures detail == old(detail) && pendingSave == old(pendingSave) && detailTimer == old(detailTimer)
      ensures selectedItemId == old(selectedItemId) && selectedItemDetail == old(selectedItemDetail)
      ensures taskId == old(taskId)
    {
      if p == PlanPanel {
        newPlanText := text;
      } else {
        newExecutionText := text;
      }
    }

    /** Enter or the add button: the trimmed input becomes a new, open item
        at the top of the section and the input is cleared; blank input does
        nothing. */
    method AddItem(p: Panel, freshId: string)
      requires Valid()
      modifies this
      ensures Valid()
      ensures var added := old(detail).Some? && !AllSpace(old(NewText(p)));
              && (added ==>
                    && detail == Some(WithChecklist(old(detail).value, p,
                                        Prepend(SectionOf(old(detail).value, p).checklist, freshId, Trim(old(NewText(p))))))
                    && pendingSave == detail && NewText(p) == "" && detailTimer == Truthy(old(selectedItemId)))
              && (!added ==> detail == old(detail) && pendingSave == old(pendingSave) && NewText(p) == old(NewText(p)) &&
                             detailTimer == old(detailTimer))
      ensures p == PlanPanel ==> newExecutionText == old(newExecutionText)
      ensures p == ExecutionPanel ==> newPlanText == old(newPlanText)
      ensures selectedItemId == old(selectedItemId) && selectedItemDetail == old(selectedItemDetail)
      ensures taskId == old(taskId)
    {
      TrimEmptyIffBlank(NewText(p));
      var text := Trim(NewText(p));
      if detail.None? || text == "" {
        return;
      }
      var d := detail.value;
      Commit(Some(WithChecklist(d, p, Prepend(SectionOf(d, p).checklist, freshId, text))), true,
             selectedItemId, selectedItemDetail);
      TypeNewItem(p, "");
    }

    /** The end of a drag within a section. */
    method DragEnd(p: Panel, activeId: string, overId: Option<string>)
      requires Valid()
      modifies this
      ensures Valid()
      ensures var moves := old(detail).Some? && overId.Some? && activeId != overId.value &&
                           IndexOf(SectionOf(old(detail).value, p).checklist, activeId).Some? &&
                           IndexOf(SectionOf(old(detail).value, p).checklist, overId.value).Some?;
              && (moves ==>
                    detail == Some(WithChecklist(old(detail).value, p,
                                     MoveItem(SectionOf(old(detail).value, p).checklist, activeId, overId))) &&
                    pendingSave == detail && detailTimer == Truthy(old(selectedItemId)))
              && (!moves ==> detail == old(detail) && pendingSave == old(pendingSave) && detailTimer == old(detailTimer))
      ensures selectedItemId == old(selectedItemId) && selectedItemDetail == old(selectedItemDetail)
      ensures taskId == old(taskId) && newPlanText == old(newPlanText) && newExecutionText == old(newExecutionText)
    {
      if detail.None? || overId.None? || activeId == overId.value {
        return;
      }
      var d := detail.value;
      var items := SectionOf(d, p).checklist;
      if IndexOf(items, activeId).Some? && IndexOf(items, overId.value).Some? {
        Commit(Some(WithChecklist(d, p, MoveItem(items, activeId, overId))), true, selectedItemId, selectedItemDetail);
      }
    }

    /** The checkbox of an item. The click also reaches the row's
        `onClick`, which nothing stops, so the same commit selects the item
        and shows its detail text. */
    method ToggleItem(p: Panel, id: string, checked: bool)
      requires Valid()
      modifies this
      ensures Valid()
      ensures var hit := old(detail).Some? && IndexOf(SectionOf(old(detail).value, p).checklist, id).Some?;
              && (hit ==>
                    var items := SectionOf(old(detail).value, p).checklist;
                    && detail == Some(WithChecklist(old(detail).value, p, SetCompleted(items, id, checked)))
                    && pendingSave == detail && detailTimer == (id != "")
                    && selectedItemId == Some(id) && selectedItemDetail == items[IndexOf(items, id).value].detail.GetOr(""))
              && (!hit ==>
                    && detail == old(detail) && pendingSave == old(pendingSave) && detailTimer == old(detailTimer)
                    && selectedItemId == old(selectedItemId) && selectedItemDetail == old(selectedItemDetail))
      ensures taskId == old(taskId) && newPlanText == old(newPlanText) && newExecutionText == old(newExecutionText)
    {
      if detail.None? {
        return;
      }
      var d := detail.value;
      var items := SectionOf(d, p).checklist;
      var i := IndexOf(items, id);
      if i.Some? {
        Commit(Some(WithChecklist(d, p, SetCompleted(items, id, checked))), true, Some(id), items[i.value].detail.GetOr(""));
      }
    }

    /** `handleSaveEdit`: the inline edit stores the trimmed text. */
    method SaveEdit(p: Panel, id: string, editText: string)
      requires Valid()
      modifies this
      ensures Valid()
      ensures var r := if old(detail).None? then None
                       else SaveEditChecklist(SectionOf(old(detail).value, p).checklist, id, editText);
              && (r.Some? ==> detail == Some(WithChecklist(old(detail).value, p, r.value)) && pendingSave == detail &&
                              detailTimer == Truthy(old(selectedItemId)))
              && (r.None? ==> detail == old(detail) && pendingSave == old(pendingSave) && detailTimer == old(detailTimer))
      ensures selectedItemId == old(selectedItemId) && selectedItemDetail == old(selectedItemDetail)
      ensures taskId == old(taskId) && newPlanText == old(newPlanText) && newExecutionText == old(newExecutionText)
    {
      if detail.None? {
        return;
      }
      var d := detail.value;
      var r := SaveEditChecklist(SectionOf(d, p).checklist, id, editText);
      if r.Some? {
        Commit(Some(WithChecklist(d, p, r.value)), true, selectedItemId, selectedItemDetail);
      }
    }

    /** The menu's edit entry, given what the prompt dialog returned. */
    method MenuEdit(id: string, answer: Option<string>)
      requires Valid()
      modifies this
      ensures Valid()
      ensures var r := if old(detail).None? then None else MenuEditDetail(old(detail).value, id, answer);
              && (r.Some? ==> detail == r && pendingSave == detail && detailTimer == Truthy(old(selectedItemId)))
              && (r.None? ==> detail == old(detail) && pendingSave == old(pendingSave) && detailTimer == old(detailTimer))
      ensures selectedItemId == old(selectedItemId) && selectedItemDetail == old(selectedItemDetail)
      ensures taskId == old(taskId) && newPlanText == old(newPlanText) && newExecutionText == old(newExecutionText)
    {
      if detail.None? {
        return;
      }
      var r := MenuEditDetail(detail.value, id, answer);
      if r.Some? {
        Commit(r, true, selectedItemId, selectedItemDetail);
      }
    }

    /** The menu's delete entry: the item leaves the first section holding
        it, and the selection is cleared when it was the deleted item. */
    method MenuDelete(id: string)
      requires Valid()
      modifies this
      ensures Valid()
      ensures var r := if old(detail).None? then None else DeleteFromFirstSection(old(detail).value, id);
              && (r.Some? ==>
                    && detail == r && pendingSave == detail
                    && (old(selectedItemId) == Some(id) ==> selectedItemId.None? && selectedItemDetail == "" && !detailTimer)
                    && (old(selectedItemId) != Some(id) ==>
                          selectedItemId == old(selectedItemId) && selectedItemDetail == old(selectedItemDetail) &&
                          detailTimer == Truthy(old(selectedItemId))))
              && (r.None? ==>
                    detail == old(detail) && pendingSave == old(pendingSave) && detailTimer == old(detailTimer) &&
                    selectedItemId == old(selectedItemId) && selectedItemDetail == old(selectedItemDetail))
      ensures taskId == old(taskId) && newPlanText == old(newPlanText) && newExecutionText == old(newExecutionText)
    {
      if detail.None? {
        return;
      }
      var r := DeleteFromFirstSection(detail.value, id);
      if r.Some? {
        if selectedItemId == Some(id) {
          Commit(r, true, None, "");
        } else {
          Commit(r, true, selectedItemId, selectedItemDetail);
        }
      }
    }

    /** `handleProgressChange`: with the open task in the cache, the slider
        value is quantised and handed to the task cache, whose own rounding
        then changes nothing. */
    method ProgressChange(store: TaskStore, progress: int, now: Timestamp)
      requires Valid() && store.Valid() && store.db == db
      modifies store, db
      ensures Valid() && store.Valid()
      ensures var open := taskId.Some? && old(store.TaskById(taskId.value)).Some?;
              && (!open || old(db.storageFault) ==> store.tasks == old(store.tasks) && db.tasks == old(db.tasks))
              && (open && !old(db.storageFault) ==>
                    && store.tasks == MergeWhere(old(store.tasks), taskId.value, ProgressPatch(Quantize(progress)))
                    && db.tasks == if taskId.value in old(db.tasks)
                                   then old(db.tasks)[taskId.value := old(db.tasks)[taskId.value].(progress := Quantize(progress), updatedAt := now)]
                                   else old(db.tasks))
      ensures db.categories == old(db.categories) && db.taskDetails == old(db.taskDetails) && db.appSettings == old(db.appSettings)
    {
      if taskId.None? {
        return;
      }
      var task := store.TaskById(taskId.value);
      if task.None? {
        return;
      }
      QuantizeIdempotent(progress);
      store.UpdateTaskProgress(task.value.id, Quantize(progress), now);
    }
  }
}
