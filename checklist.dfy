/** The checklist edits of the editing session (src/components/WorkSpace.tsx)
    as functions on values: each handler computes the next checklist (or the
    next task detail) from the current one, then commits it. */
module Checklist {
  import opened Types
  import opened Sequences

  /** The two sections that carry a checklist. */
  datatype Panel = PlanPanel | ExecutionPanel

  function SectionOf(d: TaskDetail, p: Panel): TaskSection
  {
    match p
    case PlanPanel => d.plan
    case ExecutionPanel => d.execution
  }

  /** `newDetail[panelKey].checklist = items`. */
  function WithChecklist(d: TaskDetail, p: Panel, items: seq<ChecklistItem>): (r: TaskDetail)
    ensures SectionOf(r, p) == SectionOf(d, p).(checklist := items)
    ensures p == PlanPanel ==> r.execution == d.execution
    ensures p == ExecutionPanel ==> r.plan == d.plan
    ensures r.id == d.id && r.taskId == d.taskId && r.description == d.description && r.updatedAt == d.updatedAt
  {
    match p
    case PlanPanel => d.(plan := d.plan.(checklist := items))
    case ExecutionPanel => d.(execution := d.execution.(checklist := items))
  }

  function Ids(items: seq<ChecklistItem>): (r: seq<string>)
    ensures |r| == |items| && forall i :: 0 <= i < |items| ==> r[i] == items[i].id
  {
    seq(|items|, i requires 0 <= i < |items| => items[i].id)
  }

  /** `checklist.findIndex(i => i.id === id)`. */
  function IndexOf(items: seq<ChecklistItem>, id: string): (r: Option<nat>)
    ensures r.Some? ==> r.value < |items| && items[r.value].id == id && forall j :: 0 <= j < r.value ==> items[j].id != id
    ensures r.None? <==> forall j :: 0 <= j < |items| ==> items[j].id != id
  {
    FirstIndex(items, (c: ChecklistItem) => c.id == id)
  }

  /** `checklist.unshift({ id, text, completed: false })`: the new item goes
      first and the others follow in their order. */
  function Prepend(items: seq<ChecklistItem>, id: string, text: string): (r: seq<ChecklistItem>)
    ensures |r| == |items| + 1
    ensures r[0].id == id && r[0].text == text && !r[0].completed && r[0].detail.None?
    ensures r[1..] == items
    ensures Ids(r) == [id] + Ids(items)
  {
    IdsCons(ChecklistItem(id, text, false, None), items);
    [ChecklistItem(id, text, false, None)] + items
  }

  lemma IdsCons(c: ChecklistItem, items: seq<ChecklistItem>)
    ensures Ids([c] + items) == [c.id] + Ids(items)
  {
    var l, r := Ids([c] + items), [c.id] + Ids(items);
    forall i | 0 <= i < |l|
      ensures l[i] == r[i]
    {
      if i > 0 {
        assert ([c] + items)[i] == items[i - 1];
      }
    }
  }

  /** Replaces the first item with the given id by `f` of it; every other
      position and the id list stay as they were. */
  function UpdateFirst(items: seq<ChecklistItem>, id: string, f: ChecklistItem -> ChecklistItem): (r: seq<ChecklistItem>)
    requires forall c :: f(c).id == c.id
    ensures |r| == |items| && Ids(r) == Ids(items)
    ensures IndexOf(items, id).None? ==> r == items
    ensures IndexOf(items, id).Some? ==>
              var i := IndexOf(items, id).value;
              r[i] == f(items[i]) && forall j :: 0 <= j < |items| && j != i ==> r[j] == items[j]
  {
    match IndexOf(items, id)
    case None => items
    case Some(i) => items[i := f(items[i])]
  }

  /** `checklist[idx].text = text` on the first item with that id. */
  function SetText(items: seq<ChecklistItem>, id: string, text: string): (r: seq<ChecklistItem>)
    ensures |r| == |items| && Ids(r) == Ids(items)
    ensures IndexOf(items, id).Some? ==>
              var i := IndexOf(items, id).value;
              r[i] == items[i].(text := text) && forall j :: 0 <= j < |items| && j != i ==> r[j] == items[j]
    ensures IndexOf(items, id).None? ==> r == items
  {
    UpdateFirst(items, id, (c: ChecklistItem) => c.(text := text))
  }

  /** `checklist[idx].completed = checked` on the first item with that id. */
  function SetCompleted(items: seq<ChecklistItem>, id: string, checked: bool): (r: seq<ChecklistItem>)
    ensures |r| == |items| && Ids(r) == Ids(items)
    ensures IndexOf(items, id).Some? ==>
              var i := IndexOf(items, id).value;
              r[i] == items[i].(completed := checked) && forall j :: 0 <= j < |items| && j != i ==> r[j] == items[j]
    ensures IndexOf(items, id).None? ==> r == items
  {
    UpdateFirst(items, id, (c: ChecklistItem) => c.(completed := checked))
  }

  /** `checklist[idx].detail = text` on the first item with that id. */
  function SetDetail(items: seq<ChecklistItem>, id: string, text: string): (r: seq<ChecklistItem>)
    ensures |r| == |items| && Ids(r) == Ids(items)
    ensures IndexOf(items, id).Some? ==>
              var i := IndexOf(items, id).value;
              r[i] == items[i].(detail := Some(text)) && forall j :: 0 <= j < |items| && j != i ==> r[j] == items[j]
    ensures IndexOf(items, id).None? ==> r == items
  {
    UpdateFirst(items, id, (c: ChecklistItem) => c.(detail := Some(text)))
  }

  /** `checklist.filter(i => i.id !== id)`. */
  function RemoveId(items: seq<ChecklistItem>, id: string): (r: seq<ChecklistItem>)
    ensures forall c :: c in r <==> c in items && c.id != id
    ensures forall c: ChecklistItem :: c.id != id ==> multiset(r)[c] == multiset(items)[c]
    ensures IndexOf(items, id).Some? ==> |r| < |items|
  {
    var r := Filter(items, (c: ChecklistItem) => c.id != id);
    if IndexOf(items, id).Some? then
      var i := IndexOf(items, id).value;
      assert multiset(r)[items[i]] == 0;
      assert multiset(items) == multiset(r) + (multiset(items) - multiset(r));
      assert items[i] in multiset(items) - multiset(r);
      r
    else r
  }

  /** Drag reorder within one section: nothing happens without a drop
      target, when the item is dropped on itself, or when either id is
      missing; otherwise the dragged item is moved onto the target's
      position. */
  function MoveItem(items: seq<ChecklistItem>, activeId: string, overId: Option<string>): (r: seq<ChecklistItem>)
    ensures |r| == |items| && multiset(r) == multiset(items)
  {
    if overId.None? || activeId == overId.value then items
    else
      match (IndexOf(items, activeId), IndexOf(items, overId.value))
      case (Some(from), Some(to)) => ArrayMove(items, from, to)
      case _ => items
  }

  /** A move changes the list only when both ids are present and differ, and
      then the dragged item lands on the position the target had. */
  lemma MoveItemSpec(items: seq<ChecklistItem>, activeId: string, overId: Option<string>)
    ensures (overId.None? || activeId == overId.value || IndexOf(items, activeId).None? ||
             IndexOf(items, overId.value).None?) ==> MoveItem(items, activeId, overId) == items
    ensures overId.Some? && IndexOf(items, activeId).Some? && IndexOf(items, overId.value).Some? ==>
              MoveItem(items, activeId, overId)[IndexOf(items, overId.value).value] == items[IndexOf(items, activeId).value]
  {
    if overId.Some? && activeId == overId.value && IndexOf(items, activeId).Some? {
      ArrayMoveSame(items, IndexOf(items, activeId).value);
    }
  }

  /** Menu edit looks for the item in the plan section, then in the
      execution section, and takes the first section that holds it. */
  function FindSection(d: TaskDetail, id: string): (r: Option<Panel>)
    ensures r == Some(PlanPanel) <==> IndexOf(d.plan.checklist, id).Some?
    ensures r == Some(ExecutionPanel) <==>
              IndexOf(d.plan.checklist, id).None? && IndexOf(d.execution.checklist, id).Some?
    ensures r.Some? ==> IndexOf(SectionOf(d, r.value).checklist, id).Some?
  {
    if IndexOf(d.plan.checklist, id).Some? then Some(PlanPanel)
    else if IndexOf(d.execution.checklist, id).Some? then Some(ExecutionPanel)
    else None
  }

  /** Menu delete: the id is filtered out of the first section holding it
      only; `None` when neither section holds it (nothing is committed). */
  function DeleteFromFirstSection(d: TaskDetail, id: string): (r: Option<TaskDetail>)
    ensures r.None? <==> FindSection(d, id).None?
    ensures r.Some? ==>
              var p := FindSection(d, id).value;
              r.value == WithChecklist(d, p, RemoveId(SectionOf(d, p).checklist, id))
  {
    match FindSection(d, id)
    case None => None
    case Some(p) => Some(WithChecklist(d, p, RemoveId(SectionOf(d, p).checklist, id)))
  }

  /** When both sections hold the id, menu delete removes it from the plan
      and the execution section keeps it. */
  lemma DeleteKeepsSecondSection(d: TaskDetail, id: string)
    requires IndexOf(d.plan.checklist, id).Some? && IndexOf(d.execution.checklist, id).Some?
    ensures DeleteFromFirstSection(d, id).Some?
    ensures DeleteFromFirstSection(d, id).value.execution == d.execution
    ensures forall c :: c in DeleteFromFirstSection(d, id).value.plan.checklist ==> c.id != id
    ensures IndexOf(DeleteFromFirstSection(d, id).value.execution.checklist, id).Some?
  {
  }

  /** Menu edit: with a non-cancelled prompt that differs from the item's
      text, the text is stored as typed (no trimming, possibly empty). */
  function MenuEditDetail(d: TaskDetail, id: string, answer: Option<string>): (r: Option<TaskDetail>)
    ensures r.Some? ==> answer.Some? && FindSection(d, id).Some?
    ensures r.Some? ==>
              var p := FindSection(d, id).value;
              var items := SectionOf(d, p).checklist;
              && items[IndexOf(items, id).value].text != answer.value
              && r.value == WithChecklist(d, p, SetText(items, id, answer.value))
    ensures r.None? && FindSection(d, id).Some? && answer.Some? ==>
              var items := SectionOf(d, FindSection(d, id).value).checklist;
              items[IndexOf(items, id).value].text == answer.value
  {
    match FindSection(d, id)
    case None => None
    case Some(p) =>
      var items := SectionOf(d, p).checklist;
      var item := items[IndexOf(items, id).value];
      if answer.Some? && answer.value != item.text then
        Some(WithChecklist(d, p, SetText(items, id, answer.value)))
      else None
  }

  /** Inline edit (double-click, then Enter or blur): the trimmed text is
      stored; a blank edit or a missing item leaves the section as it was. */
  function SaveEditChecklist(items: seq<ChecklistItem>, id: string, editText: string): (r: Option<seq<ChecklistItem>>)
    ensures r.Some? <==> !AllSpace(editText) && IndexOf(items, id).Some?
    ensures r.Some? ==> r.value == SetText(items, id, Trim(editText)) && Trim(editText) != ""
  {
    TrimEmptyIffBlank(editText);
    if Trim(editText) != "" && IndexOf(items, id).Some? then Some(SetText(items, id, Trim(editText))) else None
  }

  lemma TrimExample()
    ensures Trim(" y ") == "y"
  {
    assert " y "[1..] == "y ";
    assert TrimStart(" y ") == "y ";
    assert "y "[..1] == "y";
    assert TrimEnd("y ") == "y";
  }

  /** The two edit paths differ: an answer with surrounding blanks is kept
      as typed by the menu edit and trimmed by the inline edit. */
  lemma EditPathsDiffer(d: TaskDetail)
    requires d.plan.checklist == [ChecklistItem("a", "x", false, None)]
    ensures MenuEditDetail(d, "a", Some(" y ")).Some?
    ensures MenuEditDetail(d, "a", Some(" y ")).value.plan.checklist[0].text == " y "
    ensures SaveEditChecklist(d.plan.checklist, "a", " y ").Some?
    ensures SaveEditChecklist(d.plan.checklist, "a", " y ").value[0].text == "y"
  {
    var items := d.plan.checklist;
    assert IndexOf(items, "a") == Some(0);
    assert FindSection(d, "a") == Some(PlanPanel);
    TrimExample();
  }
}
