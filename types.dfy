/** Entity shapes of the task manager (src/types/index.ts), the option and
    result wrappers the rest of the model uses, partial records ("patches")
    and the JavaScript string helpers (`trim`, `\s`) the handlers rely on. */
module Types {

  datatype Option<T> = None | Some(value: T) {
    function GetOr(default: T): T {
      match this
      case Some(v) => v
      case None => default
    }
  }

  /** JavaScript truthiness of an optional id: `null` and `''` are falsy. */
  predicate Truthy(id: Option<string>)
  {
    id.Some? && id.value != ""
  }

  /** Why a storage call rejected: the store is failing (quota, I/O), or an
      `add` met a key that is already present (Dexie's ConstraintError). */
  datatype DbError = StorageFailure | KeyExists

  datatype Result<T> = Ok(value: T) | Err(error: DbError)

  /** Clock readings (`new Date().toISOString()`) are plain strings the model never inspects. */
  type Timestamp = string

  datatype Category = Category(id: string, name: string, createdAt: Timestamp, order: int)

  /** A checklist item. The `detail` field is not declared by the type but
      is written by the editing session; `None` stands for "absent". */
  datatype ChecklistItem = ChecklistItem(id: string, text: string, completed: bool, detail: Option<string>)

  datatype TaskSection = TaskSection(text: string, checklist: seq<ChecklistItem>)

  /** `description` is required by the type, but the records created by the
      storage layer leave it out, so it is optional here. */
  datatype TaskDetail = TaskDetail(
    id: string,
    taskId: string,
    description: Option<TaskSection>,
    plan: TaskSection,
    execution: TaskSection,
    updatedAt: Timestamp)

  datatype TaskStatus = Todo | Plan | Progress | Done

  datatype Priority = High | Medium | Low

  datatype Task = Task(
    id: string,
    categoryId: string,
    title: string,
    status: TaskStatus,
    progress: int,
    priority: Priority,
    dueDate: Option<Timestamp>,
    order: int,
    createdAt: Timestamp,
    updatedAt: Timestamp,
    completedAt: Option<Timestamp>)

  datatype Theme = Light | Dark | Auto
  datatype Language = Ko | En
  datatype Notifications = Notifications(dueDate: bool, dailyReminder: bool)

  /** The settings singleton; its id is the fixed key `SettingsKey`. */
  datatype AppSettings = AppSettings(
    theme: Theme,
    language: Language,
    autoSave: bool,
    autoSaveDelay: int,
    notifications: Notifications,
    updatedAt: Timestamp)

  datatype BackupData = BackupData(categories: seq<Category>, tasks: seq<Task>, taskDetails: seq<TaskDetail>)
  datatype BackupFile = BackupFile(version: string, exportDate: Timestamp, data: BackupData)

  /** One entry of a bulk reorder: `{ id, order }`. */
  datatype OrderUpdate = OrderUpdate(id: string, order: int)

  const SettingsKey: string := "app-settings"

  const EmptySection: TaskSection := TaskSection("", [])

  /** The settings written on first launch. */
  function DefaultSettings(now: Timestamp): (s: AppSettings)
    ensures s.updatedAt == now && s.theme == Auto && s.language == Ko
    ensures s.autoSave && s.autoSaveDelay == 3000
    ensures s.notifications.dueDate && !s.notifications.dailyReminder
  {
    AppSettings(Auto, Ko, true, 3000, Notifications(true, false), now)
  }

  /** The detail record created for a task: empty plan and execution, no
      description, `id` equal to `taskId`. */
  function EmptyDetail(taskId: string, now: Timestamp): (d: TaskDetail)
    ensures d.id == d.taskId == taskId && d.updatedAt == now
    ensures d.plan == d.execution == TaskSection("", []) && d.description.None?
  {
    TaskDetail(taskId, taskId, None, EmptySection, EmptySection, now)
  }

  // ---------------------------------------------------------------------
  // Partial records. A field left `None` is absent from the JavaScript
  // object; for nullable fields `Some(None)` is an explicit `null`. The
  // primary key is never part of a patch.

  datatype CategoryPatch = CategoryPatch(name: Option<string>, createdAt: Option<Timestamp>, order: Option<int>)

  datatype TaskPatch = TaskPatch(
    categoryId: Option<string>,
    title: Option<string>,
    status: Option<TaskStatus>,
    progress: Option<int>,
    priority: Option<Priority>,
    dueDate: Option<Option<Timestamp>>,
    order: Option<int>,
    createdAt: Option<Timestamp>,
    updatedAt: Option<Timestamp>,
    completedAt: Option<Option<Timestamp>>)

  datatype DetailPatch = DetailPatch(
    description: Option<TaskSection>,
    plan: Option<TaskSection>,
    execution: Option<TaskSection>,
    updatedAt: Option<Timestamp>)

  datatype SettingsPatch = SettingsPatch(
    theme: Option<Theme>,
    language: Option<Language>,
    autoSave: Option<bool>,
    autoSaveDelay: Option<int>,
    notifications: Option<Notifications>,
    updatedAt: Option<Timestamp>)

  const NoTaskChange: TaskPatch := TaskPatch(None, None, None, None, None, None, None, None, None, None)

  /** `{ ...c, ...p }` for categories. */
  function MergeCategory(c: Category, p: CategoryPatch): (r: Category)
    ensures r.id == c.id
  {
    Category(c.id, p.name.GetOr(c.name), p.createdAt.GetOr(c.createdAt), p.order.GetOr(c.order))
  }

  /** `{ ...t, ...p }` for tasks. */
  function MergeTask(t: Task, p: TaskPatch): (r: Task)
    ensures r.id == t.id
  {
    Task(t.id, p.categoryId.GetOr(t.categoryId), p.title.GetOr(t.title), p.status.GetOr(t.status),
         p.progress.GetOr(t.progress), p.priority.GetOr(t.priority), p.dueDate.GetOr(t.dueDate),
         p.order.GetOr(t.order), p.createdAt.GetOr(t.createdAt), p.updatedAt.GetOr(t.updatedAt),
         p.completedAt.GetOr(t.completedAt))
  }

  /** `{ ...d, ...p }` for task details. */
  function MergeDetail(d: TaskDetail, p: DetailPatch): (r: TaskDetail)
    ensures r.id == d.id && r.taskId == d.taskId
  {
    TaskDetail(d.id, d.taskId,
               if p.description.Some? then p.description else d.description,
               p.plan.GetOr(d.plan), p.execution.GetOr(d.execution), p.updatedAt.GetOr(d.updatedAt))
  }

  /** `{ ...s, ...p }` for the settings. */
  function MergeSettings(s: AppSettings, p: SettingsPatch): AppSettings
  {
    AppSettings(p.theme.GetOr(s.theme), p.language.GetOr(s.language), p.autoSave.GetOr(s.autoSave),
                p.autoSaveDelay.GetOr(s.autoSaveDelay), p.notifications.GetOr(s.notifications),
                p.updatedAt.GetOr(s.updatedAt))
  }

  /** A patch with every field absent changes nothing. */
  lemma MergeNothing(t: Task)
    ensures MergeTask(t, NoTaskChange) == t
  {
  }

  // ---------------------------------------------------------------------
  // JavaScript strings

  /** The characters JavaScript's `\s` and `String.prototype.trim` treat as
      white space: WhiteSpace and LineTerminator of ECMAScript. */
  predicate IsJsSpace(c: char)
  {
    c == '\t' || c == '\n' || c == '\U{000B}' || c == '\U{000C}' || c == '\r' || c == ' ' ||
    c == '\U{00A0}' || c == '\U{1680}' || ('\U{2000}' <= c <= '\U{200A}') ||
    c == '\U{2028}' || c == '\U{2029}' || c == '\U{202F}' || c == '\U{205F}' ||
    c == '\U{3000}' || c == '\U{FEFF}'
  }

  predicate AllSpace(s: string)
  {
    forall i :: 0 <= i < |s| ==> IsJsSpace(s[i])
  }

  /** `s` without its leading white space. */
  function TrimStart(s: string): (r: string)
    ensures |r| <= |s|
  {
    if s != [] && IsJsSpace(s[0]) then TrimStart(s[1..]) else s
  }

  /** `s` without its trailing white space. */
  function TrimEnd(s: string): (r: string)
    ensures |r| <= |s|
  {
    if s != [] && IsJsSpace(s[|s| - 1]) then TrimEnd(s[..|s| - 1]) else s
  }

  /** `TrimStart` drops a run of white space from the front and stops at
      the first other character. */
  lemma {:induction false} TrimStartSpec(s: string)
    ensures var r := TrimStart(s);
            && r == s[|s| - |r|..] && AllSpace(s[..|s| - |r|])
            && (r != [] ==> !IsJsSpace(r[0]))
  {
    if s != [] && IsJsSpace(s[0]) {
      TrimStartSpec(s[1..]);
      var r := TrimStart(s[1..]);
      assert s[1..][|s| - 1 - |r|..] == s[|s| - |r|..];
      var pre, tail := s[..|s| - |r|], s[1..][..|s| - 1 - |r|];
      forall k | 0 <= k < |pre|
        ensures IsJsSpace(pre[k])
      {
        if k > 0 {
          assert pre[k] == tail[k - 1];
        }
      }
    }
  }

  /** `TrimEnd` drops a run of white space from the back and stops at the
      last other character. */
  lemma {:induction false} TrimEndSpec(s: string)
    ensures var r := TrimEnd(s);
            && r == s[..|r|] && AllSpace(s[|r|..])
            && (r != [] ==> !IsJsSpace(r[|r| - 1]))
  {
    if s != [] && IsJsSpace(s[|s| - 1]) {
      var t := s[..|s| - 1];
      TrimEndSpec(t);
      var r := TrimEnd(t);
      assert t[..|r|] == s[..|r|];
      forall k | 0 <= k < |s| - |r|
        ensures IsJsSpace(s[|r|..][k])
      {
        if k < |s| - 1 - |r| {
          assert s[|r|..][k] == t[|r|..][k];
        }
      }
    }
  }

  /** `s.trim()`: what is left of `s` after removing white space at both
      ends. */
  function Trim(s: string): (r: string)
    ensures |r| <= |s|
    ensures r != [] ==> !IsJsSpace(r[0]) && !IsJsSpace(r[|r| - 1])
  {
    TrimStartSpec(s);
    TrimEndSpec(TrimStart(s));
    TrimEnd(TrimStart(s))
  }

  /** `trim` keeps a stretch of its input: what follows the leading white
      space, up to the trailing white space. */
  lemma TrimSpec(s: string)
    ensures var i := |s| - |TrimStart(s)|;
            i + |Trim(s)| <= |s| && Trim(s) == s[i..i + |Trim(s)|]
  {
    var a := TrimStart(s);
    TrimStartSpec(s);
    TrimEndSpec(a);
    SliceOfSuffix(s, |s| - |a|, |TrimEnd(a)|);
  }

  /** What `trim` removes on either side is all white space. */
  lemma TrimRemovesSpace(s: string)
    ensures var i := |s| - |TrimStart(s)|;
            i + |Trim(s)| <= |s| && AllSpace(s[..i]) && AllSpace(s[i + |Trim(s)|..])
  {
    var a := TrimStart(s);
    TrimStartSpec(s);
    TrimEndSpec(a);
    var i, n := |s| - |a|, |TrimEnd(a)|;
    SliceOfSuffix(s, i, n);
    assert Trim(s) == TrimEnd(a);
    assert s[i + n..] == a[n..];
  }

  lemma SliceOfSuffix(s: string, i: nat, n: nat)
    requires i + n <= |s|
    ensures s[i..][..n] == s[i..i + n] && s[i..][n..] == s[i + n..]
  {
  }

  lemma {:induction false} BlankTrimStart(s: string)
    requires AllSpace(s)
    ensures TrimStart(s) == []
  {
    if s != [] {
      assert IsJsSpace(s[0]);
      BlankTrimStart(s[1..]);
    }
  }

  /** A string trims to nothing exactly when it is all white space: the
      test `if (text.trim())` rejects blank input and nothing else. */
  lemma TrimEmptyIffBlank(s: string)
    ensures Trim(s) == [] <==> AllSpace(s)
  {
    var a := TrimStart(s);
    TrimStartSpec(s);
    TrimEndSpec(a);
    if Trim(s) == [] {
      assert a[0..] == a;
      assert |a| == 0;
      assert s[..|s|] == s;
    }
    if AllSpace(s) {
      BlankTrimStart(s);
    }
  }
}
