/** The persistent store and its query/command layer (src/db/db.ts): four
    keyed tables, CRUD per entity kind, the two cascade deletes and the
    `updatedAt` stamping rules. Each awaited storage call is one atomic step
    on a map; the clock and `crypto.randomUUID` are parameters. */
module Db {
  import opened Types
  import opened Sequences

  // ---------------------------------------------------------------------
  // Specification functions for the table updates

  /** `initializeDatabase`: write the default settings only when the key is
      absent. */
  function InitSettings(m: map<string, AppSettings>, now: Timestamp): map<string, AppSettings>
  {
    if SettingsKey in m then m else m[SettingsKey := DefaultSettings(now)]
  }

  /** Running the initialisation twice leaves what running it once left,
      whatever the clock says the second time. */
  lemma InitSettingsIdempotent(m: map<string, AppSettings>, now1: Timestamp, now2: Timestamp)
    ensures SettingsKey in InitSettings(m, now1)
    ensures InitSettings(InitSettings(m, now1), now2) == InitSettings(m, now1)
    ensures SettingsKey in m ==> InitSettings(m, now1) == m
  {
  }

  /** Keys of the tasks that belong to category `c`. */
  function TasksOf(tasks: map<string, Task>, c: string): (ks: set<string>)
    ensures ks <= tasks.Keys
    ensures forall k :: k in ks <==> k in tasks && tasks[k].categoryId == c
  {
    set k | k in tasks && tasks[k].categoryId == c
  }

  /** The task table after `where('categoryId').equals(c).delete()`. */
  function WithoutCategory(tasks: map<string, Task>, c: string): map<string, Task>
  {
    map k | k in tasks && tasks[k].categoryId != c :: tasks[k]
  }

  lemma SubsetCard<K>(a: set<K>, b: set<K>)
    requires b <= a
    ensures |a - b| == |a| - |b|
  {
    assert a == (a - b) + b;
    assert (a - b) !! b;
  }

  /** Deleting a category with N tasks removes exactly those N tasks and,
      when every task owns a detail, exactly N details; no remaining task
      refers to the category and every other task is kept as it was. */
  lemma CascadeCounts(tasks: map<string, Task>, details: map<string, TaskDetail>, c: string)
    ensures WithoutCategory(tasks, c).Keys == tasks.Keys - TasksOf(tasks, c)
    ensures |WithoutCategory(tasks, c)| == |tasks| - |TasksOf(tasks, c)|
    ensures forall k :: k in WithoutCategory(tasks, c) ==>
              WithoutCategory(tasks, c)[k] == tasks[k] && tasks[k].categoryId != c
    ensures forall k :: k in tasks && tasks[k].categoryId != c ==> k in WithoutCategory(tasks, c)
    ensures tasks.Keys <= details.Keys ==> |details - TasksOf(tasks, c)| == |details| - |TasksOf(tasks, c)|
  {
    var doomed := TasksOf(tasks, c);
    var kept := WithoutCategory(tasks, c);
    assert kept.Keys == tasks.Keys - doomed;
    SubsetCard(tasks.Keys, doomed);
    if tasks.Keys <= details.Keys {
      assert (details - doomed).Keys == details.Keys - doomed;
      SubsetCard(details.Keys, doomed);
    }
  }

  /** One entry of `updateOrder`: `db.tasks.update(id, { order, updatedAt })`. */
  function ApplyOrder(tasks: map<string, Task>, u: OrderUpdate, now: Timestamp): map<string, Task>
  {
    if u.id in tasks then tasks[u.id := tasks[u.id].(order := u.order, updatedAt := now)] else tasks
  }

  /** The task table after the `updateOrder` loop has processed `us`. */
  function ApplyOrders(tasks: map<string, Task>, us: seq<OrderUpdate>, now: Timestamp): (r: map<string, Task>)
    ensures r.Keys == tasks.Keys
    decreases |us|
  {
    if us == [] then tasks else ApplyOrder(ApplyOrders(tasks, us[..|us| - 1], now), us[|us| - 1], now)
  }

  /** The order of the last entry for `id`, if there is one. */
  function LastOrderFor(us: seq<OrderUpdate>, id: string): (r: Option<int>)
    ensures r.None? <==> forall i :: 0 <= i < |us| ==> us[i].id != id
    ensures r.Some? ==> exists i :: 0 <= i < |us| && us[i] == OrderUpdate(id, r.value)
    decreases |us|
  {
    if us == [] then None
    else if us[|us| - 1].id == id then Some(us[|us| - 1].order)
    else LastOrderFor(us[..|us| - 1], id)
  }

  /** The order `LastOrderFor` gives is that of an entry for the id after
      which no entry names the id again. */
  lemma {:induction false} LastOrderForIsLast(us: seq<OrderUpdate>, id: string)
    ensures LastOrderFor(us, id).Some? ==>
              exists i :: 0 <= i < |us| && us[i] == OrderUpdate(id, LastOrderFor(us, id).value) &&
                          forall j :: i < j < |us| ==> us[j].id != id
    decreases |us|
  {
    if us != [] {
      var n := |us| - 1;
      if us[n].id == id {
        assert us[n] == OrderUpdate(id, LastOrderFor(us, id).value);
      } else {
        LastOrderForIsLast(us[..n], id);
        if LastOrderFor(us, id).Some? {
          var i :| 0 <= i < n && us[..n][i] == OrderUpdate(id, LastOrderFor(us, id).value) &&
                   forall j :: i < j < n ==> us[..n][j].id != id;
          assert us[i] == OrderUpdate(id, LastOrderFor(us, id).value);
          assert forall j :: i < j < |us| ==> us[j].id != id by {
            forall j | i < j < |us| ensures us[j].id != id {
              if j < n {
                assert us[j] == us[..n][j];
              }
            }
          }
        }
      }
    }
  }

  /** `updateOrder` touches no other task and no other field: each listed
      task takes the order of its LAST entry and the clock reading, and tasks
      that are not listed, or not present, are as before. */
  lemma {:induction false} ApplyOrdersLastWins(tasks: map<string, Task>, us: seq<OrderUpdate>, now: Timestamp)
    ensures forall k :: k in tasks ==>
      ApplyOrders(tasks, us, now)[k] ==
        match LastOrderFor(us, k)
        case None => tasks[k]
        case Some(o) => tasks[k].(order := o, updatedAt := now)
    decreases |us|
  {
    if us != [] {
      ApplyOrdersLastWins(tasks, us[..|us| - 1], now);
    }
  }

  /** The settings table of a well-keyed database holds at most one
      record, and when it holds one it is the one under `SettingsKey`. */
  lemma SettingsSingleton(d: Database)
    requires d.Valid()
    ensures |d.appSettings| <= 1
    ensures SettingsKey in d.appSettings ==> d.appSettings.Keys == {SettingsKey}
    ensures forall k :: k in d.appSettings ==> k == SettingsKey
  {
    var ks := d.appSettings.Keys;
    if SettingsKey in ks {
      assert ks == {SettingsKey};
    } else {
      assert ks == {};
    }
  }

  // ---------------------------------------------------------------------

  class Database {
    var categories: map<string, Category>
    var tasks: map<string, Task>
    var taskDetails: map<string, TaskDetail>
    var appSettings: map<string, AppSettings>
    /** Set by the environment (quota exhausted, I/O error): while it holds,
        every storage call rejects before writing anything. */
    var storageFault: bool

    /** Every record sits under its primary key: `id` for categories and
        tasks, `taskId` for details, and the settings only under the fixed
        key `SettingsKey`. */
    ghost predicate Valid()
      reads this
    {
      && (forall k :: k in categories ==> categories[k].id == k)
      && (forall k :: k in tasks ==> tasks[k].id == k)
      && (forall k :: k in taskDetails ==> taskDetails[k].taskId == k)
      && appSettings.Keys <= {SettingsKey}
    }

    /** Every stored detail also carries `id == taskId`. */
    ghost predicate DetailIdsMatch()
      reads this
    {
      forall k :: k in taskDetails ==> taskDetails[k].id == k
    }

    constructor ()
      ensures Valid() && DetailIdsMatch() && !storageFault
      ensures categories == map[] && tasks == map[] && taskDetails == map[] && appSettings == map[]
    {
      categories, tasks, taskDetails, appSettings := map[], map[], map[], map[];
      storageFault := false;
    }

    /** `initializeDatabase`: returns false when storage rejects. */
    method InitializeDatabase(now: Timestamp) returns (ok: bool)
      requires Valid()
      modifies this
      ensures Valid() && storageFault == old(storageFault)
      ensures ok == !storageFault
      ensures appSettings == if ok then InitSettings(old(appSettings), now) else old(appSettings)
      ensures categories == old(categories) && tasks == old(tasks) && taskDetails == old(taskDetails)
    {
      if storageFault {
        return false;
      }
      if SettingsKey !in appSettings {
        appSettings := appSettings[SettingsKey := DefaultSettings(now)];
      }
      ok := true;
    }

    // --- categories -----------------------------------------------------

    /** `categoryQueries.getAll`: every category, ascending by `order`. */
    method CategoryGetAll() returns (r: Result<seq<Category>>)
      requires Valid()
      ensures r.Err? <==> storageFault
      ensures r.Ok? ==> SortedBy(r.value, (c: Category) => c.order)
      ensures r.Ok? ==> |r.value| == |categories|
      ensures r.Ok? ==> forall c :: c in r.value <==> c in categories.Values
    {
      if storageFault {
        return Err(StorageFailure);
      }
      var all := Enumerate(categories);
      var sorted := SortBy(all, (c: Category) => c.order);
      assert forall c :: c in sorted <==> c in multiset(all);
      return Ok(sorted);
    }

    method CategoryGetById(id: string) returns (r: Result<Option<Category>>)
      ensures r.Err? <==> storageFault
      ensures r.Ok? ==> r.value == if id in categories then Some(categories[id]) else None
    {
      if storageFault {
        return Err(StorageFailure);
      }
      r := Ok(if id in categories then Some(categories[id]) else None);
    }

    /** `categoryQueries.create`: stores the record under the fresh id that
        the caller drew, ignoring the record's own `id`. */
    method CategoryCreate(c: Category, freshId: string) returns (r: Result<string>)
      requires Valid()
      modifies this
      ensures Valid() && storageFault == old(storageFault)
      ensures r.Err? <==> storageFault || freshId in old(categories)
      ensures r.Ok? ==> r.value == freshId && freshId !in old(categories)
      ensures categories == if r.Ok? then old(categories)[freshId := c.(id := freshId)] else old(categories)
      ensures tasks == old(tasks) && taskDetails == old(taskDetails) && appSettings == old(appSettings)
    {
      if storageFault {
        return Err(StorageFailure);
      }
      if freshId in categories {
        return Err(KeyExists);
      }
      categories := categories[freshId := c.(id := freshId)];
      r := Ok(freshId);
    }

    /** `categoryQueries.update`: merges without stamping; a missing key is
        left alone. */
    method CategoryUpdate(id: string, p: CategoryPatch) returns (ok: bool)
      requires Valid()
      modifies this
      ensures Valid() && storageFault == old(storageFault)
      ensures ok == !storageFault
      ensures categories == if ok && id in old(categories)
                            then old(categories)[id := MergeCategory(old(categories)[id], p)]
                            else old(categories)
      ensures tasks == old(tasks) && taskDetails == old(taskDetails) && appSettings == old(appSettings)
    {
      if storageFault {
        return false;
      }
      if id in categories {
        categories := categories[id := MergeCategory(categories[id], p)];
      }
      ok := true;
    }

    /** `categoryQueries.delete`: deletes the detail of every task of the
        category one by one, then those tasks, then the category. */
    method CategoryDelete(id: string) returns (ok: bool)
      requires Valid()
      modifies this
      ensures Valid() && storageFault == old(storageFault)
      ensures old(DetailIdsMatch()) ==> DetailIdsMatch()
      ensures ok == !storageFault
      ensures ok ==> categories == old(categories) - {id}
      ensures ok ==> tasks == WithoutCategory(old(tasks), id)
      ensures ok ==> taskDetails == old(taskDetails) - TasksOf(old(tasks), id)
      ensures !ok ==> categories == old(categories) && tasks == old(tasks) && taskDetails == old(taskDetails)
      ensures appSettings == old(appSettings)
    {
      if storageFault {
        return false;
      }
      var doomed := TasksOf(tasks, id);
      var pending := doomed;
      while pending != {}
        invariant pending <= doomed
        invariant taskDetails == old(taskDetails) - (doomed - pending)
        invariant Valid() && tasks == old(tasks) && categories == old(categories)
        invariant appSettings == old(appSettings) && storageFault == old(storageFault)
        decreases pending
      {
        var k :| k in pending;
        taskDetails := taskDetails - {k};
        pending := pending - {k};
      }
      tasks := WithoutCategory(tasks, id);
      categories := categories - {id};
      ok := true;
    }

    // --- tasks ------------------------------------------------------------

    method TaskGetAll() returns (r: Result<seq<Task>>)
      ensures r.Err? <==> storageFault
      ensures r.Ok? ==> |r.value| == |tasks|
      ensures r.Ok? ==> forall t :: t in r.value <==> t in tasks.Values
    {
      if storageFault {
        return Err(StorageFailure);
      }
      var all := Enumerate(tasks);
      return Ok(all);
    }

    /** `getByCategoryAndStatus`: exactly the tasks matching both fields, in
        no particular order. */
    method TaskGetByCategoryAndStatus(c: string, s: TaskStatus) returns (r: Result<seq<Task>>)
      ensures r.Err? <==> storageFault
      ensures r.Ok? ==> forall t :: t in r.value <==> t in tasks.Values && t.categoryId == c && t.status == s
      ensures r.Ok? && Valid() ==> forall t :: multiset(r.value)[t] == if t in tasks.Values && t.categoryId == c && t.status == s then 1 else 0
    {
      if storageFault {
        return Err(StorageFailure);
      }
      if Valid() {
        assert Injective(tasks);
      }
      var all := Enumerate(tasks);
      return Ok(Filter(all, (t: Task) => t.categoryId == c && t.status == s));
    }

    /** `getByCategory`: exactly the tasks of category `c`. */
    method TaskGetByCategory(c: string) returns (r: Result<seq<Task>>)
      ensures r.Err? <==> storageFault
      ensures r.Ok? ==> forall t :: t in r.value <==> t in tasks.Values && t.categoryId == c
      ensures r.Ok? && Valid() ==> forall t :: multiset(r.value)[t] == if t in tasks.Values && t.categoryId == c then 1 else 0
    {
      if storageFault {
        return Err(StorageFailure);
      }
      if Valid() {
        assert Injective(tasks);
      }
      var all := Enumerate(tasks);
      return Ok(Filter(all, (t: Task) => t.categoryId == c));
    }

    method TaskGetById(id: string) returns (r: Result<Option<Task>>)
      ensures r.Err? <==> storageFault
      ensures r.Ok? ==> r.value == if id in tasks then Some(tasks[id]) else None
    {
      if storageFault {
        return Err(StorageFailure);
      }
      r := Ok(if id in tasks then Some(tasks[id]) else None);
    }

    /** `taskQueries.create`: adds the task under the fresh id, then puts an
        empty detail under the same key (replacing any detail already
        there). */
    method TaskCreate(t: Task, freshId: string, now: Timestamp) returns (r: Result<string>)
      requires Valid()
      modifies this
      ensures Valid() && storageFault == old(storageFault)
      ensures old(DetailIdsMatch()) ==> DetailIdsMatch()
      ensures r.Err? <==> storageFault || freshId in old(tasks)
      ensures r.Ok? ==> r.value == freshId && freshId !in old(tasks)
      ensures tasks == if r.Ok? then old(tasks)[freshId := t.(id := freshId)] else old(tasks)
      ensures taskDetails == if r.Ok? then old(taskDetails)[freshId := EmptyDetail(freshId, now)] else old(taskDetails)
      ensures categories == old(categories) && appSettings == old(appSettings)
    {
      if storageFault {
        return Err(StorageFailure);
      }
      if freshId in tasks {
        return Err(KeyExists);
      }
      tasks := tasks[freshId := t.(id := freshId)];
      var _ := DetailCreate(EmptyDetail(freshId, now));
      r := Ok(freshId);
    }

    /** `taskQueries.update`: merges the patch, then overwrites `updatedAt`
        with the clock reading; a missing key is left alone. */
    method TaskUpdate(id: string, p: TaskPatch, now: Timestamp) returns (ok: bool)
      requires Valid()
      modifies this
      ensures Valid() && storageFault == old(storageFault)
      ensures ok == !storageFault
      ensures tasks == if ok && id in old(tasks)
                       then old(tasks)[id := MergeTask(old(tasks)[id], p.(updatedAt := Some(now)))]
                       else old(tasks)
      ensures categories == old(categories) && taskDetails == old(taskDetails) && appSettings == old(appSettings)
    {
      if storageFault {
        return false;
      }
      if id in tasks {
        tasks := tasks[id := MergeTask(tasks[id], p.(updatedAt := Some(now)))];
      }
      ok := true;
    }

    /** `taskQueries.delete`: the detail first, then the task; deleting a
        missing key is a no-op. */
    method TaskDelete(id: string) returns (ok: bool)
      requires Valid()
      modifies this
      ensures Valid() && storageFault == old(storageFault)
      ensures old(DetailIdsMatch()) ==> DetailIdsMatch()
      ensures ok == !storageFault
      ensures tasks == if ok then old(tasks) - {id} else old(tasks)
      ensures taskDetails == if ok then old(taskDetails) - {id} else old(taskDetails)
      ensures categories == old(categories) && appSettings == old(appSettings)
    {
      if storageFault {
        return false;
      }
      taskDetails := taskDetails - {id};
      tasks := tasks - {id};
      ok := true;
    }

    /** `taskQueries.updateOrder`: one `update` per entry, in list order. An
        empty list issues no storage call and so cannot fail. */
    method TaskUpdateOrder(us: seq<OrderUpdate>, now: Timestamp) returns (ok: bool)
      requires Valid()
      modifies this
      ensures Valid() && storageFault == old(storageFault)
      ensures ok == (!storageFault || us == [])
      ensures tasks == if ok then ApplyOrders(old(tasks), us, now) else old(tasks)
      ensures categories == old(categories) && taskDetails == old(taskDetails) && appSettings == old(appSettings)
    {
      if storageFault && us != [] {
        return false;
      }
      var i := 0;
      while i < |us|
        invariant 0 <= i <= |us|
        invariant Valid()
        invariant tasks == ApplyOrders(old(tasks), us[..i], now)
        invariant categories == old(categories) && taskDetails == old(taskDetails)
        invariant appSettings == old(appSettings) && storageFault == old(storageFault)
      {
        assert us[..i + 1][..i] == us[..i];
        var u := us[i];
        if u.id in tasks {
          tasks := tasks[u.id := tasks[u.id].(order := u.order, updatedAt := now)];
        }
        i := i + 1;
      }
      assert us[..|us|] == us;
      ok := true;
    }

    // --- task details -----------------------------------------------------

    method DetailGetByTaskId(taskId: string) returns (r: Result<Option<TaskDetail>>)
      ensures r.Err? <==> storageFault
      ensures r.Ok? ==> r.value == if taskId in taskDetails then Some(taskDetails[taskId]) else None
    {
      if storageFault {
        return Err(StorageFailure);
      }
      r := Ok(if taskId in taskDetails then Some(taskDetails[taskId]) else None);
    }

    /** `taskDetailQueries.create`: `put` of the record with `id := taskId`,
        replacing any detail already stored for that task. */
    method DetailCreate(d: TaskDetail) returns (r: Result<string>)
      requires Valid()
      modifies this
      ensures Valid() && storageFault == old(storageFault)
      ensures old(DetailIdsMatch()) ==> DetailIdsMatch()
      ensures r.Err? <==> storageFault
      ensures r.Ok? ==> r.value == d.taskId
      ensures taskDetails == if r.Ok? then old(taskDetails)[d.taskId := d.(id := d.taskId)] else old(taskDetails)
      ensures categories == old(categories) && tasks == old(tasks) && appSettings == old(appSettings)
    {
      if storageFault {
        return Err(StorageFailure);
      }
      taskDetails := taskDetails[d.taskId := d.(id := d.taskId)];
      r := Ok(d.taskId);
    }

    /** `taskDetailQueries.update`: merge, then stamp `updatedAt`. */
    method DetailUpdate(taskId: string, p: DetailPatch, now: Timestamp) returns (ok: bool)
      requires Valid()
      modifies this
      ensures Valid() && storageFault == old(storageFault)
      ensures old(DetailIdsMatch()) ==> DetailIdsMatch()
      ensures ok == !storageFault
      ensures taskDetails == if ok && taskId in old(taskDetails)
                             then old(taskDetails)[taskId := MergeDetail(old(taskDetails)[taskId], p.(updatedAt := Some(now)))]
                             else old(taskDetails)
      ensures categories == old(categories) && tasks == old(tasks) && appSettings == old(appSettings)
    {
      if storageFault {
        return false;
      }
      if taskId in taskDetails {
        taskDetails := taskDetails[taskId := MergeDetail(taskDetails[taskId], p.(updatedAt := Some(now)))];
      }
      ok := true;
    }

    /** `db.taskDetails.put(detail)` as the editing session issues it: the
        record is stored as given, under its `taskId`, without stamping. */
    method DetailPut(d: TaskDetail) returns (ok: bool)
      requires Valid()
      modifies this
      ensures Valid() && storageFault == old(storageFault)
      ensures old(DetailIdsMatch()) && d.id == d.taskId ==> DetailIdsMatch()
      ensures ok == !storageFault
      ensures taskDetails == if ok then old(taskDetails)[d.taskId := d] else old(taskDetails)
      ensures categories == old(categories) && tasks == old(tasks) && appSettings == old(appSettings)
    {
      if storageFault {
        return false;
      }
      taskDetails := taskDetails[d.taskId := d];
      ok := true;
    }

    // --- settings ---------------------------------------------------------

    method SettingsGet() returns (r: Result<Option<AppSettings>>)
      ensures r.Err? <==> storageFault
      ensures r.Ok? ==> r.value == if SettingsKey in appSettings then Some(appSettings[SettingsKey]) else None
    {
      if storageFault {
        return Err(StorageFailure);
      }
      r := Ok(if SettingsKey in appSettings then Some(appSettings[SettingsKey]) else None);
    }

    /** `settingsQueries.update`: merge into the singleton and stamp it. */
    method SettingsUpdate(p: SettingsPatch, now: Timestamp) returns (ok: bool)
      requires Valid()
      modifies this
      ensures Valid() && storageFault == old(storageFault)
      ensures ok == !storageFault
      ensures appSettings == if ok && SettingsKey in old(appSettings)
                             then old(appSettings)[SettingsKey := MergeSettings(old(appSettings)[SettingsKey], p.(updatedAt := Some(now)))]
                             else old(appSettings)
      ensures categories == old(categories) && tasks == old(tasks) && taskDetails == old(taskDetails)
    {
      if storageFault {
        return false;
      }
      if SettingsKey in appSettings {
        appSettings := appSettings[SettingsKey := MergeSettings(appSettings[SettingsKey], p.(updatedAt := Some(now)))];
      }
      ok := true;
    }
  }

  /** No record is stored under two keys. */
  predicate Injective<T(==)>(m: map<string, T>)
  {
    forall k1, k2 :: k1 in m && k2 in m && m[k1] == m[k2] ==> k1 == k2
  }

  /** `toArray()` over a whole table: each stored record once. The order
      (primary-key order in the source) is left unspecified. */
  method Enumerate<T(==)>(m: map<string, T>) returns (s: seq<T>)
    ensures |s| == |m|
    ensures forall x :: x in s <==> x in m.Values
    ensures Injective(m) ==> forall x :: multiset(s)[x] <= 1
  {
    var pending := m.Keys;
    s := [];
    while pending != {}
      invariant pending <= m.Keys
      invariant |s| + |pending| == |m|
      invariant forall x :: x in s <==> exists k :: k in m.Keys - pending && m[k] == x
      invariant Injective(m) ==> forall x :: multiset(s)[x] <= 1
      decreases pending
    {
      var k :| k in pending;
      assert Injective(m) ==> m[k] !in s;
      s := s + [m[k]];
      pending := pending - {k};
    }
  }
}
