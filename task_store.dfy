/** The in-memory task cache (src/store/taskStore.ts): a sequence of tasks
    with derived queries, and actions that first await the storage call and
    only then rewrite the cached sequence, so a rejected call leaves the
    cache exactly as it was. */
module Tasks {
  import opened Types
  import opened Sequences
  import opened Db

  /** `Math.round(p / 10) * 10` for an integer `p`: the multiple of ten
      nearest to `p`, halves rounded up. */
  function Quantize(p: int): (r: int)
    ensures r % 10 == 0
    ensures p - 5 < r <= p + 5
  {
    var q := (p + 5) / 10;
    assert p + 5 - 10 < q * 10 <= p + 5;
    q * 10
  }

  /** A slider value in [0, 100] quantises into [0, 100]. */
  lemma QuantizeBounds(p: int)
    requires 0 <= p <= 100
    ensures 0 <= Quantize(p) <= 100
  {
  }

  /** Quantising twice is quantising once, so the editing session's own
      rounding before `updateTaskProgress` changes nothing. */
  lemma QuantizeIdempotent(p: int)
    ensures Quantize(Quantize(p)) == Quantize(p)
  {
  }

  lemma QuantizeExamples()
    ensures Quantize(97) == 100 && Quantize(95) == 100 && Quantize(85) == 90 && Quantize(4) == 0
  {
  }

  /** `tasks.find((t) => t.id === id)`: the first task with that id. */
  function FindById(s: seq<Task>, id: string): (r: Option<Task>)
    ensures r.None? <==> forall i :: 0 <= i < |s| ==> s[i].id != id
    ensures r.Some? ==> exists i :: 0 <= i < |s| && s[i] == r.value && r.value.id == id &&
                                    forall j :: 0 <= j < i ==> s[j].id != id
  {
    if s == [] then None
    else if s[0].id == id then Some(s[0])
    else
      var r := FindById(s[1..], id);
      assert r.Some? ==> exists i :: 1 <= i < |s| && s[i] == r.value && r.value.id == id &&
                                     forall j :: 0 <= j < i ==> s[j].id != id by {
        if r.Some? {
          var i :| 0 <= i < |s| - 1 && s[1..][i] == r.value && r.value.id == id &&
                   forall j :: 0 <= j < i ==> s[1..][j].id != id;
          assert s[i + 1] == r.value;
          assert forall j :: 1 <= j < i + 1 ==> s[j].id == s[1..][j - 1].id;
        }
      }
      r
  }

  /** `tasks.map((t) => t.id === id ? { ...t, ...p } : t)`. */
  function MergeWhere(s: seq<Task>, id: string, p: TaskPatch): (r: seq<Task>)
  {
    seq(|s|, i requires 0 <= i < |s| => if s[i].id == id then MergeTask(s[i], p) else s[i])
  }

  /** After a merge-update the lookup by id sees the merged task, every id
      stays where it was, and every other task is untouched. */
  lemma {:induction false} MergeWhereSpec(s: seq<Task>, id: string, p: TaskPatch)
    ensures |MergeWhere(s, id, p)| == |s|
    ensures forall i :: 0 <= i < |s| ==> MergeWhere(s, id, p)[i].id == s[i].id
    ensures forall i :: 0 <= i < |s| && s[i].id != id ==> MergeWhere(s, id, p)[i] == s[i]
    ensures FindById(MergeWhere(s, id, p), id) ==
              match FindById(s, id)
              case None => None
              case Some(t) => Some(MergeTask(t, p))
  {
    var r := MergeWhere(s, id, p);
    if s != [] {
      MergeWhereSpec(s[1..], id, p);
      assert r[1..] == MergeWhere(s[1..], id, p);
    }
  }

  predicate InGroup(t: Task, c: string, st: TaskStatus)
  {
    t.categoryId == c && t.status == st
  }

  /** The number of `todo` tasks of category `c` in the cache: the order a
      new task of that category receives. */
  function TodoCount(s: seq<Task>, c: string): nat
  {
    |Filter(s, (t: Task) => InGroup(t, c, Todo))|
  }

  /** The record `addTask` writes and caches. */
  function NewTask(id: string, c: string, title: string, pr: Priority, order: int, now: Timestamp): Task
  {
    Task(id, c, title, Todo, 0, pr, None, order, now, now, None)
  }

  /** Each added task raises the count by one, so successive adds into one
      category receive successive orders. */
  lemma AddRaisesTodoCount(s: seq<Task>, t: Task)
    requires t.status == Todo
    ensures TodoCount([t] + s, t.categoryId) == TodoCount(s, t.categoryId) + 1
    ensures forall c :: c != t.categoryId ==> TodoCount([t] + s, c) == TodoCount(s, c)
  {
    forall c {
      FilterPrepend(t, s, (u: Task) => InGroup(u, c, Todo));
    }
  }

  /** The patch `updateTaskStatus` sends: status and stamp, plus completion
      time and full progress when the new status is `done`. */
  function StatusPatch(st: TaskStatus, now: Timestamp): TaskPatch
  {
    NoTaskChange.(status := Some(st), updatedAt := Some(now),
                  completedAt := if st == Done then Some(Some(now)) else None,
                  progress := if st == Done then Some(100) else None)
  }

  /** A transition to `done` sets `completedAt` and full progress; any other
      transition keeps both as they were; nothing else changes but the
      status and the stamp. */
  lemma StatusTransition(t: Task, st: TaskStatus, now: Timestamp)
    ensures MergeTask(t, StatusPatch(st, now)) ==
      t.(status := st, updatedAt := now,
         completedAt := if st == Done then Some(now) else t.completedAt,
         progress := if st == Done then 100 else t.progress)
  {
  }

  function ProgressPatch(q: int): TaskPatch
  {
    NoTaskChange.(progress := Some(q))
  }

  /** The first entry for `id` in a reorder list (`tasks.find`). */
  function FirstOrderFor(us: seq<OrderUpdate>, id: string): (r: Option<int>)
    ensures r.None? <==> forall i :: 0 <= i < |us| ==> us[i].id != id
  {
    if us == [] then None
    else if us[0].id == id then Some(us[0].order)
    else FirstOrderFor(us[1..], id)
  }

  /** The order `FirstOrderFor` gives is that of an entry for the id before
      which no entry names the id. */
  lemma {:induction false} FirstOrderForIsFirst(us: seq<OrderUpdate>, id: string)
    ensures FirstOrderFor(us, id).Some? ==>
              exists i :: 0 <= i < |us| && us[i] == OrderUpdate(id, FirstOrderFor(us, id).value) &&
                          forall j :: 0 <= j < i ==> us[j].id != id
    decreases |us|
  {
    if us != [] {
      if us[0].id == id {
        assert us[0] == OrderUpdate(id, FirstOrderFor(us, id).value);
      } else {
        FirstOrderForIsFirst(us[1..], id);
        if FirstOrderFor(us, id).Some? {
          var i :| 0 <= i < |us| - 1 && us[1..][i] == OrderUpdate(id, FirstOrderFor(us, id).value) &&
                   forall j :: 0 <= j < i ==> us[1..][j].id != id;
          assert us[i + 1] == OrderUpdate(id, FirstOrderFor(us, id).value);
          assert forall j :: 0 <= j < i + 1 ==> us[j].id != id by {
            forall j | 0 <= j < i + 1 ensures us[j].id != id {
              if j > 0 {
                assert us[j] == us[1..][j - 1];
              }
            }
          }
        }
      }
    }
  }

  /** The cache after `reorderTasks(c, st, us)`: a cached task takes the
      order of the first entry for its id, but only if it is in the group. */
  function ReorderCache(s: seq<Task>, c: string, st: TaskStatus, us: seq<OrderUpdate>): (r: seq<Task>)
  {
    seq(|s|, i requires 0 <= i < |s| =>
      var u := FirstOrderFor(us, s[i].id);
      if u.Some? && InGroup(s[i], c, st) then s[i].(order := u.value) else s[i])
  }

  predicate DistinctIds(us: seq<OrderUpdate>)
  {
    forall i, j :: 0 <= i < j < |us| ==> us[i].id != us[j].id
  }

  /** Without repeated ids the first and the last entry for an id agree. */
  lemma {:induction false} FirstIsLast(us: seq<OrderUpdate>, id: string)
    requires DistinctIds(us)
    ensures FirstOrderFor(us, id) == LastOrderFor(us, id)
    decreases |us|
  {
    if us != [] {
      var n := |us| - 1;
      if us[0].id == id {
        if n > 0 {
          assert forall i :: 0 <= i < n ==> us[..n][i].id != us[n].id;
          assert us[..n][0] == us[0];
        }
      } else {
        FirstIsLast(us[1..], id);
        if n > 0 {
          assert us[1..][..n - 1] == us[..n][1..];
          FirstIsLast(us[..n][1..], id);
          if us[n].id != id {
            assert us[..n][0] == us[0];
          }
        }
      }
    }
  }

  /** `reorderTasks` changes nothing outside the group: a cached task that
      is not in (c, st), or not listed, is as before; a listed group task
      changes its order only. When the list has no repeated id, the order it
      takes is the one the store now holds for it. */
  lemma ReorderCacheSpec(s: seq<Task>, m: map<string, Task>, c: string, st: TaskStatus,
                         us: seq<OrderUpdate>, now: Timestamp)
    ensures |ReorderCache(s, c, st, us)| == |s|
    ensures forall i :: 0 <= i < |s| && (!InGroup(s[i], c, st) || FirstOrderFor(us, s[i].id).None?) ==>
              ReorderCache(s, c, st, us)[i] == s[i]
    ensures forall i :: 0 <= i < |s| ==>
              ReorderCache(s, c, st, us)[i] == s[i].(order := ReorderCache(s, c, st, us)[i].order)
    ensures DistinctIds(us) ==>
              forall i :: 0 <= i < |s| && InGroup(s[i], c, st) && s[i].id in m && FirstOrderFor(us, s[i].id).Some? ==>
                ReorderCache(s, c, st, us)[i].order == ApplyOrders(m, us, now)[s[i].id].order
  {
    ApplyOrdersLastWins(m, us, now);
    if DistinctIds(us) {
      forall i | 0 <= i < |s| {
        FirstIsLast(us, s[i].id);
      }
    }
  }

  /** With a repeated id the cache and the store disagree: a group task
      listed as `[(id, 1), (id, 2)]` takes order 1 in the cache and order 2
      in the store. */
  lemma RepeatedIdDisagrees(t: Task, c: string, st: TaskStatus, now: Timestamp)
    requires InGroup(t, c, st)
    ensures var us := [OrderUpdate(t.id, 1), OrderUpdate(t.id, 2)];
            && ReorderCache([t], c, st, us)[0].order == 1
            && ApplyOrders(map[t.id := t], us, now)[t.id].order == 2
  {
    var us := [OrderUpdate(t.id, 1), OrderUpdate(t.id, 2)];
    assert us[..1] == [OrderUpdate(t.id, 1)];
    assert us[..1][..0] == [];
  }

  class TaskStore {
    var tasks: seq<Task>
    var isLoading: bool
    const db: Database

    ghost predicate Valid()
      reads this, db
    {
      db.Valid()
    }

    constructor (db: Database)
      requires db.Valid()
      ensures Valid() && this.db == db && tasks == [] && !isLoading
    {
      this.db := db;
      tasks := [];
      isLoading := false;
    }

    /** `getTasksByCategory`: the cached tasks of category `c`, in cache
        order. */
    function TasksByCategory(c: string): (r: seq<Task>)
      reads this
      ensures forall t :: t in r <==> t in tasks && t.categoryId == c
      ensures forall t :: multiset(r)[t] == if t.categoryId == c then multiset(tasks)[t] else 0
    {
      Filter(tasks, (t: Task) => t.categoryId == c)
    }

    /** `getTasksByStatus`: exactly the cached tasks of the group, ascending
        by `order`. */
    function TasksByStatus(c: string, st: TaskStatus): (r: seq<Task>)
      reads this
      ensures SortedBy(r, (t: Task) => t.order)
      ensures forall t :: t in r <==> t in tasks && InGroup(t, c, st)
      ensures forall t :: multiset(r)[t] == if InGroup(t, c, st) then multiset(tasks)[t] else 0
    {
      var g := Filter(tasks, (t: Task) => InGroup(t, c, st));
      var r := SortBy(g, (t: Task) => t.order);
      assert forall t :: t in r <==> t in multiset(g);
      r
    }

    /** `getTaskById`. */
    function TaskById(id: string): (r: Option<Task>)
      reads this
      ensures r.None? <==> forall t :: t in tasks ==> t.id != id
      ensures r.Some? ==> r.value in tasks && r.value.id == id
    {
      FindById(tasks, id)
    }

    /** `loadTasks`: the cache becomes the stored tasks; on a rejected read
        it keeps what it had. */
    method LoadTasks()
      requires Valid()
      modifies this
      ensures Valid() && !isLoading
      ensures old(db.storageFault) ==> tasks == old(tasks)
      ensures !old(db.storageFault) ==> |tasks| == |db.tasks| && forall t :: t in tasks <==> t in db.tasks.Values
    {
      isLoading := true;
      var r := db.TaskGetAll();
      if r.Ok? {
        tasks := r.value;
      }
      isLoading := false;
    }

    /** `addTask`: stores a `todo` task whose order is the number of cached
        `todo` tasks of the category, then puts it at the front of the cache.
        A rejected call is passed on to the caller and changes nothing. */
    method AddTask(c: string, title: string, pr: Priority, freshId: string, now: Timestamp) returns (r: Result<string>)
      requires Valid()
      modifies this, db
      ensures Valid() && db.storageFault == old(db.storageFault)
      ensures r.Err? <==> old(db.storageFault) || freshId in old(db.tasks)
      ensures r.Ok? ==> r.value == freshId &&
                        tasks == [NewTask(freshId, c, title, pr, TodoCount(old(tasks), c), now)] + old(tasks)
      ensures r.Err? ==> tasks == old(tasks)
      ensures db.tasks == if r.Ok? then old(db.tasks)[freshId := tasks[0]] else old(db.tasks)
      ensures db.taskDetails == if r.Ok? then old(db.taskDetails)[freshId := EmptyDetail(freshId, now)] else old(db.taskDetails)
      ensures db.categories == old(db.categories) && db.appSettings == old(db.appSettings)
    {
      var order := TodoCount(tasks, c);
      var t := NewTask(freshId, c, title, pr, order, now);
      r := db.TaskCreate(t, freshId, now);
      if r.Ok? {
        tasks := [t] + tasks;
      }
    }

    /** `updateTask`: the store stamps `updatedAt`, the cache merges the
        patch as given into the matching task. Failures are swallowed. */
    method UpdateTask(id: string, p: TaskPatch, now: Timestamp)
      requires Valid()
      modifies this, db
      ensures Valid() && db.storageFault == old(db.storageFault)
      ensures tasks == if old(db.storageFault) then old(tasks) else MergeWhere(old(tasks), id, p)
      ensures db.tasks == if old(db.storageFault) || id !in old(db.tasks) then old(db.tasks)
                          else old(db.tasks)[id := MergeTask(old(db.tasks)[id], p.(updatedAt := Some(now)))]
      ensures db.categories == old(db.categories) && db.taskDetails == old(db.taskDetails) && db.appSettings == old(db.appSettings)
    {
      var ok := db.TaskUpdate(id, p, now);
      if ok {
        tasks := MergeWhere(tasks, id, p);
      }
    }

    /** `deleteTask`: the task and its detail leave the store, the task
        leaves the cache, the other cached tasks keep their order. */
    method DeleteTask(id: string)
      requires Valid()
      modifies this, db
      ensures Valid() && db.storageFault == old(db.storageFault)
      ensures tasks == if old(db.storageFault) then old(tasks) else Filter(old(tasks), (t: Task) => t.id != id)
      ensures db.tasks == if old(db.storageFault) then old(db.tasks) else old(db.tasks) - {id}
      ensures db.taskDetails == if old(db.storageFault) then old(db.taskDetails) else old(db.taskDetails) - {id}
      ensures db.categories == old(db.categories) && db.appSettings == old(db.appSettings)
    {
      var ok := db.TaskDelete(id);
      if ok {
        tasks := Filter(tasks, (t: Task) => t.id != id);
      }
    }

    /** `updateTaskStatus`: nothing at all for an id that is not cached;
        otherwise the status patch goes to the store and into the cache. */
    method UpdateTaskStatus(id: string, st: TaskStatus, now: Timestamp)
      requires Valid()
      modifies this, db
      ensures Valid() && db.storageFault == old(db.storageFault)
      ensures FindById(old(tasks), id).None? || old(db.storageFault) ==>
                tasks == old(tasks) && db.tasks == old(db.tasks)
      ensures FindById(old(tasks), id).Some? && !old(db.storageFault) ==>
                tasks == MergeWhere(old(tasks), id, StatusPatch(st, now)) &&
                db.tasks == if id in old(db.tasks)
                            then old(db.tasks)[id := MergeTask(old(db.tasks)[id], StatusPatch(st, now))]
                            else old(db.tasks)
      ensures db.categories == old(db.categories) && db.taskDetails == old(db.taskDetails) && db.appSettings == old(db.appSettings)
    {
      var found := FindById(tasks, id);
      if found.None? {
        return;
      }
      var p := StatusPatch(st, now);
      assert p.(updatedAt := Some(now)) == p;
      var ok := db.TaskUpdate(id, p, now);
      if ok {
        tasks := MergeWhere(tasks, id, p);
      }
    }

    /** `updateTaskProgress`: stores and caches the quantised progress. */
    method UpdateTaskProgress(id: string, progress: int, now: Timestamp)
      requires Valid()
      modifies this, db
      ensures Valid() && db.storageFault == old(db.storageFault)
      ensures tasks == if old(db.storageFault) then old(tasks) else MergeWhere(old(tasks), id, ProgressPatch(Quantize(progress)))
      ensures db.tasks == if old(db.storageFault) || id !in old(db.tasks) then old(db.tasks)
                          else old(db.tasks)[id := old(db.tasks)[id].(progress := Quantize(progress), updatedAt := now)]
      ensures db.categories == old(db.categories) && db.taskDetails == old(db.taskDetails) && db.appSettings == old(db.appSettings)
    {
      var q := Quantize(progress);
      var ok := db.TaskUpdate(id, ProgressPatch(q), now);
      if ok {
        tasks := MergeWhere(tasks, id, ProgressPatch(q));
      }
    }

    /** `reorderTasks`: the whole list goes to the store; in the cache only
        listed tasks of the group take a new order. */
    method ReorderTasks(c: string, st: TaskStatus, us: seq<OrderUpdate>, now: Timestamp)
      requires Valid()
      modifies this, db
      ensures Valid() && db.storageFault == old(db.storageFault)
      ensures old(db.storageFault) && us != [] ==> tasks == old(tasks) && db.tasks == old(db.tasks)
      ensures !old(db.storageFault) || us == [] ==>
                tasks == ReorderCache(old(tasks), c, st, us) && db.tasks == ApplyOrders(old(db.tasks), us, now)
      ensures db.categories == old(db.categories) && db.taskDetails == old(db.taskDetails) && db.appSettings == old(db.appSettings)
    {
      var ok := db.TaskUpdateOrder(us, now);
      if ok {
        tasks := ReorderCache(tasks, c, st, us);
      }
    }
  }
}
