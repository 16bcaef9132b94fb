# Task manager core in Dafny

This is a model of the local-first task manager's core. The app stores
categories, tasks and task details in IndexedDB, through Dexie. Zustand
stores cache them in memory. React components edit them. The model covers:

- the storage layer (`src/db/db.ts`);
- the task and category caches (`src/store/taskStore.ts`,
  `src/store/categoryStore.ts`);
- the task-detail editing session (`src/components/WorkSpace.tsx`);
- the add, rename and drag handlers of the task list
  (`src/components/Sidebar.tsx`);
- the URL linkifier (`src/utils/linkConverter.tsx`);
- the entity shapes (`src/types/index.ts`).

Modules, one per file:

- `Types` (`types.dfy`) holds the entities and the patches. A patch is a
  partial record; `{ ...a, ...b }` merges it in. The module also holds the
  JavaScript `trim` and its white-space set.
- `Sequences` (`sequences.dfy`) holds `findIndex`, `filter`, a sort by
  integer key and dnd-kit's `arrayMove`.
- `Db` (`db.dfy`) is a `Database` class with four keyed tables, held as
  maps. A `storageFault` flag stands for a failing IndexedDB: while it is
  set, every call rejects before it writes anything. Each awaited Dexie call
  is one atomic step.
- `Tasks` (`task_store.dfy`) and `Categories` (`category_store.dfy`) are
  the caches. Each is a class whose sequence fields its actions reassign.
  An action writes the cache only after its storage call returned, so a
  rejected call leaves the cache as it was.
- `Checklist` (`checklist.dfy`) holds the checklist edits as functions on a
  task detail.
- `WorkSpace` (`workspace.dfy`) is the editing session. It is a class with
  the loaded detail and the two debounce timers: autosave, and the
  item-detail text. One event handler is one batched React commit
  (`Commit`). An effect re-runs when one of its dependencies changed
  in that commit.
- `Sidebar` (`sidebar.dfy`) holds the task-list handlers.
- `LinkConverter` (`link_converter.dfy`) scans for the URL pattern. It is
  proved three ways against the function `Convert`:
  - the pieces spell out the input;
  - they alternate text and link;
  - each link is exactly the longest match the pattern allows at the
    leftmost position.

Clock readings, `crypto.randomUUID` and `Math.random` ids, and the answers
of `prompt` are parameters of the operations that use them.

Behaviours of the source that the model reproduces as written:

- **Drag reorder in the task list.** It numbers the category's whole list:
  every status, in cache order. It passes `'todo'` as the status.
  - The store then stores the new order of every listed task.
  - The cache changes only the listed `todo` tasks, so the other tasks'
    cached orders fall behind the stored ones.
  - The cache takes the first entry for a repeated id; the store keeps the
    last. `ReorderCacheSpec` shows the two agree when no id repeats.
  - Example: the list holds a `done` task, and a drag moves it. The store
    holds its new order, but the cache keeps the old one.
- **Renaming a task.** The untrimmed answer is compared with the title.
  The trimmed answer is stored. So `" Foo "` over `"Foo"` still writes (and
  stamps) the same title.
- **Checklist text edits.** The menu edit stores the answer untrimmed, and
  may store an empty string. The inline edit trims, and refuses blank text.
  `EditPathsDiffer` shows both on one input.
- **Deleting a category.** The store deletes the category's tasks and their
  details. The task cache keeps those tasks until the next `loadTasks`.
- **Creating a task.** The detail created with it has no `description`,
  although the type declares one. Checklist items carry a `detail` field
  that the type does not declare.
- **The item-detail timer.** It writes the typed text into the selected
  plan item. That commits a new detail, which re-arms the timer. So while an
  item is selected, the timer keeps firing.
  - If another item is selected within the debounce window, the text typed
    for the first item is dropped.
  - If it fires with no detail loaded, the source throws. The model treats
    that as a no-op that consumes the timer.
- **Ticking a checkbox.** The click also bubbles to the row, which selects
  the item in the same commit. So ticking item B while item A's detail
  text is still debouncing drops A's text, as selecting B would.
- **The execution panel.** The editing session renders only the plan panel.
  The checklist handlers are still modelled for both sections, because the
  source writes them over `panelKey`.

## Model

| member | source | states |
|---|---|---|
| Types.DefaultSettings | src/db/db.ts:35-46 | first-launch settings: auto theme, Korean, autosave on with a 3000 ms delay, due-date notifications on, daily reminder off, stamped with the clock |
| Types.EmptyDetail | src/db/db.ts:115-120 | the detail created with a task has `id == taskId ==` the task id, an empty plan and execution, and no description |
| Types.MergeCategory | src/db/db.ts:73-75 | merging a partial category never changes its id |
| Types.MergeTask | src/store/taskStore.ts:113-115 | merging a partial task never changes its id |
| Types.MergeDetail | src/db/db.ts:161-166 | merging a partial detail keeps `id` and `taskId` |
| Types.MergeNothing | src/store/taskStore.ts:112-115 | a patch with every field absent leaves the task as it was |
| Types.Trim | src/components/Sidebar.tsx:130-134 | the trimmed string is no longer than the input, and neither end is white space (`\s`, ECMAScript WhiteSpace and LineTerminator) |
| Types.TrimStartSpec | src/components/Sidebar.tsx:130-134 | dropping leading white space leaves a suffix of the input that does not start with white space, and removes only white space |
| Types.TrimEndSpec | src/components/Sidebar.tsx:130-134 | dropping trailing white space leaves a prefix of the input that does not end with white space, and removes only white space |
| Types.TrimSpec | src/components/Sidebar.tsx:130-134 | `trim` keeps one contiguous stretch of its input, the one that starts after the leading white space |
| Types.TrimRemovesSpace | src/components/Sidebar.tsx:130-134 | what `trim` removes on either side of that stretch is all white space |
| Types.TrimEmptyIffBlank | src/components/WorkSpace.tsx:417-418 | a string trims to `''` exactly when it is all white space, so `if (text.trim())` rejects blank input and nothing else |
| Sequences.FirstIndex | src/components/WorkSpace.tsx:359-360 | `findIndex` gives the first position that satisfies the predicate, or none exactly when no element does |
| Sequences.Filter | src/store/taskStore.ts:127-129 | `filter` keeps each satisfying element exactly as often as the input holds it, and drops the others |
| Sequences.FilterPrepend | src/store/taskStore.ts:63-66 | filtering `[x] + s` is `x` followed by the filtered `s` when `x` satisfies the predicate, else just the filtered `s` |
| Sequences.Insert | src/store/taskStore.ts:54 | inserting into a list sorted by key keeps it sorted and adds exactly one element |
| Sequences.SortBy | src/store/taskStore.ts:49-55 | sorting by `order` gives an ascending permutation of the input |
| Sequences.ArrayMove | src/components/WorkSpace.tsx:363 | `arrayMove` is a permutation that places the moved element at the target index |
| Sequences.ArrayMoveAt | src/components/WorkSpace.tsx:363 | position by position, `arrayMove` reads from the source index; the elements between the two indexes shift by one |
| Sequences.ArrayMoveSame | src/components/WorkSpace.tsx:358-363 | moving an element onto its own index changes nothing |
| Db.InitSettingsIdempotent | src/db/db.ts:30-53 | after initialisation the settings key exists; a second run changes nothing whatever the clock; existing settings are never overwritten |
| Db.TasksOf | src/db/db.ts:79 | the keys of exactly the stored tasks of the category |
| Db.CascadeCounts | src/db/db.ts:77-85 | deleting a category with N tasks removes exactly those N tasks, keeps every other task unchanged, and removes N details when each task owns one |
| Db.ApplyOrders | src/db/db.ts:134-141 | the order loop never adds or removes a task key |
| Db.LastOrderFor | src/db/db.ts:134-141 | the order of some update entry for the id, none exactly when no entry names it |
| Db.LastOrderForIsLast | src/db/db.ts:134-141 | the entry whose order `LastOrderFor` gives is followed by no other entry for the id, so the last write wins |
| Db.SettingsSingleton | src/types/index.ts:70-71 | a well-keyed database (`Database.Valid`, which every storage call keeps) holds at most one settings record, and only under `app-settings` |
| Db.ApplyOrdersLastWins | src/db/db.ts:134-141 | each listed stored task takes the order of its last entry and the clock's stamp; unlisted tasks are unchanged |
| Db.Database.constructor | src/db/db.ts:14-22 | the four tables start empty and well keyed |
| Db.Database.InitializeDatabase | src/db/db.ts:30-53 | returns true and writes the defaults only when the key is absent; returns false on a storage fault; other tables untouched |
| Db.Database.CategoryGetAll | src/db/db.ts:59-61 | every stored category once, ascending by `order`; rejects on a storage fault |
| Db.Database.CategoryGetById | src/db/db.ts:63-65 | the category under the key, or none |
| Db.Database.CategoryCreate | src/db/db.ts:67-71 | stores the record under the fresh id and returns that id; a storage fault or an existing key rejects and writes nothing |
| Db.Database.CategoryUpdate | src/db/db.ts:73-75 | merges the patch into an existing category without stamping; a missing key is left alone |
| Db.Database.CategoryDelete | src/db/db.ts:77-85 | removes the category, its tasks and exactly those tasks' details; keeps every other record and keeps details keyed by their id |
| Db.Database.TaskGetAll | src/db/db.ts:92-94 | every stored task once |
| Db.Database.TaskGetByCategoryAndStatus | src/db/db.ts:96-101 | exactly the stored tasks that match both category and status; in a well-keyed database each of them once |
| Db.Database.TaskGetByCategory | src/db/db.ts:103-105 | exactly the stored tasks of the category; in a well-keyed database each of them once |
| Db.Database.TaskGetById | src/db/db.ts:107-109 | the task under the key, or none |
| Db.Database.TaskCreate | src/db/db.ts:111-122 | adds the task under the fresh id and puts an empty detail under the same key; rejects on a fault or an existing key, writing nothing |
| Db.Database.TaskUpdate | src/db/db.ts:124-126 | merges the patch, then overwrites `updatedAt` with the clock; a missing key is left alone |
| Db.Database.TaskDelete | src/db/db.ts:128-132 | removes the task and its detail; a missing key is a no-op |
| Db.Database.TaskUpdateOrder | src/db/db.ts:134-141 | the task table becomes `ApplyOrders` of the list; an empty list cannot fail |
| Db.Database.DetailGetByTaskId | src/db/db.ts:148-150 | the detail stored for the task, or none |
| Db.Database.DetailCreate | src/db/db.ts:152-159 | puts the record with `id := taskId` under `taskId`, replacing any detail there, and returns the task id |
| Db.Database.DetailUpdate | src/db/db.ts:161-166 | merges the patch and stamps `updatedAt`; a missing key is left alone |
| Db.Database.DetailPut | src/components/WorkSpace.tsx:97 | stores the detail as given under its `taskId`, without stamping |
| Db.Database.SettingsGet | src/db/db.ts:173-175 | the settings singleton, or none |
| Db.Database.SettingsUpdate | src/db/db.ts:177-182 | merges the patch into the singleton and stamps it; absent settings stay absent |
| Db.Enumerate | src/db/db.ts:92-94 | `toArray` lists each stored record exactly once |
| Tasks.Quantize | src/store/taskStore.ts:166 | `Math.round(p / 10) * 10` is a multiple of ten within five of `p`, halves rounded up |
| Tasks.QuantizeBounds | src/store/taskStore.ts:163-170 | a slider value in 0..100 stays in 0..100 |
| Tasks.QuantizeIdempotent | src/components/WorkSpace.tsx:178-182 | rounding twice is rounding once, so the session's own rounding changes nothing in the store |
| Tasks.QuantizeExamples | src/store/taskStore.ts:166 | 97 and 95 round to 100, 85 to 90, 4 to 0 |
| Tasks.FindById | src/store/taskStore.ts:57-59 | `find` gives the first task with the id, or none exactly when none has it |
| Tasks.MergeWhereSpec | src/store/taskStore.ts:112-116 | the merged cache keeps length and ids, changes no other task, and a lookup by id sees the merged task |
| Tasks.AddRaisesTodoCount | src/store/taskStore.ts:63-66 | each added todo task raises its category's todo count by one and no other category's, so successive adds get successive orders |
| Tasks.StatusTransition | src/store/taskStore.ts:140-149 | moving to `done` sets `completedAt` to the clock and progress to 100; other moves keep both; only status and stamp change otherwise |
| Tasks.FirstOrderFor | src/store/taskStore.ts:192 | none exactly when no entry names the id |
| Tasks.FirstOrderForIsFirst | src/store/taskStore.ts:192 | the entry whose order `FirstOrderFor` gives is preceded by no other entry for the id, as `find` returns the first match |
| Tasks.FirstIsLast | src/store/taskStore.ts:190-197 | without repeated ids, the cache's first entry for an id agrees with the store's last |
| Tasks.RepeatedIdDisagrees | src/store/taskStore.ts:182-202 | with the list `[(id, 1), (id, 2)]` a group task takes order 1 in the cache and order 2 in the store |
| Tasks.ReorderCacheSpec | src/store/taskStore.ts:182-202 | only listed tasks of the group change, and only their order; without repeated ids it equals the order the store now holds |
| Tasks.TaskStore.constructor | src/store/taskStore.ts:30-32 | the cache starts empty and not loading |
| Tasks.TaskStore.TasksByCategory | src/store/taskStore.ts:45-47 | exactly the cached tasks of the category, each as often as cached |
| Tasks.TaskStore.TasksByStatus | src/store/taskStore.ts:49-55 | exactly the cached tasks of the category and status, each as often as cached, ascending by order |
| Tasks.TaskStore.TaskById | src/store/taskStore.ts:57-59 | a cached task with the id, or none exactly when no cached task has it |
| Tasks.TaskStore.LoadTasks | src/store/taskStore.ts:34-43 | the cache holds every stored task once; a rejected read keeps the old cache; loading ends false |
| Tasks.TaskStore.AddTask | src/store/taskStore.ts:61-105 | stores and prepends a todo task whose order is the category's cached todo count; a rejection is returned and changes nothing |
| Tasks.TaskStore.UpdateTask | src/store/taskStore.ts:107-120 | the store merges the patch and stamps it; the cache merges the patch as given; a rejection changes nothing |
| Tasks.TaskStore.DeleteTask | src/store/taskStore.ts:122-133 | the task and its detail leave the store, and the task leaves the cache with the rest in order |
| Tasks.TaskStore.UpdateTaskStatus | src/store/taskStore.ts:135-161 | does nothing for an uncached id; otherwise applies the status patch in store and cache |
| Tasks.TaskStore.UpdateTaskProgress | src/store/taskStore.ts:163-180 | store and cache take the rounded progress; the store also stamps |
| Tasks.TaskStore.ReorderTasks | src/store/taskStore.ts:182-202 | the store applies every entry, the cache only listed tasks of the group; a rejection changes nothing |
| Categories.FirstIdOrNull | src/store/categoryStore.ts:30 | the first id, or null; an empty list and an empty first id (falsy in JavaScript) both give none |
| Categories.MergeCategoryWhere | src/store/categoryStore.ts:76-78 | keeps length and ids; every category with another id is unchanged |
| Categories.RenumberedSpec | src/store/categoryStore.ts:104-107 | renumbering keeps the list in its order, sets each order to its index, and is sorted by order |
| Categories.SetCategoryOrder | src/store/categoryStore.ts:110 | one order write never adds or removes a key |
| Categories.ReorderedTable | src/store/categoryStore.ts:109-111 | the writes so far never add or remove a key |
| Categories.ReorderedTableSpec | src/store/categoryStore.ts:102-113 | without repeated ids, each listed stored category's order becomes its index and every other category is unchanged |
| Categories.CategoryStore.constructor | src/store/categoryStore.ts:20-22 | no categories, no selection, not loading |
| Categories.CategoryStore.LoadCategories | src/store/categoryStore.ts:24-37 | the stored categories ascending by order; the first id (or none) is selected; a rejected read keeps cache and selection |
| Categories.CategoryStore.SelectCategory | src/store/categoryStore.ts:39-41 | selects the id without checking that it exists |
| Categories.CategoryStore.AddCategory | src/store/categoryStore.ts:43-68 | the order is the stored count; the category is stored, appended to the cache and selected; a rejection changes nothing |
| Categories.CategoryStore.UpdateCategory | src/store/categoryStore.ts:70-83 | the patch is merged in store and cache; the selection stays |
| Categories.CategoryStore.DeleteCategory | src/store/categoryStore.ts:85-100 | the cascade delete runs; the cache drops the category and selects the first remaining one, or none |
| Categories.CategoryStore.ReorderCategories | src/store/categoryStore.ts:102-117 | one order write per category in list order, then the cache is the renumbered list; a fault on the first write ends it with nothing changed |
| Checklist.WithChecklist | src/components/WorkSpace.tsx:364-365 | only the chosen section's checklist changes |
| Checklist.IndexOf | src/components/WorkSpace.tsx:359-360 | the first item with the id, or none exactly when no item has it |
| Checklist.Prepend | src/components/WorkSpace.tsx:419-425 | `unshift` puts a new open item with the text first and keeps the others in order |
| Checklist.SetText | src/components/WorkSpace.tsx:238-240 | only the first item with the id takes the text; every other item and all ids are unchanged |
| Checklist.SetCompleted | src/components/WorkSpace.tsx:297-300 | only the first item with the id takes the checkbox value |
| Checklist.SetDetail | src/components/WorkSpace.tsx:133-136 | only the first item with the id takes the detail text |
| Checklist.RemoveId | src/components/WorkSpace.tsx:584 | exactly the items without the id remain, each as often as before; the list shrinks when the id was there |
| Checklist.MoveItem | src/components/WorkSpace.tsx:355-369 | a drag reorder is a permutation of the section |
| Checklist.MoveItemSpec | src/components/WorkSpace.tsx:355-369 | without a drop target, on itself or with a missing id nothing changes; otherwise the dragged item lands on the target's index |
| Checklist.FindSection | src/components/WorkSpace.tsx:547-554 | the plan section when it holds the id, else the execution section when that does, else none |
| Checklist.DeleteFromFirstSection | src/components/WorkSpace.tsx:579-588 | the id is filtered out of the first section holding it; none when neither does |
| Checklist.DeleteKeepsSecondSection | src/components/WorkSpace.tsx:582-587 | when both sections hold the id, only the plan loses it |
| Checklist.MenuEditDetail | src/components/WorkSpace.tsx:556-565 | a non-null answer different from the item's text is stored as typed; otherwise nothing changes |
| Checklist.SaveEditChecklist | src/components/WorkSpace.tsx:235-245 | the trimmed text is stored, exactly when the edit is not blank and the item exists |
| Checklist.EditPathsDiffer | src/components/WorkSpace.tsx:235-245 | for the answer `" y "` the menu edit stores `" y "` and the inline edit stores `"y"` |
| WorkSpace.EditingSession.constructor | src/components/WorkSpace.tsx:31-44 | no detail, no timers, no selection, empty inputs |
| WorkSpace.EditingSession.Commit | src/components/WorkSpace.tsx:85-144 | the autosave timer re-arms with a replaced non-null detail; the item-detail timer re-arms when a dependency changed and the selected item id is non-empty (`''` is falsy, as in `if (!selectedItemId) return`) |
| WorkSpace.EditingSession.Open | src/components/WorkSpace.tsx:47-82 | shows the stored detail, or creates an empty one and shows it, clearing the selection; no id or a rejection shows nothing; the item-detail timer follows `Commit` on every path |
| WorkSpace.EditingSession.AutosaveExpire | src/components/WorkSpace.tsx:94-103 | the armed timer writes the current detail with `put`, and is cleared; the detail, the selection, the item-detail timer, `taskId` and the new-item inputs are unchanged |
| WorkSpace.EditingSession.DetailTimerExpire | src/components/WorkSpace.tsx:132-139 | writes the typed text into the selected plan item and commits, re-arming both timers; no-op when the item is not in the plan |
| WorkSpace.EditingSession.SaveNow | src/components/WorkSpace.tsx:158-176 | cancels the autosave and writes the current detail at once; nothing without a detail; the detail, the selection, the item-detail timer, `taskId` and the new-item inputs are unchanged |
| WorkSpace.EditingSession.Teardown | src/components/WorkSpace.tsx:107-143 | the effect clean-ups clear both timers |
| WorkSpace.EditingSession.SelectItem | src/components/WorkSpace.tsx:273-276 | selects the plan item and shows its detail text or `''`; the item-detail timer is armed when the selection or the shown text changed, and otherwise stays as it was; `taskId` and the new-item inputs are unchanged |
| WorkSpace.EditingSession.EditSelectedDetail | src/components/WorkSpace.tsx:492-499 | typing sets the detail text and re-arms the item-detail timer when it changed; unchanged text leaves the timer as it was; `taskId` and the new-item inputs are unchanged |
| WorkSpace.EditingSession.TypeNewItem | src/components/WorkSpace.tsx:411-414 | only that section's input changes; the detail, both timers, the selection and `taskId` are unchanged |
| WorkSpace.EditingSession.AddItem | src/components/WorkSpace.tsx:415-429 | non-blank input is prepended trimmed and the input is cleared; blank input does nothing. After a commit the item-detail timer is armed exactly when a non-empty item id is selected; `taskId` and the other input are unchanged |
| WorkSpace.EditingSession.DragEnd | src/components/WorkSpace.tsx:355-369 | a real move commits the moved section; anything else changes nothing. After a commit the item-detail timer ends armed exactly when a non-empty item id is selected; `taskId` and the new-item inputs are unchanged. |
| WorkSpace.EditingSession.ToggleItem | src/components/WorkSpace.tsx:273-303 | the item's completion takes the checkbox value; because the click also reaches the row's `onClick`, the same commit selects the item and shows its detail text or `''`, and the item-detail timer is armed exactly when the id is non-empty; with no such item nothing changes; `taskId` and the new-item inputs are unchanged |
| WorkSpace.EditingSession.SaveEdit | src/components/WorkSpace.tsx:235-245 | commits the trimmed inline edit when `SaveEditChecklist` accepts it. After a commit the item-detail timer ends armed exactly when a non-empty item id is selected; `taskId` and the new-item inputs are unchanged. |
| WorkSpace.EditingSession.MenuEdit | src/components/WorkSpace.tsx:542-570 | commits `MenuEditDetail` when it changes the text. After a commit the item-detail timer ends armed exactly when a non-empty item id is selected; `taskId` and the new-item inputs are unchanged. |
| WorkSpace.EditingSession.MenuDelete | src/components/WorkSpace.tsx:577-600 | commits the deletion and clears the selection, disarming the item-detail timer, when the deleted item was selected; otherwise the timer ends armed exactly when a non-empty item id is selected; `taskId` and the new-item inputs are unchanged |
| WorkSpace.EditingSession.ProgressChange | src/components/WorkSpace.tsx:178-182 | for the open cached task, the cache takes the rounded progress and the stored task takes it with the clock's stamp (a stored-id condition); without one, or on a storage fault, nothing changes; the other tables are untouched |
| Sidebar.TaskIndex | src/components/Sidebar.tsx:174-175 | the first task with the id, or none exactly when none has it |
| Sidebar.Renumber | src/components/Sidebar.tsx:179-182 | entry `i` is `{ id: ts[i].id, order: i }` |
| Sidebar.DragUpdates | src/components/Sidebar.tsx:170-189 | no update list exactly when there is no target, the task is dropped on itself, or an id is missing |
| Sidebar.IdsOfMove | src/components/Sidebar.tsx:178 | taking the ids commutes with `arrayMove` |
| Sidebar.DragUpdatesSpec | src/components/Sidebar.tsx:173-186 | the update list names every listed task as often as the list does, numbers orders 0..n-1, and puts the dragged task at the target's index |
| Sidebar.SidebarPanel.constructor | src/components/Sidebar.tsx:113-114 | empty input, no open menu |
| Sidebar.SidebarPanel.HandleAddTask | src/components/Sidebar.tsx:129-140 | with a non-blank name and a selected category, adds the trimmed name as a medium-priority task in front of the cache, stores it under the fresh id with an empty detail, and clears the input on success; otherwise nothing changes; categories and settings are untouched |
| Sidebar.NewTitle | src/components/Sidebar.tsx:155-159 | a title exactly when the task is in the shown list and the answer is non-null, not blank and differs untrimmed from the title; that title is the trimmed answer and is never empty |
| Sidebar.SidebarPanel.HandleEditTask | src/components/Sidebar.tsx:155-168 | looks the task up in the selected category's list; renames it in the cache to `NewTitle` and stores that title with the clock's stamp, unless the title is none or storage fails; closes the menu only for a listed task; the other tables are untouched |
| Sidebar.SidebarPanel.HandleDragEnd | src/components/Sidebar.tsx:170-189 | hands the drag's update list to `reorderTasks` with status todo; nothing without a selected category or a real move; categories, details and settings are untouched |
| LinkConverter.SchemeLength | src/utils/linkConverter.tsx:8 | the scheme at a position is `https://`, `http://`, `www.` (any ASCII case) or none |
| LinkConverter.RunEnd | src/utils/linkConverter.tsx:8 | the end of the longest run without white space, `<`, `>`, `"` or `)` |
| LinkConverter.MatchAt | src/utils/linkConverter.tsx:8 | a match at a position is a scheme followed by a non-empty maximal run |
| LinkConverter.Href | src/utils/linkConverter.tsx:31 | `https://` is prefixed exactly when the match starts with lower-case `www` |
| LinkConverter.NoMatchAtStop | src/utils/linkConverter.tsx:8 | no match starts at a stop character |
| LinkConverter.MatchShaped | src/utils/linkConverter.tsx:8 | every match is a scheme followed by stop-free text |
| LinkConverter.ScanFlatten | src/utils/linkConverter.tsx:23-53 | the pieces from a position on spell out the rest of the text |
| LinkConverter.ScanWellFormed | src/utils/linkConverter.tsx:23-53 | the pieces alternate non-empty text and well-shaped links |
| LinkConverter.Matches | src/utils/linkConverter.tsx:8 | the table of the match, or none, that starts at each position of the text |
| LinkConverter.ScanFaithful | src/utils/linkConverter.tsx:23-53 | each link is the leftmost match and each text piece contains none |
| LinkConverter.ConvertRoundTrip | src/utils/linkConverter.tsx:15-57 | concatenating the displayed pieces gives back the input |
| LinkConverter.ConvertWellFormed | src/utils/linkConverter.tsx:15-57 | non-empty input gives alternating well-formed pieces; `''` gives `['']` |
| LinkConverter.ConvertFaithful | src/utils/linkConverter.tsx:15-57 | the pieces are exactly the global leftmost-longest matches and the text between them |
| LinkConverter.HrefExamples | src/utils/linkConverter.tsx:31 | `www.a.b` gets `https://`; `WWW.a.b` and `http://a` are kept |
| LinkConverter.UpperCaseSchemeMatches | src/utils/linkConverter.tsx:8 | the `i` flag matches `WWW.a` and `HTTPS://a`; `www.` alone is no match |
| LinkConverter.NextMatch | src/utils/linkConverter.tsx:23 | `regex.exec` finds the leftmost match from a position, or reports none |
| LinkConverter.ConvertLinksToElements | src/utils/linkConverter.tsx:15-57 | the exec loop produces exactly `Convert(text)` |
| LinkConverter.Lines | src/utils/linkConverter.tsx:65 | `split('\n')` gives one more line than line breaks, with no line break in any line |
| LinkConverter.LinesRoundTrip | src/utils/linkConverter.tsx:65 | joining the lines with `\n` gives back the text |
| LinkConverter.ConvertLines | src/utils/linkConverter.tsx:64-70 | one linkified piece list per line |

## Left out

- React rendering, styling, `className`s and the `<a>` attributes (`target`, `rel`, `key`, `title`). A link is a `Link(display, href)` value.
- The timer delays: 1000 ms for autosave and item detail, and 500 ms for the saving indicator. Also left out: `isSaving`, the inline `isEditing` flag, the menu's screen position, and the click-outside and Escape handlers. A timer firing is an event of its own.
- The editing session's `openMenuId`. The menu handlers take the item id as a parameter, and closing the menu is not modelled.
- The Sidebar's context-menu position and the delete handler behind `confirm` (`handleDeleteTask`). Other Sidebar and WorkSpace UI callbacks are not modelled either.
- Concurrency: two async actions interleaving, and effects racing across a slow storage call. Each awaited call is one atomic step, and each handler runs to its end.
- Partial failure in the middle of a loop: the cascade delete, the task order loop, and the category order loop. Only a rejection on the first category write is modelled.
- Db.Database.TaskCreate, WorkSpace.EditingSession.Open: the fault flag stays fixed for a whole call, so there is no fault between two awaited calls. A fault after `TaskCreate` adds the task but before it puts the detail would leave a task without a detail. A fault between `Open`'s get, create and second get is not modelled either; the branches for a later rejection are dead because of this.
- WorkSpace.EditingSession.ProgressChange: `handleProgressChange` is defined in the component but no element of its JSX refers to it. It is modelled as the event it would be.
- In-place mutation and aliasing. The checklist handlers mutate the shared detail through a shallow copy. The model builds a new value instead, and the autosave timer holds the current detail.
- Categories.CategoryStore.AddCategory: the source reads the clock twice, once for the stored record and once for the cached one. The model uses one reading for both.
- Tasks.TaskStore.AddTask: the five clock readings of one call are one `now`.
- Db.Database.TaskUpdateOrder, Db.ApplyOrders: the source reads the clock once per entry, after each awaited write; the model stamps every entry with one `now`.
- Tasks.TaskStore.UpdateTaskStatus: the status stamp, the `completedAt` stamp and the store's own `updatedAt` are three readings in the source and one `now` in the model.
- WorkSpace.EditingSession.Open, WorkSpace.EditingSession.ProgressChange: the component treats an empty `taskId` as no task (`taskId ?` and `if (!taskId)`); the model treats `Some("")` as an id like any other. `Types.Truthy` (the sidebar's selected category, the selected checklist item) and `FirstIdOrNull` do model the empty id as falsy.
- Patches (`CategoryPatch`, `TaskPatch`, `DetailPatch`, `SettingsPatch`) have no `id` field, though `Partial<T>` allows one. No call in the core passes an id in a patch.
- Tasks.Quantize: is modelled on integers. A fractional slider value, and JavaScript's `Math.round` on fractions, are left out.
- Sequences.SortBy: stability and the order of equal keys are not stated. For `CategoryGetAll`, Dexie's tie order follows the primary key; the model leaves it unspecified. `Enumerate` leaves the primary-key order of `toArray` unspecified too.
- Strings are sequences of Unicode scalar values, not UTF-16 code units. Surrogate pairs and lone surrogates are not modelled.
- `crypto.randomUUID` and `Math.random().toString(36)` are fresh-id parameters. A repeated id makes Dexie's `add` reject, and that is modelled. The id format is not.
- An exception thrown inside a handler is modelled as a no-op with the timer consumed. This covers an item-detail timer firing with no detail loaded.
- The backup format (`BackupFile`) is declared but has no operations in the core.
- `getById` of categories and tasks is modelled but unused by the stores. `settingsQueries` is modelled only as storage calls, because no modelled component reads the settings.
- Logging (`console.log` and `console.error`) and the `alert` after a failed rename.
