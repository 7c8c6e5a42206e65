# TaskFlow task-state engine in Dafny

This project models the task-state engine of the TaskFlow to-do application (`app.js`). The engine has two classes.

- `TaskEntity` is one task record. It holds an id, a title, a description, a priority, a category, a completion flag and two timestamps. It can take a whitelisted partial update, flip its completion flag, and match a free-text search query.
- `TaskManagementSystem` owns the ordered array of tasks, the filter criteria and the sort method. It creates, modifies, removes and toggles tasks by id. It computes the filtered and sorted view, clears the completed tasks and reports statistics.

Both classes are Dafny classes whose methods assign fields in place.

- The system keeps `taskCollection` as a `seq<TaskEntity>` of object references. `findTaskById`, `modifyExistingTask` and `toggleTaskCompletion` therefore return the same object that sits in the collection, as in the source.
- The system's invariant `Valid()` says that no task object occurs twice.
- `Contents()` gives the field values of the tasks, in storage order. The mutating methods state the new `Contents()` in terms of the old one.
- `applySorting` is an in-place insertion sort on a fresh `array<TaskEntity>`. It uses the source's own comparator, stated on the tasks' field values (`CompareRecords`). `CompareRecords` is total, and returns 0 for a sort method it does not know; `SortTasks` makes no pass at all for such a method. Its proof follows the records of the array, and the original position of each task, through each swap. So the model shows that the sort is stable, as `Array.prototype.sort` is.
- The filter, the counts and the statistics are functions. Lemmas about them give their meaning.

Files:

- `wrappers.dfy`: `Option`, for fields a caller may omit.
- `text.dfy`: the string operations search needs. These are `toLowerCase` on ASCII letters, `trim` over the ECMAScript whitespace and line-terminator code points, and `includes`, proved equal to a substring predicate.
- `task_entity.dfy`: module `Tasks`. It holds priorities and their ranks, the `TaskRecord` snapshot, the reference meanings `Updated` and `Toggled`, and class `TaskEntity`.
- `task_queries.dfy`: module `TaskQueries`. It holds lookup by id, the filter predicate, the completed/active split, the statistics and the sort comparator, with their lemmas.
- `task_manager.dfy`: module `TaskManager`. It holds the alert log entries, the insertion-sort pass and class `TaskManagementSystem`.

The system's collaborators become parameters or are dropped:

- The task identifier (from `Date.now` and `Math.random`) is a parameter.
- The clock (`new Date()`) is a parameter `now`, a number of milliseconds.
- Storage is not modelled.
- The alerts the system shows, at once or from a 1500 ms timer, are appended to a ghost log `alerts`. Each entry records the alert's kind, severity and delay.

Some facts about `app.js` shape the model:

- Tasks carry no due date or due time.
- For a sort method other than `"priority"` or `"date"`, `applySorting` returns the array unsorted (app.js:177), so the view keeps filter order.
- The statistics are `total`, `active`, `completed` and `highPriority`. `highPriority` counts the open high-priority tasks.
- Ids are not required to be unique. Lookup, update, toggle and removal act on the first task with the id, as `find` and `findIndex` do.
- `searchMatch` lowercases the query and then trims it. `Text.TrimToLowerCommute` shows that the order does not matter here.

`GetFilteredTaskList` has no `modifies` clause. So the model shows that building the view never changes `taskCollection` or its order.

## Model

| member | source | states |
|---|---|---|
| `Text.TrimStart` | app.js:34 | The result is a suffix of the input. Every dropped character is whitespace, and the result does not start with whitespace. |
| `Text.TrimEnd` | app.js:34 | The result is a prefix of the input. Every dropped character is whitespace, and the result does not end with whitespace. |
| `Text.Trim` | app.js:34 | No contract. What it means is given by `TrimIsSlice`, `BlankTrimsToEmpty` and `TrimIdempotent`. |
| `Text.ToLower` | app.js:34-35 | No contract. It applies `LowerChar` to each character, and `LowerChar`'s contract fixes that mapping: an ASCII capital moves 32 code points down to its small letter, and every other character is kept. Its further meaning is given by `ToLowerProperties` and `TrimToLowerCommute`. |
| `Text.TrimIsSlice` | app.js:34 | The trimmed query is a contiguous slice of the input. It starts where the leading whitespace ends. |
| `Text.BlankTrimsToEmpty` | app.js:34 | A query made only of whitespace trims to the empty string. |
| `Text.TrimIdempotent` | app.js:34 | Trimming twice is trimming once. |
| `Text.ToLowerProperties` | app.js:34-35 | Lowercasing keeps the length, leaves no ASCII capital and is idempotent. |
| `Text.TrimToLowerCommute` | app.js:34 | Lowercasing then trimming equals trimming then lowercasing. |
| `Text.Includes` | app.js:35 | `includes` is true exactly when the query occurs at some position of the string. |
| `Text.EmptyIncludedEverywhere` | app.js:35 | The empty query is included in every string. |
| `Tasks.PriorityName` | app.js:144 | No contract. The string stored for a priority, which the high-priority tests and the priority filter compare against; `PriorityEncodingsInjective` states that the names are distinct and none is "all". |
| `Tasks.Rank` | app.js:168 | The ranks are 1 to 3, with high the only 3 and low the only 1. |
| `Tasks.PriorityEncodingsInjective` | app.js:168 | Distinct priorities have distinct names and distinct ranks, and no priority is named "all". |
| `Tasks.CopyField` | app.js:20-24 | No contract. One step of the whitelist loop; what it means is given by `CopyAllowedFieldsIsUpdate`. |
| `Tasks.CopyFields` | app.js:20-24 | No contract. The whole whitelist loop; what it means is given by `CopyAllowedFieldsIsUpdate` and `UpdateIgnoresOtherKeys`. |
| `Tasks.Updated` | app.js:18-26 | An update never changes `taskId`, `isCompleted` or `creationTimestamp`, and it sets `lastModified` to the clock. |
| `Tasks.CopyAllowedFieldsIsUpdate` | app.js:19-24 | The loop over the whitelist, followed by one time stamp, overwrites exactly the provided keys among title, description, priority and category. |
| `Tasks.UpdateIgnoresOtherKeys` | app.js:19-24 | Keys outside the whitelist, such as `taskId` or `isCompleted`, have no effect. |
| `Tasks.UpdateIdempotent` | app.js:18-26 | Applying the same update twice equals applying it once at the later time. |
| `Tasks.Toggled` | app.js:28-31 | A toggle flips `isCompleted`, sets `lastModified`, and leaves every other field as it was. |
| `Tasks.ToggleTwiceRestores` | app.js:28-31 | Two toggles restore `isCompleted` and every field except `lastModified`. |
| `Tasks.TaskEntity.constructor` | app.js:3-11 | A new task is open and has the given id and title. An omitted description, priority or category becomes "", medium or "personal". Both timestamps are the clock. |
| `Tasks.TaskEntity.ModifyTask` | app.js:18-26 | The task's new fields are `Updated` of its old fields. |
| `Tasks.TaskEntity.ToggleCompletionStatus` | app.js:28-31 | The task's new fields are `Toggled` of its old fields. |
| `Tasks.TaskEntity.SearchMatch` | app.js:33-36 | A match holds iff the lowercased, trimmed query occurs in the lowercased title or the lowercased description. |
| `Tasks.BlankQueryMatchesEveryTask` | app.js:33-36 | An empty or all-whitespace query matches every task. |
| `Tasks.SearchIgnoresQueryCase` | app.js:34 | The match does not depend on the case of the query's ASCII letters. |
| `Tasks.SearchIgnoresSurroundingWhitespace` | app.js:34 | The match does not depend on whitespace around the query. |
| `Tasks.TitleMatchesItself` | app.js:33-36 | Every task matches a search for its own title. |
| `TaskQueries.FindIndex` | app.js:100 | The result is -1 exactly when no task has the id. Otherwise it is the first position holding the id. |
| `TaskQueries.FindIndexAppend` | app.js:62-65 | After a task is appended, lookup finds an earlier holder of the id first, and otherwise the new task. |
| `TaskQueries.CountWithId` | app.js:99-103 | The number of tasks with an id is 0 exactly when lookup fails. |
| `TaskQueries.CountWithIdConcat` | app.js:103 | The count of an id over two arrays joined is the sum of the two counts. |
| `TaskQueries.RemovalDropsOneHolder` | app.js:99-103 | Splicing out the first task with the id removes one task with that id and no other task. |
| `TaskQueries.PassesFilter` | app.js:137-160 | No contract. What it means is given by `PassesFilterIsConjunction`. |
| `TaskQueries.PassesFilterIsConjunction` | app.js:137-160 | A task passes iff every active criterion holds. Category must be equal unless "all", and so must the priority's name. "completed" asks for a completed task and "pending" for an open one. A non-empty search term must match. |
| `TaskQueries.DefaultCriteriaPassEverything` | app.js:51-56 | The initial criteria let every task through. |
| `TaskQueries.FilterTasks` | app.js:137-160 | The filtered list is a subsequence of the collection and holds exactly its tasks that pass. |
| `TaskQueries.SubsequenceElements` | app.js:137 | A filtered list holds only tasks of the collection and is no longer than it. |
| `TaskQueries.SubsequenceDistinct` | app.js:190 | Filtering out tasks keeps the remaining task objects distinct. |
| `TaskQueries.ActiveTasks` | app.js:190 | No contract. What it means is given by `ActiveTasksKeepsOpenInOrder`, `ActiveTasksCounts` and `ActiveTasksIsPendingView`. |
| `TaskQueries.CountCompleted` | app.js:189-202 | No contract. What it means is given by `ActiveTasksKeepsOpenInOrder` and `CompletedViewSize`. |
| `TaskQueries.CountHighActive` | app.js:204 | No contract. What it means is given by `ActiveTasksCounts` and `StatisticsBounds`. |
| `TaskQueries.TaskStatistics` | app.js:200-212 | No contract. What it means is given by `StatisticsBounds`. |
| `TaskQueries.ActiveTasksKeepsOpenInOrder` | app.js:189-190 | Clearing keeps exactly the open tasks, in their original order. The number removed equals the completed count. |
| `TaskQueries.ActiveTasksCounts` | app.js:190-204 | After clearing, no task is completed, and the open high-priority count is unchanged. |
| `TaskQueries.ActiveTasksIdempotent` | app.js:188-198 | Clearing a second time removes nothing. |
| `TaskQueries.ActiveTasksIsPendingView` | app.js:149-152 | The tasks kept by clearing are the tasks of the "pending" view, before sorting. |
| `TaskQueries.CompletedViewSize` | app.js:149-152 | The "completed" view holds as many tasks as the completed count. |
| `TaskQueries.StatisticsBounds` | app.js:200-212 | `highPriority <= active <= total` and `active + completed == total`. |
| `TaskQueries.CompareRecords` | app.js:169-175 | No contract. What it means is given by `ComparatorIsConsistent`, `SortedByPriorityMeans` and `SortedByDateMeans`. |
| `TaskQueries.Comparator` | app.js:169-175 | No contract. The comparator applied to the tasks' records. |
| `TaskQueries.ComparatorIsConsistent` | app.js:169-175 | The comparator's sign flips when its arguments swap, and "not after" is transitive. |
| `TaskQueries.SortedByPriorityMeans` | app.js:167-173 | A list is sorted under "priority" exactly when the ranks descend and, within one priority, the creation times descend. |
| `TaskQueries.SortedByDateMeans` | app.js:174-175 | A list is sorted under "date" exactly when the creation times descend. |
| `TaskManager.CreationAlerts` | app.js:67-73 | No contract. What it means is given by `DelayedAlertTriggers`. |
| `TaskManager.UpdateAlerts` | app.js:85-91 | No contract. What it means is given by `DelayedAlertTriggers`. |
| `TaskManager.ToggleAlerts` | app.js:117-124 | No contract. What it means is given by `DelayedAlertTriggers`. |
| `TaskManager.ClearAlerts` | app.js:193-197 | No contract. It reports the count removed, or that there was nothing to clear. `ClearAllCompletedTasks` states it. |
| `TaskManager.NewRecord` | app.js:3-11 | No contract. The fields of a new task, as the constructor sets them and as `createNewTask` (app.js:63) passes them; `CreateNewTask` and the `TaskEntity` constructor state them. |
| `TaskManager.DelayedAlertTriggers` | app.js:62-130 | A delayed alert is scheduled on creation iff the priority is high. On update it is scheduled iff the priority went from non-high to high. On toggle it is scheduled iff the task is now completed and high. Only the acknowledgements are immediate. |
| `TaskManager.WithCriterion` | app.js:180-182 | Each of `category`, `priority`, `status` and `searchTerm` sets its own criterion to the value and keeps the other three. Any other key leaves the criteria unchanged. |
| `TaskManager.InsertionHoleStep` | app.js:169-175 | Swapping the moving task's record with a predecessor it strictly precedes keeps the insertion pass's order invariant. |
| `TaskManager.InsertionHoleClose` | app.js:169-175 | When the moving record no longer precedes its predecessor, the prefix is sorted. |
| `TaskManager.SwapDown` | app.js:169-175 | Swapping two neighbouring tasks in the array exchanges them and no other entry. The array's records stay equal to the record sequence with the same swap, and the array holds the same tasks. |
| `TaskManager.StableHoleStep` | app.js:166-178 | Swapping the moving record down keeps tied records other than it in their original order, and keeps it after all the others. |
| `TaskManager.StableHoleClose` | app.js:166-178 | When the pass stops, every two tied records among the first `i + 1` are in their original order. |
| `TaskManager.StableIsInjective` | app.js:166-178 | When the tasks are a rearrangement of the original ones that keeps tied records in order, no two positions came from the same original position, so the sort is a permutation. |
| `TaskManager.InsertIntoSorted` | app.js:169-175 | One insertion pass extends the sorted prefix by one and keeps the array's tasks. Tied tasks keep their original order, and every task's original position is recorded. |
| `TaskManager.SortTasks` | app.js:166-178 | Under "priority" or "date" the array becomes a permutation of itself in the comparator's order. Every task is the original task at a recorded position, and tied tasks keep their original order, as in a stable sort. Under any other method the array is unchanged. |
| `TaskManager.TaskManagementSystem.constructor` | app.js:49-60 | A new system is empty, has no task being edited, uses the criteria all/all/all/"" and sorts by "priority". |
| `TaskManager.TaskManagementSystem.CreateNewTask` | app.js:62-77 | Exactly one fresh, open task with the given fields is appended at the end. Earlier tasks are unchanged and in order. The alerts are the acknowledgement plus the high-priority warning when the task is high. |
| `TaskManager.TaskManagementSystem.FindTaskById` | app.js:132-134 | The result is null iff no task has the id. Otherwise it is the first task with the id. |
| `TaskManager.TaskManagementSystem.ModifyExistingTask` | app.js:79-97 | With no task for the id, the result is null and nothing changes. Otherwise only the first such task changes, to `Updated` of it, and that task is returned. The delayed alert fires iff the priority became high. |
| `TaskManager.TaskManagementSystem.RemoveTask` | app.js:99-109 | With no task for the id, the result is false and nothing changes. Otherwise the result is true and only the first such task is removed. The others stay in order. |
| `TaskManager.TaskManagementSystem.ToggleTaskCompletion` | app.js:111-130 | With no task for the id, the result is null and nothing changes. Otherwise only the first such task is toggled and returned. The celebration is scheduled iff it is now completed and high. |
| `TaskManager.TaskManagementSystem.GetFilteredTaskList` | app.js:136-164 | The result holds exactly the passing tasks, each as often as in the filtered collection, and is sorted by the current method. Every entry is the filtered task at a recorded position, and tied tasks appear in filter order. Under a method other than "priority" or "date" it is the filtered collection itself. |
| `TaskManager.TaskManagementSystem.ApplySorting` | app.js:166-178 | Under "priority" or "date" the array is permuted into the comparator's order, and tied tasks keep their original order. Under any other method it is left as it is. |
| `TaskManager.TaskManagementSystem.UpdateFilterCriteria` | app.js:180-182 | Only the named criterion changes. Nothing else in the system changes. |
| `TaskManager.TaskManagementSystem.SetSortMethod` | app.js:184-186 | Only the sort method changes. |
| `TaskManager.TaskManagementSystem.ClearAllCompletedTasks` | app.js:188-198 | The collection becomes exactly its open tasks, in order. The number removed is the completed count. The alert reports that count, or that there was nothing to clear. |
| `TaskManager.TaskManagementSystem.GetTaskStatistics` | app.js:200-212 | `total` is the collection size and `completed` the completed count. `active` is `total - completed`. `highPriority` counts the open high-priority tasks and is at most `active`. |

## Left out

- `persistToStorage` and `initializeFromStorage` (app.js:214-231) are not part of this model. They are `localStorage` and JSON input/output. The model therefore starts with an empty collection.
- `displayAlert` (app.js:233-249) and the `setTimeout` calls are replaced by the ghost alert log. The alert texts are not modelled. They quote the task's title, read when a timer fires.
- `generateUniqueId` (app.js:14-16) and `new Date()` are replaced by parameters. The constructor's two `new Date()` calls are modelled as one clock reading.
- `getFormattedDate` (app.js:38-44) is not part of this model. It is locale formatting through `Intl`.
- `UIController` and the start-up code (app.js:253-658) are not part of this model. They are DOM, event wiring, themes, confirmation dialogs and HTML. They include the title-length check and the sample tasks.
- `currentEditingId` is kept as a field. Only the user-interface code assigns it, so no modelled operation changes it.
- Tasks.TaskEntity.ModifyTask: it requires each whitelisted key to carry a value of its field's kind (text, or a priority). JavaScript would store a value of any type. The application's form handler only passes string form values.
- Tasks.TaskEntity.SearchMatch: it lowercases ASCII letters only. JavaScript's `toLowerCase` also maps non-ASCII letters, which can change the string's length.
- Priorities are the three values low, medium and high. A priority string outside them, which only restored storage could produce, is not representable.
- JavaScript numbers are doubles. Timestamps and counts are unbounded integers here. Millisecond timestamps are far below the precision limit of a double.
