/**
 * `TaskManagementSystem` of app.js: the ordered task array, the filter criteria
 * and the sort method, with create, modify, remove and toggle by id, the
 * filtered and sorted view, clearing of completed tasks and the statistics.
 *
 * Storage is not modelled. The alerts the system shows, at once or after a
 * 1500 ms timer, are recorded in the ghost log `alerts` instead of the page.
 */
module TaskManager {
  import opened Wrappers
  import opened Tasks
  import opened TaskQueries

  /** The fields a caller hands to `createNewTask`; an omitted one is `None`. */
  datatype TaskData = TaskData(title: string, description: Option<string>, priority: Option<Priority>, category: Option<string>)

  datatype Severity = Success | Warning | Info

  datatype AlertKind =
    | TaskCreated | HighPriorityNeedsAttention
    | TaskUpdated | NowHighPriority
    | TaskDeleted
    | TaskCompletedAlert | TaskReactivated | HighPriorityCompleted
    | CompletedCleared(count: nat) | NothingToClear

  /** One alert: what it says, its style, and after how many milliseconds it is shown. */
  datatype Alert = Alert(kind: AlertKind, severity: Severity, delayMs: nat)

  /** Creating a task is acknowledged at once; a high-priority one gets a warning 1500 ms later. */
  function CreationAlerts(p: Priority): seq<Alert>
  {
    [Alert(TaskCreated, Success, 0)] + if p == High then [Alert(HighPriorityNeedsAttention, Warning, 1500)] else []
  }

  /** Updating is acknowledged at once; a task that has just become high priority gets a warning 1500 ms later. */
  function UpdateAlerts(before: Priority, after: Priority): seq<Alert>
  {
    [Alert(TaskUpdated, Success, 0)] + if before != High && after == High then [Alert(NowHighPriority, Warning, 1500)] else []
  }

  /** A toggle is acknowledged at once; completing a high-priority task is celebrated 1500 ms later. */
  function ToggleAlerts(completed: bool, p: Priority): seq<Alert>
  {
    [Alert(if completed then TaskCompletedAlert else TaskReactivated, Success, 0)]
    + if completed && p == High then [Alert(HighPriorityCompleted, Success, 1500)] else []
  }

  /** Clearing reports the number removed, or that there was nothing to remove. */
  function ClearAlerts(count: nat): seq<Alert>
  {
    if count > 0 then [Alert(CompletedCleared(count), Success, 0)] else [Alert(NothingToClear, Info, 0)]
  }

  /** The delayed alerts are scheduled exactly on the three transitions into or out of high-priority states. */
  lemma DelayedAlertTriggers(p: Priority, before: Priority, completed: bool)
    ensures |CreationAlerts(p)| == 2 <==> p == High
    ensures |UpdateAlerts(before, p)| == 2 <==> before != High && p == High
    ensures |ToggleAlerts(completed, p)| == 2 <==> completed && p == High
    ensures forall a :: a in CreationAlerts(p) + UpdateAlerts(before, p) + ToggleAlerts(completed, p) ==>
      (a.delayMs == 0 <==> a.kind in {TaskCreated, TaskUpdated, TaskCompletedAlert, TaskReactivated})
  {
  }

  /** The record `createNewTask` appends, with the constructor's defaults. */
  function NewRecord(id: string, data: TaskData, now: int): TaskRecord
  {
    TaskRecord(id, data.title, data.description.GetOr(""), data.priority.GetOr(Medium),
               data.category.GetOr("personal"), false, now, now)
  }

  /** `updateFilterCriteria`: set one of the four criteria; any other key has no effect on filtering. */
  function WithCriterion(c: FilterCriteria, filterType: string, value: string): (r: FilterCriteria)
    ensures filterType == "category" ==> r == c.(category := value)
    ensures filterType == "priority" ==> r == c.(priority := value)
    ensures filterType == "status" ==> r == c.(status := value)
    ensures filterType == "searchTerm" ==> r == c.(searchTerm := value)
    ensures filterType !in {"category", "priority", "status", "searchTerm"} ==> r == c
  {
    if filterType == "category" then c.(category := value)
    else if filterType == "priority" then c.(priority := value)
    else if filterType == "status" then c.(status := value)
    else if filterType == "searchTerm" then c.(searchTerm := value)
    else c
  }

  /** The first `n` records are in the comparator's order. */
  ghost predicate SortedPrefix(rs: seq<TaskRecord>, n: int, m: string)
  {
    forall a, b {:trigger CompareRecords(rs[a], rs[b], m)} :: 0 <= a < b < n && b < |rs| ==> CompareRecords(rs[a], rs[b], m) <= 0
  }

  /**
   * The state inside one insertion pass: the first `i + 1` records are in order
   * except for the one at `j` being moved down, which strictly precedes every record after it.
   */
  ghost predicate InsertionHole(rs: seq<TaskRecord>, j: int, i: int, m: string)
  {
    && 0 <= j <= i < |rs|
    && (forall a, b {:trigger CompareRecords(rs[a], rs[b], m)} :: 0 <= a < b <= i && a != j && b != j ==> CompareRecords(rs[a], rs[b], m) <= 0)
    && (forall b {:trigger CompareRecords(rs[j], rs[b], m)} :: j < b <= i ==> CompareRecords(rs[j], rs[b], m) < 0)
  }

  /** Swapping the moving record with a predecessor it strictly precedes moves the hole down by one. */
  lemma InsertionHoleStep(rs: seq<TaskRecord>, j: int, i: int, m: string)
    requires InsertionHole(rs, j, i, m) && j > 0 && CompareRecords(rs[j], rs[j - 1], m) < 0
    ensures InsertionHole(rs[j - 1 := rs[j]][j := rs[j - 1]], j - 1, i, m)
  {
    ComparatorIsConsistent(rs[j], rs[j - 1], rs[j], m);
  }

  /** Once the moving record does not strictly precede its predecessor, the first `i + 1` records are in order. */
  lemma InsertionHoleClose(rs: seq<TaskRecord>, j: int, i: int, m: string)
    requires InsertionHole(rs, j, i, m) && (j == 0 || CompareRecords(rs[j], rs[j - 1], m) >= 0)
    ensures SortedPrefix(rs, i + 1, m)
  {
    forall a | 0 <= a < j ensures CompareRecords(rs[a], rs[j], m) <= 0 {
      ComparatorIsConsistent(rs[j], rs[j - 1], rs[j], m);
      ComparatorIsConsistent(rs[a], rs[j - 1], rs[j], m);
    }
  }

  /**
   * What an insertion pass keeps of where the records came from: `pos[k]` is the
   * position before sorting of the record now at `k`. Tied records other than the
   * moving one keep their original order, and the moving record came after all
   * the other records of the first `i + 1`.
   */
  ghost predicate StableHole(rs: seq<TaskRecord>, pos: seq<int>, j: int, i: int, m: string)
  {
    && 0 <= j <= i < |rs| && |pos| == |rs|
    && (forall a, b {:trigger CompareRecords(rs[a], rs[b], m)} ::
          0 <= a < b <= i && a != j && b != j && CompareRecords(rs[a], rs[b], m) == 0 ==> pos[a] < pos[b])
    && (forall a :: 0 <= a <= i && a != j ==> pos[a] < pos[j])
  }

  /** `pos` maps the first `i` positions below `i` and leaves every later position where it was. */
  ghost predicate Settled(pos: seq<int>, i: int, n: int)
  {
    |pos| == n && forall k :: 0 <= k < n ==> if k < i then 0 <= pos[k] < i else pos[k] == k
  }

  /** The arrangement in which nothing has moved yet. */
  ghost function Identity(n: nat): (id: seq<int>)
    ensures |id| == n && forall k :: 0 <= k < n ==> id[k] == k
  {
    seq(n, k => k)
  }

  /** Before sorting, nothing has moved and every tie is trivially in order. */
  lemma IdentityIsSettled(rs: seq<TaskRecord>, m: string)
    ensures Settled(Identity(|rs|), 1, |rs|) && TiesInOrder(rs, Identity(|rs|), |rs|, m)
  {
  }

  /** A prefix as long as the records that is in order: all of them are. */
  lemma SortedPrefixIsInOrder(rs: seq<TaskRecord>, m: string)
    requires SortedPrefix(rs, |rs|, m)
    ensures InOrder(rs, m)
  {
    forall a, b | 0 <= a < b < |rs| ensures CompareRecords(rs[a], rs[b], m) <= 0 {
      assert CompareRecords(rs[a], rs[b], m) <= 0;
    }
  }

  /** A pass starts with the record at `i`, the latest of the first `i + 1`, as the moving one. */
  lemma StableHoleOpen(rs: seq<TaskRecord>, pos: seq<int>, i: int, m: string)
    requires 0 <= i < |rs| && Settled(pos, i, |rs|) && TiesInOrder(rs, pos, i, m)
    ensures StableHole(rs, pos, i, i, m) && Settled(pos, i + 1, |rs|)
  {
  }

  /** Swapping the moving record down keeps what the pass knows of the origins. */
  lemma StableHoleStep(rs: seq<TaskRecord>, pos: seq<int>, j: int, i: int, m: string)
    requires StableHole(rs, pos, j, i, m) && j > 0
    ensures StableHole(rs[j - 1 := rs[j]][j := rs[j - 1]], pos[j - 1 := pos[j]][j := pos[j - 1]], j - 1, i, m)
  {
    var rs', pos' := rs[j - 1 := rs[j]][j := rs[j - 1]], pos[j - 1 := pos[j]][j := pos[j - 1]];
    forall a, b | 0 <= a < b <= i && a != j - 1 && b != j - 1 && CompareRecords(rs'[a], rs'[b], m) == 0
      ensures pos'[a] < pos'[b]
    {
      var a', b' := if a == j then j - 1 else a, if b == j then j - 1 else b;
      assert rs'[a] == rs[a'] && rs'[b] == rs[b'] && pos'[a] == pos[a'] && pos'[b] == pos[b'];
      assert CompareRecords(rs[a'], rs[b'], m) == 0;
    }
  }

  /** When the pass stops, tied records among the first `i + 1` are in their original order. */
  lemma StableHoleClose(rs: seq<TaskRecord>, pos: seq<int>, j: int, i: int, m: string)
    requires InsertionHole(rs, j, i, m) && StableHole(rs, pos, j, i, m)
    ensures TiesInOrder(rs, pos, i + 1, m)
  {
  }

  /** Swapping two of the first `i` positions keeps the arrangement settled. */
  lemma SettledSwap(pos: seq<int>, x: int, y: int, i: int, n: int)
    requires Settled(pos, i, n) && 0 <= x < y < i <= n
    ensures Settled(pos[x := pos[y]][y := pos[x]], i, n)
  {
  }

  /**
   * A stable arrangement never draws two positions from the same one: the two
   * tasks would be one object, so they would tie and their origins would be ordered.
   */
  lemma StableIsInjective(s: seq<TaskEntity>, orig: seq<TaskEntity>, pos: seq<int>, m: string)
    requires Tracks(s, orig, pos) && TiesInOrder(Records(s), pos, |s|, m)
    ensures Injective(pos)
  {
    var rs := Records(s);
    forall a, b | 0 <= a < b < |pos| ensures pos[a] != pos[b] {
      if s[a] == s[b] {
        assert rs[a] == rs[b];
        assert CompareRecords(rs[a], rs[b], m) == 0;
      }
    }
  }

  lemma SwapKeepsMultiset<T>(s: seq<T>, x: int, y: int)
    requires 0 <= x < y < |s|
    ensures multiset(s[x := s[y]][y := s[x]]) == multiset(s)
  {
    var t := s[x := s[y]][y := s[x]];
    assert s == s[..x] + [s[x]] + s[x + 1..y] + [s[y]] + s[y + 1..];
    assert t == s[..x] + [s[y]] + s[x + 1..y] + [s[x]] + s[y + 1..];
  }

  /** The records `keys` are the current field values of the tasks in `tasks`, position by position. */
  ghost predicate KeyedBy(tasks: array<TaskEntity>, keys: seq<TaskRecord>)
    reads tasks, tasks[..]
  {
    |keys| == tasks.Length && forall k :: 0 <= k < tasks.Length ==> keys[k] == tasks[k].Record()
  }

  /** Each task in `s` is the task at position `pos[k]` of `orig`. */
  ghost predicate Tracks(s: seq<TaskEntity>, orig: seq<TaskEntity>, pos: seq<int>)
  {
    |pos| == |s| && forall k :: 0 <= k < |s| ==> 0 <= pos[k] < |orig| && s[k] == orig[pos[k]]
  }

  /** Swapping two tasks and their origins keeps every task tracked. */
  lemma TracksSwap(s: seq<TaskEntity>, orig: seq<TaskEntity>, pos: seq<int>, x: int, y: int)
    requires Tracks(s, orig, pos) && 0 <= x < y < |s|
    ensures Tracks(s[x := s[y]][y := s[x]], orig, pos[x := pos[y]][y := pos[x]])
  {
  }

  /** Swap two neighbouring tasks, and their records with them. */
  method SwapDown(tasks: array<TaskEntity>, j: int, ghost keys: seq<TaskRecord>)
    requires 0 < j < tasks.Length && KeyedBy(tasks, keys)
    modifies tasks
    ensures tasks[..] == old(tasks[..])[j - 1 := old(tasks[j])][j := old(tasks[j - 1])]
    ensures KeyedBy(tasks, keys[j - 1 := keys[j]][j := keys[j - 1]])
    ensures multiset(tasks[..]) == old(multiset(tasks[..]))
  {
    ghost var s := tasks[..];
    tasks[j - 1], tasks[j] := tasks[j], tasks[j - 1];
    assert tasks[..] == s[j - 1 := s[j]][j := s[j - 1]];
    SwapKeepsMultiset(s, j - 1, j);
  }

  /**
   * One pass of insertion sort: move `tasks[i]` down by adjacent swaps past every
   * task it strictly precedes, so that the first `i + 1` tasks are in order. It
   * never passes a task it ties with, so tied tasks keep their original order;
   * `pos` and `pos'` record where each task stood in `orig` before sorting began.
   */
  method InsertIntoSorted(tasks: array<TaskEntity>, i: int, m: string,
                          ghost orig: seq<TaskEntity>, ghost pos: seq<int>) returns (ghost pos': seq<int>)
    requires 0 < i < tasks.Length
    requires SortedPrefix(Records(tasks[..]), i, m) && TiesInOrder(Records(tasks[..]), pos, i, m)
    requires Tracks(tasks[..], orig, pos) && Settled(pos, i, tasks.Length)
    modifies tasks
    ensures SortedPrefix(Records(tasks[..]), i + 1, m) && TiesInOrder(Records(tasks[..]), pos', i + 1, m)
    ensures Tracks(tasks[..], orig, pos') && Settled(pos', i + 1, tasks.Length)
    ensures multiset(tasks[..]) == old(multiset(tasks[..]))
  {
    ghost var keys := Records(tasks[..]);
    StableHoleOpen(keys, pos, i, m);
    pos' := pos;
    var j := i;
    while j > 0 && Comparator(tasks[j], tasks[j - 1], m) < 0
      invariant KeyedBy(tasks, keys) && Tracks(tasks[..], orig, pos')
      invariant InsertionHole(keys, j, i, m) && StableHole(keys, pos', j, i, m)
      invariant Settled(pos', i + 1, tasks.Length)
      invariant multiset(tasks[..]) == old(multiset(tasks[..]))
    {
      InsertionHoleStep(keys, j, i, m);
      StableHoleStep(keys, pos', j, i, m);
      SettledSwap(pos', j - 1, j, i + 1, tasks.Length);
      TracksSwap(tasks[..], orig, pos', j - 1, j);
      SwapDown(tasks, j, keys);
      keys := keys[j - 1 := keys[j]][j := keys[j - 1]];
      pos' := pos'[j - 1 := pos'[j]][j := pos'[j - 1]];
      j := j - 1;
    }
    InsertionHoleClose(keys, j, i, m);
    StableHoleClose(keys, pos', j, i, m);
    assert keys == Records(tasks[..]);
  }

  /**
   * The sort behind `applySorting`: insertion passes under "priority" or "date",
   * nothing under any other method.
   */
  method SortTasks(tasks: array<TaskEntity>, m: string) returns (ghost origin: seq<int>)
    modifies tasks
    ensures multiset(tasks[..]) == old(multiset(tasks[..]))
    ensures SortedBy(tasks[..], m)
    ensures Tracks(tasks[..], old(tasks[..]), origin)
    ensures TiesInOrder(Records(tasks[..]), origin, tasks.Length, m)
    ensures m != "priority" && m != "date" ==> tasks[..] == old(tasks[..])
  {
    ghost var orig := tasks[..];
    origin := Identity(tasks.Length);
    IdentityIsSettled(Records(tasks[..]), m);
    if m == "priority" || m == "date" {
      var i := 1;
      while i < tasks.Length
        invariant 1 <= i <= tasks.Length || tasks.Length == 0
        invariant SortedPrefix(Records(tasks[..]), i, m)
        invariant TiesInOrder(Records(tasks[..]), origin, i, m)
        invariant Tracks(tasks[..], orig, origin) && Settled(origin, i, tasks.Length)
        invariant multiset(tasks[..]) == multiset(orig)
      {
        origin := InsertIntoSorted(tasks, i, m, orig, origin);
        i := i + 1;
      }
      if tasks.Length > 0 {
        assert i == tasks.Length;
      }
      SortedPrefixIsInOrder(Records(tasks[..]), m);
    }
  }

  class TaskManagementSystem {
    var taskCollection: seq<TaskEntity>
    var filterCriteria: FilterCriteria
    var currentEditingId: Option<string>
    var sortMethod: string
    ghost var alerts: seq<Alert>

    /** Every task object occurs in the array once. */
    ghost predicate Valid()
      reads this
    {
      Distinct(taskCollection)
    }

    /** The field values of the tasks, in storage order. */
    ghost function Contents(): seq<TaskRecord>
      reads this, taskCollection
    {
      Records(taskCollection)
    }

    /** An empty system showing everything, sorted by priority. */
    constructor ()
      ensures Valid()
      ensures taskCollection == [] && filterCriteria == DefaultCriteria
      ensures currentEditingId == None && sortMethod == "priority" && alerts == []
    {
      taskCollection := [];
      filterCriteria := DefaultCriteria;
      currentEditingId := None;
      sortMethod := "priority";
      alerts := [];
    }

    /** `createNewTask`: append one new open task built from `taskData`, with identifier `id` and clock `now`. */
    method CreateNewTask(taskData: TaskData, id: string, now: int) returns (newTask: TaskEntity)
      requires Valid()
      modifies this
      ensures Valid() && fresh(newTask)
      ensures taskCollection == old(taskCollection) + [newTask]
      ensures Contents() == old(Contents()) + [NewRecord(id, taskData, now)]
      ensures filterCriteria == old(filterCriteria) && sortMethod == old(sortMethod)
      ensures currentEditingId == old(currentEditingId)
      ensures alerts == old(alerts) + CreationAlerts(newTask.priority)
    {
      newTask := new TaskEntity(id, taskData.title, taskData.description, taskData.priority, taskData.category, now);
      taskCollection := taskCollection + [newTask];
      alerts := alerts + CreationAlerts(newTask.priority);
    }

    /** `findTaskById`: the first task with identifier `taskId`, or null. */
    function FindTaskById(taskId: string): (r: TaskEntity?)
      reads this, taskCollection
      ensures r == null <==> forall i :: 0 <= i < |taskCollection| ==> taskCollection[i].taskId != taskId
      ensures r != null ==> r.taskId == taskId && r == taskCollection[FindIndex(taskCollection, taskId)]
    {
      var k := FindIndex(taskCollection, taskId);
      if k == -1 then null else taskCollection[k]
    }

    /**
     * `modifyExistingTask`: apply the update to the first task with `taskId` and
     * return it; with no such task return null and change nothing.
     */
    method ModifyExistingTask(taskId: string, updatedData: map<string, FieldValue>, now: int) returns (r: TaskEntity?)
      requires Valid() && WellKinded(updatedData)
      modifies this, taskCollection
      ensures Valid() && taskCollection == old(taskCollection)
      ensures filterCriteria == old(filterCriteria) && sortMethod == old(sortMethod)
      ensures currentEditingId == old(currentEditingId)
      ensures var k := old(FindIndex(taskCollection, taskId));
        if k == -1 then
          r == null && Contents() == old(Contents()) && alerts == old(alerts)
        else
          && r == taskCollection[k]
          && Contents() == old(Contents())[k := Updated(old(Contents())[k], updatedData, now)]
          && alerts == old(alerts) + UpdateAlerts(old(Contents())[k].priority, r.priority)
    {
      var k := FindIndex(taskCollection, taskId);
      var targetTask := FindTaskById(taskId);
      if targetTask != null {
        var previousPriority := targetTask.priority;
        targetTask.ModifyTask(updatedData, now);
        alerts := alerts + UpdateAlerts(previousPriority, targetTask.priority);
        forall i | 0 <= i < |taskCollection| && i != k ensures taskCollection[i] != targetTask {
          assert taskCollection[i] != taskCollection[k];
        }
      }
      r := targetTask;
    }

    /**
     * `removeTask`: splice out the first task with `taskId` and report true;
     * with no such task report false and change nothing.
     */
    method RemoveTask(taskId: string) returns (removed: bool)
      requires Valid()
      modifies this
      ensures Valid()
      ensures filterCriteria == old(filterCriteria) && sortMethod == old(sortMethod)
      ensures currentEditingId == old(currentEditingId)
      ensures var k := old(FindIndex(taskCollection, taskId));
        if k == -1 then
          !removed && taskCollection == old(taskCollection) && alerts == old(alerts)
        else
          && removed
          && taskCollection == old(taskCollection)[..k] + old(taskCollection)[k + 1..]
          && Contents() == old(Contents())[..k] + old(Contents())[k + 1..]
          && alerts == old(alerts) + [Alert(TaskDeleted, Success, 0)]
    {
      var taskIndex := FindIndex(taskCollection, taskId);
      if taskIndex != -1 {
        SpliceDistinct(taskCollection, taskIndex);
        RecordsSplice(taskCollection, taskIndex);
        taskCollection := taskCollection[..taskIndex] + taskCollection[taskIndex + 1..];
        alerts := alerts + [Alert(TaskDeleted, Success, 0)];
        removed := true;
      } else {
        removed := false;
      }
    }

    /**
     * `toggleTaskCompletion`: flip the completion of the first task with `taskId`
     * and return it; with no such task return null and change nothing.
     */
    method ToggleTaskCompletion(taskId: string, now: int) returns (r: TaskEntity?)
      requires Valid()
      modifies this, taskCollection
      ensures Valid() && taskCollection == old(taskCollection)
      ensures filterCriteria == old(filterCriteria) && sortMethod == old(sortMethod)
      ensures currentEditingId == old(currentEditingId)
      ensures var k := old(FindIndex(taskCollection, taskId));
        if k == -1 then
          r == null && Contents() == old(Contents()) && alerts == old(alerts)
        else
          && r == taskCollection[k]
          && Contents() == old(Contents())[k := Toggled(old(Contents())[k], now)]
          && alerts == old(alerts) + ToggleAlerts(r.isCompleted, r.priority)
    {
      var k := FindIndex(taskCollection, taskId);
      var targetTask := FindTaskById(taskId);
      if targetTask != null {
        targetTask.ToggleCompletionStatus(now);
        alerts := alerts + ToggleAlerts(targetTask.isCompleted, targetTask.priority);
        forall i | 0 <= i < |taskCollection| && i != k ensures taskCollection[i] != targetTask {
          assert taskCollection[i] != taskCollection[k];
        }
      }
      r := targetTask;
    }

    /**
     * `getFilteredTaskList`: the tasks that pass the current criteria, in a fresh
     * array sorted by the current method; the stored array keeps its order.
     * `origin[k]` is the position in the filtered collection of the task shown
     * at `k`: tied tasks are shown in filter order, as a stable sort leaves them.
     */
    method GetFilteredTaskList() returns (r: seq<TaskEntity>, ghost origin: seq<int>)
      ensures forall t :: t in r <==> t in taskCollection && PassesFilter(t, filterCriteria)
      ensures multiset(r) == multiset(FilterTasks(taskCollection, filterCriteria))
      ensures SortedBy(r, sortMethod)
      ensures Tracks(r, FilterTasks(taskCollection, filterCriteria), origin)
      ensures TiesInOrder(Records(r), origin, |r|, sortMethod)
      ensures sortMethod != "priority" && sortMethod != "date" ==> r == FilterTasks(taskCollection, filterCriteria)
    {
      var filteredTasks := FilterTasks(taskCollection, filterCriteria);
      var a := new TaskEntity[|filteredTasks|](i requires 0 <= i < |filteredTasks| => filteredTasks[i]);
      assert a[..] == filteredTasks;
      origin := ApplySorting(a);
      assert FilterTasks(taskCollection, filterCriteria) == filteredTasks;
      r := a[..];
      assert forall t :: t in r <==> t in filteredTasks by {
        forall t ensures t in r <==> t in filteredTasks {
          assert t in r <==> t in multiset(r);
        }
      }
    }

    /**
     * `applySorting`: sort `tasks` in place by `Comparator` under "priority" or
     * "date", keeping the same tasks; under any other method leave it as it is.
     * The sort is stable: `origin[k]` is the old position of the task now at `k`,
     * and tied tasks keep their old relative order.
     */
    method ApplySorting(tasks: array<TaskEntity>) returns (ghost origin: seq<int>)
      modifies tasks
      ensures multiset(tasks[..]) == old(multiset(tasks[..]))
      ensures SortedBy(tasks[..], sortMethod)
      ensures Tracks(tasks[..], old(tasks[..]), origin)
      ensures TiesInOrder(Records(tasks[..]), origin, tasks.Length, sortMethod)
      ensures sortMethod != "priority" && sortMethod != "date" ==> tasks[..] == old(tasks[..])
    {
      origin := SortTasks(tasks, sortMethod);
    }

    /** `updateFilterCriteria`. */
    method UpdateFilterCriteria(filterType: string, value: string)
      modifies this
      ensures filterCriteria == WithCriterion(old(filterCriteria), filterType, value)
      ensures taskCollection == old(taskCollection) && sortMethod == old(sortMethod)
      ensures currentEditingId == old(currentEditingId) && alerts == old(alerts)
    {
      filterCriteria := WithCriterion(filterCriteria, filterType, value);
    }

    /** `setSortMethod`. */
    method SetSortMethod(newMethod: string)
      modifies this
      ensures sortMethod == newMethod
      ensures taskCollection == old(taskCollection) && filterCriteria == old(filterCriteria)
      ensures currentEditingId == old(currentEditingId) && alerts == old(alerts)
    {
      sortMethod := newMethod;
    }

    /**
     * `clearAllCompletedTasks`: keep exactly the open tasks, in order, and report
     * how many completed tasks went.
     */
    method ClearAllCompletedTasks()
      requires Valid()
      modifies this
      ensures Valid()
      ensures taskCollection == ActiveTasks(old(taskCollection))
      ensures |taskCollection| == |old(taskCollection)| - old(CountCompleted(taskCollection))
      ensures CountCompleted(taskCollection) == 0
      ensures alerts == old(alerts) + ClearAlerts(old(CountCompleted(taskCollection)))
      ensures filterCriteria == old(filterCriteria) && sortMethod == old(sortMethod)
      ensures currentEditingId == old(currentEditingId)
    {
      var completedTasksCount := CountCompleted(taskCollection);
      ActiveTasksKeepsOpenInOrder(taskCollection);
      ActiveTasksCounts(taskCollection);
      SubsequenceDistinct(ActiveTasks(taskCollection), taskCollection);
      taskCollection := ActiveTasks(taskCollection);
      alerts := alerts + ClearAlerts(completedTasksCount);
    }

    /** `getTaskStatistics`: totals over the whole array, whatever the filter. */
    function GetTaskStatistics(): (st: Statistics)
      reads this, taskCollection
      ensures st.total == |taskCollection| && st.completed == CountCompleted(taskCollection)
      ensures st.active == st.total - st.completed && st.highPriority == CountHighActive(taskCollection)
      ensures 0 <= st.highPriority <= st.active
    {
      StatisticsBounds(taskCollection);
      TaskStatistics(taskCollection)
    }
  }
}
