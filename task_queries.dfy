/**
 * The read-only projections `TaskManagementSystem` computes over its task array:
 * lookup by id, the filter predicate, the completed/active split, the statistics
 * and the sort comparator. They read the task objects of the sequence they get.
 */
module TaskQueries {
  import opened Tasks

  /** No task object occurs twice. */
  ghost predicate Distinct(s: seq<TaskEntity>)
  {
    forall i, j :: 0 <= i < j < |s| ==> s[i] != s[j]
  }

  /** The current field values of every task, in order. */
  ghost function Records(s: seq<TaskEntity>): (r: seq<TaskRecord>)
    reads s
    ensures |r| == |s| && forall i :: 0 <= i < |s| ==> r[i] == s[i].Record()
  {
    seq(|s|, i requires 0 <= i < |s| reads s => s[i].Record())
  }

  /** Dropping the task at `k` keeps the others distinct. */
  lemma SpliceDistinct(s: seq<TaskEntity>, k: int)
    requires Distinct(s) && 0 <= k < |s|
    ensures Distinct(s[..k] + s[k + 1..])
  {
    var r := s[..k] + s[k + 1..];
    forall i, j | 0 <= i < j < |r| ensures r[i] != r[j] {
      var i', j' := if i < k then i else i + 1, if j < k then j else j + 1;
      assert r[i] == s[i'] && r[j] == s[j'];
    }
  }

  /** Dropping the task at `k` drops its record and keeps the others in order. */
  lemma RecordsSplice(s: seq<TaskEntity>, k: int)
    requires 0 <= k < |s|
    ensures Records(s[..k] + s[k + 1..]) == Records(s)[..k] + Records(s)[k + 1..]
  {
    var r, e := s[..k] + s[k + 1..], Records(s)[..k] + Records(s)[k + 1..];
    forall i | 0 <= i < |r| ensures Records(r)[i] == e[i] {
      var i' := if i < k then i else i + 1;
      assert r[i] == s[i'] && e[i] == Records(s)[i'];
    }
  }

  /** `r` keeps some of the elements of `s`, in their order in `s`. */
  ghost predicate IsSubsequence<T>(r: seq<T>, s: seq<T>)
    decreases |s|
  {
    r == [] || (s != [] && ((r[0] == s[0] && IsSubsequence(r[1..], s[1..])) || IsSubsequence(r, s[1..])))
  }

  /** Everything in a subsequence comes from the sequence. */
  lemma {:induction false} SubsequenceElements<T>(r: seq<T>, s: seq<T>)
    requires IsSubsequence(r, s)
    ensures |r| <= |s|
    ensures forall x :: x in r ==> x in s
    decreases |s|
  {
    if r != [] {
      if r[0] == s[0] && IsSubsequence(r[1..], s[1..]) {
        SubsequenceElements(r[1..], s[1..]);
        assert forall x :: x in r ==> x == r[0] || x in r[1..];
      } else {
        SubsequenceElements(r, s[1..]);
      }
      assert forall x :: x in s[1..] ==> x in s;
    }
  }

  /** Leaving tasks out keeps the remaining task objects distinct. */
  lemma {:induction false} SubsequenceDistinct(r: seq<TaskEntity>, s: seq<TaskEntity>)
    requires IsSubsequence(r, s) && Distinct(s)
    ensures Distinct(r)
    decreases |s|
  {
    if r != [] {
      assert Distinct(s[1..]);
      if r[0] == s[0] && IsSubsequence(r[1..], s[1..]) {
        SubsequenceDistinct(r[1..], s[1..]);
        SubsequenceElements(r[1..], s[1..]);
        assert s[0] !in s[1..] by {
          forall j | 0 <= j < |s[1..]| ensures s[1..][j] != s[0] {
            assert s[1..][j] == s[j + 1];
          }
        }
        forall j | 0 < j < |r| ensures r[0] != r[j] {
          assert r[j] == r[1..][j - 1];
          assert r[j] in s[1..];
        }
      } else {
        SubsequenceDistinct(r, s[1..]);
      }
    }
  }

  /** `Array.prototype.findIndex` on identifiers: the first position whose task has identifier `id`, or -1. */
  function FindIndex(s: seq<TaskEntity>, id: string): (k: int)
    reads s
    ensures -1 <= k < |s|
    ensures k == -1 <==> forall i :: 0 <= i < |s| ==> s[i].taskId != id
    ensures k != -1 ==> s[k].taskId == id && forall i :: 0 <= i < k ==> s[i].taskId != id
  {
    if s == [] then -1
    else if s[0].taskId == id then 0
    else
      var k := FindIndex(s[1..], id);
      if k == -1 then -1 else k + 1
  }

  /** Looking an id up after appending a task finds an earlier holder of the id first, else the new task. */
  lemma {:induction false} FindIndexAppend(s: seq<TaskEntity>, t: TaskEntity, id: string)
    ensures FindIndex(s + [t], id) ==
      if FindIndex(s, id) != -1 then FindIndex(s, id) else if t.taskId == id then |s| else -1
  {
    if s != [] {
      assert (s + [t])[1..] == s[1..] + [t];
      FindIndexAppend(s[1..], t, id);
    }
  }

  /** How many tasks carry identifier `id`. */
  function CountWithId(s: seq<TaskEntity>, id: string): (n: nat)
    reads s
    ensures n <= |s|
    ensures n == 0 <==> FindIndex(s, id) == -1
  {
    if s == [] then 0 else (if s[0].taskId == id then 1 else 0) + CountWithId(s[1..], id)
  }

  lemma {:induction false} CountWithIdConcat(a: seq<TaskEntity>, b: seq<TaskEntity>, id: string)
    ensures CountWithId(a + b, id) == CountWithId(a, id) + CountWithId(b, id)
  {
    if a != [] {
      assert (a + b)[1..] == a[1..] + b;
      CountWithIdConcat(a[1..], b, id);
    } else {
      assert a + b == b;
    }
  }

  /** Splicing out the first task with `id` leaves one task fewer with that id, and every other task. */
  lemma RemovalDropsOneHolder(s: seq<TaskEntity>, id: string)
    requires FindIndex(s, id) != -1
    ensures var k := FindIndex(s, id); var rest := s[..k] + s[k + 1..];
      CountWithId(rest, id) == CountWithId(s, id) - 1 && |rest| == |s| - 1
  {
    var k := FindIndex(s, id);
    assert s == s[..k] + [s[k]] + s[k + 1..];
    CountWithIdConcat(s[..k] + [s[k]], s[k + 1..], id);
    CountWithIdConcat(s[..k], [s[k]], id);
    CountWithIdConcat(s[..k], s[k + 1..], id);
    assert [s[k]][1..] == [];
  }

  /** The filter criteria; "all" (or the empty search term) leaves a criterion unconstrained. */
  datatype FilterCriteria = FilterCriteria(category: string, priority: string, status: string, searchTerm: string)

  /** The criteria a new system starts with. */
  const DefaultCriteria := FilterCriteria("all", "all", "all", "")

  /** The callback of `getFilteredTaskList`'s `filter`, one early return per criterion. */
  predicate PassesFilter(t: TaskEntity, c: FilterCriteria)
    reads t
  {
    if c.category != "all" && t.category != c.category then false
    else if c.priority != "all" && PriorityName(t.priority) != c.priority then false
    else if c.status != "all" && c.status == "completed" && !t.isCompleted then false
    else if c.status != "all" && c.status == "pending" && t.isCompleted then false
    else if c.searchTerm != "" && !t.SearchMatch(c.searchTerm) then false
    else true
  }

  /**
   * A task passes exactly when it meets every active criterion: the category is
   * equal unless "all", the priority's name is equal unless "all", "completed" asks
   * for a completed task and "pending" for an open one (any other status asks
   * nothing), and a non-empty search term must match.
   */
  lemma PassesFilterIsConjunction(t: TaskEntity, c: FilterCriteria)
    ensures PassesFilter(t, c) <==>
      && (c.category == "all" || t.category == c.category)
      && (c.priority == "all" || PriorityName(t.priority) == c.priority)
      && (c.status == "completed" ==> t.isCompleted)
      && (c.status == "pending" ==> !t.isCompleted)
      && (c.searchTerm == "" || t.SearchMatch(c.searchTerm))
  {
  }

  /** The default criteria let every task through. */
  lemma DefaultCriteriaPassEverything(t: TaskEntity)
    ensures PassesFilter(t, DefaultCriteria)
  {
  }

  /** `taskCollection.filter(...)` with `PassesFilter`: the passing tasks, in their order. */
  function FilterTasks(s: seq<TaskEntity>, c: FilterCriteria): (r: seq<TaskEntity>)
    reads s
    ensures IsSubsequence(r, s)
    ensures forall t :: t in r ==> t in s && PassesFilter(t, c)
    ensures forall t :: t in s && PassesFilter(t, c) ==> t in r
  {
    if s == [] then []
    else
      var rest := FilterTasks(s[1..], c);
      if PassesFilter(s[0], c) then
        assert ([s[0]] + rest)[1..] == rest;
        [s[0]] + rest
      else
        rest
  }

  /** The open tasks, in storage order: what clearing the completed tasks keeps. */
  function ActiveTasks(s: seq<TaskEntity>): (r: seq<TaskEntity>)
    reads s
  {
    if s == [] then []
    else if s[0].isCompleted then ActiveTasks(s[1..])
    else [s[0]] + ActiveTasks(s[1..])
  }

  /** How many of the tasks are completed. */
  function CountCompleted(s: seq<TaskEntity>): (n: nat)
    reads s
  {
    if s == [] then 0 else (if s[0].isCompleted then 1 else 0) + CountCompleted(s[1..])
  }

  /** How many of the tasks are open and of high priority. */
  function CountHighActive(s: seq<TaskEntity>): (n: nat)
    reads s
  {
    if s == [] then 0
    else (if s[0].priority == High && !s[0].isCompleted then 1 else 0) + CountHighActive(s[1..])
  }

  /**
   * The active tasks are exactly the open ones, in their original order, and
   * there are as many fewer of them as there are completed tasks.
   */
  lemma {:induction false} ActiveTasksKeepsOpenInOrder(s: seq<TaskEntity>)
    ensures IsSubsequence(ActiveTasks(s), s)
    ensures forall t :: t in ActiveTasks(s) <==> t in s && !t.isCompleted
    ensures |ActiveTasks(s)| == |s| - CountCompleted(s)
  {
    if s != [] {
      ActiveTasksKeepsOpenInOrder(s[1..]);
      var rest := ActiveTasks(s[1..]);
      if !s[0].isCompleted {
        assert ([s[0]] + rest)[1..] == rest;
      }
      assert forall t :: t in s <==> t == s[0] || t in s[1..];
    }
  }

  /** Removing the completed tasks leaves none completed and every open high-priority task. */
  lemma {:induction false} ActiveTasksCounts(s: seq<TaskEntity>)
    ensures CountCompleted(ActiveTasks(s)) == 0
    ensures CountHighActive(ActiveTasks(s)) == CountHighActive(s)
  {
    if s != [] {
      ActiveTasksCounts(s[1..]);
      if !s[0].isCompleted {
        assert ([s[0]] + ActiveTasks(s[1..]))[1..] == ActiveTasks(s[1..]);
      }
    }
  }

  /** Removing the completed tasks a second time removes nothing. */
  lemma {:induction false} ActiveTasksIdempotent(s: seq<TaskEntity>)
    ensures ActiveTasks(ActiveTasks(s)) == ActiveTasks(s)
  {
    if s != [] {
      ActiveTasksIdempotent(s[1..]);
      if !s[0].isCompleted {
        assert ([s[0]] + ActiveTasks(s[1..]))[1..] == ActiveTasks(s[1..]);
      }
    }
  }

  /** What is kept by clearing the completed tasks is what the "pending" view shows, before sorting. */
  lemma {:induction false} ActiveTasksIsPendingView(s: seq<TaskEntity>)
    ensures ActiveTasks(s) == FilterTasks(s, FilterCriteria("all", "all", "pending", ""))
  {
    if s != [] {
      ActiveTasksIsPendingView(s[1..]);
    }
  }

  /** The "completed" view holds as many tasks as the completed count. */
  lemma {:induction false} CompletedViewSize(s: seq<TaskEntity>)
    ensures |FilterTasks(s, FilterCriteria("all", "all", "completed", ""))| == CountCompleted(s)
  {
    if s != [] {
      CompletedViewSize(s[1..]);
    }
  }

  /** The four numbers `getTaskStatistics` reports. */
  datatype Statistics = Statistics(total: nat, active: int, completed: nat, highPriority: nat)

  /** The statistics of a task array. */
  function TaskStatistics(s: seq<TaskEntity>): (st: Statistics)
    reads s
  {
    var completed := CountCompleted(s);
    Statistics(|s|, |s| - completed, completed, CountHighActive(s))
  }

  /** Open high-priority tasks are among the open tasks, which are among all tasks. */
  lemma {:induction false} StatisticsBounds(s: seq<TaskEntity>)
    ensures var st := TaskStatistics(s);
      0 <= st.highPriority <= st.active <= st.total && st.active + st.completed == st.total
  {
    if s != [] {
      StatisticsBounds(s[1..]);
    }
  }

  /**
   * The comparator `applySorting` hands to `Array.prototype.sort`, on the two tasks'
   * field values; negative means `a` goes first. Under "priority" the higher rank
   * first, then the newer task; under "date" the newer task first; any other
   * method compares nothing.
   */
  function CompareRecords(a: TaskRecord, b: TaskRecord, sortMethod: string): int
  {
    if sortMethod == "priority" then
      var priorityDiff := Rank(b.priority) - Rank(a.priority);
      if priorityDiff != 0 then priorityDiff else b.creationTimestamp - a.creationTimestamp
    else if sortMethod == "date" then
      b.creationTimestamp - a.creationTimestamp
    else 0
  }

  /** The comparator on the task objects themselves. */
  function Comparator(a: TaskEntity, b: TaskEntity, sortMethod: string): int
    reads a, b
  {
    CompareRecords(a.Record(), b.Record(), sortMethod)
  }

  /** The comparator is a consistent total preorder: its sign flips with its arguments and "not after" is transitive. */
  lemma ComparatorIsConsistent(a: TaskRecord, b: TaskRecord, c: TaskRecord, m: string)
    ensures CompareRecords(a, b, m) < 0 <==> CompareRecords(b, a, m) > 0
    ensures CompareRecords(a, b, m) <= 0 && CompareRecords(b, c, m) <= 0 ==> CompareRecords(a, c, m) <= 0
  {
  }

  /** No pair of the records is out of the comparator's order. */
  ghost predicate InOrder(rs: seq<TaskRecord>, sortMethod: string)
  {
    forall i, j :: 0 <= i < j < |rs| ==> CompareRecords(rs[i], rs[j], sortMethod) <= 0
  }

  /** No pair of the tasks is out of the comparator's order. */
  ghost predicate SortedBy(s: seq<TaskEntity>, sortMethod: string)
    reads s
  {
    InOrder(Records(s), sortMethod)
  }

  /** No two positions of `pos` hold the same index. */
  ghost predicate Injective(pos: seq<int>)
  {
    forall a, b :: 0 <= a < b < |pos| ==> pos[a] != pos[b]
  }

  /**
   * Among the first `n` records, any two the comparator ties on keep the order
   * of the positions `pos` they came from: what a stable sort promises.
   */
  ghost predicate TiesInOrder(rs: seq<TaskRecord>, pos: seq<int>, n: int, sortMethod: string)
  {
    forall a, b {:trigger CompareRecords(rs[a], rs[b], sortMethod)} ::
      0 <= a < b < n && b < |rs| && b < |pos| && CompareRecords(rs[a], rs[b], sortMethod) == 0 ==> pos[a] < pos[b]
  }

  /** Sorted by "priority" means exactly: by descending rank, and by descending creation time within a rank. */
  lemma SortedByPriorityMeans(s: seq<TaskEntity>)
    ensures SortedBy(s, "priority") <==>
      forall i, j :: 0 <= i < j < |s| ==>
        Rank(s[i].priority) >= Rank(s[j].priority) &&
        (s[i].priority == s[j].priority ==> s[i].creationTimestamp >= s[j].creationTimestamp)
  {
    var rs := Records(s);
    if SortedBy(s, "priority") {
      forall i, j | 0 <= i < j < |s|
        ensures Rank(s[i].priority) >= Rank(s[j].priority)
        ensures s[i].priority == s[j].priority ==> s[i].creationTimestamp >= s[j].creationTimestamp
      {
        assert CompareRecords(rs[i], rs[j], "priority") <= 0;
      }
    }
    if forall i, j :: 0 <= i < j < |s| ==>
        Rank(s[i].priority) >= Rank(s[j].priority) &&
        (s[i].priority == s[j].priority ==> s[i].creationTimestamp >= s[j].creationTimestamp) {
      forall i, j | 0 <= i < j < |rs| ensures CompareRecords(rs[i], rs[j], "priority") <= 0 {
        assert rs[i] == s[i].Record() && rs[j] == s[j].Record();
        PriorityEncodingsInjective(s[i].priority, s[j].priority);
      }
    }
  }

  /** Sorted by "date" means exactly: newest first. */
  lemma SortedByDateMeans(s: seq<TaskEntity>)
    ensures SortedBy(s, "date") <==>
      forall i, j :: 0 <= i < j < |s| ==> s[i].creationTimestamp >= s[j].creationTimestamp
  {
    var rs := Records(s);
    if SortedBy(s, "date") {
      forall i, j | 0 <= i < j < |s| ensures s[i].creationTimestamp >= s[j].creationTimestamp {
        assert CompareRecords(rs[i], rs[j], "date") <= 0;
      }
    }
  }
}
