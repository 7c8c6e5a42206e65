/**
 * One task record (`TaskEntity` in app.js): its fields, the whitelisted partial
 * update, the completion toggle and the free-text search match.
 *
 * The identifier and the clock are parameters: app.js draws the identifier from
 * `Date.now` and `Math.random` and the timestamps from `new Date()`; here a
 * timestamp is a number of milliseconds.
 */
module Tasks {
  import opened Wrappers
  import opened Text

  datatype Priority = Low | Medium | High

  /** The ranks of the priority sort order: high 3, medium 2, low 1. */
  function Rank(p: Priority): (r: int)
    ensures 1 <= r <= 3
    ensures r == 3 <==> p == High
    ensures r == 1 <==> p == Low
  {
    match p
    case Low => 1
    case Medium => 2
    case High => 3
  }

  /** The string app.js stores for a priority, and compares with the priority filter. */
  function PriorityName(p: Priority): string
  {
    match p
    case Low => "low"
    case Medium => "medium"
    case High => "high"
  }

  /** Distinct priorities have distinct names and distinct ranks, and no name is "all". */
  lemma PriorityEncodingsInjective(p: Priority, q: Priority)
    ensures PriorityName(p) == PriorityName(q) <==> p == q
    ensures Rank(p) == Rank(q) <==> p == q
    ensures PriorityName(p) != "all"
  {
    assert PriorityName(p) == PriorityName(q) ==> PriorityName(p)[0] == PriorityName(q)[0];
  }

  /** The value of every field of a task at one moment. */
  datatype TaskRecord = TaskRecord(
    taskId: string,
    title: string,
    description: string,
    priority: Priority,
    category: string,
    isCompleted: bool,
    creationTimestamp: int,
    lastModified: int)

  /** A value carried by an update object: text for title, description and category, a level for priority. */
  datatype FieldValue = TextValue(text: string) | PriorityValue(level: Priority)

  /** The only keys an update may change, in the order they are applied. */
  const AllowedFields: seq<string> := ["title", "description", "priority", "category"]

  /** Each whitelisted key present in the update carries a value of its field's kind; other keys may carry anything. */
  predicate WellKinded(data: map<string, FieldValue>)
  {
    && ("title" in data ==> data["title"].TextValue?)
    && ("description" in data ==> data["description"].TextValue?)
    && ("priority" in data ==> data["priority"].PriorityValue?)
    && ("category" in data ==> data["category"].TextValue?)
  }

  /** The result of one step of the field loop: copy `field` from `data` when the update has that key. */
  function CopyField(r: TaskRecord, data: map<string, FieldValue>, field: string): TaskRecord
    requires WellKinded(data)
  {
    if field !in data then r
    else if field == "title" then r.(title := data[field].text)
    else if field == "description" then r.(description := data[field].text)
    else if field == "priority" then r.(priority := data[field].level)
    else if field == "category" then r.(category := data[field].text)
    else r
  }

  /** The loop over `fields`, one `CopyField` per key, in order. */
  function CopyFields(r: TaskRecord, data: map<string, FieldValue>, fields: seq<string>): TaskRecord
    requires WellKinded(data)
  {
    if fields == [] then r
    else CopyField(CopyFields(r, data, fields[..|fields| - 1]), data, fields[|fields| - 1])
  }

  /**
   * What an update means: each whitelisted field is overwritten by the update's
   * value if the update has that key and kept otherwise; `lastModified` becomes `now`.
   */
  function Updated(r: TaskRecord, data: map<string, FieldValue>, now: int): (u: TaskRecord)
    requires WellKinded(data)
    ensures u.taskId == r.taskId && u.isCompleted == r.isCompleted
    ensures u.creationTimestamp == r.creationTimestamp && u.lastModified == now
  {
    TaskRecord(
      r.taskId,
      if "title" in data then data["title"].text else r.title,
      if "description" in data then data["description"].text else r.description,
      if "priority" in data then data["priority"].level else r.priority,
      if "category" in data then data["category"].text else r.category,
      r.isCompleted,
      r.creationTimestamp,
      now)
  }

  /** Copying the whitelisted fields one by one, then stamping the time, is exactly `Updated`. */
  lemma CopyAllowedFieldsIsUpdate(r: TaskRecord, data: map<string, FieldValue>, now: int)
    requires WellKinded(data)
    ensures CopyFields(r, data, AllowedFields).(lastModified := now) == Updated(r, data, now)
  {
    var fs := AllowedFields;
    assert fs[..0] == [];
    assert fs[..1][..0] == [] && fs[..2][..1] == fs[..1] && fs[..3][..2] == fs[..2] && fs[..4][..3] == fs[..3];
    assert CopyFields(r, data, fs[..1]) == CopyField(r, data, "title");
    assert CopyFields(r, data, fs[..2]) == CopyField(CopyFields(r, data, fs[..1]), data, "description");
    assert CopyFields(r, data, fs[..3]) == CopyField(CopyFields(r, data, fs[..2]), data, "priority");
    assert fs[..4] == fs;
  }

  /** Keys outside the whitelist (`taskId`, `isCompleted`, anything else) have no effect. */
  lemma UpdateIgnoresOtherKeys(r: TaskRecord, data: map<string, FieldValue>, now: int)
    requires WellKinded(data)
    ensures var kept := map k | k in data && k in AllowedFields :: data[k];
      WellKinded(kept) && Updated(r, kept, now) == Updated(r, data, now)
  {
  }

  /** Applying the same update twice is applying it once, at the later time. */
  lemma UpdateIdempotent(r: TaskRecord, data: map<string, FieldValue>, t1: int, t2: int)
    requires WellKinded(data)
    ensures Updated(Updated(r, data, t1), data, t2) == Updated(r, data, t2)
  {
  }

  /** What `toggleCompletionStatus` does to the fields. */
  function Toggled(r: TaskRecord, now: int): (u: TaskRecord)
    ensures u.isCompleted != r.isCompleted && u.lastModified == now
    ensures u.(isCompleted := r.isCompleted, lastModified := r.lastModified) == r
  {
    r.(isCompleted := !r.isCompleted, lastModified := now)
  }

  /** Toggling twice restores the completion flag and every field except the modification time. */
  lemma ToggleTwiceRestores(r: TaskRecord, t1: int, t2: int)
    ensures Toggled(Toggled(r, t1), t2) == r.(lastModified := t2)
  {
  }

  /** The lowercased, trimmed form of a search query that `searchMatch` looks for. */
  function NormalizedQuery(q: string): string
  {
    Trim(ToLower(q))
  }

  class TaskEntity {
    var taskId: string
    var title: string
    var description: string
    var priority: Priority
    var category: string
    var isCompleted: bool
    var creationTimestamp: int
    var lastModified: int

    /** The fields' current values. */
    function Record(): TaskRecord
      reads this
    {
      TaskRecord(taskId, title, description, priority, category, isCompleted, creationTimestamp, lastModified)
    }

    /**
     * A new, not completed task. An omitted description, priority or category takes
     * the defaults "", medium and "personal"; both timestamps read the clock `now`.
     */
    constructor (id: string, title: string, description: Option<string>, priority: Option<Priority>,
                 category: Option<string>, now: int)
      ensures Record() == TaskRecord(id, title, description.GetOr(""), priority.GetOr(Medium),
                                     category.GetOr("personal"), false, now, now)
    {
      this.taskId := id;
      this.title := title;
      this.description := description.GetOr("");
      this.priority := priority.GetOr(Medium);
      this.category := category.GetOr("personal");
      this.isCompleted := false;
      this.creationTimestamp := now;
      this.lastModified := now;
    }

    /** `modifyTask`: a loop over the whitelist copying each key the update has, then one time stamp. */
    method ModifyTask(updatedData: map<string, FieldValue>, now: int)
      requires WellKinded(updatedData)
      modifies this
      ensures Record() == Updated(old(Record()), updatedData, now)
    {
      var allowedFields := AllowedFields;
      for i := 0 to |allowedFields|
        invariant Record() == CopyFields(old(Record()), updatedData, allowedFields[..i]).(lastModified := old(lastModified))
      {
        var field := allowedFields[i];
        assert allowedFields[..i + 1][..i] == allowedFields[..i];
        if field in updatedData {
          var value := updatedData[field];
          if field == "title" {
            title := value.text;
          } else if field == "description" {
            description := value.text;
          } else if field == "priority" {
            priority := value.level;
          } else if field == "category" {
            category := value.text;
          }
        }
      }
      lastModified := now;
      assert allowedFields[..|allowedFields|] == AllowedFields;
      CopyAllowedFieldsIsUpdate(old(Record()), updatedData, now);
    }

    /** `toggleCompletionStatus`: flip the completion flag and stamp the time. */
    method ToggleCompletionStatus(now: int)
      modifies this
      ensures Record() == Toggled(old(Record()), now)
    {
      isCompleted := !isCompleted;
      lastModified := now;
    }

    /**
     * `searchMatch`: the query, lowercased and trimmed, occurs in the lowercased
     * title or in the lowercased description.
     */
    function SearchMatch(searchQuery: string): (r: bool)
      reads this
      ensures r <==> (IsSubstring(NormalizedQuery(searchQuery), ToLower(title)) ||
                      IsSubstring(NormalizedQuery(searchQuery), ToLower(description)))
    {
      var query := Trim(ToLower(searchQuery));
      Includes(ToLower(title), query) || Includes(ToLower(description), query)
    }
  }

  /** An empty or all-whitespace query matches every task. */
  lemma BlankQueryMatchesEveryTask(t: TaskEntity, q: string)
    requires IsBlank(q)
    ensures t.SearchMatch(q)
  {
    assert IsBlank(ToLower(q));
    BlankTrimsToEmpty(ToLower(q));
    EmptyIncludedEverywhere(ToLower(t.title));
  }

  /** The match ignores the case of the query's ASCII letters. */
  lemma SearchIgnoresQueryCase(t: TaskEntity, q: string)
    ensures t.SearchMatch(ToLower(q)) == t.SearchMatch(q)
  {
    ToLowerProperties(q);
  }

  /** The match ignores whitespace around the query. */
  lemma SearchIgnoresSurroundingWhitespace(t: TaskEntity, q: string)
    ensures t.SearchMatch(Trim(q)) == t.SearchMatch(q)
  {
    TrimToLowerCommute(q);
    TrimToLowerCommute(Trim(q));
    TrimIdempotent(q);
  }

  /** A task is found by searching for its own title. */
  lemma TitleMatchesItself(t: TaskEntity)
    ensures t.SearchMatch(t.title)
  {
    var lowered := ToLower(t.title);
    TrimIsSlice(lowered);
    assert OccursAt(Trim(lowered), lowered, |lowered| - |TrimStart(lowered)|);
  }
}
