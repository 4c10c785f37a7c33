/**
 * The task repository: the task table as a map from id to task together with the identity
 * column's counter, the derived finders as functions over that map, and the inherited
 * save and deleteById as methods that update it.
 */
module TaskStore {
  import opened Wrappers
  import opened Users
  import opened Tasks

  /**
   * The counter starts at 1 and every row is stored under its own id, a positive one below the
   * counter, and has an owner.
   */
  ghost predicate WellFormed(tasks: map<TaskId, Task>, nextId: TaskId) {
    && 1 <= nextId
    && forall k :: k in tasks ==> 1 <= k < nextId && tasks[k].id == Some(k) && tasks[k].owner.Some?
  }

  /** `t` is exactly the row stored under its own id. */
  predicate Stored(tasks: map<TaskId, Task>, t: Task) {
    t.id.Some? && t.id.value in tasks && tasks[t.id.value] == t
  }

  /** The id of a task, or -1 for a task that has none. */
  function IdOf(t: Task): int {
    if t.id.Some? then t.id.value else -1
  }

  /** Strictly increasing ids; in particular no task appears twice. */
  ghost predicate IdsAscending(r: seq<Task>) {
    forall i, j :: 0 <= i < j < |r| ==> IdOf(r[i]) < IdOf(r[j])
  }

  /** The order `Sort.by(asc("completed"), asc("id"))`: incomplete tasks first, then by id. */
  predicate CompletedThenIdBefore(a: Task, b: Task) {
    (!a.completed && b.completed) || (a.completed == b.completed && IdOf(a) < IdOf(b))
  }

  ghost predicate SortedByCompletedThenId(r: seq<Task>) {
    forall i, j :: 0 <= i < j < |r| ==> CompletedThenIdBefore(r[i], r[j])
  }

  /** The conditions of the derived finders. */
  datatype Criteria = ByCompleted(completed: bool) | ByUserAndCompleted(userId: UserId, completed: bool)

  predicate Matches(c: Criteria, t: Task) {
    match c
    case ByCompleted(b) => t.completed == b
    case ByUserAndCompleted(u, b) => t.owner == Some(u) && t.completed == b
  }

  /** The rows with an id below `bound` that meet the criteria, in increasing id order. */
  function Select(tasks: map<TaskId, Task>, bound: nat, c: Criteria): (r: seq<Task>)
    requires forall k :: k in tasks ==> 0 <= k && tasks[k].id == Some(k)
    ensures forall i :: 0 <= i < |r| ==> Stored(tasks, r[i]) && Matches(c, r[i]) && IdOf(r[i]) < bound
    ensures forall k :: k in tasks && k < bound && Matches(c, tasks[k]) ==> tasks[k] in r
    ensures IdsAscending(r)
  {
    if bound == 0 then []
    else
      var prefix := Select(tasks, bound - 1, c);
      var k := bound - 1;
      if k in tasks && Matches(c, tasks[k]) then prefix + [tasks[k]] else prefix
  }

  /** findByCompleted: every row with the given flag, whoever owns it. */
  function FindByCompleted(tasks: map<TaskId, Task>, nextId: TaskId, completed: bool): (r: seq<Task>)
    requires WellFormed(tasks, nextId)
    ensures forall t :: t in r <==> Stored(tasks, t) && t.completed == completed
    ensures IdsAscending(r)
  {
    Select(tasks, nextId, ByCompleted(completed))
  }

  /** findByUserIdAndCompleted: every row of the given owner with the given flag. */
  function FindByUserIdAndCompleted(tasks: map<TaskId, Task>, nextId: TaskId, userId: UserId, completed: bool): (r: seq<Task>)
    requires WellFormed(tasks, nextId)
    ensures forall t :: t in r <==> Stored(tasks, t) && t.owner == Some(userId) && t.completed == completed
    ensures IdsAscending(r)
  {
    Select(tasks, nextId, ByUserAndCompleted(userId, completed))
  }

  /**
   * findByUserId with the sort the task controller passes, ascending by completion flag and
   * then by id: every row of the given owner, and no other.
   */
  function FindByUserId(tasks: map<TaskId, Task>, nextId: TaskId, userId: UserId): (r: seq<Task>)
    requires WellFormed(tasks, nextId)
    ensures forall t :: t in r <==> Stored(tasks, t) && t.owner == Some(userId)
    ensures SortedByCompletedThenId(r)
  {
    var open := FindByUserIdAndCompleted(tasks, nextId, userId, false);
    var done := FindByUserIdAndCompleted(tasks, nextId, userId, true);
    assert forall i :: 0 <= i < |open| ==> !open[i].completed by {
      forall i | 0 <= i < |open| ensures !open[i].completed {
        assert open[i] in open;
      }
    }
    assert forall i :: 0 <= i < |done| ==> done[i].completed by {
      forall i | 0 <= i < |done| ensures done[i].completed {
        assert done[i] in done;
      }
    }
    open + done
  }

  /** What save leaves behind: the new table, the new counter and the entity it returns. */
  datatype Saved = Saved(tasks: map<TaskId, Task>, nextId: TaskId, entity: Task)

  /** A merge of an entity whose generated id names no row: the persistence provider refuses it as stale. */
  datatype SaveError = StaleEntity(id: TaskId)

  /**
   * save: a task whose id is already a row overwrites that row; a task without an id is
   * inserted under a fresh id from the identity column; a task whose id names no row fails.
   */
  function SaveResult(tasks: map<TaskId, Task>, nextId: TaskId, t: Task): (r: Result<Saved, SaveError>)
    ensures r.Err? <==> (t.id.Some? && t.id.value !in tasks)
    ensures r.Err? ==> r.error == StaleEntity(t.id.value)
    ensures r.Ok? ==> Stored(r.value.tasks, r.value.entity) && r.value.entity.SetId(None) == t.SetId(None)
  {
    if t.id.Some? then
      if t.id.value in tasks then Ok(Saved(tasks[t.id.value := t], nextId, t))
      else Err(StaleEntity(t.id.value))
    else
      var entity := t.SetId(Some(nextId));
      Ok(Saved(tasks[nextId := entity], nextId + 1, entity))
  }

  /** A successful save of an owned task keeps the table well formed and never lowers the counter. */
  lemma SavePreservesWellFormed(tasks: map<TaskId, Task>, nextId: TaskId, t: Task)
    requires WellFormed(tasks, nextId) && t.owner.Some?
    ensures var r := SaveResult(tasks, nextId, t);
      r.Ok? ==> WellFormed(r.value.tasks, r.value.nextId) && r.value.nextId >= nextId
  {
  }

  /** Saving a task whose id is already present updates that row in place: no row is added, none other changes. */
  lemma {:induction false} SaveExistingOverwrites(tasks: map<TaskId, Task>, nextId: TaskId, t: Task)
    requires WellFormed(tasks, nextId) && t.id.Some? && t.id.value in tasks
    ensures SaveResult(tasks, nextId, t).Ok?
    ensures var s := SaveResult(tasks, nextId, t).value;
      && s.tasks.Keys == tasks.Keys && |s.tasks| == |tasks|
      && s.tasks[t.id.value] == t
      && (forall k :: k in tasks && k != t.id.value ==> s.tasks[k] == tasks[k])
      && s.nextId == nextId
  {
    var s := SaveResult(tasks, nextId, t).value;
    assert s.tasks.Keys == tasks.Keys;
  }

  /** Saving a task without an id inserts exactly one row under an id no row had, and changes no other row. */
  lemma {:induction false} SaveNewAllocatesFreshId(tasks: map<TaskId, Task>, nextId: TaskId, t: Task)
    requires WellFormed(tasks, nextId) && t.id.None?
    ensures SaveResult(tasks, nextId, t).Ok?
    ensures var s := SaveResult(tasks, nextId, t).value;
      && s.entity.id.Some? && s.entity.id.value !in tasks
      && s.tasks.Keys == tasks.Keys + {s.entity.id.value}
      && |s.tasks| == |tasks| + 1
      && (forall k :: k in tasks ==> s.tasks[k] == tasks[k])
      && s.nextId > nextId
  {
    var s := SaveResult(tasks, nextId, t).value;
    assert nextId !in tasks;
    assert s.tasks.Keys == tasks.Keys + {nextId};
  }

  /** deleteById removes that row if present and keeps every other row. */
  lemma DeleteRemovesOnlyThatRow(tasks: map<TaskId, Task>, nextId: TaskId, id: TaskId)
    requires WellFormed(tasks, nextId)
    ensures WellFormed(tasks - {id}, nextId)
    ensures id !in tasks - {id}
    ensures forall k :: k in tasks && k != id ==> k in tasks - {id} && (tasks - {id})[k] == tasks[k]
  {
  }

  class TaskRepository {
    var tasks: map<TaskId, Task>
    var nextId: TaskId

    ghost predicate Valid()
      reads this
    {
      WellFormed(tasks, nextId)
    }

    constructor ()
      ensures Valid() && tasks == map[] && nextId == 1
    {
      tasks := map[];
      nextId := 1;
    }

    /** findById: the row stored under `id`, if any. */
    function FindById(id: TaskId): (r: Option<Task>)
      reads this
      requires Valid()
      ensures r.Some? <==> id in tasks
      ensures r.Some? ==> Persisted(r.value) && r.value.id == Some(id) && Stored(tasks, r.value)
    {
      if id in tasks then Some(tasks[id]) else None
    }

    /**
     * save, with the database's NOT NULL owner column as the caller's obligation. A refused
     * merge leaves the table as it was.
     */
    method Save(t: Task) returns (saved: Result<Task, SaveError>)
      requires Valid()
      requires t.owner.Some?
      modifies this
      ensures Valid()
      ensures match SaveResult(old(tasks), old(nextId), t)
        case Ok(s) => tasks == s.tasks && nextId == s.nextId && saved == Ok(s.entity)
        case Err(e) => tasks == old(tasks) && nextId == old(nextId) && saved == Err(e)
    {
      SavePreservesWellFormed(tasks, nextId, t);
      if t.id.Some? {
        if t.id.value !in tasks {
          return Err(StaleEntity(t.id.value));
        }
        tasks := tasks[t.id.value := t];
        saved := Ok(t);
      } else {
        var entity := t.SetId(Some(nextId));
        tasks := tasks[nextId := entity];
        nextId := nextId + 1;
        saved := Ok(entity);
      }
    }

    /** deleteById: afterwards no row has that id and the other rows are as before. */
    method DeleteById(id: TaskId)
      requires Valid()
      modifies this
      ensures Valid()
      ensures tasks == old(tasks) - {id} && nextId == old(nextId)
      ensures FindById(id).None?
    {
      tasks := tasks - {id};
    }
  }
}
