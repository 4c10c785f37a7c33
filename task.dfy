/**
 * The task entity: an id handed out by the store, a free-text description, a completion flag
 * that starts out false, and a reference to the owning user (held by the user's id, like the
 * user_id foreign-key column). Java's nullable fields are Options.
 */
module Tasks {
  import opened Wrappers
  import opened Users

  /**
   * A task id is a Java Long: the identity column hands out positive ids, but an id in a request
   * path or payload may be any integer, negative ones included.
   */
  type TaskId = int

  datatype Task = Task(id: Option<TaskId>, description: Option<string>, completed: bool, owner: Option<UserId>)
  {
    /** setId: replaces the id and nothing else. */
    function SetId(newId: Option<TaskId>): (t: Task)
      ensures t.id == newId
      ensures t.description == description && t.completed == completed && t.owner == owner
    {
      this.(id := newId)
    }

    /** setDescription: replaces the description and nothing else. */
    function SetDescription(newDescription: Option<string>): (t: Task)
      ensures t.description == newDescription
      ensures t.id == id && t.completed == completed && t.owner == owner
    {
      this.(description := newDescription)
    }

    /** setCompleted: replaces the completion flag and nothing else. */
    function SetCompleted(newCompleted: bool): (t: Task)
      ensures t.completed == newCompleted
      ensures t.id == id && t.description == description && t.owner == owner
    {
      this.(completed := newCompleted)
    }

    /** setUser: replaces the owner and nothing else. */
    function SetUser(newOwner: Option<UserId>): (t: Task)
      ensures t.owner == newOwner
      ensures t.id == id && t.description == description && t.completed == completed
    {
      this.(owner := newOwner)
    }
  }

  /** `new Task()`: no id, no description, no owner, and not completed. */
  function NewTask(): (t: Task)
    ensures !t.completed
    ensures t.id.None? && t.description.None? && t.owner.None?
  {
    Task(None, None, false, None)
  }

  /** A row of the task table: it has its id and, the owner column being NOT NULL, an owner. */
  predicate Persisted(t: Task) {
    t.id.Some? && t.owner.Some?
  }

  /** The JSON form of a task: the owner is never serialized. */
  datatype TaskJson = TaskJson(id: Option<TaskId>, description: Option<string>, completed: bool)

  function ToJson(t: Task): (j: TaskJson)
    ensures j.id == t.id && j.description == t.description && j.completed == t.completed
  {
    TaskJson(t.id, t.description, t.completed)
  }

  /** Two tasks that differ at most in their owner have the same JSON form: the output reveals nothing about the owner. */
  lemma OwnerNotSerialized(t: Task, other: Option<UserId>)
    ensures ToJson(t.SetUser(other)) == ToJson(t)
  {
  }

  /** The JSON form determines every field of a task except the owner. */
  lemma ToJsonInjectiveUpToOwner(a: Task, b: Task)
    requires ToJson(a) == ToJson(b)
    ensures a.SetUser(None) == b.SetUser(None)
  {
  }
}
