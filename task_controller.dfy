/**
 * The task endpoints. Every handler first resolves the caller, named by the request's
 * authentication, to a stored user (401 if there is none). The handlers on one task check that
 * the task exists (404), then that the caller owns it (403), and only then act; the list
 * handlers filter by the caller's id.
 */
module TaskController {
  import opened Wrappers
  import opened Http
  import opened Users
  import opened Tasks
  import opened TaskStore
  import opened JwtAuthenticationFilter

  /** getCurrentUser: the stored user the authentication names, else 401. */
  function GetCurrentUser(users: map<string, User>, auth: Authentication): (r: Result<User, Status>)
    ensures r.Ok? <==> auth.principal.username in users
    ensures r.Ok? ==> r.value == users[auth.principal.username]
    ensures r.Err? ==> r.error == UNAUTHORIZED
  {
    var username := auth.principal.username;
    if username in users then Ok(users[username]) else Err(UNAUTHORIZED)
  }

  /**
   * The guard shared by getTask, updateTask and deleteTask: findById (404 when absent), then
   * the owner comparison (403 for anyone but the owner).
   */
  function FindOwnedTask(tasks: map<TaskId, Task>, id: TaskId, callerId: UserId): (r: Result<Task, Status>)
    ensures r == Err(NOT_FOUND) <==> id !in tasks
    ensures r == Err(FORBIDDEN) <==> (id in tasks && tasks[id].owner != Some(callerId))
    ensures r.Ok? <==> (id in tasks && tasks[id].owner == Some(callerId))
    ensures r.Ok? ==> r.value == tasks[id]
  {
    if id !in tasks then Err(NOT_FOUND)
    else if tasks[id].owner != Some(callerId) then Err(FORBIDDEN)
    else Ok(tasks[id])
  }

  /**
   * For a caller who does not own task `id`, the guard's verdict depends only on whether the
   * id exists: it is the same for every store that agrees on the key set, and never grants access.
   */
  lemma NonOwnerLearnsOnlyExistence(tasks: map<TaskId, Task>, other: map<TaskId, Task>, id: TaskId, callerId: UserId)
    requires id in tasks ==> tasks[id].owner != Some(callerId)
    requires id in other ==> other[id].owner != Some(callerId)
    requires (id in tasks) == (id in other)
    ensures FindOwnedTask(tasks, id, callerId) == FindOwnedTask(other, id, callerId)
    ensures FindOwnedTask(tasks, id, callerId).Err?
  {
  }

  /**
   * The store holds no row with an id below 1, so a request naming such an id is answered 404
   * whoever asks, and a payload carrying one is refused by save.
   */
  lemma NonPositiveIdNotFound(tasks: map<TaskId, Task>, nextId: TaskId, id: TaskId, callerId: UserId, payload: Task)
    requires WellFormed(tasks, nextId) && id < 1
    ensures FindOwnedTask(tasks, id, callerId) == Err(NOT_FOUND)
    ensures SaveResult(tasks, nextId, payload.SetId(Some(id))) == Err(StaleEntity(id))
  {
  }

  /** createTask as written: the owner is stamped and everything else in the payload, its id included, is kept. */
  function StampedAsWritten(payload: Task, ownerId: UserId): (t: Task)
    ensures t.owner == Some(ownerId) && t.id == payload.id
    ensures t.description == payload.description && t.completed == payload.completed
  {
    payload.SetUser(Some(ownerId))
  }

  /** createTask as intended: the owner is stamped and the payload's id is dropped, so save inserts. */
  function Stamped(payload: Task, ownerId: UserId): (t: Task)
    ensures t.owner == Some(ownerId) && t.id.None?
    ensures t.description == payload.description && t.completed == payload.completed
  {
    payload.SetId(None).SetUser(Some(ownerId))
  }

  /**
   * As written, a payload that names another user's task id makes save merge into that row:
   * the row changes and passes to the caller.
   */
  lemma {:induction false} CreateAsWrittenTakesOverForeignTask(tasks: map<TaskId, Task>, nextId: TaskId, victim: TaskId, callerId: UserId, payload: Task)
    requires WellFormed(tasks, nextId)
    requires victim in tasks && tasks[victim].owner != Some(callerId)
    requires payload.id == Some(victim)
    ensures SaveResult(tasks, nextId, StampedAsWritten(payload, callerId)).Ok?
    ensures var s := SaveResult(tasks, nextId, StampedAsWritten(payload, callerId)).value;
      && victim in s.tasks && s.tasks[victim].owner == Some(callerId)
      && s.tasks[victim] != tasks[victim]
      && s.tasks.Keys == tasks.Keys
  {
    var t := StampedAsWritten(payload, callerId);
    SaveExistingOverwrites(tasks, nextId, t);
  }

  /** One concrete store and request that exhibit the takeover. */
  lemma CreateAsWrittenCounterexample()
    ensures var before := map[1 := Task(Some(1), Some("alice's task"), false, Some(1))];
      var payload := Task(Some(1), Some("taken"), false, None);
      var r := SaveResult(before, 2, StampedAsWritten(payload, 2));
      r.Ok? && var s := r.value;
      s.tasks[1].owner == Some(2) && s.tasks[1].description == Some("taken") && s.entity.id == Some(1)
  {
  }

  /**
   * As intended, creating a task inserts exactly one new row, owned by the caller and carrying
   * the payload's description and flag, and leaves every existing row as it was.
   */
  lemma {:induction false} CreateInsertsOwnTask(tasks: map<TaskId, Task>, nextId: TaskId, callerId: UserId, payload: Task)
    requires WellFormed(tasks, nextId)
    ensures SaveResult(tasks, nextId, Stamped(payload, callerId)).Ok?
    ensures var s := SaveResult(tasks, nextId, Stamped(payload, callerId)).value;
      && WellFormed(s.tasks, s.nextId)
      && s.entity.owner == Some(callerId)
      && s.entity.description == payload.description && s.entity.completed == payload.completed
      && s.entity.id.Some? && s.entity.id.value !in tasks
      && s.tasks.Keys == tasks.Keys + {s.entity.id.value}
      && (forall k :: k in tasks ==> s.tasks[k] == tasks[k])
  {
    var t := Stamped(payload, callerId);
    SaveNewAllocatesFreshId(tasks, nextId, t);
    SavePreservesWellFormed(tasks, nextId, t);
  }

  class TaskController {
    const taskRepository: TaskRepository
    const userRepository: UserRepository

    ghost predicate Valid()
      reads taskRepository, userRepository
    {
      taskRepository.Valid() && userRepository.Valid()
    }

    constructor (tasks: TaskRepository, users: UserRepository)
      ensures taskRepository == tasks && userRepository == users
    {
      taskRepository := tasks;
      userRepository := users;
    }

    /**
     * getAllTasks: exactly the caller's tasks, incomplete ones first and each group by id;
     * no task of another user.
     */
    function GetAllTasks(auth: Authentication): (r: Response<seq<Task>>)
      reads taskRepository, userRepository
      requires taskRepository.Valid()
      ensures r.status == OK <==> auth.principal.username in userRepository.users
      ensures r.status != OK ==> r == Failure(UNAUTHORIZED)
      ensures r.status == OK ==> (r.body.Some?
        && (var me := userRepository.users[auth.principal.username];
            && (forall t :: t in r.body.value <==> Stored(taskRepository.tasks, t) && t.owner == Some(me.id))
            && SortedByCompletedThenId(r.body.value)))
    {
      match GetCurrentUser(userRepository.users, auth)
      case Err(status) => Failure(status)
      case Ok(me) => Response(OK, Some(FindByUserId(taskRepository.tasks, taskRepository.nextId, me.id)))
    }

    /** getTask: 401 for an unknown caller, then 404 for a missing id, then 403 for a task of someone else. */
    function GetTask(auth: Authentication, id: TaskId): (r: Response<Task>)
      reads taskRepository, userRepository
      ensures auth.principal.username !in userRepository.users ==> r == Failure(UNAUTHORIZED)
      ensures auth.principal.username in userRepository.users ==>
        var me := userRepository.users[auth.principal.username];
        && (id !in taskRepository.tasks ==> r == Failure(NOT_FOUND))
        && (id in taskRepository.tasks && taskRepository.tasks[id].owner != Some(me.id) ==> r == Failure(FORBIDDEN))
        && (id in taskRepository.tasks && taskRepository.tasks[id].owner == Some(me.id) ==>
              r == Response(OK, Some(taskRepository.tasks[id])))
    {
      match GetCurrentUser(userRepository.users, auth)
      case Err(status) => Failure(status)
      case Ok(me) =>
        match FindOwnedTask(taskRepository.tasks, id, me.id)
        case Err(status) => Failure(status)
        case Ok(task) => Response(OK, Some(task))
    }

    /** getTasksByStatus: exactly the caller's tasks with the given completion flag. */
    function GetTasksByStatus(auth: Authentication, completed: bool): (r: Response<seq<Task>>)
      reads taskRepository, userRepository
      requires taskRepository.Valid()
      ensures r.status == OK <==> auth.principal.username in userRepository.users
      ensures r.status != OK ==> r == Failure(UNAUTHORIZED)
      ensures r.status == OK ==> (r.body.Some?
        && (var me := userRepository.users[auth.principal.username];
            forall t :: t in r.body.value <==>
              Stored(taskRepository.tasks, t) && t.owner == Some(me.id) && t.completed == completed))
    {
      match GetCurrentUser(userRepository.users, auth)
      case Err(status) => Failure(status)
      case Ok(me) =>
        Response(OK, Some(FindByUserIdAndCompleted(taskRepository.tasks, taskRepository.nextId, me.id, completed)))
    }

    /**
     * createTask: the caller becomes the owner whatever the payload said, the task is saved with
     * a fresh id and returned with 201; no existing task changes.
     */
    method CreateTask(auth: Authentication, payload: Task) returns (r: Response<Task>)
      requires Valid()
      modifies taskRepository
      ensures Valid()
      ensures auth.principal.username !in userRepository.users ==>
        r == Failure(UNAUTHORIZED) && taskRepository.tasks == old(taskRepository.tasks)
        && taskRepository.nextId == old(taskRepository.nextId)
      ensures auth.principal.username in userRepository.users ==>
        var result := SaveResult(old(taskRepository.tasks), old(taskRepository.nextId),
                                 Stamped(payload, userRepository.users[auth.principal.username].id));
        && result.Ok?
        && r == Response(CREATED, Some(result.value.entity))
        && taskRepository.tasks == result.value.tasks && taskRepository.nextId == result.value.nextId
    {
      var current := GetCurrentUser(userRepository.users, auth);
      if current.Err? {
        return Failure(current.error);
      }
      var task := Stamped(payload, current.value.id);
      var newTask := taskRepository.Save(task);
      r := Response(CREATED, Some(newTask.value));
    }

    /**
     * createTask exactly as the Java code writes it: the payload keeps its id, so save may merge
     * into an existing row, or fail with a 500 when that id names no row.
     */
    method CreateTaskAsWritten(auth: Authentication, payload: Task) returns (r: Response<Task>)
      requires Valid()
      modifies taskRepository
      ensures Valid()
      ensures auth.principal.username !in userRepository.users ==>
        r == Failure(UNAUTHORIZED) && taskRepository.tasks == old(taskRepository.tasks)
        && taskRepository.nextId == old(taskRepository.nextId)
      ensures auth.principal.username in userRepository.users ==>
        match SaveResult(old(taskRepository.tasks), old(taskRepository.nextId),
                         StampedAsWritten(payload, userRepository.users[auth.principal.username].id))
        case Ok(s) =>
          && r == Response(CREATED, Some(s.entity))
          && taskRepository.tasks == s.tasks && taskRepository.nextId == s.nextId
        case Err(_) =>
          && r == Failure(INTERNAL_SERVER_ERROR)
          && taskRepository.tasks == old(taskRepository.tasks) && taskRepository.nextId == old(taskRepository.nextId)
    {
      var current := GetCurrentUser(userRepository.users, auth);
      if current.Err? {
        return Failure(current.error);
      }
      var task := StampedAsWritten(payload, current.value.id);
      var newTask := taskRepository.Save(task);
      match newTask
      case Err(_) =>
        r := Failure(INTERNAL_SERVER_ERROR);
      case Ok(saved) =>
        r := Response(CREATED, Some(saved));
    }

    /**
     * deleteTask: 401, 404 and 403 leave the store alone; for the owner exactly that row goes
     * and every other stays.
     */
    method DeleteTask(auth: Authentication, id: TaskId) returns (r: Response<()>)
      requires Valid()
      modifies taskRepository
      ensures Valid()
      ensures taskRepository.nextId == old(taskRepository.nextId)
      ensures auth.principal.username !in userRepository.users ==>
        r == Failure(UNAUTHORIZED) && taskRepository.tasks == old(taskRepository.tasks)
      ensures auth.principal.username in userRepository.users ==>
        match FindOwnedTask(old(taskRepository.tasks), id, userRepository.users[auth.principal.username].id)
        case Err(status) => r == Failure(status) && taskRepository.tasks == old(taskRepository.tasks)
        case Ok(_) => r == Response(OK, None) && taskRepository.tasks == old(taskRepository.tasks) - {id}
    {
      var current := GetCurrentUser(userRepository.users, auth);
      if current.Err? {
        return Failure(current.error);
      }
      var found := FindOwnedTask(taskRepository.tasks, id, current.value.id);
      if found.Err? {
        return Failure(found.error);
      }
      taskRepository.DeleteById(id);
      r := Response(OK, None);
    }

    /**
     * updateTask: 401, 404 and 403 leave the store alone; for the owner the row keeps its id and
     * owner and takes the payload's description and completion flag; no other row changes.
     */
    method UpdateTask(auth: Authentication, id: TaskId, data: Task) returns (r: Response<Task>)
      requires Valid()
      modifies taskRepository
      ensures Valid()
      ensures taskRepository.nextId == old(taskRepository.nextId)
      ensures auth.principal.username !in userRepository.users ==>
        r == Failure(UNAUTHORIZED) && taskRepository.tasks == old(taskRepository.tasks)
      ensures auth.principal.username in userRepository.users ==>
        match FindOwnedTask(old(taskRepository.tasks), id, userRepository.users[auth.principal.username].id)
        case Err(status) => r == Failure(status) && taskRepository.tasks == old(taskRepository.tasks)
        case Ok(existing) =>
          var updated := Task(Some(id), data.description, data.completed, existing.owner);
          r == Response(OK, Some(updated)) && taskRepository.tasks == old(taskRepository.tasks)[id := updated]
    {
      var current := GetCurrentUser(userRepository.users, auth);
      if current.Err? {
        return Failure(current.error);
      }
      var found := FindOwnedTask(taskRepository.tasks, id, current.value.id);
      if found.Err? {
        return Failure(found.error);
      }
      var existingTask := found.value;
      existingTask := existingTask.SetDescription(data.description);
      existingTask := existingTask.SetCompleted(data.completed);
      var updatedTask := taskRepository.Save(existingTask);
      r := Response(OK, Some(updatedTask.value));
    }

    /**
     * Two users and one task: the creator gets 201 with an incomplete task, the other user gets
     * 403 for its id, and the creator gets it back with 200.
     */
    method OwnershipScenario(alice: Authentication, bob: Authentication)
      returns (created: Response<Task>, asBob: Response<Task>, asAlice: Response<Task>)
      requires Valid()
      requires alice.principal.username in userRepository.users && bob.principal.username in userRepository.users
      requires alice.principal.username != bob.principal.username
      modifies taskRepository
      ensures created.status == CREATED && created.body.Some? && !created.body.value.completed
      ensures asBob == Failure(FORBIDDEN)
      ensures asAlice.status == OK && asAlice.body == created.body
    {
      var payload := NewTask().SetDescription(Some("x"));
      created := CreateTask(alice, payload);
      var id := created.body.value.id.value;
      asBob := GetTask(bob, id);
      asAlice := GetTask(alice, id);
    }
  }
}
