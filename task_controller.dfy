/** The task handlers. A task is reached through its parent project: create and
    list check the project named in the request, update and delete look up the
    task's own project, and in every case the project's owner, not the task's
    `user` field, decides who may act. */
module TaskController {
  import opened Common
  import opened TaskSchema
  import opened Records

  const FieldsRequired := "Task title and project ID are required"
  const ProjectNotFound := "Project not found"
  const NotAuthorized := "User not authorized to add tasks to this project"
  const TaskNotFound := "Task not found or user not authorized"
  const TaskRemoved := "Task removed"

  /** The JSON body of a task creation request. */
  datatype TaskBody = TaskBody(
    title: Option<string>,
    description: Option<string>,
    status: Option<string>,
    dueDate: Option<Date>,
    projectId: Option<Id>)

  /** The requester owns the existing project `pid`. */
  ghost predicate OwnsProject(db: Db, requester: Id, pid: Id) {
    pid in db.projects && db.projects[pid].user == requester
  }

  /** POST /task. The checks run in this order, each failure leaving the store
      as it was: a falsy title or a missing project id gives 400 (before any
      lookup), an unknown project 404, a project owned by someone else 401, and a
      status outside the enumeration a schema validation error. Otherwise exactly
      one task is added, referring to the given project and to the requester,
      and returned with 201. */
  function CreateTask(db: Db, requester: Id, body: TaskBody): (s: Step<(Id, Task)>)
    requires Valid(db)
    ensures Valid(s.db) && Evolves(db, s.db)
    ensures s.reply.Err? ==> s.db == db
    ensures !Truthy(body.title) || body.projectId.None? ==>
      s.reply == Err(HttpError(400, FieldsRequired))
    ensures Truthy(body.title) && body.projectId.Some? && body.projectId.value !in db.projects ==>
      s.reply == Err(HttpError(404, ProjectNotFound))
    ensures Truthy(body.title) && body.projectId.Some? && body.projectId.value in db.projects &&
            db.projects[body.projectId.value].user != requester ==>
      s.reply == Err(HttpError(401, NotAuthorized))
    ensures Truthy(body.title) && body.projectId.Some? && OwnsProject(db, requester, body.projectId.value) &&
            body.status.Some? && ParseStatus(body.status.value).None? ==>
      s.reply == Err(Unhandled)
    ensures s.reply.Ok? <==>
      Truthy(body.title) && body.projectId.Some? && OwnsProject(db, requester, body.projectId.value) &&
      (body.status.None? || ParseStatus(body.status.value).Some?)
    ensures s.reply.Ok? ==>
      var (id, t) := s.reply.body;
      && s.reply.code == 201
      && id !in db.tasks
      && s.db.tasks == db.tasks[id := t]
      && s.db.projects == db.projects
      && s.db.users == db.users
      && t.project == body.projectId.value
      && t.user == requester
      && t.title == body.title.value
      && t.description == body.description
      && t.dueDate == body.dueDate
      && (body.status.None? ==> t.status == DefaultStatus)
      && (body.status.Some? ==> Name(t.status) == body.status.value)
  {
    if !Truthy(body.title) || body.projectId.None? then
      Step(db, Err(HttpError(400, FieldsRequired)))
    else
      var pid := body.projectId.value;
      if pid !in db.projects then
        Step(db, Err(HttpError(404, ProjectNotFound)))
      else if db.projects[pid].user != requester then
        Step(db, Err(HttpError(401, NotAuthorized)))
      else
        match NewTask(body.title, body.description, body.status, body.dueDate, Some(pid), Some(requester))
        case None => Step(db, Err(Unhandled))
        case Some(t) =>
          Step(db.(tasks := db.tasks[db.nextId := t], nextId := db.nextId + 1), Ok(201, (db.nextId, t)))
  }

  /** GET /task/:projectId: 404 for an unknown project, 401 for a project owned
      by someone else, otherwise exactly the tasks that refer to the project. */
  function GetTasks(db: Db, requester: Id, projectId: Id): (r: Response<map<Id, Task>>)
    ensures projectId !in db.projects ==> r == Err(HttpError(404, ProjectNotFound))
    ensures projectId in db.projects && db.projects[projectId].user != requester ==>
      r == Err(HttpError(401, NotAuthorized))
    ensures OwnsProject(db, requester, projectId) ==> r.Ok? && r.code == 200
    ensures r.Ok? ==>
      && (forall id :: id in r.body <==> id in db.tasks && db.tasks[id].project == projectId)
      && (forall id :: id in r.body ==> r.body[id] == db.tasks[id])
  {
    if projectId !in db.projects then
      Err(HttpError(404, ProjectNotFound))
    else if db.projects[projectId].user != requester then
      Err(HttpError(401, NotAuthorized))
    else
      Ok(200, map id | id in db.tasks && db.tasks[id].project == projectId :: db.tasks[id])
  }

  /** Resolving a task and its parent project for update and delete: a missing
      task gives 404; a task whose project no longer exists fails with a null
      dereference (Unhandled); a project owned by someone else gives the same 404
      as a missing task. Success yields the stored task. */
  function Authorize(db: Db, requester: Id, taskId: Id): (r: Response<Task>)
    ensures taskId !in db.tasks ==> r == Err(HttpError(404, TaskNotFound))
    ensures taskId in db.tasks && db.tasks[taskId].project !in db.projects ==> r == Err(Unhandled)
    ensures taskId in db.tasks && db.tasks[taskId].project in db.projects &&
            db.projects[db.tasks[taskId].project].user != requester ==>
      r == Err(HttpError(404, TaskNotFound))
    ensures r == Err(Unhandled) <==> taskId in db.tasks && db.tasks[taskId].project !in db.projects
    ensures r.Ok? <==> taskId in db.tasks && OwnsProject(db, requester, db.tasks[taskId].project)
    ensures r.Ok? ==> r.body == db.tasks[taskId]
    ensures r.Err? && r.failure != Unhandled ==> r == Err(HttpError(404, TaskNotFound))
  {
    if taskId !in db.tasks then
      Err(HttpError(404, TaskNotFound))
    else
      var task := db.tasks[taskId];
      if task.project !in db.projects then
        Err(Unhandled)
      else if db.projects[task.project].user != requester then
        Err(HttpError(404, TaskNotFound))
      else
        Ok(200, task)
  }

  /** PUT /task/:taskId: authorised through the task's project as in Authorize,
      then the patch is applied with validators on (a validation error leaves the
      store as it was). Only that task changes; it keeps its project and user;
      the updated task is returned with 200. */
  function UpdateTask(db: Db, requester: Id, taskId: Id, patch: TaskPatch): (s: Step<Task>)
    requires Valid(db)
    ensures Valid(s.db) && Evolves(db, s.db)
    ensures s.reply.Err? ==> s.db == db
    ensures Authorize(db, requester, taskId).Err? ==>
      s.reply == Err(Authorize(db, requester, taskId).failure)
    ensures Authorize(db, requester, taskId).Ok? && Patched(db.tasks[taskId], patch).None? ==>
      s.reply == Err(Unhandled)
    ensures s.reply.Ok? <==>
      Authorize(db, requester, taskId).Ok? && Patched(db.tasks[taskId], patch).Some?
    ensures s.reply.Ok? ==>
      && s.reply.code == 200
      && s.reply.body == Patched(db.tasks[taskId], patch).value
      && s.db == db.(tasks := db.tasks[taskId := s.reply.body])
      && s.reply.body.project == db.tasks[taskId].project
      && s.reply.body.user == db.tasks[taskId].user
  {
    match Authorize(db, requester, taskId)
    case Err(f) => Step(db, Err(f))
    case Ok(_, task) =>
      match Patched(task, patch)
      case None => Step(db, Err(Unhandled))
      case Some(updated) => Step(db.(tasks := db.tasks[taskId := updated]), Ok(200, updated))
  }

  /** DELETE /task/:taskId: authorised as in Authorize; then exactly that task is
      removed and every other task, project and user is left intact. */
  function DeleteTask(db: Db, requester: Id, taskId: Id): (s: Step<string>)
    requires Valid(db)
    ensures Valid(s.db) && Evolves(db, s.db)
    ensures Authorize(db, requester, taskId).Err? ==>
      s == Step(db, Err(Authorize(db, requester, taskId).failure))
    ensures Authorize(db, requester, taskId).Ok? ==>
      && s.reply == Ok(200, TaskRemoved)
      && s.db == db.(tasks := db.tasks - {taskId})
  {
    match Authorize(db, requester, taskId)
    case Err(f) => Step(db, Err(f))
    case Ok(_, _) => Step(db.(tasks := db.tasks - {taskId}), Ok(200, TaskRemoved))
  }
}
