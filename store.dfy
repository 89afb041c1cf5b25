/** The backend as one mutable store. Each method is one Express handler run to
    completion for an authenticated requester; it changes the three collections
    step by step as the handler does, and its contract ties the new collections
    and the reply to the handler's specification function. */
module Server {
  import opened Common
  import opened TaskSchema
  import opened Records
  import AuthController
  import ProjectController
  import TaskController

  class Store {
    var users: map<Id, User>
    var projects: map<Id, Project>
    var tasks: map<Id, Task>
    var nextId: Id
    /** Token signing, outside this model. */
    const generateToken: Id -> string
    /** Password comparison against the stored user, outside this model. */
    const matchPassword: (User, string) -> bool

    /** The collections as a value. */
    function State(): Db
      reads this
    {
      Db(users, projects, tasks, nextId)
    }

    ghost predicate Valid()
      reads this
    {
      Records.Valid(State())
    }

    constructor (generateToken: Id -> string, matchPassword: (User, string) -> bool)
      ensures Valid() && State() == Records.Empty()
      ensures this.generateToken == generateToken && this.matchPassword == matchPassword
    {
      users, projects, tasks, nextId := map[], map[], map[], 0;
      this.generateToken := generateToken;
      this.matchPassword := matchPassword;
    }

    method RegisterUser(name: string, email: string, password: string)
      returns (reply: Response<AuthController.Identity>)
      requires Valid()
      modifies this
      ensures Valid()
      ensures Step(State(), reply) == AuthController.RegisterUser(old(State()), generateToken, name, email, password)
    {
      var existing := AuthController.FindByEmail(users, email);
      if existing.Some? {
        return Err(HttpError(400, AuthController.UserExists));
      }
      var id := nextId;
      users := users[id := User(name, email, password)];
      nextId := nextId + 1;
      reply := Ok(201, AuthController.Identity(id, name, email, generateToken(id)));
    }

    method LoginUser(email: string, password: string) returns (reply: Response<AuthController.Identity>)
      requires Valid()
      ensures reply == AuthController.LoginUser(State(), generateToken, matchPassword, email, password)
    {
      var found := AuthController.FindByEmail(users, email);
      if found.None? {
        return Err(HttpError(400, AuthController.NoSuchUser));
      }
      var user := users[found.value];
      var passTrue := matchPassword(user, password);
      if passTrue {
        reply := Ok(200, AuthController.Identity(found.value, user.name, user.email, generateToken(found.value)));
      } else {
        reply := Err(HttpError(401, AuthController.InvalidPassword));
      }
    }

    method GetAllUser() returns (reply: Response<map<Id, User>>)
      ensures reply == AuthController.GetAllUser(State())
    {
      reply := Ok(200, users);
    }

    method CreateProject(requester: Id, name: Option<string>, description: Option<string>)
      returns (reply: Response<(Id, Project)>)
      requires Valid()
      modifies this
      ensures Valid()
      ensures Step(State(), reply) == ProjectController.CreateProject(old(State()), requester, name, description)
    {
      if !Truthy(name) {
        return Err(HttpError(400, ProjectController.NameRequired));
      }
      var project := Project(name.value, description, requester);
      var id := nextId;
      projects := projects[id := project];
      nextId := nextId + 1;
      reply := Ok(201, (id, project));
    }

    method GetProject(requester: Id) returns (reply: Response<map<Id, Project>>)
      ensures reply == ProjectController.GetProject(State(), requester)
    {
      var owned := map id | id in projects && projects[id].user == requester :: projects[id];
      reply := Ok(200, owned);
    }

    method UpdateProject(requester: Id, id: Id, name: Option<string>, description: Option<string>)
      returns (reply: Response<Project>)
      requires Valid()
      modifies this
      ensures Valid()
      ensures Step(State(), reply) == ProjectController.UpdateProject(old(State()), requester, id, name, description)
    {
      if id !in projects {
        return Err(HttpError(404, ProjectController.ProjectNotFound));
      }
      var project := projects[id];
      if project.user != requester {
        return Err(HttpError(401, ProjectController.NotAuthorized));
      }
      project := project.(name := Or(name, Some(project.name)).value);
      project := project.(description := Or(description, project.description));
      projects := projects[id := project];
      reply := Ok(200, project);
    }

    method DeleteProject(requester: Id, id: Id) returns (reply: Response<(string, Project)>)
      requires Valid()
      modifies this
      ensures Valid()
      ensures Step(State(), reply) == ProjectController.DeleteProject(old(State()), requester, id)
    {
      if id !in projects {
        return Err(HttpError(404, ProjectController.ProjectNotFound));
      }
      var project := projects[id];
      if project.user != requester {
        return Err(HttpError(401, ProjectController.NotAuthorized));
      }
      projects := projects - {id};
      reply := Ok(200, (ProjectController.ProjectDeleted, project));
    }

    method CreateTask(requester: Id, body: TaskController.TaskBody) returns (reply: Response<(Id, Task)>)
      requires Valid()
      modifies this
      ensures Valid()
      ensures Step(State(), reply) == TaskController.CreateTask(old(State()), requester, body)
    {
      if !Truthy(body.title) || body.projectId.None? {
        return Err(HttpError(400, TaskController.FieldsRequired));
      }
      var projectId := body.projectId.value;
      if projectId !in projects {
        return Err(HttpError(404, TaskController.ProjectNotFound));
      }
      if projects[projectId].user != requester {
        return Err(HttpError(401, TaskController.NotAuthorized));
      }
      var task := NewTask(body.title, body.description, body.status, body.dueDate, Some(projectId), Some(requester));
      if task.None? {
        return Err(Unhandled);
      }
      var id := nextId;
      tasks := tasks[id := task.value];
      nextId := nextId + 1;
      reply := Ok(201, (id, task.value));
    }

    method GetTasks(requester: Id, projectId: Id) returns (reply: Response<map<Id, Task>>)
      ensures reply == TaskController.GetTasks(State(), requester, projectId)
    {
      if projectId !in projects {
        return Err(HttpError(404, TaskController.ProjectNotFound));
      }
      if projects[projectId].user != requester {
        return Err(HttpError(401, TaskController.NotAuthorized));
      }
      var found := map id | id in tasks && tasks[id].project == projectId :: tasks[id];
      reply := Ok(200, found);
    }

    /** `Task.findById(taskId).populate("project")` and the ownership test that
        update and delete share. */
    method FindOwnedTask(requester: Id, taskId: Id) returns (reply: Response<Task>)
      ensures reply == TaskController.Authorize(State(), requester, taskId)
    {
      if taskId !in tasks {
        return Err(HttpError(404, TaskController.TaskNotFound));
      }
      var task := tasks[taskId];
      if task.project !in projects {
        return Err(Unhandled);
      }
      if projects[task.project].user != requester {
        return Err(HttpError(404, TaskController.TaskNotFound));
      }
      reply := Ok(200, task);
    }

    method UpdateTask(requester: Id, taskId: Id, patch: TaskPatch) returns (reply: Response<Task>)
      requires Valid()
      modifies this
      ensures Valid()
      ensures Step(State(), reply) == TaskController.UpdateTask(old(State()), requester, taskId, patch)
    {
      var found := FindOwnedTask(requester, taskId);
      if found.Err? {
        return Err(found.failure);
      }
      var updated := Patched(found.body, patch);
      if updated.None? {
        return Err(Unhandled);
      }
      tasks := tasks[taskId := updated.value];
      reply := Ok(200, updated.value);
    }

    method DeleteTask(requester: Id, taskId: Id) returns (reply: Response<string>)
      requires Valid()
      modifies this
      ensures Valid()
      ensures Step(State(), reply) == TaskController.DeleteTask(old(State()), requester, taskId)
    {
      var found := FindOwnedTask(requester, taskId);
      if found.Err? {
        return Err(found.failure);
      }
      tasks := tasks - {taskId};
      reply := Ok(200, TaskController.TaskRemoved);
    }
  }
}
