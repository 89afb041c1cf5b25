/** Properties of the backend that relate several requests: what holds after
    any sequence of requests, round trips between create, delete and list, the
    way task authority follows the parent project, and a worked scenario. */
module Properties {
  import opened Common
  import opened TaskSchema
  import opened Records
  import AuthController
  import ProjectController
  import TaskController
  import JsText

  /** One authenticated or public request to the backend. */
  datatype Request =
    | Register(name: string, email: string, password: string)
    | Login(email: string, password: string)
    | ListUsers
    | CreateProject(requester: Id, projectName: Option<string>, description: Option<string>)
    | ListProjects(requester: Id)
    | UpdateProject(requester: Id, id: Id, newName: Option<string>, newDescription: Option<string>)
    | DeleteProject(requester: Id, id: Id)
    | CreateTask(requester: Id, body: TaskController.TaskBody)
    | ListTasks(requester: Id, projectId: Id)
    | UpdateTask(requester: Id, taskId: Id, patch: TaskPatch)
    | DeleteTask(requester: Id, taskId: Id)

  /** The store after one request. Reading requests leave it as it is. */
  function Next(db: Db, generateToken: Id -> string, req: Request): (after: Db)
    requires Valid(db)
    ensures Valid(after) && Evolves(db, after)
  {
    match req
    case Register(name, email, password) => AuthController.RegisterUser(db, generateToken, name, email, password).db
    case Login(_, _) => db
    case ListUsers => db
    case CreateProject(u, name, description) => ProjectController.CreateProject(db, u, name, description).db
    case ListProjects(_) => db
    case UpdateProject(u, id, name, description) => ProjectController.UpdateProject(db, u, id, name, description).db
    case DeleteProject(u, id) => ProjectController.DeleteProject(db, u, id).db
    case CreateTask(u, body) => TaskController.CreateTask(db, u, body).db
    case ListTasks(_, _) => db
    case UpdateTask(u, id, patch) => TaskController.UpdateTask(db, u, id, patch).db
    case DeleteTask(u, id) => TaskController.DeleteTask(db, u, id).db
  }

  /** The store after a sequence of requests handled one after another. Emails
      stay unique, names and titles non-empty, whatever the requests. */
  function Run(db: Db, generateToken: Id -> string, reqs: seq<Request>): (after: Db)
    requires Valid(db)
    ensures Valid(after)
    decreases |reqs|
  {
    if reqs == [] then db
    else Run(Next(db, generateToken, reqs[0]), generateToken, reqs[1..])
  }

  /** Over any sequence of requests: a project keeps the owner it was created
      with, a task keeps its project and user, users are never edited, and a
      deleted id never comes back. */
  lemma {:induction false} RunEvolves(db: Db, generateToken: Id -> string, reqs: seq<Request>)
    requires Valid(db)
    ensures Evolves(db, Run(db, generateToken, reqs))
    decreases |reqs|
  {
    if reqs != [] {
      var mid := Next(db, generateToken, reqs[0]);
      RunEvolves(mid, generateToken, reqs[1..]);
      EvolvesTransitive(db, mid, Run(mid, generateToken, reqs[1..]));
    }
  }

  /** A project's owner never changes, whoever sends which requests. */
  lemma OwnerIsFixed(db: Db, generateToken: Id -> string, reqs: seq<Request>, id: Id)
    requires Valid(db)
    requires id in db.projects && id in Run(db, generateToken, reqs).projects
    ensures Run(db, generateToken, reqs).projects[id].user == db.projects[id].user
  {
    RunEvolves(db, generateToken, reqs);
  }

  /** Registering the same email twice: the second attempt is refused with 400,
      whatever the names and passwords, and adds no user. */
  lemma {:induction false} SecondRegistrationRefused(db: Db, generateToken: Id -> string,
    name1: string, password1: string, name2: string, password2: string, email: string)
    requires Valid(db)
    ensures var first := AuthController.RegisterUser(db, generateToken, name1, email, password1);
            var second := AuthController.RegisterUser(first.db, generateToken, name2, email, password2);
            second.reply == Err(HttpError(400, AuthController.UserExists)) && second.db == first.db
  {
    var first := AuthController.RegisterUser(db, generateToken, name1, email, password1);
    if first.reply.Ok? {
      var id := first.reply.body.id;
      assert id in first.db.users && first.db.users[id].email == email;
    }
  }

  /** Create then list: the requester's list afterwards is the earlier one plus
      exactly the new project. */
  lemma CreateThenList(db: Db, requester: Id, name: Option<string>, description: Option<string>)
    requires Valid(db)
    ensures var s := ProjectController.CreateProject(db, requester, name, description);
            s.reply.Ok? ==>
              ProjectController.GetProject(s.db, requester).body ==
              ProjectController.GetProject(db, requester).body[s.reply.body.0 := s.reply.body.1]
  {
  }

  /** Delete then list: after the owner deletes a project, the owner's list is
      the earlier one without it. */
  lemma DeleteThenList(db: Db, requester: Id, id: Id)
    requires Valid(db)
    ensures var s := ProjectController.DeleteProject(db, requester, id);
            s.reply.Ok? ==>
              ProjectController.GetProject(s.db, requester).body ==
              ProjectController.GetProject(db, requester).body - {id}
  {
  }

  /** Task authority follows the parent project, not the task's own `user`
      field: when the two disagree, the project's owner may update and delete
      the task and the user recorded on it gets 404. */
  lemma TaskAuthorityIsProjectOwner(db: Db, taskId: Id, patch: TaskPatch)
    requires Valid(db)
    requires taskId in db.tasks && db.tasks[taskId].project in db.projects
    requires db.projects[db.tasks[taskId].project].user != db.tasks[taskId].user
    ensures var owner := db.projects[db.tasks[taskId].project].user;
            TaskController.DeleteTask(db, owner, taskId).reply.Ok? &&
            TaskController.UpdateTask(db, owner, taskId, patch).reply.Ok? == Patched(db.tasks[taskId], patch).Some?
    ensures var recorded := db.tasks[taskId].user;
            TaskController.DeleteTask(db, recorded, taskId).reply == Err(HttpError(404, TaskController.TaskNotFound)) &&
            TaskController.UpdateTask(db, recorded, taskId, patch).reply == Err(HttpError(404, TaskController.TaskNotFound))
  {
  }

  /** Deleting a project does not cascade: its tasks stay in the store, listing
      them now gives 404, and updating or deleting one of them fails without a
      status (the parent project is dereferenced although it is gone). */
  lemma DeleteProjectOrphansTasks(db: Db, requester: Id, id: Id, taskId: Id, patch: TaskPatch)
    requires Valid(db)
    requires id in db.projects && db.projects[id].user == requester
    requires taskId in db.tasks && db.tasks[taskId].project == id
    ensures var after := ProjectController.DeleteProject(db, requester, id).db;
            && taskId in after.tasks
            && TaskController.GetTasks(after, requester, id) == Err(HttpError(404, TaskController.ProjectNotFound))
            && TaskController.UpdateTask(after, requester, taskId, patch).reply == Err(Unhandled)
            && TaskController.DeleteTask(after, requester, taskId).reply == Err(Unhandled)
  {
  }

  /** A task can never be created under a project that does not exist. */
  lemma NoOrphanCreated(db: Db, requester: Id, body: TaskController.TaskBody)
    requires Valid(db)
    requires body.projectId.Some? && body.projectId.value !in db.projects
    ensures var s := TaskController.CreateTask(db, requester, body);
            s.reply.Err? && s.db == db
  {
  }

  /** Two users, one project: the other user's delete is refused with 401 and
      changes nothing; the owner's delete succeeds and the project leaves the
      owner's list. Login hands each user a token for their own id. */
  lemma AliceAndBob(generateToken: Id -> string, matchPassword: (User, string) -> bool)
    requires matchPassword(User("alice", "alice@x.com", "pw1"), "pw1")
    ensures
      var s1 := AuthController.RegisterUser(Empty(), generateToken, "alice", "alice@x.com", "pw1");
      var alice := s1.reply.body.id;
      var login := AuthController.LoginUser(s1.db, generateToken, matchPassword, "alice@x.com", "pw1");
      var s2 := AuthController.RegisterUser(s1.db, generateToken, "bob", "bob@x.com", "pw2");
      var bob := s2.reply.body.id;
      var s3 := ProjectController.CreateProject(s2.db, alice, Some("P1"), None);
      var p1 := s3.reply.body.0;
      var s4 := ProjectController.DeleteProject(s3.db, bob, p1);
      var s5 := ProjectController.DeleteProject(s4.db, alice, p1);
      && s1.reply.Ok? && s2.reply.Ok? && s3.reply.Ok? && alice != bob
      && login == Ok(200, AuthController.Identity(alice, "alice", "alice@x.com", generateToken(alice)))
      && s4 == Step(s3.db, Err(HttpError(401, ProjectController.NotAuthorized)))
      && s5.reply.Ok?
      && p1 in ProjectController.GetProject(s3.db, alice).body
      && p1 !in ProjectController.GetProject(s5.db, alice).body
  {
    var s1 := AuthController.RegisterUser(Empty(), generateToken, "alice", "alice@x.com", "pw1");
    assert !AuthController.EmailTaken(Empty().users, "alice@x.com");
    var s2 := AuthController.RegisterUser(s1.db, generateToken, "bob", "bob@x.com", "pw2");
    assert !AuthController.EmailTaken(s1.db.users, "bob@x.com") by {
      assert s1.db.users == map[0 := User("alice", "alice@x.com", "pw1")];
    }
  }

  /** The server checks only that a project name is truthy, so a name made of
      spaces is stored; the dashboard trims the name first and would never send
      it. */
  lemma SpacesOnlyName(db: Db, requester: Id, description: Option<string>)
    requires Valid(db)
    ensures ProjectController.CreateProject(db, requester, Some("   "), description).reply.Ok?
    ensures JsText.Trim("   ") == ""
  {
    JsText.TrimEmptyIffBlank("   ");
  }
}
