/** The project handlers: create, list, update and delete, each scoped to the
    authenticated requester (every project route runs the authentication
    middleware first, so the requester's id is a parameter). */
module ProjectController {
  import opened Common
  import opened Records

  const NameRequired := "Project name is required"
  const ProjectNotFound := "Project not found"
  const NotAuthorized := "User not authorized"
  const ProjectDeleted := "Project Deleted"

  /** POST /project: a falsy name is refused with 400 before anything is stored;
      any truthy name, even one made only of spaces, creates one project owned by
      the requester, returned with 201. */
  function CreateProject(db: Db, requester: Id, name: Option<string>, description: Option<string>)
    : (s: Step<(Id, Project)>)
    requires Valid(db)
    ensures Valid(s.db) && Evolves(db, s.db)
    ensures !Truthy(name) <==> s.reply == Err(HttpError(400, NameRequired))
    ensures s.reply.Err? <==> !Truthy(name)
    ensures s.reply.Err? ==> s.db == db
    ensures s.reply.Ok? ==>
      var (id, p) := s.reply.body;
      && s.reply.code == 201
      && p == Project(name.value, description, requester)
      && id !in db.projects
      && s.db.projects == db.projects[id := p]
      && s.db.users == db.users
      && s.db.tasks == db.tasks
  {
    if !Truthy(name) then
      Step(db, Err(HttpError(400, NameRequired)))
    else
      var p := Project(name.value, description, requester);
      Step(db.(projects := db.projects[db.nextId := p], nextId := db.nextId + 1),
           Ok(201, (db.nextId, p)))
  }

  /** GET /project: exactly the projects the requester owns, unchanged. */
  function GetProject(db: Db, requester: Id): (r: Response<map<Id, Project>>)
    ensures r.Ok? && r.code == 200
    ensures forall id :: id in r.body <==> id in db.projects && db.projects[id].user == requester
    ensures forall id :: id in r.body ==> r.body[id] == db.projects[id]
  {
    Ok(200, map id | id in db.projects && db.projects[id].user == requester :: db.projects[id])
  }

  /** PUT /project/:id: 404 for an unknown id, then 401 when the requester does
      not own the project; both leave the store as it was. Otherwise each of
      name and description is overwritten only by a truthy value, the owner is
      kept, and the updated project is returned with 200. */
  function UpdateProject(db: Db, requester: Id, id: Id, name: Option<string>, description: Option<string>)
    : (s: Step<Project>)
    requires Valid(db)
    ensures Valid(s.db) && Evolves(db, s.db)
    ensures id !in db.projects ==> s == Step(db, Err(HttpError(404, ProjectNotFound)))
    ensures id in db.projects && db.projects[id].user != requester ==>
      s == Step(db, Err(HttpError(401, NotAuthorized)))
    ensures id in db.projects && db.projects[id].user == requester ==>
      var was := db.projects[id];
      && s.reply.Ok? && s.reply.code == 200
      && s.reply.body.user == requester
      && s.reply.body.name == (if Truthy(name) then name.value else was.name)
      && s.reply.body.description == (if Truthy(description) then description else was.description)
      && s.db == db.(projects := db.projects[id := s.reply.body])
  {
    if id !in db.projects then
      Step(db, Err(HttpError(404, ProjectNotFound)))
    else
      var project := db.projects[id];
      if project.user != requester then
        Step(db, Err(HttpError(401, NotAuthorized)))
      else
        var updated := project.(name := Or(name, Some(project.name)).value,
                                description := Or(description, project.description));
        Step(db.(projects := db.projects[id := updated]), Ok(200, updated))
  }

  /** DELETE /project/:id: 404 for an unknown id, then 401 for a non-owner, both
      leaving the store as it was. Otherwise exactly that project is removed and
      returned with 200 beside a confirmation message; the tasks that refer to it
      are left in place. */
  function DeleteProject(db: Db, requester: Id, id: Id): (s: Step<(string, Project)>)
    requires Valid(db)
    ensures Valid(s.db) && Evolves(db, s.db)
    ensures id !in db.projects ==> s == Step(db, Err(HttpError(404, ProjectNotFound)))
    ensures id in db.projects && db.projects[id].user != requester ==>
      s == Step(db, Err(HttpError(401, NotAuthorized)))
    ensures id in db.projects && db.projects[id].user == requester ==>
      && s.reply == Ok(200, (ProjectDeleted, db.projects[id]))
      && s.db == db.(projects := db.projects - {id})
  {
    if id !in db.projects then
      Step(db, Err(HttpError(404, ProjectNotFound)))
    else
      var project := db.projects[id];
      if project.user != requester then
        Step(db, Err(HttpError(401, NotAuthorized)))
      else
        Step(db.(projects := db.projects - {id}), Ok(200, (ProjectDeleted, project)))
  }
}
