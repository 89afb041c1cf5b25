/** The backend's three collections (users, projects, tasks) as one value, the
    invariant every handler keeps, and the relation between a state and any
    later one. */
module Records {
  import opened Common
  import opened TaskSchema

  /** A registered user. The password is stored as handed to the user model
      (hashing happens inside that model, which is not part of this one). */
  datatype User = User(name: string, email: string, password: string)

  /** A project and the id of the user who owns it. */
  datatype Project = Project(name: string, description: Option<string>, user: Id)

  /** The document store. Fresh ids are drawn from `nextId`, which is shared by
      all three collections, as ObjectIds are unique across collections. */
  datatype Db = Db(
    users: map<Id, User>,
    projects: map<Id, Project>,
    tasks: map<Id, Task>,
    nextId: Id)

  /** The store after a handler ran, and the reply the handler sent. */
  datatype Step<+T> = Step(db: Db, reply: Response<T>)

  /** No two users share an email address. */
  ghost predicate UniqueEmails(users: map<Id, User>) {
    forall a, b :: a in users && b in users && users[a].email == users[b].email ==> a == b
  }

  /** The store invariant: every id in use is below the counter, emails are
      unique, every project has a non-empty name, every task a non-empty title. */
  ghost predicate Valid(db: Db) {
    && (forall id :: id in db.users ==> id < db.nextId)
    && (forall id :: id in db.projects ==> id < db.nextId)
    && (forall id :: id in db.tasks ==> id < db.nextId)
    && UniqueEmails(db.users)
    && (forall id :: id in db.projects ==> db.projects[id].name != "")
    && (forall id :: id in db.tasks ==> ValidTask(db.tasks[id]))
  }

  /** The store before any request. */
  function Empty(): (db: Db)
    ensures Valid(db)
    ensures db.users == map[] && db.projects == map[] && db.tasks == map[]
  {
    Db(map[], map[], map[], 0)
  }

  /** How a store may change from one state to a later one: the counter never
      goes back, a document that appears has a fresh id (an id is never reused),
      users are never edited, a project keeps its owner, and a task keeps its
      project and its user. */
  ghost predicate Evolves(before: Db, after: Db) {
    && before.nextId <= after.nextId
    && (forall id :: id in after.users && id !in before.users ==> before.nextId <= id)
    && (forall id :: id in after.projects && id !in before.projects ==> before.nextId <= id)
    && (forall id :: id in after.tasks && id !in before.tasks ==> before.nextId <= id)
    && (forall id :: id in before.users && id in after.users ==> after.users[id] == before.users[id])
    && (forall id :: id in before.projects && id in after.projects ==>
          after.projects[id].user == before.projects[id].user)
    && (forall id :: id in before.tasks && id in after.tasks ==>
          after.tasks[id].project == before.tasks[id].project &&
          after.tasks[id].user == before.tasks[id].user)
  }

  /** Evolves is a preorder over valid stores: a document present at both ends
      of two steps was present in between, because an id that disappeared could
      only come back as a fresh one. */
  lemma EvolvesTransitive(a: Db, b: Db, c: Db)
    requires Valid(a) && Evolves(a, b) && Evolves(b, c)
    ensures Evolves(a, c)
  {
    forall id | id in a.projects && id in c.projects
      ensures c.projects[id].user == a.projects[id].user
    {
      if id !in b.projects {
        assert false;
      }
    }
    forall id | id in a.tasks && id in c.tasks
      ensures c.tasks[id].project == a.tasks[id].project && c.tasks[id].user == a.tasks[id].user
    {
      if id !in b.tasks {
        assert false;
      }
    }
    forall id | id in a.users && id in c.users
      ensures c.users[id] == a.users[id]
    {
      if id !in b.users {
        assert false;
      }
    }
  }
}
