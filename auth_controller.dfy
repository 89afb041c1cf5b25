/** The authentication handlers: register, login and list all users. Token
    signing and password comparison live in code outside this model, so they
    are passed in as functions: `generateToken` maps a user id to its token and
    `matchPassword` says whether a candidate password matches a stored user. */
module AuthController {
  import opened Common
  import opened Records

  const UserExists := "User Already Exists"
  const NoSuchUser := "User Doesn't Exists"
  const InvalidPassword := "Invalid Password"

  /** What register and login send back: the user's id, name and email and a
      token for that id. */
  datatype Identity = Identity(id: Id, name: string, email: string, token: string)

  /** Some user is registered under `email`. */
  ghost predicate EmailTaken(users: map<Id, User>, email: string) {
    exists id :: id in users && users[id].email == email
  }

  /** `User.findOne({ email })`: the id of the user registered under `email`,
      if any. Emails being unique, there is at most one. */
  function FindByEmail(users: map<Id, User>, email: string): (r: Option<Id>)
    requires UniqueEmails(users)
    ensures r.None? <==> !EmailTaken(users, email)
    ensures r.Some? ==> r.value in users && users[r.value].email == email
  {
    if exists id :: id in users && users[id].email == email then
      var id :| id in users && users[id].email == email;
      Some(id)
    else
      None
  }

  /** POST /auth/register: an email already in use gives 400 and adds no user;
      otherwise exactly one user is added and its id, name, email and token are
      returned with 201. Emails stay unique. */
  function RegisterUser(db: Db, generateToken: Id -> string, name: string, email: string, password: string)
    : (s: Step<Identity>)
    requires Valid(db)
    ensures Valid(s.db) && Evolves(db, s.db)
    ensures EmailTaken(db.users, email) <==> s.reply == Err(HttpError(400, UserExists))
    ensures !EmailTaken(db.users, email) ==> s.reply.Ok?
    ensures s.reply.Err? ==> s.db == db
    ensures s.reply.Ok? ==>
      var id := s.reply.body.id;
      && s.reply.code == 201
      && s.reply.body == Identity(id, name, email, generateToken(id))
      && id !in db.users
      && s.db.users == db.users[id := User(name, email, password)]
      && s.db.projects == db.projects
      && s.db.tasks == db.tasks
  {
    if FindByEmail(db.users, email).Some? then
      Step(db, Err(HttpError(400, UserExists)))
    else
      var id := db.nextId;
      Step(db.(users := db.users[id := User(name, email, password)], nextId := id + 1),
           Ok(201, Identity(id, name, email, generateToken(id))))
  }

  /** POST /auth/login: an unknown email gives 400; a known one whose password
      does not match gives 401 and no token; otherwise the stored user's id,
      name and email and a token for that id, with 200. Login only reads. */
  function LoginUser(db: Db, generateToken: Id -> string, matchPassword: (User, string) -> bool,
                     email: string, password: string): (r: Response<Identity>)
    requires UniqueEmails(db.users)
    ensures !EmailTaken(db.users, email) ==> r == Err(HttpError(400, NoSuchUser))
    ensures forall id :: id in db.users && db.users[id].email == email ==>
      r == if matchPassword(db.users[id], password)
           then Ok(200, Identity(id, db.users[id].name, email, generateToken(id)))
           else Err(HttpError(401, InvalidPassword))
  {
    match FindByEmail(db.users, email)
    case None => Err(HttpError(400, NoSuchUser))
    case Some(id) =>
      var user := db.users[id];
      if matchPassword(user, password) then
        Ok(200, Identity(id, user.name, user.email, generateToken(id)))
      else
        Err(HttpError(401, InvalidPassword))
  }

  /** GET /auth/users: every user record, unfiltered and without authentication. */
  function GetAllUser(db: Db): (r: Response<map<Id, User>>)
    ensures r.Ok? && r.code == 200
    ensures r.body.Keys == db.users.Keys
    ensures forall id :: id in r.body ==> r.body[id] == db.users[id]
  {
    Ok(200, db.users)
  }
}
