/** The Task document schema: its closed status enumeration with a default,
    its required fields, and the validation applied when a task is created
    and when it is updated with validators on. */
module TaskSchema {
  import opened Common

  /** The three values the status enumeration admits. */
  datatype Status = ToDo | InProgress | Completed

  /** The status a task gets when none is supplied. */
  const DefaultStatus: Status := ToDo

  /** The string stored for each status. */
  function Name(s: Status): string {
    match s
    case ToDo => "To-Do"
    case InProgress => "In-Progress"
    case Completed => "Completed"
  }

  /** The enumeration check: a string is accepted exactly when it names one of
      the three statuses, and then it is read back as that status. */
  function ParseStatus(s: string): (r: Option<Status>)
    ensures r.Some? ==> Name(r.value) == s
    ensures r.None? ==> forall st: Status :: Name(st) != s
  {
    if s == "To-Do" then Some(ToDo)
    else if s == "In-Progress" then Some(InProgress)
    else if s == "Completed" then Some(Completed)
    else None
  }

  /** A due date, kept opaque (date parsing and time zones are not modelled). */
  type Date = nat

  /** A stored task. The status field can only hold one of the enumeration's
      values; `project` and `user` are the required references. */
  datatype Task = Task(
    title: string,
    description: Option<string>,
    status: Status,
    dueDate: Option<Date>,
    project: Id,
    user: Id)

  /** The `required: true` constraint on the title: it is never empty. */
  predicate ValidTask(t: Task) {
    t.title != ""
  }

  /** Building a task document from its fields: the title must be a non-empty
      string, both references must be present, and a status, when supplied, must
      be in the enumeration; a missing status becomes the default. None is the
      validation error that `Task.create` raises. */
  function NewTask(
    title: Option<string>, description: Option<string>, status: Option<string>,
    dueDate: Option<Date>, project: Option<Id>, user: Option<Id>): (r: Option<Task>)
    ensures r.Some? <==>
      Truthy(title) && project.Some? && user.Some? &&
      (status.None? || ParseStatus(status.value).Some?)
    ensures r.Some? ==>
      && ValidTask(r.value)
      && r.value.title == title.value
      && r.value.description == description
      && r.value.dueDate == dueDate
      && r.value.project == project.value
      && r.value.user == user.value
      && (status.None? ==> r.value.status == DefaultStatus)
      && (status.Some? ==> Name(r.value.status) == status.value)
  {
    if !Truthy(title) || project.None? || user.None? then None
    else if status.None? then
      Some(Task(title.value, description, DefaultStatus, dueDate, project.value, user.value))
    else
      match ParseStatus(status.value)
      case None => None
      case Some(st) => Some(Task(title.value, description, st, dueDate, project.value, user.value))
  }

  /** The fields an update may carry; a missing field is left as it is. */
  datatype TaskPatch = TaskPatch(
    title: Option<string>,
    description: Option<string>,
    status: Option<string>,
    dueDate: Option<Date>)

  /** Applying an update with validators on: a supplied empty title fails the
      `required` check and a supplied status outside the enumeration fails the
      enum check (None); otherwise exactly the supplied fields are overwritten and
      the two references are kept. */
  function Patched(t: Task, p: TaskPatch): (r: Option<Task>)
    ensures r.Some? <==>
      (p.title.None? || p.title.value != "") &&
      (p.status.None? || ParseStatus(p.status.value).Some?)
    ensures r.Some? ==>
      && r.value.project == t.project
      && r.value.user == t.user
      && r.value.title == (if p.title.Some? then p.title.value else t.title)
      && r.value.description == (if p.description.Some? then p.description else t.description)
      && r.value.dueDate == (if p.dueDate.Some? then p.dueDate else t.dueDate)
      && Name(r.value.status) == (if p.status.Some? then p.status.value else Name(t.status))
    ensures ValidTask(t) && r.Some? ==> ValidTask(r.value)
  {
    if p.title.Some? && p.title.value == "" then None
    else
      var status :=
        if p.status.None? then Some(t.status) else ParseStatus(p.status.value);
      match status
      case None => None
      case Some(st) =>
        Some(Task(
          if p.title.Some? then p.title.value else t.title,
          if p.description.Some? then p.description else t.description,
          st,
          if p.dueDate.Some? then p.dueDate else t.dueDate,
          t.project,
          t.user))
  }

  /** Reading a stored status back through the enumeration check gives it back. */
  lemma ParseName(st: Status)
    ensures ParseStatus(Name(st)) == Some(st)
  {
  }
}
