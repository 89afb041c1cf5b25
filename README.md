# Task manager: ownership-scoped CRUD, modelled and proved in Dafny

This project models the decision logic of a small task/project manager: an
Express backend whose handlers register and log in users and create, list,
update and delete projects and tasks for the authenticated user, and two pages
of its React client (the project dashboard and a project's task board).

The backend is modelled as a store over three collections (users, projects,
tasks) keyed by opaque ids. Each handler has a specification function
(modules `AuthController`, `ProjectController`, `TaskController`) that maps the
store and the request to the new store and the reply (`Ok(code, payload)` or
`Err(failure)`), with the handler's checks in their order (400, then 404, then
401), the "a rejected request changes nothing" guarantee and the exact change
on success stated as `ensures`. The class `Server.Store` performs each handler
step by step on mutable fields and is proved equal to its specification
function. Every task and project route runs the authentication middleware
first, so handlers take the requester's id as a parameter. Token signing
(`generateToken`) and password comparison (`matchPassword`) are not visible,
so they are function-valued parameters (fields of `Store`).

`Properties` relates several requests: any sequence of requests keeps emails
unique, keeps every project with its first owner, keeps every task with its
project and user, and never reuses an id; create/delete followed by list;
task authority following the project's owner rather than the task's `user`
field; the absence of a cascade on project delete; and a two-user scenario.

On the client, `Lists.Filter` models `Array.prototype.filter` (contents with
multiplicity and order). `TasksPage` models the grouping of tasks into three
status columns, the badge classes, the blank form and the component state
updates. `DashboardPage` models project creation (a name that trims to empty
is refused before any request), deletion and the dialogs. `JsText` models
`String.prototype.trim`.

Modelling choices:
- Ids are natural numbers drawn from one counter shared by the three
  collections, as ObjectIds are unique across collections.
- A request field is `Option<string>`; `None` stands for an absent field. A
  field is falsy when absent or empty (`Common.Truthy`).
- `Failure.HttpError(code, message)` is a failure for which the handler set the
  status (and message) itself. `Failure.Unhandled` is an error thrown with no
  status set: a schema validation error, or the null dereference on a task
  whose project is gone. The error middleware that turns these into a response
  is not part of this model.
- A task update writes only the fields present in the body. A missing field
  keeps its value, because the update drops undefined keys. Validators run:
  an empty title and a status outside the enumeration are rejected.
- Registering a taken email and logging in with an unknown email both answer
  400, as the handlers do. There is no separate conflict or not-found status
  for them. An ownership failure answers 401 on projects and on task create and
  list, and 404 on task update and delete.
- Request outcomes on the client (did the delete succeed, which project did
  the server return) are parameters of the page methods. Their `requested`
  result says whether a request was sent at all.

## Model

| member | source | states |
|---|---|---|
| TaskSchema.ParseStatus | backend/models/task.js:7-9 | a status string is accepted exactly when it names one of "To-Do", "In-Progress", "Completed", and then reads back as that status |
| TaskSchema.ParseName | backend/models/task.js:7-9 | every stored status passes the enumeration check and reads back unchanged |
| TaskSchema.NewTask | backend/models/task.js:3-21 | a task document exists only with a non-empty title, a project reference and a user reference, and a status from the enumeration; a missing status becomes "To-Do" |
| TaskSchema.Patched | backend/controllers/taskController.js:71-75 | an update with validators fails on an empty title or a status outside the enumeration; otherwise only title, description, status and due date are written, project and user are kept, and a valid task stays valid |
| ProjectController.CreateProject | backend/controllers/projectController.js:3-21 | a falsy name gives 400 and stores nothing; any truthy name (spaces included) succeeds and adds exactly one project owned by the requester at a fresh id, returned with 201 |
| ProjectController.GetProject | backend/controllers/projectController.js:23-31 | the reply holds exactly the projects whose owner is the requester, unchanged |
| ProjectController.UpdateProject | backend/controllers/projectController.js:33-52 | unknown id gives 404, a non-owner gets 401, both leaving the store unchanged; otherwise name and description are replaced only by truthy values, the owner is kept and only that project changes |
| ProjectController.DeleteProject | backend/controllers/projectController.js:54-71 | unknown id gives 404, a non-owner gets 401, both leaving the store unchanged; otherwise exactly that project is removed and returned, and the tasks are untouched |
| TaskController.CreateTask | backend/controllers/taskController.js:4-37 | 400 for a falsy title or missing project id, then 404 for an unknown project, then 401 for a foreign one, then a schema validation error (Unhandled) for a bad status; every failure leaves the store unchanged; success adds exactly one task referring to the project and the requester, with 201 |
| TaskController.GetTasks | backend/controllers/taskController.js:39-58 | 404 for an unknown project, 401 for a foreign one, otherwise exactly the tasks whose project is the given one |
| TaskController.Authorize | backend/controllers/taskController.js:65-69 | a missing task and a task whose project belongs to any other user both give the same 404; exactly a task whose project is gone fails without a status; success exactly when the requester owns the task's project |
| TaskController.UpdateTask | backend/controllers/taskController.js:60-80 | authorised through the parent project; a patch the validators reject fails without a status; a failure leaves the store unchanged; success writes the validated patch to that task only, keeping its project and user |
| TaskController.DeleteTask | backend/controllers/taskController.js:82-97 | authorised through the parent project; success removes exactly that task and leaves every other document intact |
| AuthController.FindByEmail | backend/controllers/authController.js:8 | finds the user registered under an email exactly when there is one |
| AuthController.RegisterUser | backend/controllers/authController.js:4-22 | an email in use gives 400 "User Already Exists" and adds no user; a fresh email always succeeds and exactly one user is added and its id, name, email and a token for that id are returned with 201; emails stay unique |
| AuthController.LoginUser | backend/controllers/authController.js:24-45 | unknown email gives 400; a password that does not match gives 401 and no token; otherwise the stored user's id, name and email and a token for that id, with 200; the store is only read |
| AuthController.GetAllUser | backend/controllers/authController.js:47-54 | every user record is returned, with no filter |
| Server.Store.RegisterUser | backend/controllers/authController.js:4-22 | the step-by-step handler keeps the store invariant and matches RegisterUser |
| Server.Store.LoginUser | backend/controllers/authController.js:24-45 | the handler changes nothing and replies as LoginUser |
| Server.Store.GetAllUser | backend/controllers/authController.js:47-54 | the handler replies as GetAllUser |
| Server.Store.CreateProject | backend/controllers/projectController.js:3-21 | the handler keeps the store invariant and matches CreateProject |
| Server.Store.GetProject | backend/controllers/projectController.js:23-31 | the handler replies as GetProject |
| Server.Store.UpdateProject | backend/controllers/projectController.js:33-52 | the handler keeps the store invariant and matches UpdateProject |
| Server.Store.DeleteProject | backend/controllers/projectController.js:54-71 | the handler keeps the store invariant and matches DeleteProject |
| Server.Store.CreateTask | backend/controllers/taskController.js:4-37 | the handler keeps the store invariant and matches CreateTask |
| Server.Store.GetTasks | backend/controllers/taskController.js:39-58 | the handler replies as GetTasks |
| Server.Store.FindOwnedTask | backend/controllers/taskController.js:65-69 | the populated lookup and ownership test decide as Authorize |
| Server.Store.UpdateTask | backend/controllers/taskController.js:60-80 | the handler keeps the store invariant and matches UpdateTask |
| Server.Store.DeleteTask | backend/controllers/taskController.js:82-97 | the handler keeps the store invariant and matches DeleteTask |
| Properties.Next | backend/routes/taskRoutes.js:13-19 | every single request keeps the store invariant and changes the store only as Evolves allows |
| Properties.Run | backend/controllers/authController.js:8-12 | after any sequence of requests emails are still unique and names and titles non-empty |
| Properties.RunEvolves | backend/controllers/projectController.js:45-47 | over any sequence of requests a project keeps its owner, a task keeps its project and user, users are never edited and ids are never reused |
| Properties.OwnerIsFixed | backend/controllers/projectController.js:45-47 | a project present before and after any requests has the same owner |
| Properties.SecondRegistrationRefused | backend/controllers/authController.js:8-10 | a second registration with the same email is refused with 400 whatever the name and password, and changes nothing |
| Properties.CreateThenList | backend/controllers/projectController.js:12-27 | after a successful create, the owner's list is the earlier list plus exactly the new project |
| Properties.DeleteThenList | backend/controllers/projectController.js:66 | after the owner deletes a project, the owner's list is the earlier list without it |
| Properties.TaskAuthorityIsProjectOwner | backend/controllers/taskController.js:86-90 | when a task's own user field disagrees with its project's owner, the owner may delete and update it and the recorded user gets 404 |
| Properties.DeleteProjectOrphansTasks | backend/controllers/projectController.js:66 | deleting a project leaves its tasks stored; listing them then gives 404 and updating or deleting them fails without a status |
| Properties.NoOrphanCreated | backend/controllers/taskController.js:13-17 | a create naming an unknown project fails and stores nothing |
| Properties.AliceAndBob | backend/controllers/projectController.js:54-71 | two registered users: login returns a token for the user's own id; the non-owner's delete gets 401 and changes nothing; the owner's delete succeeds and the project leaves the owner's list |
| Properties.SpacesOnlyName | backend/controllers/projectController.js:7 | a name of spaces only is stored by the server, while the client's trim makes it blank |
| Lists.Filter | task-manager-frontend/src/pages/tasks.jsx:24-26 | the result holds exactly the elements satisfying the test, as often as in the input and in their original order |
| Lists.DropId | task-manager-frontend/src/pages/tasks.jsx:79-81 | no element with the given id remains; every other element keeps its multiplicity and relative order; a list without that id is unchanged |
| TasksPage.GroupTasksByStatus | task-manager-frontend/src/pages/tasks.jsx:22-28 | each column holds exactly the tasks of its status, in order; the columns are pairwise disjoint; a task with an unknown status is in no column |
| TasksPage.KnownCount | task-manager-frontend/src/pages/tasks.jsx:22-28 | the number of tasks with a known status is at most the list length, and equal to it exactly when every status is known |
| TasksPage.GroupSizes | task-manager-frontend/src/pages/tasks.jsx:22-28 | the column sizes sum to at most the list length, and to exactly the list length when every task has one of the three statuses |
| TasksPage.StatusClasses | task-manager-frontend/src/pages/tasks.jsx:168-179 | the gray classes are returned exactly for a status outside the three known values |
| TasksPage.StatusClassesDistinct | task-manager-frontend/src/pages/tasks.jsx:168-179 | two different statuses get different classes |
| TasksPage.EmptyTask | task-manager-frontend/src/pages/tasks.jsx:55-60 | the blank form has an empty title and description, today's date and the schema's default status |
| TasksPage.TasksView.constructor | task-manager-frontend/src/pages/tasks.jsx:12-18 | the board starts empty, loading, with no error, no dialog and no selection |
| TasksPage.TasksView.FetchTasks | task-manager-frontend/src/pages/tasks.jsx:91-105 | a successful fetch replaces the list and clears the error; a failed one keeps the list and sets the error; loading ends either way |
| TasksPage.TasksView.OpenCreateModal | task-manager-frontend/src/pages/tasks.jsx:114-118 | the form opens in create mode with the blank form |
| TasksPage.TasksView.CloseModal | task-manager-frontend/src/pages/tasks.jsx:134-138 | the form closes, is reset to the blank form and the selection is cleared |
| TasksPage.TasksView.OpenDeleteModal | task-manager-frontend/src/pages/tasks.jsx:64-67 | the delete dialog opens with the task selected |
| TasksPage.TasksView.CloseDeleteModal | task-manager-frontend/src/pages/tasks.jsx:70-73 | the delete dialog closes and the selection is cleared |
| TasksPage.TasksView.HandleDelete | task-manager-frontend/src/pages/tasks.jsx:76-88 | a successful delete removes every task with the selected id, keeps the rest in order and closes the dialog; a failed delete leaves list and dialog as they were and sets the error |
| TasksPage.TasksView.HandleSubmit | task-manager-frontend/src/pages/tasks.jsx:141-165 | success replaces the list by the refetched one and closes and resets the form; failure only sets the create or update error |
| DashboardPage.DashboardView.constructor | task-manager-frontend/src/pages/dashboard.jsx:17-25 | the dashboard starts with no projects, loading, no dialog, no selection and an empty form |
| DashboardPage.DashboardView.FetchProjects | task-manager-frontend/src/pages/dashboard.jsx:29-41 | a successful fetch replaces the list, a failed one keeps it; loading ends either way |
| DashboardPage.DashboardView.OpenModal | task-manager-frontend/src/pages/dashboard.jsx:44-46 | the creation dialog opens and nothing else changes |
| DashboardPage.DashboardView.CloseModal | task-manager-frontend/src/pages/dashboard.jsx:49-55 | the creation dialog closes and the form is reset to an empty name and description |
| DashboardPage.DashboardView.SetForm | task-manager-frontend/src/pages/dashboard.jsx:190-195 | editing the form changes only the form |
| DashboardPage.DashboardView.HandleCreate | task-manager-frontend/src/pages/dashboard.jsx:58-71 | a blank name sends no request and changes nothing; a successful create appends the returned project after the unchanged earlier entries and closes and resets the dialog; a failed create changes nothing |
| DashboardPage.DashboardView.OpenDeleteModal | task-manager-frontend/src/pages/dashboard.jsx:87-90 | the delete dialog opens with the project selected |
| DashboardPage.DashboardView.CloseDeleteModal | task-manager-frontend/src/pages/dashboard.jsx:92-95 | the delete dialog closes and the selection is cleared |
| DashboardPage.DashboardView.HandleDelete | task-manager-frontend/src/pages/dashboard.jsx:72-84 | a successful delete removes every entry with the selected id and keeps the rest in order; a failed one keeps the list; either way the dialog closes and the selection is cleared |
| DashboardPage.SentNamesAreNotBlank | task-manager-frontend/src/pages/dashboard.jsx:59-62 | a name is sent exactly when it contains a character other than whitespace |
| JsText.TrimEmptyIffBlank | task-manager-frontend/src/pages/dashboard.jsx:59 | a string trims to empty exactly when all its characters are whitespace |

## Left out

- Express wiring, CORS, helmet, compression and logging in the server and route files. Only one fact carries over: every task and project route requires authentication. It appears as the requester id parameter.
- The authentication middleware, JWT signing and expiry, and bcrypt hashing: backend/middleware/authMiddleware.js, backend/utils/generateToken.js and backend/models/user.js are not part of this model. `generateToken` and `matchPassword` are function parameters. The stored password is the one handed to the user model.
- The user and project schemas are not part of this model. Registration with a fresh email and `project.save()` are taken to succeed, so their 500 "Server Error" paths are not modelled.
- Missing or `null` fields in the register and login bodies, `null` in any JSON body, and malformed ids (a cast error in `findById`) are not modelled. Ids are always well-formed.
- The error middleware: `Unhandled` failures are not mapped to a final status.
- Timestamps, `populate` beyond the parent-project lookup, and the order in which `find` returns documents. Lists returned by the backend are modelled as maps from id to document.
- Dates: due dates are opaque values, and "today" on the client is a parameter. Date parsing and formatting (`toISOString`, `toLocaleDateString`) and the edit form's date conversion (`openEditModal`) are not modelled.
- Concurrency: requests are handled one after another. Races such as two registrations of the same email at once are not modelled.
- The API service files, the auth context, protected routes, the navbar and the login and register pages: they are HTTP calls, local storage and routing, with no logic of their own.
- JSX rendering, toasts, navigation and CSS, except the status badge classes.
- The client's `error` state is modelled, but not the fact that a set error replaces the board with the error message.
