/** The project's task board in the client: tasks grouped into three columns
    by status, the colour classes of a status badge, and the component state
    changed by loading, creating, editing and deleting tasks. Request outcomes
    are parameters. */
module TasksPage {
  import opened Common
  import opened Lists
  import TaskSchema

  /** A task as the client holds it, with the status as the string received. */
  datatype TaskItem = TaskItem(id: Id, title: string, description: string, status: string, dueDate: string)

  /** The create/edit form. */
  datatype TaskForm = TaskForm(title: string, description: string, status: string, dueDate: string)

  function TaskId(t: TaskItem): Id {
    t.id
  }

  /** The test a column applies: the task's status is exactly `name`. */
  function HasStatus(name: string): TaskItem -> bool {
    (t: TaskItem) => t.status == name
  }

  /** A status string outside the enumeration. */
  predicate UnknownStatus(t: TaskItem) {
    TaskSchema.ParseStatus(t.status).None?
  }

  /** The three columns of the board. */
  datatype StatusGroups = StatusGroups(todo: seq<TaskItem>, inProgress: seq<TaskItem>, completed: seq<TaskItem>)

  /** Each column holds exactly the tasks with its status, as often as they occur
      and in their original order; no task is in two columns, and a task with an
      unknown status is in none. */
  function GroupTasksByStatus(tasks: seq<TaskItem>): (g: StatusGroups)
    ensures forall t :: multiset(g.todo)[t] == if t.status == "To-Do" then multiset(tasks)[t] else 0
    ensures forall t :: multiset(g.inProgress)[t] == if t.status == "In-Progress" then multiset(tasks)[t] else 0
    ensures forall t :: multiset(g.completed)[t] == if t.status == "Completed" then multiset(tasks)[t] else 0
    ensures IsSubsequence(g.todo, tasks) && IsSubsequence(g.inProgress, tasks) && IsSubsequence(g.completed, tasks)
    ensures forall t :: t in g.todo ==> t !in g.inProgress && t !in g.completed
    ensures forall t :: t in g.inProgress ==> t !in g.completed
    ensures forall t :: UnknownStatus(t) ==> t !in g.todo && t !in g.inProgress && t !in g.completed
  {
    StatusGroups(
      Filter(tasks, HasStatus("To-Do")),
      Filter(tasks, HasStatus("In-Progress")),
      Filter(tasks, HasStatus("Completed")))
  }

  /** How many tasks have one of the three statuses. */
  function KnownCount(tasks: seq<TaskItem>): (n: nat)
    ensures n <= |tasks|
    ensures n == |tasks| <==> forall i :: 0 <= i < |tasks| ==> !UnknownStatus(tasks[i])
  {
    if tasks == [] then 0
    else
      var rest := tasks[1..];
      var n := (if UnknownStatus(tasks[0]) then 0 else 1) + KnownCount(rest);
      assert forall i :: 0 < i < |tasks| ==> tasks[i] == rest[i - 1];
      assert (forall i :: 0 <= i < |tasks| ==> !UnknownStatus(tasks[i])) <==>
             !UnknownStatus(tasks[0]) && forall i :: 0 <= i < |rest| ==> !UnknownStatus(rest[i]);
      n
  }

  /** The three columns together hold exactly the tasks with a known status. */
  lemma {:induction false} ColumnsCountKnown(tasks: seq<TaskItem>)
    ensures |Filter(tasks, HasStatus("To-Do"))| + |Filter(tasks, HasStatus("In-Progress"))| +
            |Filter(tasks, HasStatus("Completed"))| == KnownCount(tasks)
  {
    if tasks != [] {
      ColumnsCountKnown(tasks[1..]);
      FilterLengthStep(tasks, HasStatus("To-Do"));
      FilterLengthStep(tasks, HasStatus("In-Progress"));
      FilterLengthStep(tasks, HasStatus("Completed"));
    }
  }

  /** The columns together never hold more tasks than the list, and they hold all
      of them exactly when every task has one of the three statuses. */
  lemma GroupSizes(tasks: seq<TaskItem>)
    ensures var g := GroupTasksByStatus(tasks);
            && |g.todo| + |g.inProgress| + |g.completed| <= |tasks|
            && (|g.todo| + |g.inProgress| + |g.completed| == |tasks| <==>
                forall i :: 0 <= i < |tasks| ==> !UnknownStatus(tasks[i]))
  {
    ColumnsCountKnown(tasks);
  }

  const GrayClasses := "bg-gray-100 text-gray-800"

  /** The badge classes of a status: one colour per known status, gray for
      anything else. */
  function StatusClasses(status: string): (r: string)
    ensures r == GrayClasses <==> TaskSchema.ParseStatus(status).None?
  {
    match status
    case "To-Do" => "bg-blue-100 text-blue-800"
    case "In-Progress" => "bg-yellow-100 text-yellow-800"
    case "Completed" => "bg-green-100 text-green-800"
    case _ => GrayClasses
  }

  /** The three statuses are told apart by colour. */
  lemma StatusClassesDistinct(a: TaskSchema.Status, b: TaskSchema.Status)
    requires a != b
    ensures StatusClasses(TaskSchema.Name(a)) != StatusClasses(TaskSchema.Name(b))
  {
  }

  /** The blank form: empty title and description, the schema's default status,
      and today's date (read from the clock, so a parameter). */
  function EmptyTask(today: string): (f: TaskForm)
    ensures f.title == "" && f.description == "" && f.dueDate == today
    ensures TaskSchema.ParseStatus(f.status) == Some(TaskSchema.DefaultStatus)
  {
    TaskForm("", "", "To-Do", today)
  }

  const LoadFailed := "Failed to load tasks. Please try again later."
  const DeleteFailed := "Failed to delete task. Please try again."
  const CreateFailed := "Failed to create task. Please try again."
  const UpdateFailed := "Failed to update task. Please try again."

  /** The board component's state. */
  class TasksView {
    var tasks: seq<TaskItem>
    var loading: bool
    var error: Option<string>
    var isModalOpen: bool
    var isEditing: bool
    var selectedTask: Option<TaskItem>
    var isDeleteModalOpen: bool
    var formData: TaskForm

    constructor (today: string)
      ensures tasks == [] && loading && error == None
      ensures !isModalOpen && !isEditing && selectedTask == None && !isDeleteModalOpen
      ensures formData == EmptyTask(today)
    {
      tasks, loading, error := [], true, None;
      isModalOpen, isEditing, selectedTask, isDeleteModalOpen := false, false, None, false;
      formData := EmptyTask(today);
    }

    /** The initial fetch of the project's tasks finished with `fetched`
        (None when the request failed). */
    method FetchTasks(fetched: Option<seq<TaskItem>>)
      modifies this
      ensures !loading
      ensures fetched.Some? ==> tasks == fetched.value && error == None
      ensures fetched.None? ==> tasks == old(tasks) && error == Some(LoadFailed)
      ensures isModalOpen == old(isModalOpen) && isEditing == old(isEditing) && formData == old(formData)
      ensures selectedTask == old(selectedTask) && isDeleteModalOpen == old(isDeleteModalOpen)
    {
      if fetched.Some? {
        tasks := fetched.value;
        error := None;
      } else {
        error := Some(LoadFailed);
      }
      loading := false;
    }

    method OpenCreateModal(today: string)
      modifies this
      ensures isModalOpen && !isEditing && formData == EmptyTask(today)
      ensures tasks == old(tasks) && error == old(error) && loading == old(loading)
      ensures selectedTask == old(selectedTask) && isDeleteModalOpen == old(isDeleteModalOpen)
    {
      isModalOpen := true;
      isEditing := false;
      formData := EmptyTask(today);
    }

    method CloseModal(today: string)
      modifies this
      ensures !isModalOpen && formData == EmptyTask(today) && selectedTask == None
      ensures tasks == old(tasks) && error == old(error) && loading == old(loading)
      ensures isEditing == old(isEditing) && isDeleteModalOpen == old(isDeleteModalOpen)
    {
      isModalOpen := false;
      formData := EmptyTask(today);
      selectedTask := None;
    }

    method OpenDeleteModal(task: TaskItem)
      modifies this
      ensures isDeleteModalOpen && selectedTask == Some(task)
      ensures tasks == old(tasks) && error == old(error) && loading == old(loading)
      ensures isModalOpen == old(isModalOpen) && isEditing == old(isEditing) && formData == old(formData)
    {
      isDeleteModalOpen := true;
      selectedTask := Some(task);
    }

    method CloseDeleteModal()
      modifies this
      ensures !isDeleteModalOpen && selectedTask == None
      ensures tasks == old(tasks) && error == old(error) && loading == old(loading)
      ensures isModalOpen == old(isModalOpen) && isEditing == old(isEditing) && formData == old(formData)
    {
      isDeleteModalOpen := false;
      selectedTask := None;
    }

    /** Deleting the selected task; `deleted` is whether the request succeeded.
        With no selection, reading its id throws before any request is sent.
        On success every task with the selected id leaves the list, the others
        keep their order, and the delete dialog closes; on failure the list and
        the dialog stay as they were and an error is shown. */
    method HandleDelete(deleted: bool) returns (requested: bool)
      modifies this
      ensures requested == old(selectedTask).Some?
      ensures requested && deleted ==>
        && tasks == DropId(old(tasks), TaskId, old(selectedTask).value.id)
        && !isDeleteModalOpen && selectedTask == None && error == old(error)
      ensures !(requested && deleted) ==>
        && tasks == old(tasks) && error == Some(DeleteFailed)
        && isDeleteModalOpen == old(isDeleteModalOpen) && selectedTask == old(selectedTask)
      ensures isModalOpen == old(isModalOpen) && isEditing == old(isEditing) && formData == old(formData)
      ensures loading == old(loading)
    {
      requested := selectedTask.Some?;
      if requested && deleted {
        tasks := DropId(tasks, TaskId, selectedTask.value.id);
        CloseDeleteModal();
      } else {
        error := Some(DeleteFailed);
      }
    }

    /** Submitting the form, as an edit of the selected task or as a new task,
        followed by a refetch; `succeeded` is whether both requests succeeded and
        `refreshed` is the refetched list. Editing with no selection throws
        before any request. On success the list is replaced by the refetched one
        and the form is closed and reset; on failure only an error is shown. */
    method HandleSubmit(today: string, succeeded: bool, refreshed: seq<TaskItem>) returns (requested: bool)
      modifies this
      ensures requested == (!old(isEditing) || old(selectedTask).Some?)
      ensures requested && succeeded ==>
        && tasks == refreshed && error == old(error)
        && !isModalOpen && formData == EmptyTask(today) && selectedTask == None
      ensures !(requested && succeeded) ==>
        && tasks == old(tasks)
        && error == Some(if old(isEditing) then UpdateFailed else CreateFailed)
        && isModalOpen == old(isModalOpen) && formData == old(formData) && selectedTask == old(selectedTask)
      ensures isEditing == old(isEditing) && isDeleteModalOpen == old(isDeleteModalOpen) && loading == old(loading)
    {
      requested := !isEditing || selectedTask.Some?;
      if requested && succeeded {
        tasks := refreshed;
        CloseModal(today);
      } else {
        error := Some(if isEditing then UpdateFailed else CreateFailed);
      }
    }
  }
}
