/** The client's project list: creating a project from the form (a blank name
    is refused before any request), deleting the selected project, and the
    dialogs around them. Request outcomes are parameters. */
module DashboardPage {
  import opened Common
  import opened Lists
  import opened JsText

  /** A project as the client holds it. */
  datatype ProjectItem = ProjectItem(id: Id, name: string, description: string)

  /** The creation form. */
  datatype ProjectForm = ProjectForm(name: string, description: string)

  const EmptyForm := ProjectForm("", "")

  function ProjectId(p: ProjectItem): Id {
    p.id
  }

  /** The dashboard component's state. */
  class DashboardView {
    var projects: seq<ProjectItem>
    var loading: bool
    var isModalOpen: bool
    var isDeleteModalOpen: bool
    var selectedProject: Option<ProjectItem>
    var newProjectName: ProjectForm

    constructor ()
      ensures projects == [] && loading && !isModalOpen && !isDeleteModalOpen
      ensures selectedProject == None && newProjectName == EmptyForm
    {
      projects, loading := [], true;
      isModalOpen, isDeleteModalOpen := false, false;
      selectedProject, newProjectName := None, EmptyForm;
    }

    /** The initial fetch finished with `fetched` (None when it failed, and then
        the list stays as it was). */
    method FetchProjects(fetched: Option<seq<ProjectItem>>)
      modifies this
      ensures !loading
      ensures projects == if fetched.Some? then fetched.value else old(projects)
      ensures isModalOpen == old(isModalOpen) && isDeleteModalOpen == old(isDeleteModalOpen)
      ensures selectedProject == old(selectedProject) && newProjectName == old(newProjectName)
    {
      if fetched.Some? {
        projects := fetched.value;
      }
      loading := false;
    }

    method OpenModal()
      modifies this
      ensures isModalOpen
      ensures projects == old(projects) && loading == old(loading) && isDeleteModalOpen == old(isDeleteModalOpen)
      ensures selectedProject == old(selectedProject) && newProjectName == old(newProjectName)
    {
      isModalOpen := true;
    }

    /** Closing the creation dialog resets the form to an empty name and description. */
    method CloseModal()
      modifies this
      ensures !isModalOpen && newProjectName == EmptyForm
      ensures projects == old(projects) && loading == old(loading) && isDeleteModalOpen == old(isDeleteModalOpen)
      ensures selectedProject == old(selectedProject)
    {
      isModalOpen := false;
      newProjectName := EmptyForm;
    }

    /** Editing the form. */
    method SetForm(form: ProjectForm)
      modifies this
      ensures newProjectName == form
      ensures projects == old(projects) && loading == old(loading) && isModalOpen == old(isModalOpen)
      ensures isDeleteModalOpen == old(isDeleteModalOpen) && selectedProject == old(selectedProject)
    {
      newProjectName := form;
    }

    /** Creating a project from the form; `created` is the project the server
        returned, None when the request failed. A name that is empty or only
        whitespace is refused before any request and changes nothing. On success
        the returned project is appended after the unchanged earlier entries and
        the dialog is closed and reset; on failure nothing changes. */
    method HandleCreate(created: Option<ProjectItem>) returns (requested: bool)
      modifies this
      ensures requested <==> Trim(old(newProjectName).name) != ""
      ensures requested && created.Some? ==>
        && projects == old(projects) + [created.value]
        && !isModalOpen && newProjectName == EmptyForm
      ensures !(requested && created.Some?) ==>
        && projects == old(projects)
        && isModalOpen == old(isModalOpen) && newProjectName == old(newProjectName)
      ensures loading == old(loading) && isDeleteModalOpen == old(isDeleteModalOpen)
      ensures selectedProject == old(selectedProject)
    {
      if Trim(newProjectName.name) == "" {
        return false;
      }
      requested := true;
      if created.Some? {
        projects := projects + [created.value];
        CloseModal();
      }
    }

    method OpenDeleteModal(project: ProjectItem)
      modifies this
      ensures isDeleteModalOpen && selectedProject == Some(project)
      ensures projects == old(projects) && loading == old(loading) && isModalOpen == old(isModalOpen)
      ensures newProjectName == old(newProjectName)
    {
      isDeleteModalOpen := true;
      selectedProject := Some(project);
    }

    method CloseDeleteModal()
      modifies this
      ensures !isDeleteModalOpen && selectedProject == None
      ensures projects == old(projects) && loading == old(loading) && isModalOpen == old(isModalOpen)
      ensures newProjectName == old(newProjectName)
    {
      isDeleteModalOpen := false;
      selectedProject := None;
    }

    /** Deleting the selected project; `deleted` is whether the request
        succeeded. With no selection, reading its id throws before any request.
        On success every entry with the selected id leaves the list and the rest
        keep their order; on failure the list is unchanged. Either way the delete
        dialog closes and the selection is cleared. */
    method HandleDelete(deleted: bool) returns (requested: bool)
      modifies this
      ensures requested == old(selectedProject).Some?
      ensures !isDeleteModalOpen && selectedProject == None
      ensures projects == if requested && deleted
                          then DropId(old(projects), ProjectId, old(selectedProject).value.id)
                          else old(projects)
      ensures loading == old(loading) && isModalOpen == old(isModalOpen)
      ensures newProjectName == old(newProjectName)
    {
      requested := selectedProject.Some?;
      if requested && deleted {
        projects := DropId(projects, ProjectId, selectedProject.value.id);
      }
      CloseDeleteModal();
    }
  }

  /** What the dashboard lets through: a name is sent exactly when it has a
      character other than whitespace. */
  lemma SentNamesAreNotBlank(name: string)
    ensures Trim(name) != "" <==> exists i :: 0 <= i < |name| && !IsJsWhitespace(name[i])
  {
    TrimEmptyIffBlank(name);
  }
}
