/** The sidebar: the navigation items with their active highlight, and the
    project modal with which projects are created, renamed, recoloured and
    deleted. The modal's handlers issue commands to the application. */
module Sidebar {
  import opened Wrappers
  import opened Types
  import Text
  import App

  // ---------------------------------------------------------------------------
  // Navigation

  /** The navigation items, top to bottom: all tasks, the three statuses,
      then one item per project. */
  function NavItems(projects: seq<Project>): (r: seq<Filter>)
    ensures |r| == 4 + |projects|
    ensures r[0] == ShowAll
    ensures r[1] == Filter(ByStatus, Todo) && r[2] == Filter(ByStatus, InProgress) && r[3] == Filter(ByStatus, Done)
    ensures forall i :: 0 <= i < |projects| ==> r[4 + i] == Filter(ByProject, projects[i].id)
  {
    [ShowAll, Filter(ByStatus, Todo), Filter(ByStatus, InProgress), Filter(ByStatus, Done)]
      + seq(|projects|, i requires 0 <= i < |projects| => Filter(ByProject, projects[i].id))
  }

  /** A navigation item is highlighted when both its type and its value
      equal the current filter's. */
  predicate IsActive(item: Filter, current: Filter) {
    current.kind == item.kind && current.value == item.value
  }

  /** Project ids are pairwise distinct. */
  predicate UniqueProjectIds(projects: seq<Project>) {
    forall i, j :: 0 <= i < j < |projects| ==> projects[i].id != projects[j].id
  }

  /** With distinct project ids, at most one navigation item is highlighted,
      and clicking an item (which makes it the filter) highlights it. */
  lemma AtMostOneActive(projects: seq<Project>, current: Filter, i: nat, j: nat)
    requires UniqueProjectIds(projects)
    requires i < j < |NavItems(projects)|
    ensures !(IsActive(NavItems(projects)[i], current) && IsActive(NavItems(projects)[j], current))
    ensures IsActive(NavItems(projects)[i], NavItems(projects)[i])
  {
    var items := NavItems(projects);
    assert Todo[0] == 't' && Done[0] == 'd';
    if 4 <= i {
      assert projects[i - 4].id != projects[j - 4].id;
    }
  }

  // ---------------------------------------------------------------------------
  // Project modal

  const DefaultColor := "#3B82F6"

  /** The modal's state: whether it is open, the project being edited (none
      when creating), the name and colour fields, and whether the delete
      confirmation is showing. */
  datatype ProjectForm = ProjectForm(open: bool, editingId: Option<Id>, name: string, color: string, confirmingDelete: bool)

  /** What the modal asks the application to do. */
  datatype ProjectCommand =
    | AddProjectCmd(name: string, color: string)
    | UpdateProjectCmd(id: Id, name: string, color: string)
    | DeleteProjectCmd(id: Id)

  datatype FormStep = FormStep(form: ProjectForm, command: Option<ProjectCommand>)

  /** `if (editingProjectId)`: an edit is under way when an id is present and
      non-empty (the empty string is falsy). */
  predicate IsEditing(f: ProjectForm) {
    f.editingId.Some? && f.editingId.value != ""
  }

  /** Close the modal and clear it. */
  function ResetForm(): (r: ProjectForm)
    ensures !r.open && r.editingId.None? && r.name == "" && r.color == DefaultColor && !r.confirmingDelete
  {
    ProjectForm(false, None, "", DefaultColor, false)
  }

  /** Save the modal. A blank name (after trimming) does nothing. Otherwise
      exactly one command is issued, an update of the edited project when an
      edit is under way and an add otherwise, carrying the name as typed (not
      trimmed) and the colour, and the modal is reset. */
  function SaveProject(f: ProjectForm): (r: FormStep)
    ensures Text.Trim(f.name) == "" ==> r == FormStep(f, None)
    ensures Text.Trim(f.name) != "" ==> r.form == ResetForm() && r.command.Some?
    ensures r.command.Some? ==> (r.command.value.UpdateProjectCmd? <==> IsEditing(f))
    ensures r.command.Some? && IsEditing(f) ==> r.command.value == UpdateProjectCmd(f.editingId.value, f.name, f.color)
    ensures r.command.Some? && !IsEditing(f) ==> r.command.value == AddProjectCmd(f.name, f.color)
  {
    if Text.Trim(f.name) == "" then FormStep(f, None)
    else
      var cmd := if IsEditing(f) then UpdateProjectCmd(f.editingId.value, f.name, f.color)
                 else AddProjectCmd(f.name, f.color);
      FormStep(ResetForm(), Some(cmd))
  }

  /** Open the modal on an existing project, loading its id, name and colour. */
  function StartEdit(f: ProjectForm, p: Project): (r: ProjectForm)
    ensures r.open && r.editingId == Some(p.id) && r.name == p.name && r.color == p.color
    ensures r.confirmingDelete == f.confirmingDelete
  {
    f.(editingId := Some(p.id), name := p.name, color := p.color, open := true)
  }

  /** Confirm deletion: delete the edited project and reset the modal; with no
      edit under way, nothing happens. */
  function ConfirmDelete(f: ProjectForm): (r: FormStep)
    ensures IsEditing(f) ==> r.command == Some(DeleteProjectCmd(f.editingId.value)) && r.form == ResetForm()
    ensures !IsEditing(f) ==> r == FormStep(f, None)
  {
    if IsEditing(f) then FormStep(ResetForm(), Some(DeleteProjectCmd(f.editingId.value)))
    else FormStep(f, None)
  }

  /** The application's handling of a command; `newId` and `now` are used by
      an add. */
  function Dispatch(st: App.AppState, cmd: ProjectCommand, newId: Id, now: string): (r: App.AppState)
    ensures r.selected == st.selected && r.query == st.query
    ensures !cmd.DeleteProjectCmd? ==> r.tasks == st.tasks && r.filter == st.filter
    ensures cmd.AddProjectCmd? ==>
      && |r.projects| == |st.projects| + 1 && r.projects[..|st.projects|] == st.projects
      && r.projects[|st.projects|] == Project(newId, cmd.name, cmd.color, now)
    ensures cmd.UpdateProjectCmd? ==>
      && |r.projects| == |st.projects|
      && (forall i :: 0 <= i < |r.projects| && st.projects[i].id == cmd.id ==> r.projects[i] == st.projects[i].(name := cmd.name, color := cmd.color))
      && (forall i :: 0 <= i < |r.projects| && st.projects[i].id != cmd.id ==> r.projects[i] == st.projects[i])
    ensures cmd.DeleteProjectCmd? ==>
      && (forall p :: p in r.projects <==> p in st.projects && p.id != cmd.id)
      && |r.tasks| == |st.tasks|
      && (forall t :: t in r.tasks ==> t.projectId != Some(cmd.id))
    ensures cmd.DeleteProjectCmd? ==>
      && r.projects == App.DeleteProject(st.projects, cmd.id)
      && r.tasks == App.OrphanTasks(st.tasks, cmd.id)
      && r.filter == if st.filter.kind == ByProject && st.filter.value == cmd.id then ShowAll else st.filter
  {
    match cmd
    case AddProjectCmd(name, color) => App.OnAddProject(st, newId, name, color, now)
    case UpdateProjectCmd(id, name, color) => App.OnUpdateProject(st, id, name, color)
    case DeleteProjectCmd(id) => App.OnDeleteProject(st, id)
  }

  /** Opening a project for edit and saving it unchanged issues an update
      that leaves the application state as it was, provided the project is
      the only one with its id and its id is non-empty. */
  lemma EditUnchangedIsNoOp(st: App.AppState, f: ProjectForm, p: Project, newId: Id, now: string)
    requires p in st.projects && p.id != "" && Text.Trim(p.name) != ""
    requires forall q :: q in st.projects && q.id == p.id ==> q == p
    ensures SaveProject(StartEdit(f, p)).command.Some?
    ensures Dispatch(st, SaveProject(StartEdit(f, p)).command.value, newId, now) == st
  {
    var cmd := SaveProject(StartEdit(f, p)).command.value;
    assert cmd == UpdateProjectCmd(p.id, p.name, p.color);
    var r := App.UpdateProject(st.projects, p.id, p.name, p.color);
    forall i | 0 <= i < |r| ensures r[i] == st.projects[i] {
      assert st.projects[i] in st.projects;
    }
    assert r == st.projects;
    assert Dispatch(st, cmd, newId, now) == App.OnUpdateProject(st, p.id, p.name, p.color);
  }

  /** Editing a project and confirming its deletion removes it from the
      application, clears its tasks' references to it while keeping every
      task and leaving other tasks alone, and resets a filter on it. */
  lemma EditThenDeleteRemoves(st: App.AppState, f: ProjectForm, p: Project, newId: Id, now: string)
    requires p.id != ""
    ensures ConfirmDelete(StartEdit(f, p)).command == Some(DeleteProjectCmd(p.id))
    ensures var r := Dispatch(st, DeleteProjectCmd(p.id), newId, now);
      && (forall q :: q in r.projects ==> q.id != p.id)
      && (forall t :: t in r.tasks ==> t.projectId != Some(p.id))
      && |r.tasks| == |st.tasks|
      && (forall i :: 0 <= i < |st.tasks| && st.tasks[i].projectId == Some(p.id) ==> r.tasks[i] == st.tasks[i].(projectId := None))
      && (forall i :: 0 <= i < |st.tasks| && st.tasks[i].projectId != Some(p.id) ==> r.tasks[i] == st.tasks[i])
      && (st.filter == Filter(ByProject, p.id) ==> r.filter == ShowAll)
  {
    var r := Dispatch(st, DeleteProjectCmd(p.id), newId, now);
    forall t | t in r.tasks ensures t.projectId != Some(p.id) {
      var k :| 0 <= k < |r.tasks| && r.tasks[k] == t;
    }
  }
}
