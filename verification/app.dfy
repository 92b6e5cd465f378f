/** The application shell's state and its handlers: the task list, the project
    list, the selected task, the sidebar filter and the search query, and the
    handlers that add, update, reorder and delete tasks and projects, plus the
    filtered list the views display. */
module App {
  import opened Wrappers
  import opened Types
  import Seqs
  import Text

  // ---------------------------------------------------------------------------
  // Lookups

  /** `findIndex(t => t.id === id)`, `None` standing for -1. */
  function FindIndex(tasks: seq<Task>, id: Id): (r: Option<nat>)
    ensures r.Some? ==> r.value < |tasks| && tasks[r.value].id == id
    ensures r.Some? ==> forall j :: 0 <= j < r.value ==> tasks[j].id != id
    ensures r.None? ==> forall j :: 0 <= j < |tasks| ==> tasks[j].id != id
  {
    Seqs.FindIndex((t: Task) => t.id == id, tasks)
  }

  /** `find(t => t.id === id)`: the first task with that id. */
  function FindTask(tasks: seq<Task>, id: Id): (r: Option<Task>)
    ensures r.Some? ==> r.value in tasks && r.value.id == id
    ensures r.None? <==> forall t :: t in tasks ==> t.id != id
    ensures r.Some? ==> exists i :: 0 <= i < |tasks| && tasks[i] == r.value && forall j :: 0 <= j < i ==> tasks[j].id != id
  {
    Seqs.Find((t: Task) => t.id == id, tasks)
  }

  // ---------------------------------------------------------------------------
  // Task list operations

  /** Drag-reorder: take the task with `activeId` out and insert it at the
      index the task with `overId` had. When either id is missing the list
      is returned as it was. */
  function Reorder(tasks: seq<Task>, activeId: Id, overId: Id): (r: seq<Task>)
    ensures |r| == |tasks| && multiset(r) == multiset(tasks)
    ensures FindIndex(tasks, activeId).None? || FindIndex(tasks, overId).None? ==> r == tasks
    ensures FindIndex(tasks, activeId).Some? && FindIndex(tasks, overId).Some? ==>
      var from, to := FindIndex(tasks, activeId).value, FindIndex(tasks, overId).value;
      r[to] == tasks[from] && Seqs.RemoveAt(r, to) == Seqs.RemoveAt(tasks, from)
  {
    match (FindIndex(tasks, activeId), FindIndex(tasks, overId))
    case (Some(from), Some(to)) =>
      Seqs.MovePermutes(tasks, from, to);
      Seqs.Move(tasks, from, to)
    case _ => tasks
  }

  /** Replace every task carrying the updated task's id. */
  function UpdateTask(tasks: seq<Task>, updated: Task): (r: seq<Task>)
    ensures |r| == |tasks|
    ensures forall i :: 0 <= i < |tasks| && tasks[i].id == updated.id ==> r[i] == updated
    ensures forall i :: 0 <= i < |tasks| && tasks[i].id != updated.id ==> r[i] == tasks[i]
  {
    Seqs.Map((t: Task) => if t.id == updated.id then updated else t, tasks)
  }

  /** Remove every task with the given id; the others keep their order and
      their multiplicity. */
  function DeleteTask(tasks: seq<Task>, id: Id): (r: seq<Task>)
    ensures forall t :: t in r ==> t.id != id
    ensures forall t: Task :: t.id != id ==> multiset(r)[t] == multiset(tasks)[t]
    ensures Seqs.IsSubseq(r, tasks)
  {
    Seqs.Filter((t: Task) => t.id != id, tasks)
  }

  /** Clear the project reference of every task of project `id`. */
  function OrphanTasks(tasks: seq<Task>, id: Id): (r: seq<Task>)
    ensures |r| == |tasks|
    ensures forall i :: 0 <= i < |r| ==> r[i].projectId != Some(id)
    ensures forall i :: 0 <= i < |r| && tasks[i].projectId == Some(id) ==> r[i].projectId == None
    ensures forall i :: 0 <= i < |r| ==> r[i].(projectId := tasks[i].projectId) == tasks[i]
    ensures forall i :: 0 <= i < |r| && tasks[i].projectId != Some(id) ==> r[i] == tasks[i]
  {
    Seqs.Map((t: Task) => if t.projectId == Some(id) then t.(projectId := None) else t, tasks)
  }

  // ---------------------------------------------------------------------------
  // Project list operations

  /** Append a new project. */
  function AddProject(projects: seq<Project>, newId: Id, name: string, color: string, now: string): (r: seq<Project>)
    ensures |r| == |projects| + 1 && r[..|projects|] == projects
    ensures r[|projects|] == Project(newId, name, color, now)
  {
    projects + [Project(newId, name, color, now)]
  }

  /** Rename and recolour every project with that id. */
  function UpdateProject(projects: seq<Project>, id: Id, name: string, color: string): (r: seq<Project>)
    ensures |r| == |projects|
    ensures forall i :: 0 <= i < |r| ==> r[i].id == projects[i].id && r[i].createdAt == projects[i].createdAt
    ensures forall i :: 0 <= i < |r| && projects[i].id == id ==> r[i].name == name && r[i].color == color
    ensures forall i :: 0 <= i < |r| && projects[i].id != id ==> r[i] == projects[i]
  {
    Seqs.Map((p: Project) => if p.id == id then p.(name := name, color := color) else p, projects)
  }

  /** Remove every project with that id. */
  function DeleteProject(projects: seq<Project>, id: Id): (r: seq<Project>)
    ensures forall p :: p in r <==> p in projects && p.id != id
    ensures forall p: Project :: p.id != id ==> multiset(r)[p] == multiset(projects)[p]
    ensures Seqs.IsSubseq(r, projects)
  {
    Seqs.Filter((p: Project) => p.id != id, projects)
  }

  // ---------------------------------------------------------------------------
  // The filtered list

  /** The sidebar part of the list filter. A task without a project never
      matches a project filter. */
  predicate MatchesNav(t: Task, f: Filter) {
    match f.kind
    case AllTasks => true
    case ByStatus => t.status == f.value
    case ByProject => t.projectId == Some(f.value)
  }

  /** The search part: the lowered query occurs in the lowered title or the
      lowered description. `lower` stands for `String.prototype.toLowerCase`. */
  predicate MatchesSearch(t: Task, query: string, lower: string -> string) {
    Text.Includes(lower(t.title), lower(query)) || Text.Includes(lower(t.description), lower(query))
  }

  /** The tasks the list and the board show. */
  function VisibleTasks(tasks: seq<Task>, f: Filter, query: string, lower: string -> string): (r: seq<Task>)
    ensures Seqs.IsSubseq(r, tasks)
    ensures forall t :: t in r <==> t in tasks && MatchesNav(t, f) && MatchesSearch(t, query, lower)
    ensures forall t: Task :: MatchesNav(t, f) && MatchesSearch(t, query, lower) ==> multiset(r)[t] == multiset(tasks)[t]
  {
    Seqs.Filter((t: Task) => MatchesNav(t, f) && MatchesSearch(t, query, lower), tasks)
  }

  /** With no search text and the "all" filter, every task is shown, in order. */
  lemma EmptyQueryShowsAll(tasks: seq<Task>, lower: string -> string)
    requires lower("") == ""
    ensures VisibleTasks(tasks, ShowAll, "", lower) == tasks
  {
    forall i | 0 <= i < |tasks|
      ensures MatchesNav(tasks[i], ShowAll) && MatchesSearch(tasks[i], "", lower)
    {
    }
    Seqs.FilterAll((t: Task) => MatchesNav(t, ShowAll) && MatchesSearch(t, "", lower), tasks);
  }

  /** An empty search text matches every task, whatever the titles. */
  lemma EmptyQueryMatches(t: Task, lower: string -> string)
    requires lower("") == ""
    ensures MatchesSearch(t, "", lower)
  {
  }

  // ---------------------------------------------------------------------------
  // Application state and handlers

  datatype AppState = AppState(
    tasks: seq<Task>,
    projects: seq<Project>,
    selected: Option<Id>,
    filter: Filter,
    query: string)

  /** The task the drawer shows: the first task with the selected id. */
  function SelectedTask(st: AppState): (r: Option<Task>)
    ensures st.selected.None? ==> r.None?
    ensures st.selected.Some? ==> r == FindTask(st.tasks, st.selected.value)
    ensures r.Some? ==> r.value in st.tasks && Some(r.value.id) == st.selected
  {
    match st.selected
    case None => None
    case Some(id) => FindTask(st.tasks, id)
  }

  /** Quick-add: a fresh "New Task" goes to the top of the list and is
      selected; under a project filter it joins that project. The due date
      and the creation date come from two separate clock readings,
      `dueNow` and `createdNow`, which need not agree. */
  function OnAddTask(st: AppState, newId: Id, dueNow: string, createdNow: string): (r: AppState)
    ensures |r.tasks| == |st.tasks| + 1 && r.tasks[1..] == st.tasks
    ensures r.tasks[0].id == newId && r.tasks[0].title == "New Task" && r.tasks[0].description == ""
    ensures r.tasks[0].status == Todo && r.tasks[0].priority == Medium && r.tasks[0].subTasks == Some([])
    ensures r.tasks[0].summary == None && r.tasks[0].dueDate == dueNow && r.tasks[0].createdAt == createdNow
    ensures r.tasks[0].projectId == if st.filter.kind == ByProject then Some(st.filter.value) else None
    ensures r.selected == Some(newId)
    ensures r.projects == st.projects && r.filter == st.filter && r.query == st.query
  {
    var projectId := if st.filter.kind == ByProject then Some(st.filter.value) else None;
    var t := Task(newId, "New Task", "", None, Todo, Medium, dueNow, createdNow, projectId, Some([]));
    st.(tasks := [t] + st.tasks, selected := Some(newId))
  }

  /** After a quick-add the drawer shows the new task. */
  lemma AddedTaskIsSelected(st: AppState, newId: Id, dueNow: string, createdNow: string)
    ensures SelectedTask(OnAddTask(st, newId, dueNow, createdNow)) == Some(OnAddTask(st, newId, dueNow, createdNow).tasks[0])
  {
  }

  function OnUpdateTask(st: AppState, updated: Task): (r: AppState)
    ensures r.tasks == UpdateTask(st.tasks, updated)
    ensures r.(tasks := st.tasks) == st
  {
    st.(tasks := UpdateTask(st.tasks, updated))
  }

  function OnReorderTasks(st: AppState, activeId: Id, overId: Id): (r: AppState)
    ensures r.tasks == Reorder(st.tasks, activeId, overId)
    ensures r.(tasks := st.tasks) == st
  {
    st.(tasks := Reorder(st.tasks, activeId, overId))
  }

  /** Delete a task; the selection is cleared only if it was that task. */
  function OnDeleteTask(st: AppState, id: Id): (r: AppState)
    ensures r.tasks == DeleteTask(st.tasks, id)
    ensures r.selected == if st.selected == Some(id) then None else st.selected
    ensures r.projects == st.projects && r.filter == st.filter && r.query == st.query
  {
    st.(tasks := DeleteTask(st.tasks, id), selected := if st.selected == Some(id) then None else st.selected)
  }

  function OnAddProject(st: AppState, newId: Id, name: string, color: string, now: string): (r: AppState)
    ensures r.projects == AddProject(st.projects, newId, name, color, now)
    ensures r.(projects := st.projects) == st
  {
    st.(projects := AddProject(st.projects, newId, name, color, now))
  }

  function OnUpdateProject(st: AppState, id: Id, name: string, color: string): (r: AppState)
    ensures r.projects == UpdateProject(st.projects, id, name, color)
    ensures r.(projects := st.projects) == st
  {
    st.(projects := UpdateProject(st.projects, id, name, color))
  }

  /** Delete a project: its tasks stay but lose their project, and a filter on
      that project falls back to "all". */
  function OnDeleteProject(st: AppState, id: Id): (r: AppState)
    ensures r.projects == DeleteProject(st.projects, id)
    ensures r.tasks == OrphanTasks(st.tasks, id)
    ensures r.filter == if st.filter.kind == ByProject && st.filter.value == id then ShowAll else st.filter
    ensures r.selected == st.selected && r.query == st.query
  {
    var filter := if st.filter.kind == ByProject && st.filter.value == id then ShowAll else st.filter;
    st.(projects := DeleteProject(st.projects, id), tasks := OrphanTasks(st.tasks, id), filter := filter)
  }

  // ---------------------------------------------------------------------------
  // Properties relating several handlers

  /** A quick-added task with a fresh id is removed again by deleting it, and
      the list and selection return to what they were (when nothing was
      selected before). */
  lemma DeleteUndoesAdd(st: AppState, newId: Id, dueNow: string, createdNow: string)
    requires forall t :: t in st.tasks ==> t.id != newId
    ensures OnDeleteTask(OnAddTask(st, newId, dueNow, createdNow), newId).tasks == st.tasks
    ensures st.selected.None? ==> OnDeleteTask(OnAddTask(st, newId, dueNow, createdNow), newId) == st
  {
    var added := OnAddTask(st, newId, dueNow, createdNow);
    assert forall i :: 0 <= i < |st.tasks| ==> st.tasks[i] in st.tasks;
    Seqs.FilterAll((t: Task) => t.id != newId, st.tasks);
    assert added.tasks == [added.tasks[0]] + st.tasks;
  }

  /** Updating with the same task twice is the same as once. */
  lemma UpdateIdempotent(tasks: seq<Task>, updated: Task)
    ensures UpdateTask(UpdateTask(tasks, updated), updated) == UpdateTask(tasks, updated)
  {
  }

  /** After an update whose id is present, looking the id up finds the
      updated task. */
  lemma UpdateThenFind(tasks: seq<Task>, updated: Task)
    requires exists t :: t in tasks && t.id == updated.id
    ensures FindTask(UpdateTask(tasks, updated), updated.id) == Some(updated)
  {
    var r := UpdateTask(tasks, updated);
    var t :| t in tasks && t.id == updated.id;
    var k :| 0 <= k < |tasks| && tasks[k] == t;
    assert r[k] == updated;
  }

  /** After a task is deleted nothing can find it, so the drawer closes. */
  lemma DeletedTaskIsGone(st: AppState, id: Id)
    ensures FindTask(OnDeleteTask(st, id).tasks, id).None?
    ensures st.selected == Some(id) ==> SelectedTask(OnDeleteTask(st, id)).None?
  {
  }

  /** Every project reference (of a task, and of a project filter) names a
      project of the list. */
  predicate HasProject(projects: seq<Project>, id: Id) {
    exists i :: 0 <= i < |projects| && projects[i].id == id
  }

  predicate ReferencesValid(st: AppState) {
    && (forall t :: t in st.tasks && t.projectId.Some? ==> HasProject(st.projects, t.projectId.value))
    && (st.filter.kind == ByProject ==> HasProject(st.projects, st.filter.value))
  }

  /** Deleting a project leaves no dangling reference: its tasks are orphaned
      and a filter on it is reset, while other references survive because
      their projects survive. */
  lemma DeleteProjectKeepsReferences(st: AppState, id: Id)
    requires ReferencesValid(st)
    ensures ReferencesValid(OnDeleteProject(st, id))
  {
    var r := OnDeleteProject(st, id);
    forall t | t in r.tasks && t.projectId.Some?
      ensures HasProject(r.projects, t.projectId.value)
    {
      var k :| 0 <= k < |r.tasks| && r.tasks[k] == t;
      assert st.tasks[k].projectId == t.projectId;
      assert st.tasks[k] in st.tasks;
      StillHasProject(st.projects, id, t.projectId.value);
    }
    if r.filter.kind == ByProject {
      StillHasProject(st.projects, id, r.filter.value);
    }
  }

  /** A project other than the deleted one is still in the list. */
  lemma StillHasProject(projects: seq<Project>, deleted: Id, id: Id)
    requires HasProject(projects, id) && id != deleted
    ensures HasProject(DeleteProject(projects, deleted), id)
  {
    var i :| 0 <= i < |projects| && projects[i].id == id;
    var r := DeleteProject(projects, deleted);
    assert projects[i] in r;
    var k :| 0 <= k < |r| && r[k] == projects[i];
  }

  /** Adding a project keeps references valid: every project survives. */
  lemma AddProjectKeepsReferences(st: AppState, newId: Id, name: string, color: string, now: string)
    requires ReferencesValid(st)
    ensures ReferencesValid(OnAddProject(st, newId, name, color, now))
  {
    var ps := OnAddProject(st, newId, name, color, now).projects;
    forall id | HasProject(st.projects, id) ensures HasProject(ps, id) {
      var i :| 0 <= i < |st.projects| && st.projects[i].id == id;
      assert ps[i] == st.projects[i];
    }
  }

  /** Deleting a project just added under a fresh id restores the list. */
  lemma DeleteUndoesAddProject(projects: seq<Project>, newId: Id, name: string, color: string, now: string)
    requires forall p :: p in projects ==> p.id != newId
    ensures DeleteProject(AddProject(projects, newId, name, color, now), newId) == projects
  {
    var p := (q: Project) => q.id != newId;
    assert forall i :: 0 <= i < |projects| ==> p(projects[i]) by {
      forall i | 0 <= i < |projects| ensures p(projects[i]) {
        assert projects[i] in projects;
      }
    }
    Seqs.FilterDropsLast(p, projects, Project(newId, name, color, now));
  }

  /** Quick-add keeps references valid: the new task joins the filtered
      project, which exists. */
  lemma AddTaskKeepsReferences(st: AppState, newId: Id, dueNow: string, createdNow: string)
    requires ReferencesValid(st)
    ensures ReferencesValid(OnAddTask(st, newId, dueNow, createdNow))
  {
    var r := OnAddTask(st, newId, dueNow, createdNow);
    forall t | t in r.tasks && t.projectId.Some?
      ensures HasProject(r.projects, t.projectId.value)
    {
      if t != r.tasks[0] {
        assert t in st.tasks by {
          var k :| 0 <= k < |r.tasks| && r.tasks[k] == t;
          assert st.tasks[k - 1] == t;
        }
      }
    }
  }
}
