/** The list view's cell rules: the style of a status badge, the style of a
    priority badge, the status label, the strike-through of finished tasks
    and the project cell. Styles are the class strings the view renders. */
module TaskTable {
  import opened Wrappers
  import opened Types
  import Seqs

  const NeutralStyle := "bg-slate-50 text-slate-700 border-slate-100"
  const DoneStatusStyle := "bg-emerald-50 text-emerald-700 border-emerald-100"
  const InProgressStatusStyle := "bg-blue-50 text-blue-700 border-blue-100"
  const TodoStatusStyle := "bg-slate-50 text-slate-700 border-slate-100"
  const CustomStatusStyle := "bg-slate-50 text-slate-600 border-slate-200"

  const HighPriorityStyle := "bg-red-50 text-red-700 border-red-100"
  const MediumPriorityStyle := "bg-amber-50 text-amber-700 border-amber-100"
  const LowPriorityStyle := "bg-blue-50 text-blue-700 border-blue-100"

  /** `kanbanColumns.find(c => c.id === statusId)`: the first column with
      that id. */
  function FindColumn(columns: seq<KanbanColumn>, statusId: StatusId): (r: Option<KanbanColumn>)
    ensures r.Some? ==> r.value in columns && r.value.id == statusId
    ensures r.None? <==> forall c :: c in columns ==> c.id != statusId
    ensures r.Some? ==> exists i :: 0 <= i < |columns| && columns[i] == r.value && forall j :: 0 <= j < i ==> columns[j].id != statusId
  {
    Seqs.Find((c: KanbanColumn) => c.id == statusId, columns)
  }

  /** `projects.find(p => p.id === task.projectId)`: the first project with
      the task's project id; a task without a project finds none. */
  function FindProject(projects: seq<Project>, projectId: Option<Id>): (r: Option<Project>)
    ensures r.Some? ==> r.value in projects && projectId == Some(r.value.id)
    ensures r.None? <==> forall p :: p in projects ==> projectId != Some(p.id)
    ensures r.Some? ==> exists i :: 0 <= i < |projects| && projects[i] == r.value && forall j :: 0 <= j < i ==> projectId != Some(projects[j].id)
  {
    Seqs.Find((p: Project) => projectId == Some(p.id), projects)
  }

  /** The style of a status badge. An id with no column gets the neutral
      style whatever it is; the three built-in ids get their own; any other
      column gets the custom-column style. */
  function StatusStyle(columns: seq<KanbanColumn>, statusId: StatusId): (r: string)
    ensures (forall c :: c in columns ==> c.id != statusId) ==> r == NeutralStyle
    ensures (exists c :: c in columns && c.id == statusId) ==>
      r == (if statusId == Done then DoneStatusStyle
            else if statusId == InProgress then InProgressStatusStyle
            else if statusId == Todo then TodoStatusStyle
            else CustomStatusStyle)
  {
    if FindColumn(columns, statusId).None? then NeutralStyle
    else if statusId == Done then DoneStatusStyle
    else if statusId == InProgress then InProgressStatusStyle
    else if statusId == Todo then TodoStatusStyle
    else CustomStatusStyle
  }

  /** The style of a priority badge, keyed on the priority's string value;
      a value outside the enum gets the neutral style. */
  function PriorityStyle(priority: string): (r: string)
    ensures priority == PriorityName(High) ==> r == HighPriorityStyle
    ensures priority == PriorityName(Medium) ==> r == MediumPriorityStyle
    ensures priority == PriorityName(Low) ==> r == LowPriorityStyle
    ensures (forall p :: priority != PriorityName(p)) ==> r == NeutralStyle
  {
    if priority == "high" then assert priority == PriorityName(High); HighPriorityStyle
    else if priority == "medium" then assert priority == PriorityName(Medium); MediumPriorityStyle
    else if priority == "low" then assert priority == PriorityName(Low); LowPriorityStyle
    else NeutralStyle
  }

  /** The three priorities get three different styles, none of them the
      fallback. */
  lemma PriorityStylesDistinct(p: Priority, q: Priority)
    ensures p != q ==> PriorityStyle(PriorityName(p)) != PriorityStyle(PriorityName(q))
    ensures PriorityStyle(PriorityName(p)) != NeutralStyle
  {
    assert MediumPriorityStyle[3] == 'a';
    assert NeutralStyle[3] == 's';
  }

  /** A status whose column is missing is indistinguishable from a "todo"
      status: both render with the same class string. The "done" and
      "in-progress" styles and the custom-column style differ from it. */
  lemma StatusStylesObservable()
    ensures TodoStatusStyle == NeutralStyle
    ensures DoneStatusStyle != NeutralStyle && InProgressStatusStyle != NeutralStyle && CustomStatusStyle != NeutralStyle
    ensures DoneStatusStyle != InProgressStatusStyle && DoneStatusStyle != CustomStatusStyle
    ensures InProgressStatusStyle != CustomStatusStyle
  {
    assert CustomStatusStyle[23] == '6';
    assert NeutralStyle[23] == '7';
  }

  /** The status cell's text: the column's title when a column is found and
      its title is non-empty (`column?.title || task.status`), else the raw
      status id. */
  function StatusLabel(columns: seq<KanbanColumn>, statusId: StatusId): (r: string)
    ensures FindColumn(columns, statusId).Some? && FindColumn(columns, statusId).value.title != "" ==>
      r == FindColumn(columns, statusId).value.title
    ensures FindColumn(columns, statusId).Some? && FindColumn(columns, statusId).value.title == "" ==> r == statusId
    ensures (forall c :: c in columns ==> c.id != statusId) ==> r == statusId
    ensures r == statusId || exists c :: c in columns && c.id == statusId && r == c.title
  {
    match FindColumn(columns, statusId)
    case Some(c) => if c.title != "" then c.title else statusId
    case None => statusId
  }

  /** The label, read off the columns by index: the title of the first
      column carrying the status id when that title is non-empty, the status
      id otherwise (also when no column carries it). */
  lemma StatusLabelByIndex(columns: seq<KanbanColumn>, statusId: StatusId, i: nat)
    requires i < |columns| && columns[i].id == statusId
    requires forall j :: 0 <= j < i ==> columns[j].id != statusId
    ensures StatusLabel(columns, statusId) == if columns[i].title != "" then columns[i].title else statusId
  {
    var c := FindColumn(columns, statusId).value;
    var k :| 0 <= k < |columns| && columns[k] == c && forall j :: 0 <= j < k ==> columns[j].id != statusId;
    assert k == i;
  }

  /** A task's title is struck through exactly when its status is "done". */
  predicate StruckThrough(t: Task) {
    t.status == Done
  }

  /** The project cell: the project's colour dot and name, or the italic
      "No project" placeholder. */
  datatype ProjectCell = ProjectChip(name: string, color: string) | NoProject

  function ProjectCellOf(projects: seq<Project>, t: Task): (r: ProjectCell)
    ensures t.projectId.None? ==> r == NoProject
    ensures (forall p :: p in projects ==> t.projectId != Some(p.id)) <==> r == NoProject
    ensures FindProject(projects, t.projectId).Some? ==>
      r == ProjectChip(FindProject(projects, t.projectId).value.name, FindProject(projects, t.projectId).value.color)
    ensures r.ProjectChip? ==> exists p :: p in projects && t.projectId == Some(p.id) && r == ProjectChip(p.name, p.color)
  {
    match FindProject(projects, t.projectId)
    case Some(p) => ProjectChip(p.name, p.color)
    case None => NoProject
  }

  /** The cell, read off the projects by index: the chip of the first project
      carrying the task's project id. */
  lemma ProjectCellByIndex(projects: seq<Project>, t: Task, i: nat)
    requires i < |projects| && t.projectId == Some(projects[i].id)
    requires forall j :: 0 <= j < i ==> t.projectId != Some(projects[j].id)
    ensures ProjectCellOf(projects, t) == ProjectChip(projects[i].name, projects[i].color)
  {
    var p := FindProject(projects, t.projectId).value;
    var k :| 0 <= k < |projects| && projects[k] == p && forall j :: 0 <= j < k ==> t.projectId != Some(projects[j].id);
    assert k == i;
  }
}
