/** The records of the task manager. Identifiers and status ids are plain
    strings, as in the application: a task's status is the id of a kanban
    column, and the three built-in statuses are the strings below. */
module Types {
  import opened Wrappers

  type Id = string

  /** The id of a kanban column; the three built-in ones are the values of
      the `TaskStatus` enum. */
  type StatusId = string

  const Todo: StatusId := "todo"
  const InProgress: StatusId := "in-progress"
  const Done: StatusId := "done"

  datatype Priority = Low | Medium | High

  /** The string value of each `TaskPriority` member. */
  function PriorityName(p: Priority): string {
    match p
    case Low => "low"
    case Medium => "medium"
    case High => "high"
  }

  datatype SubTask = SubTask(id: Id, text: string, completed: bool, priority: Priority, dueDate: string)

  /** Dates are kept as the opaque ISO strings the application stores. */
  datatype Task = Task(
    id: Id,
    title: string,
    description: string,
    summary: Option<string>,
    status: StatusId,
    priority: Priority,
    dueDate: string,
    createdAt: string,
    projectId: Option<Id>,
    subTasks: Option<seq<SubTask>>)

  /** The sub-task list, an absent one read as empty (`task.subTasks || []`). */
  function SubTasksOf(t: Task): seq<SubTask> {
    t.subTasks.GetOr([])
  }

  datatype Project = Project(id: Id, name: string, color: string, createdAt: string)

  /** The normalised reply of the AI refinement service. */
  datatype AIResponse = AIResponse(description: string, priority: Priority, subTasks: seq<string>)

  datatype Workspace = Workspace(id: Id, name: string, icon: string, color: string, ownerId: Id)

  datatype KanbanColumn = KanbanColumn(id: Id, title: string, color: string, isDefault: bool, workspaceId: Id)

  const Pending := "pending"
  const Accepted := "accepted"

  datatype Invitation = Invitation(
    id: Id,
    email: string,
    workspaceId: Id,
    inviterEmail: string,
    status: string,
    createdAt: string)

  /** The list filter chosen in the sidebar: everything, one status, or one
      project; `value` is the status id or project id compared against. */
  datatype FilterKind = AllTasks | ByStatus | ByProject
  datatype Filter = Filter(kind: FilterKind, value: string)

  const ShowAll := Filter(AllTasks, "all")

  /** The result of a database transaction, which the backend owns: it either
      commits or is rejected with an error message. */
  datatype TxOutcome = Committed | Rejected(message: string)
}
