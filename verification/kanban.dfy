/** The kanban board: three status columns, drag-over recategorisation of a
    dragged task card, the drag start/end bookkeeping, and the sub-task
    progress badge of a card. */
module Kanban {
  import opened Wrappers
  import opened Types
  import Seqs
  import App
  import TaskTable

  /** The payload a draggable or droppable carries: a task card, a status
      column, or nothing the board recognises. */
  datatype DragData = TaskCard(task: Task) | ColumnLane(status: StatusId) | NoData

  /** A draggable or droppable: its drag-and-drop id and payload. */
  datatype DragItem = DragItem(id: Id, data: DragData)

  /** The status a hovered item stands for: a card's task status or a
      column's status. */
  function TargetStatus(over: DragData): Option<StatusId> {
    match over
    case TaskCard(t) => Some(t.status)
    case ColumnLane(s) => Some(s)
    case NoData => None
  }

  /** The update `handleDragOver` emits while `active` hovers over `over`: the
      dragged task with the hovered item's status, and only when that status
      differs from the dragged task's. Nothing is emitted with no drop target,
      when hovering over itself, or when the dragged item is not a task. */
  function DragOver(active: DragItem, over: Option<DragItem>): (r: Option<Task>)
    ensures r.Some? <==>
      && over.Some? && active.id != over.value.id
      && active.data.TaskCard?
      && TargetStatus(over.value.data).Some?
      && TargetStatus(over.value.data).value != active.data.task.status
    ensures r.Some? ==> r.value == active.data.task.(status := TargetStatus(over.value.data).value)
  {
    if over.None? then None
    else if active.id == over.value.id then None
    else if !active.data.TaskCard? then None
    else
      var dragged := active.data.task;
      match over.value.data
      case TaskCard(overTask) =>
        if dragged.status != overTask.status then Some(dragged.(status := overTask.status)) else None
      case ColumnLane(overStatus) =>
        if dragged.status != overStatus then Some(dragged.(status := overStatus)) else None
      case NoData => None
  }

  /** Applying a drag-over update to the task list recategorises the dragged
      task (every copy of it) and changes nothing else, provided the card's
      snapshot is the task as the list holds it. */
  lemma DragOverThenUpdate(tasks: seq<Task>, active: DragItem, over: Option<DragItem>)
    requires DragOver(active, over).Some?
    requires forall i :: 0 <= i < |tasks| && tasks[i].id == active.data.task.id ==> tasks[i] == active.data.task
    ensures var r := App.UpdateTask(tasks, DragOver(active, over).value);
      && |r| == |tasks|
      && (forall i :: 0 <= i < |tasks| && tasks[i].id == active.data.task.id ==>
            r[i] == tasks[i].(status := TargetStatus(over.value.data).value))
      && (forall i :: 0 <= i < |tasks| && tasks[i].id != active.data.task.id ==> r[i] == tasks[i])
  {
  }

  /** Once the update is applied and the card shows the updated task,
      hovering over the same target again emits nothing: drag-over settles. */
  lemma DragOverSettles(active: DragItem, over: Option<DragItem>)
    requires DragOver(active, over).Some?
    ensures DragOver(active.(data := TaskCard(DragOver(active, over).value)), over).None?
  {
  }

  // ---------------------------------------------------------------------------
  // Columns

  /** The board's columns, left to right. */
  const BoardColumns: seq<StatusId> := [Todo, InProgress, Done]

  /** The cards of one column: the tasks with that status, in list order. */
  function ColumnTasks(tasks: seq<Task>, status: StatusId): (r: seq<Task>)
    ensures Seqs.IsSubseq(r, tasks)
    ensures forall t :: t in r <==> t in tasks && t.status == status
    ensures forall t: Task :: multiset(r)[t] == if t.status == status then multiset(tasks)[t] else 0
  {
    Seqs.Filter((t: Task) => t.status == status, tasks)
  }

  /** The tasks the board can show at all: those whose status is one of its
      columns. A task with any other status is on no column. */
  function OnBoard(tasks: seq<Task>): (r: seq<Task>)
    ensures forall t :: t in r <==> t in tasks && t.status in BoardColumns
    ensures forall t: Task :: multiset(r)[t] == if t.status in BoardColumns then multiset(tasks)[t] else 0
  {
    Seqs.Filter((t: Task) => t.status in BoardColumns, tasks)
  }

  /** The board: one column of cards per status. */
  function Board(tasks: seq<Task>): (r: seq<seq<Task>>)
    ensures |r| == |BoardColumns|
    ensures forall k :: 0 <= k < |r| ==> r[k] == ColumnTasks(tasks, BoardColumns[k])
  {
    Seqs.Map((s: StatusId) => ColumnTasks(tasks, s), BoardColumns)
  }

  /** The three built-in statuses are different strings. */
  lemma StatusesDistinct()
    ensures Todo != InProgress && Todo != Done && InProgress != Done
  {
    assert Todo[0] == 't' && Done[0] == 'd';
  }

  /** The board, column by column. */
  lemma BoardIs(tasks: seq<Task>)
    ensures Board(tasks) == [ColumnTasks(tasks, Todo), ColumnTasks(tasks, InProgress), ColumnTasks(tasks, Done)]
  {
  }

  /** A task the list holds is on a column exactly when its status is that
      column's; each column keeps list order. */
  lemma BoardColumnMembership(tasks: seq<Task>)
    ensures forall k, t :: 0 <= k < |BoardColumns| && t in tasks ==>
      (t in Board(tasks)[k] <==> t.status == BoardColumns[k])
    ensures forall k :: 0 <= k < |BoardColumns| ==> Seqs.IsSubseq(Board(tasks)[k], tasks)
  {
  }

  /** The columns partition the tasks the board can show: together they hold
      each such task exactly as often as the list does, so no task is on two
      columns. */
  lemma BoardPartitions(tasks: seq<Task>)
    ensures var b := Board(tasks);
      multiset(b[0]) + multiset(b[1]) + multiset(b[2]) == multiset(OnBoard(tasks))
    ensures var b := Board(tasks);
      |b[0]| + |b[1]| + |b[2]| == |OnBoard(tasks)|
  {
    BoardIs(tasks);
    ColumnsCover(tasks);
    var b := Board(tasks);
    assert |multiset(b[0]) + multiset(b[1]) + multiset(b[2])| == |b[0]| + |b[1]| + |b[2]|;
  }

  /** The three columns' multisets add up to the showable tasks'. */
  lemma ColumnsCover(tasks: seq<Task>)
    ensures multiset(ColumnTasks(tasks, Todo)) + multiset(ColumnTasks(tasks, InProgress)) + multiset(ColumnTasks(tasks, Done))
      == multiset(OnBoard(tasks))
  {
    StatusesDistinct();
    var c0, c1, c2 := ColumnTasks(tasks, Todo), ColumnTasks(tasks, InProgress), ColumnTasks(tasks, Done);
    var m := multiset(c0) + multiset(c1) + multiset(c2);
    var all := multiset(OnBoard(tasks));
    forall t: Task
      ensures m[t] == all[t]
    {
      assert t.status in BoardColumns <==> t.status == Todo || t.status == InProgress || t.status == Done;
    }
    assert m == all;
  }

  // ---------------------------------------------------------------------------
  // Cards

  predicate IsCompleted(st: SubTask) {
    st.completed
  }

  /** The number of completed sub-tasks: how many of their completion flags
      are set. */
  function CompletedCount(subTasks: seq<SubTask>): (r: nat)
    ensures r == multiset(Seqs.Map(IsCompleted, subTasks))[true]
    ensures r <= |subTasks|
    ensures r == |subTasks| <==> forall i :: 0 <= i < |subTasks| ==> subTasks[i].completed
  {
    Seqs.FilterKeepsAllIff(IsCompleted, subTasks);
    Seqs.FilterCount(IsCompleted, subTasks);
    |Seqs.Filter(IsCompleted, subTasks)|
  }

  /** The "done/total" badge of a card, shown only when the task has a
      non-empty sub-task list. */
  function Progress(t: Task): (r: Option<(nat, nat)>)
    ensures r.Some? <==> t.subTasks.Some? && |t.subTasks.value| > 0
    ensures r.Some? ==> r.value.0 == CompletedCount(t.subTasks.value) && r.value.1 == |t.subTasks.value|
    ensures r.Some? ==> r.value.0 <= r.value.1
    ensures r.Some? ==> (r.value.0 == r.value.1 <==> forall st :: st in t.subTasks.value ==> st.completed)
  {
    if t.subTasks.Some? && |t.subTasks.value| > 0 then
      var subs := t.subTasks.value;
      Some((CompletedCount(subs), |subs|))
    else None
  }

  /** A card's priority badge uses the list view's priority styles, one per
      priority. */
  function CardPriorityStyle(p: Priority): (r: string)
    ensures p == High ==> r == TaskTable.HighPriorityStyle
    ensures p == Medium ==> r == TaskTable.MediumPriorityStyle
    ensures p == Low ==> r == TaskTable.LowPriorityStyle
    ensures r != TaskTable.NeutralStyle
  {
    TaskTable.PriorityStylesDistinct(p, p);
    TaskTable.PriorityStyle(PriorityName(p))
  }

  // ---------------------------------------------------------------------------
  // Drag start and end

  /** The card shown under the pointer while dragging. */
  datatype BoardState = BoardState(activeTask: Option<Task>)

  /** Starting to drag a task card lifts that task; other drags change
      nothing. */
  function DragStart(st: BoardState, active: DragItem): (r: BoardState)
    ensures active.data.TaskCard? ==> r.activeTask == Some(active.data.task)
    ensures !active.data.TaskCard? ==> r == st
  {
    if active.data.TaskCard? then BoardState(Some(active.data.task)) else st
  }

  /** Ending a drag drops the lifted card whatever the target; it emits no
      task update (there is no same-column reorder on the board). */
  function DragEnd(st: BoardState, over: Option<DragItem>): (r: BoardState)
    ensures r.activeTask.None?
  {
    BoardState(None)
  }
}
