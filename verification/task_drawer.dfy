/** The task drawer: single-field edits of the open task, sub-task list
    editing, and the two AI-assisted edits (refine, summarise). Every edit
    produces the updated task the drawer hands to the application's update
    handler; `None` means the drawer hands nothing over. */
module TaskDrawer {
  import opened Wrappers
  import opened Types
  import Seqs
  import Text

  // ---------------------------------------------------------------------------
  // Single-field update

  /** The fields of a task, and a value for one of them. */
  datatype Field = IdField | TitleField | DescriptionField | SummaryField | StatusField
                 | PriorityField | DueDateField | CreatedAtField | ProjectField | SubTasksField

  datatype FieldValue =
    | IdValue(id: Id)
    | TitleValue(title: string)
    | DescriptionValue(description: string)
    | SummaryValue(summary: Option<string>)
    | StatusValue(status: StatusId)
    | PriorityValue(priority: Priority)
    | DueDateValue(dueDate: string)
    | CreatedAtValue(createdAt: string)
    | ProjectValue(projectId: Option<Id>)
    | SubTasksValue(subTasks: Option<seq<SubTask>>)

  /** The field a value is for. */
  function FieldOf(v: FieldValue): Field {
    match v
    case IdValue(_) => IdField
    case TitleValue(_) => TitleField
    case DescriptionValue(_) => DescriptionField
    case SummaryValue(_) => SummaryField
    case StatusValue(_) => StatusField
    case PriorityValue(_) => PriorityField
    case DueDateValue(_) => DueDateField
    case CreatedAtValue(_) => CreatedAtField
    case ProjectValue(_) => ProjectField
    case SubTasksValue(_) => SubTasksField
  }

  /** Read one field of a task. */
  function Get(t: Task, f: Field): (v: FieldValue)
    ensures FieldOf(v) == f
  {
    match f
    case IdField => IdValue(t.id)
    case TitleField => TitleValue(t.title)
    case DescriptionField => DescriptionValue(t.description)
    case SummaryField => SummaryValue(t.summary)
    case StatusField => StatusValue(t.status)
    case PriorityField => PriorityValue(t.priority)
    case DueDateField => DueDateValue(t.dueDate)
    case CreatedAtField => CreatedAtValue(t.createdAt)
    case ProjectField => ProjectValue(t.projectId)
    case SubTasksField => SubTasksValue(t.subTasks)
  }

  /** Two tasks that agree on every field are the same task, so `Get` sees
      all of a task. */
  lemma FieldsDetermineTask(a: Task, b: Task)
    requires forall f :: Get(a, f) == Get(b, f)
    ensures a == b
  {
    assert Get(a, IdField) == Get(b, IdField);
    assert Get(a, TitleField) == Get(b, TitleField);
    assert Get(a, DescriptionField) == Get(b, DescriptionField);
    assert Get(a, SummaryField) == Get(b, SummaryField);
    assert Get(a, StatusField) == Get(b, StatusField);
    assert Get(a, PriorityField) == Get(b, PriorityField);
    assert Get(a, DueDateField) == Get(b, DueDateField);
    assert Get(a, CreatedAtField) == Get(b, CreatedAtField);
    assert Get(a, ProjectField) == Get(b, ProjectField);
    assert Get(a, SubTasksField) == Get(b, SubTasksField);
  }

  /** `updateField(field, value)`: the task with one field replaced. */
  function UpdateField(t: Task, v: FieldValue): (r: Task)
    ensures Get(r, FieldOf(v)) == v
    ensures forall f :: f != FieldOf(v) ==> Get(r, f) == Get(t, f)
  {
    match v
    case IdValue(x) => t.(id := x)
    case TitleValue(x) => t.(title := x)
    case DescriptionValue(x) => t.(description := x)
    case SummaryValue(x) => t.(summary := x)
    case StatusValue(x) => t.(status := x)
    case PriorityValue(x) => t.(priority := x)
    case DueDateValue(x) => t.(dueDate := x)
    case CreatedAtValue(x) => t.(createdAt := x)
    case ProjectValue(x) => t.(projectId := x)
    case SubTasksValue(x) => t.(subTasks := x)
  }

  /** Writing back a field's current value changes nothing. */
  lemma UpdateWithSameValue(t: Task, f: Field)
    ensures UpdateField(t, Get(t, f)) == t
  {
    var r := UpdateField(t, Get(t, f));
    forall g ensures Get(r, g) == Get(t, g) {
    }
    FieldsDetermineTask(r, t);
  }

  /** The project picker: the empty "No Project" option clears the project
      (`e.target.value || undefined`). */
  function SelectProject(t: Task, value: string): (r: Task)
    ensures value == "" ==> r.projectId.None?
    ensures value != "" ==> r.projectId == Some(value)
    ensures r.(projectId := t.projectId) == t
  {
    UpdateField(t, ProjectValue(if value == "" then None else Some(value)))
  }

  // ---------------------------------------------------------------------------
  // Sub-tasks

  /** The "add sub-task" form: its text, its priority and its date field. */
  datatype SubTaskForm = SubTaskForm(text: string, priority: Priority, dueDate: string)

  datatype AddStep = AddStep(form: SubTaskForm, update: Option<Task>)

  /** Submit the add-sub-task form. Blank text (after trimming) does nothing.
      Otherwise the form's date is converted to an ISO string by `toIso`,
      which gives `None` where `toISOString` throws (a cleared or invalid
      date); the throw stops the handler, so nothing is appended and the
      form is kept. When the conversion succeeds, a new uncompleted sub-task
      with the trimmed text, the chosen priority and the converted date is
      appended (to an empty list when the task has none) and the form is
      reset to empty text, medium priority and `today`. `newId` is the
      fresh id. */
  function AddSubTask(t: Task, form: SubTaskForm, newId: Id, toIso: string -> Option<string>, today: string): (r: AddStep)
    ensures Text.Trim(form.text) == "" || toIso(form.dueDate).None? ==> r.update.None? && r.form == form
    ensures Text.Trim(form.text) != "" && toIso(form.dueDate).Some? ==>
      r.update.Some? && r.form == SubTaskForm("", Medium, today)
    ensures r.update.Some? ==>
      var before, after := SubTasksOf(t), SubTasksOf(r.update.value);
      && |after| == |before| + 1
      && after[..|before|] == before
      && after[|before|] == SubTask(newId, Text.Trim(form.text), false, form.priority, toIso(form.dueDate).value)
      && r.update.value.(subTasks := t.subTasks) == t
  {
    var text := Text.Trim(form.text);
    if text == "" then AddStep(form, None)
    else match toIso(form.dueDate)
      case None => AddStep(form, None)
      case Some(dueDate) =>
        var item := SubTask(newId, text, false, form.priority, dueDate);
        AddStep(SubTaskForm("", Medium, today), Some(UpdateField(t, SubTasksValue(Some(SubTasksOf(t) + [item])))))
  }

  /** Removing a sub-task just added under a fresh id restores the task's
      sub-task list (an absent list comes back as an empty one). */
  lemma AddThenRemoveSubTask(t: Task, form: SubTaskForm, newId: Id, toIso: string -> Option<string>, today: string)
    requires forall st :: st in SubTasksOf(t) ==> st.id != newId
    requires Text.Trim(form.text) != "" && toIso(form.dueDate).Some?
    ensures SubTasksOf(RemoveSubTask(AddSubTask(t, form, newId, toIso, today).update.value, newId)) == SubTasksOf(t)
  {
    var before := SubTasksOf(t);
    var item := SubTask(newId, Text.Trim(form.text), false, form.priority, toIso(form.dueDate).value);
    var p := (st: SubTask) => st.id != newId;
    assert SubTasksOf(AddSubTask(t, form, newId, toIso, today).update.value) == before + [item];
    assert forall i :: 0 <= i < |before| ==> p(before[i]) by {
      forall i | 0 <= i < |before| ensures p(before[i]) {
        assert before[i] in before;
      }
    }
    Seqs.FilterDropsLast(p, before, item);
  }

  /** Delete every sub-task with that id; the rest keep their order. */
  function RemoveSubTask(t: Task, id: Id): (r: Task)
    ensures r.subTasks.Some?
    ensures forall st :: st in SubTasksOf(r) ==> st.id != id
    ensures forall st: SubTask :: st.id != id ==> multiset(SubTasksOf(r))[st] == multiset(SubTasksOf(t))[st]
    ensures Seqs.IsSubseq(SubTasksOf(r), SubTasksOf(t))
    ensures r.(subTasks := t.subTasks) == t
  {
    UpdateField(t, SubTasksValue(Some(Seqs.Filter((st: SubTask) => st.id != id, SubTasksOf(t)))))
  }

  /** Apply `f` to the sub-tasks with that id and keep the others. */
  function MapMatching(subTasks: seq<SubTask>, id: Id, f: SubTask -> SubTask): (r: seq<SubTask>)
    ensures |r| == |subTasks|
    ensures forall i :: 0 <= i < |r| && subTasks[i].id == id ==> r[i] == f(subTasks[i])
    ensures forall i :: 0 <= i < |r| && subTasks[i].id != id ==> r[i] == subTasks[i]
  {
    Seqs.Map((st: SubTask) => if st.id == id then f(st) else st, subTasks)
  }

  /** Flip the completion of the sub-tasks with that id. */
  function ToggleSubTask(t: Task, id: Id): (r: Task)
    ensures r.subTasks.Some? && |SubTasksOf(r)| == |SubTasksOf(t)|
    ensures forall i :: 0 <= i < |SubTasksOf(t)| ==>
      var before, after := SubTasksOf(t)[i], SubTasksOf(r)[i];
      && after.(completed := before.completed) == before
      && (after.completed != before.completed <==> before.id == id)
    ensures r.(subTasks := t.subTasks) == t
  {
    UpdateField(t, SubTasksValue(Some(MapMatching(SubTasksOf(t), id, (st: SubTask) => st.(completed := !st.completed)))))
  }

  /** Toggling twice restores the sub-task list (an absent list comes back
      as an empty one). */
  lemma ToggleTwice(t: Task, id: Id)
    ensures SubTasksOf(ToggleSubTask(ToggleSubTask(t, id), id)) == SubTasksOf(t)
    ensures t.subTasks.Some? ==> ToggleSubTask(ToggleSubTask(t, id), id) == t
  {
    var once := ToggleSubTask(t, id);
    var twice := ToggleSubTask(once, id);
    assert SubTasksOf(twice) == SubTasksOf(t) by {
      forall i | 0 <= i < |SubTasksOf(t)|
        ensures SubTasksOf(twice)[i] == SubTasksOf(t)[i]
      {
        assert SubTasksOf(once)[i].id == SubTasksOf(t)[i].id;
      }
    }
  }

  /** Set the priority of the sub-tasks with that id. */
  function SetSubTaskPriority(t: Task, id: Id, priority: Priority): (r: Task)
    ensures r.subTasks.Some? && |SubTasksOf(r)| == |SubTasksOf(t)|
    ensures forall i :: 0 <= i < |SubTasksOf(t)| ==>
      var before, after := SubTasksOf(t)[i], SubTasksOf(r)[i];
      && after.(priority := before.priority) == before
      && (before.id == id ==> after.priority == priority)
      && (before.id != id ==> after == before)
    ensures r.(subTasks := t.subTasks) == t
  {
    UpdateField(t, SubTasksValue(Some(MapMatching(SubTasksOf(t), id, (st: SubTask) => st.(priority := priority)))))
  }

  /** Set the due date of the sub-tasks with that id. The picked date is
      converted by `toIso` once per matching sub-task; where the conversion
      throws (`None`) and some sub-task matches, the handler stops and no
      update is issued. With no matching sub-task the conversion never runs
      and the list is written back as it was. */
  function SetSubTaskDueDate(t: Task, id: Id, dueDate: string, toIso: string -> Option<string>): (r: Option<Task>)
    ensures r.None? <==> toIso(dueDate).None? && exists st :: st in SubTasksOf(t) && st.id == id
    ensures r.Some? ==> r.value.subTasks.Some? && |SubTasksOf(r.value)| == |SubTasksOf(t)|
    ensures r.Some? ==> forall i :: 0 <= i < |SubTasksOf(t)| ==>
      var before, after := SubTasksOf(t)[i], SubTasksOf(r.value)[i];
      && after.(dueDate := before.dueDate) == before
      && (before.id == id ==> Some(after.dueDate) == toIso(dueDate))
      && (before.id != id ==> after == before)
    ensures r.Some? ==> r.value.(subTasks := t.subTasks) == t
  {
    var subs := SubTasksOf(t);
    var iso := toIso(dueDate);
    if iso.None? && exists st :: st in subs && st.id == id then None
    else
      var redate := (st: SubTask) => st.(dueDate := if iso.Some? then iso.value else st.dueDate);
      Some(UpdateField(t, SubTasksValue(Some(MapMatching(subs, id, redate)))))
  }

  /** Setting the priority, or the due date, that every matching sub-task
      already has leaves the sub-task list as it was. */
  lemma SetSameValueIsNoOp(t: Task, id: Id, priority: Priority, dueDate: string, toIso: string -> Option<string>)
    ensures (forall st :: st in SubTasksOf(t) && st.id == id ==> st.priority == priority) ==>
      SubTasksOf(SetSubTaskPriority(t, id, priority)) == SubTasksOf(t)
    ensures (forall st :: st in SubTasksOf(t) && st.id == id ==> Some(st.dueDate) == toIso(dueDate)) ==>
      var r := SetSubTaskDueDate(t, id, dueDate, toIso);
      r.Some? && SubTasksOf(r.value) == SubTasksOf(t)
  {
    var subs := SubTasksOf(t);
    if forall st :: st in subs && st.id == id ==> st.priority == priority {
      SameListAt(subs, SubTasksOf(SetSubTaskPriority(t, id, priority)), id);
    }
    if forall st :: st in subs && st.id == id ==> Some(st.dueDate) == toIso(dueDate) {
      var r := SetSubTaskDueDate(t, id, dueDate, toIso);
      assert r.Some?;
      SameListAt(subs, SubTasksOf(r.value), id);
    }
  }

  /** A rewrite of the matching sub-tasks that gives each back unchanged
      gives back the list. */
  lemma SameListAt(subs: seq<SubTask>, r: seq<SubTask>, id: Id)
    requires |r| == |subs|
    requires forall i :: 0 <= i < |subs| && subs[i].id != id ==> r[i] == subs[i]
    requires forall i :: 0 <= i < |subs| && subs[i].id == id ==> r[i] == subs[i]
    ensures r == subs
  {
  }

  // ---------------------------------------------------------------------------
  // AI-assisted edits

  /** Apply an AI refinement. Nothing happens when the title field is empty
      (no request is made) or when the service returned nothing. Otherwise
      the description and priority are taken from the reply and the sub-task
      list is replaced by one uncompleted, medium-priority sub-task per
      suggestion, in order; `ids` are their fresh ids and `stamps` their
      dates, the clock being read once per sub-task. */
  function Refine(t: Task, localTitle: string, reply: Option<AIResponse>, ids: seq<Id>, stamps: seq<string>): (r: Option<Task>)
    requires reply.Some? ==> |ids| == |reply.value.subTasks| && |stamps| == |reply.value.subTasks|
    ensures localTitle == "" || reply.None? ==> r.None?
    ensures r.Some? ==>
      && r.value.description == reply.value.description
      && r.value.priority == reply.value.priority
      && r.value.subTasks.Some?
      && |r.value.subTasks.value| == |reply.value.subTasks|
      && (forall i :: 0 <= i < |reply.value.subTasks| ==>
            r.value.subTasks.value[i] == SubTask(ids[i], reply.value.subTasks[i], false, Medium, stamps[i]))
      && r.value.(description := t.description, priority := t.priority, subTasks := t.subTasks) == t
    ensures localTitle != "" && reply.Some? ==> r.Some?
  {
    if localTitle == "" then None
    else match reply
      case None => None
      case Some(ai) =>
        var items := seq(|ai.subTasks|, i requires 0 <= i < |ai.subTasks| =>
          SubTask(ids[i], ai.subTasks[i], false, Medium, stamps[i]));
        Some(t.(description := ai.description, priority := ai.priority, subTasks := Some(items)))
  }

  /** Apply a generated summary; an empty or absent one changes nothing. */
  function Summarise(t: Task, summary: Option<string>): (r: Option<Task>)
    ensures r.Some? <==> summary.Some? && summary.value != ""
    ensures r.Some? ==> r.value == t.(summary := summary)
  {
    if summary.Some? && summary.value != "" then Some(UpdateField(t, SummaryValue(summary))) else None
  }

  // ---------------------------------------------------------------------------
  // Sub-task badge style

  const CompletedSubTaskStyle := "text-slate-400 bg-slate-50 border-slate-100 opacity-60"
  const HighSubTaskStyle := "text-red-600 bg-red-50 border-red-100"
  const MediumSubTaskStyle := "text-amber-600 bg-amber-50 border-amber-100"
  const LowSubTaskStyle := "text-blue-600 bg-blue-50 border-blue-100"

  /** The style of a sub-task's priority badge: muted when completed,
      whatever the priority; by priority otherwise. */
  function SubTaskPriorityStyle(priority: Priority, completed: bool): (r: string)
    ensures completed ==> r == CompletedSubTaskStyle
    ensures !completed ==> r != CompletedSubTaskStyle
    ensures !completed && priority == High ==> r == HighSubTaskStyle
    ensures !completed && priority == Medium ==> r == MediumSubTaskStyle
    ensures !completed && priority == Low ==> r == LowSubTaskStyle
  {
    if completed then CompletedSubTaskStyle
    else match priority
      case High => HighSubTaskStyle
      case Medium => MediumSubTaskStyle
      case Low => LowSubTaskStyle
  }

  /** Uncompleted sub-tasks of different priorities look different;
      completed ones look the same whatever their priority. */
  lemma SubTaskStylesDistinguishPriority(p: Priority, q: Priority)
    ensures p != q ==> SubTaskPriorityStyle(p, false) != SubTaskPriorityStyle(q, false)
    ensures SubTaskPriorityStyle(p, true) == SubTaskPriorityStyle(q, true)
  {
    assert HighSubTaskStyle[5] == 'r' && MediumSubTaskStyle[5] == 'a' && LowSubTaskStyle[5] == 'b';
  }
}
