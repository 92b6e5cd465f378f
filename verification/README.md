# Task manager core, modelled in Dafny

A model of the logic of a React task manager (Erasmus001/attio-task). The
application keeps tasks, projects, workspaces, kanban columns and
invitations. Its own logic is a set of small synchronous transformations
inside event handlers, and each one is modelled here as a pure function over
immutable records:

- the application shell's handlers on the task and project lists, and the
  filtered list the views show (`App`);
- the kanban board's drag-over recategorisation, its column partition and a
  card's sub-task progress (`Kanban`);
- the task drawer's single-field update, sub-task editing and the AI
  refine/summarise edits (`TaskDrawer`);
- the list view's status/priority badge styles and its cell fallbacks
  (`TaskTable`);
- the sidebar's navigation highlight and its project create/edit/delete
  modal (`Sidebar`);
- the two-step onboarding flow: workspace creation with three default columns,
  a duplicate-free invite list, and the invitations it writes (`Onboarding`);
- the invitation page's validity rule and accept transition (`Invite`);
- the AI service's reply normalisation (`Gemini`).

Shared pieces: `Wrappers` (an `Option` type), `Types` (the records of
`types.ts`), `Seqs` (the array methods `filter`, `map`, `splice` and
`findIndex` as sequence functions with their contracts) and `Text`
(ECMAScript `trim` and `includes`).

Modelling choices:

- Ids and status ids are strings. The three `TaskStatus` values are the
  constants `Todo`, `InProgress` and `Done`. The files come from different
  revisions: `types.ts` declares status as a three-value enum, while
  `components/TaskTable.tsx` and `components/TaskDrawer.tsx` treat it as a
  kanban column id. A string with three distinguished values covers both.
- `projectId` is `Option<Id>`. `subTasks` is `Option<seq<SubTask>>`, and an
  absent list reads as empty (`SubTasksOf`).
- JavaScript truthiness is modelled exactly: the empty string is falsy, so
  an editing id of `""` counts as no edit, and so does a created workspace
  id of `""`. A column title of `""` falls back to the status id.
- `trim` strips the ECMAScript WhiteSpace and LineTerminator characters.
- `toLowerCase` is a parameter `lower` of the search filter, left
  uninterpreted.
- Database transactions are an outcome parameter, `Committed` or
  `Rejected(message)`. The records a transaction writes are returned as data.
- Fresh ids (`Math.random`, the database's `id()`) and timestamps
  (`new Date().toISOString()`) are parameters, one per clock reading: the
  quick-add takes its due date and its creation date separately.
- Converting a picked date (`new Date(x).toISOString()`) is a parameter
  function `toIso` returning `None` where the conversion throws a
  `RangeError` (a cleared or invalid date); the throw stops the handler.
- The AI model call's result is an `ApiCall` parameter (threw, or a text that
  may be absent). `JSON.parse` is a parameter function returning `Parsed`
  (threw, `null`, or a value with optional fields).
- The sidebar passes the project name to the add and update handlers as
  typed, not trimmed (`components/Sidebar.tsx:83-85`). Only the blank check
  trims. Workspace creation, by contrast, stores the trimmed name
  (`components/OnboardingFlow.tsx:33`). The model follows the code in both
  places.

## Model

| member | source | states |
|---|---|---|
| App.FindIndex | App.tsx:79-80 | the index found holds the id and no earlier task has it; `None` exactly when no task has the id |
| Seqs.FindIndex | App.tsx:79-80 | the first index whose element satisfies the predicate; `None` only when no element does |
| Seqs.Find | App.tsx:133 | the element found is the first satisfying the predicate; `None` iff no element does |
| App.FindTask | App.tsx:133 | the task found is the first in the list with the id; `None` iff no task has the id |
| App.SelectedTask | App.tsx:133 | no selection shows no task; otherwise the drawer shows the first task with the selected id, if any |
| App.Reorder | App.tsx:77-90 | same length and multiset; with either id missing the list is unchanged; otherwise the active task sits at the over index and removing it there gives the original list with it removed at the active index (the others keep their relative order) |
| Seqs.Move | App.tsx:83-85 | splice-out then splice-in keeps the length, puts the moved element at the target index and leaves the rest in order |
| Seqs.MovePermutes | App.tsx:83-85 | a move is a permutation (same multiset) |
| Seqs.MoveUndo | App.tsx:83-85 | moving back from the target index to the source index restores the list |
| Seqs.MoveDetermined | App.tsx:83-85 | any list with the moved element at the target and the same remainder is the moved list, so the Reorder contract pins the result down |
| App.UpdateTask | App.tsx:73-75 | same length; every task with the updated id becomes the updated task, every other task is unchanged |
| App.UpdateIdempotent | App.tsx:73-75 | applying the same update twice equals applying it once |
| App.UpdateThenFind | App.tsx:73-75 | after updating a present id, looking it up finds the updated task |
| App.DeleteTask | App.tsx:92-93 | no task with the id remains; every other task keeps its multiplicity and the result is an order-preserving subsequence |
| App.OnDeleteTask | App.tsx:92-95 | the list loses the id; the selection is cleared only if it was that id; projects, filter and query are unchanged |
| App.DeletedTaskIsGone | App.tsx:133 | after deletion the id is not found, so a drawer showing it closes |
| App.OnAddTask | App.tsx:57-71 | a "New Task" is prepended with status todo, medium priority, empty description, no summary, the due date and the creation date each from its own clock reading, and an empty sub-task list; its project is the filter value exactly under a project filter; it becomes selected; nothing else changes |
| App.AddedTaskIsSelected | App.tsx:70 | after a quick-add the selected task is the new first task |
| App.DeleteUndoesAdd | App.tsx:69-94 | deleting a freshly added task restores the task list, and the whole state when nothing was selected |
| App.AddTaskKeepsReferences | App.tsx:66 | quick-add keeps every project reference pointing at an existing project |
| App.OnUpdateTask | App.tsx:73-75 | the task list is updated and every other part of the state is unchanged |
| App.OnReorderTasks | App.tsx:77-90 | the task list is reordered and every other part of the state is unchanged |
| App.AddProject | App.tsx:97-105 | exactly one project is appended at the end, with the given id, name and colour and created `now`; the old list is its prefix |
| App.OnAddProject | App.tsx:97-105 | only the project list changes |
| App.AddProjectKeepsReferences | App.tsx:97-105 | adding a project keeps every task and filter reference pointing at an existing project |
| App.DeleteUndoesAddProject | App.tsx:97-112 | deleting a project just added under a fresh id restores the project list |
| App.UpdateProject | App.tsx:107-109 | same length, ids and creation dates; projects with the id get the new name and colour, others are unchanged |
| App.OnUpdateProject | App.tsx:107-109 | only the project list changes |
| App.DeleteProject | App.tsx:112 | a project is kept iff its id differs, with its multiplicity; order is preserved |
| App.OrphanTasks | App.tsx:114 | same length; a task of the project has its project cleared (none); no task refers to the project afterwards; each task differs at most in its project, and tasks of other projects are unchanged |
| App.OnDeleteProject | App.tsx:111-118 | the project is removed, its tasks are orphaned (none removed), the filter resets to "all" only if it was on that project |
| App.DeleteProjectKeepsReferences | App.tsx:111-118 | deleting a project never leaves a task or the filter pointing at a missing project |
| App.StillHasProject | App.tsx:112 | a project with another id survives the deletion |
| App.VisibleTasks | App.tsx:120-131 | order-preserving subsequence; a task is shown iff it passes the nav predicate and the lowered query occurs in its lowered title or description; shown tasks keep their multiplicity |
| App.EmptyQueryShowsAll | App.tsx:120-131 | with the "all" filter and an empty query every task is shown, in order |
| App.EmptyQueryMatches | App.tsx:128-129 | an empty query matches every task |
| Text.IncludesIffOccurs | App.tsx:128-129 | `includes` holds iff the substring occurs at some index |
| Text.Trim | components/TaskDrawer.tsx:100 | the trimmed text is no longer and neither starts nor ends with whitespace |
| Text.TrimIsInfix | components/TaskDrawer.tsx:104 | the trimmed text occurs in the original between two all-whitespace stretches |
| Text.BlankIffAllWhitespace | components/TaskDrawer.tsx:100 | trimming gives "" iff the text is all whitespace |
| Text.TrimIdempotent | services/gemini.ts:65 | trimming twice is trimming once |
| Kanban.DragOver | components/KanbanBoard.tsx:167-201 | an update is emitted iff there is a target, it is not the dragged item, the dragged item is a task, and the target (task or column) has a status different from the dragged task's; the update is the dragged task with that status |
| Kanban.DragOverThenUpdate | components/KanbanBoard.tsx:188 | applying the emitted update to the list recategorises the dragged task and changes no other task |
| Kanban.DragOverSettles | components/KanbanBoard.tsx:187 | hovering again with the updated card over the same target emits nothing |
| Kanban.ColumnTasks | components/KanbanBoard.tsx:225 | a column holds exactly the tasks with its status, in list order, with their multiplicity |
| Kanban.OnBoard | components/KanbanBoard.tsx:159 | the tasks the board can show are exactly those with one of the three column statuses |
| Kanban.Board | components/KanbanBoard.tsx:221-229 | one column per status in the order todo, in progress, done |
| Kanban.BoardIs | components/KanbanBoard.tsx:159 | the board is the todo, in-progress and done columns |
| Kanban.BoardColumnMembership | components/KanbanBoard.tsx:225 | a listed task is in a column iff its status is that column's; each column is a subsequence of the list |
| Kanban.BoardPartitions | components/KanbanBoard.tsx:221-229 | the three columns together hold every showable task exactly as often as the list does, so no task is on two columns |
| Kanban.ColumnsCover | components/KanbanBoard.tsx:221-229 | the todo, in-progress and done columns together hold each showable task exactly as often as the list does |
| Kanban.CompletedCount | components/KanbanBoard.tsx:89 | the count is the number of set completion flags; it never exceeds the total and equals it iff every sub-task is completed |
| Kanban.Progress | components/KanbanBoard.tsx:86-89 | the badge shows iff the task has a non-empty sub-task list; it reads completed count over total, with equality iff all are completed |
| Kanban.CardPriorityStyle | components/KanbanBoard.tsx:49-55 | high, medium and low get the red, amber and blue badge styles, never the neutral one |
| Kanban.DragStart | components/KanbanBoard.tsx:161-165 | dragging a task card lifts that task; any other drag changes nothing |
| Kanban.DragEnd | components/KanbanBoard.tsx:203-209 | ending a drag always clears the lifted card and emits no task update |
| TaskDrawer.Get | types.ts:34-45 | reading a field yields a value for that field |
| TaskDrawer.FieldsDetermineTask | types.ts:34-45 | two tasks equal on every field are equal |
| TaskDrawer.UpdateField | components/TaskDrawer.tsx:94-96 | the named field holds the new value and every other field is unchanged |
| TaskDrawer.UpdateWithSameValue | components/TaskDrawer.tsx:94-96 | writing back a field's current value gives the same task |
| TaskDrawer.SelectProject | components/TaskDrawer.tsx:193-194 | the "No Project" option clears the project, any other sets it; nothing else changes |
| TaskDrawer.AddSubTask | components/TaskDrawer.tsx:98-115 | blank text, or a date whose ISO conversion throws, leaves the task and the form alone; otherwise exactly one uncompleted sub-task with the trimmed text, chosen priority and converted date is appended after the existing ones (an absent list counts as empty), nothing else in the task changes, and the form resets |
| TaskDrawer.AddThenRemoveSubTask | components/TaskDrawer.tsx:98-121 | removing a sub-task just added under a fresh id restores the sub-task list |
| TaskDrawer.RemoveSubTask | components/TaskDrawer.tsx:117-121 | no sub-task with the id remains; the others keep their order and multiplicity; nothing else changes |
| TaskDrawer.MapMatching | components/TaskDrawer.tsx:126-128 | same length; matching sub-tasks are transformed and the others kept |
| TaskDrawer.ToggleSubTask | components/TaskDrawer.tsx:123-130 | same length; a sub-task's completion flips iff its id matches, and no other field changes |
| TaskDrawer.ToggleTwice | components/TaskDrawer.tsx:123-130 | toggling twice restores the sub-task list |
| TaskDrawer.SetSubTaskPriority | components/TaskDrawer.tsx:132-138 | only the priority of matching sub-tasks changes, to the chosen one |
| TaskDrawer.SetSubTaskDueDate | components/TaskDrawer.tsx:140-146 | no update is issued exactly when some sub-task matches and the date's ISO conversion throws; otherwise only the due date of matching sub-tasks changes, to the converted date |
| TaskDrawer.SetSameValueIsNoOp | components/TaskDrawer.tsx:132-146 | setting the priority, or a date converting to the due date every matching sub-task already has, issues an update that leaves the sub-task list unchanged |
| TaskDrawer.Refine | components/TaskDrawer.tsx:61-83 | an empty title or no reply emits nothing; otherwise description and priority come from the reply, the sub-tasks are one uncompleted medium-priority sub-task per suggestion in order, each with its own fresh id and its own clock reading, and no other field changes |
| TaskDrawer.Summarise | components/TaskDrawer.tsx:85-92 | an update is emitted iff the summary is present and non-empty, and it only sets the summary |
| TaskDrawer.SubTaskPriorityStyle | components/TaskDrawer.tsx:148-156 | a completed sub-task gets the muted style whatever its priority; an open one gets the red, amber or blue style of its high, medium or low priority |
| TaskDrawer.SubTaskStylesDistinguishPriority | components/TaskDrawer.tsx:150-153 | open sub-tasks of different priorities get different styles |
| TaskTable.FindColumn | components/TaskTable.tsx:24 | the column found is the first with the id; none found iff no column has it |
| TaskTable.FindProject | components/TaskTable.tsx:56 | the project found is the first matching the task's project; none found iff none matches (always so without a project) |
| TaskTable.StatusStyle | components/TaskTable.tsx:23-32 | a status without a column gets the neutral style, even "done"; found "done", "in-progress", "todo" get their own styles; any other found status gets the custom-column style |
| TaskTable.StatusStylesObservable | components/TaskTable.tsx:25-31 | the missing-column style equals the todo style; done, in-progress and custom styles differ from it and from each other |
| TaskTable.PriorityStyle | components/TaskTable.tsx:14-21 | high, medium and low get their styles; any other value gets the neutral style |
| TaskTable.PriorityStylesDistinct | components/TaskTable.tsx:14-21 | the three priorities get three different styles, none of them the default |
| TaskTable.StatusLabel | components/TaskTable.tsx:57 | the label is the found column's title when non-empty, and the raw status id when the column's title is empty or no column has the id |
| TaskTable.StatusLabelByIndex | components/TaskTable.tsx:57 | read by index, the label is the first matching column's title when non-empty, else the status id |
| TaskTable.ProjectCellOf | components/TaskTable.tsx:75-81 | a found project shows as a chip of its name and colour; "No project" shows iff no project matches |
| TaskTable.ProjectCellByIndex | components/TaskTable.tsx:75-81 | read by index, the cell is the chip of the first project carrying the task's project id |
| Sidebar.NavItems | components/Sidebar.tsx:125-180 | the items are "all", the three statuses, then one per project in order |
| Sidebar.AtMostOneActive | components/Sidebar.tsx:38-40 | an item is highlighted iff its type and value equal the filter's; with distinct project ids no two items are highlighted at once, and a clicked item is highlighted |
| Sidebar.ResetForm | components/Sidebar.tsx:91-97 | the modal closes with no editing id, an empty name, colour #3B82F6 and the delete confirmation hidden |
| Sidebar.SaveProject | components/Sidebar.tsx:78-89 | a name blank after trimming issues nothing and changes nothing; otherwise exactly one command, an update of the editing id iff an edit is under way, else an add, carrying the name as typed and the colour, and the modal resets |
| Sidebar.StartEdit | components/Sidebar.tsx:99-105 | the modal opens with the project's id, name and colour |
| Sidebar.ConfirmDelete | components/Sidebar.tsx:107-112 | with an edit under way the project is deleted and the modal resets; otherwise nothing happens |
| Sidebar.Dispatch | App.tsx:142-144 | a sidebar command never touches the selection or query; add appends exactly the new project; update rewrites only the matching projects' name and colour; delete removes the project, clears its tasks' project (keeping every task) and resets a filter on it to "all" |
| Sidebar.EditUnchangedIsNoOp | components/Sidebar.tsx:78-105 | opening a project and saving it unchanged leaves the application state as it was |
| Sidebar.EditThenDeleteRemoves | components/Sidebar.tsx:107-112 | editing a project and confirming deletion removes it, clears the project of exactly its tasks (every task kept, the others unchanged) and resets a filter on it |
| Onboarding.InitialValid | components/OnboardingFlow.tsx:12-19 | the initial state is valid: step 1, no workspace, an empty invite list |
| Onboarding.DefaultColumns | components/OnboardingFlow.tsx:38-40 | three columns "To Do", "In Progress", "Done" with their colours, all default, all in the new workspace |
| Onboarding.CreateWorkspace | components/OnboardingFlow.tsx:24-49 | a name blank after trimming writes nothing and changes nothing; otherwise the transaction writes the workspace with the trimmed name owned by the user plus the three default columns; the flow moves to step 2 and records the id only when it commits |
| Onboarding.CreatePreservesValid | components/OnboardingFlow.tsx:42-43 | workspace creation keeps the flow valid (step 2 exactly when a workspace is recorded) |
| Onboarding.TypeEmail | components/OnboardingFlow.tsx:179 | typing sets the e-mail field and changes nothing else |
| Onboarding.AddEmail | components/OnboardingFlow.tsx:51-56 | the typed address is appended and the field cleared iff it is non-empty, contains '@' and is not listed; otherwise nothing changes |
| Onboarding.RemoveEmail | components/OnboardingFlow.tsx:201 | the address is gone, every other address stays listed iff it was, order is preserved, nothing else changes |
| Onboarding.TypeAddRemovePreserveValid | components/OnboardingFlow.tsx:51-56 | typing, adding and removing keep the invite list duplicate-free with only acceptable addresses |
| Seqs.FilterNoDuplicates | components/OnboardingFlow.tsx:201 | filtering a duplicate-free list keeps it duplicate-free |
| Onboarding.AddThenRemove | components/OnboardingFlow.tsx:201 | removing an address just added restores the list |
| Onboarding.Invitations | components/OnboardingFlow.tsx:64-72 | one pending invitation per address, in order, to the created workspace from the inviter |
| Onboarding.Finish | components/OnboardingFlow.tsx:58-84 | no workspace means nothing happens; otherwise a transaction is issued iff the list is non-empty, and the flow completes with the workspace id iff the list is empty or the transaction commits |
| Onboarding.FinishInvitesList | components/OnboardingFlow.tsx:64-76 | the invitations address exactly the listed e-mails, in order, once each, all pending and to the created workspace |
| Onboarding.FinishNeedsStepTwo | components/OnboardingFlow.tsx:59 | in a valid state at step 1 finishing does nothing |
| Invite.ViewOf | components/InviteAcceptancePage.tsx:51-76 | while loading a spinner; otherwise the offer is shown iff the invitation exists, is not accepted and is addressed to exactly the user's e-mail, else "invalid" |
| Invite.Accept | components/InviteAcceptancePage.tsx:33-49 | nothing happens unless invitation and workspace are both loaded; otherwise the invitation is written with status "accepted"; completion with its workspace id happens iff the write commits; a failure sets its message, or the fixed fallback when that is empty |
| Invite.Press | components/InviteAcceptancePage.tsx:94-97 | the accept button acts only on the offer view |
| Invite.AcceptChangesOnlyStatus | components/InviteAcceptancePage.tsx:40-42 | the written invitation differs from the loaded one in its status alone |
| Invite.AcceptedNeverReaccepted | components/InviteAcceptancePage.tsx:63 | the accepted invitation is shown as invalid, so pressing accept on it writes nothing |
| Invite.FailureShowsError | components/InviteAcceptancePage.tsx:44-46 | a failed accept never completes and always shows a non-empty error |
| Gemini.ParsePriority | services/gemini.ts:35-38 | a parsed enum value is kept; anything else becomes medium |
| Gemini.PriorityRoundTrip | services/gemini.ts:36-38 | every priority survives conversion to its string value and back |
| Gemini.NormaliseReply | services/gemini.ts:32-48 | a response is returned iff the call answered with a non-empty text whose trimmed form parses to a non-null value; its description is the parsed one or "", its priority is normalised, its sub-tasks are the parsed list or empty |
| Gemini.Summary | services/gemini.ts:65-69 | a summary is returned iff the call answered with a text that is not all whitespace; it is the trimmed reply, so non-empty, already trimmed, and occurring in the reply |
| Gemini.SummaryAlwaysApplies | components/TaskDrawer.tsx:85-92 | a reply that is not all whitespace yields a summary, and it always updates the task's summary to it |
| Gemini.RefineUsesNormalisedReply | components/TaskDrawer.tsx:61-79 | refining a titled task with an accepted reply updates the task, with medium priority when the parsed one is not in the enum and one sub-task per suggestion |

`App.MatchesNav`, `App.MatchesSearch`, `Sidebar.IsActive`,
`Sidebar.IsEditing`, `Onboarding.HasWorkspace`, `Invite.IsValidInvite` and
`TaskTable.StruckThrough` are predicates that state the source's conditions
directly (`App.tsx:121-129`, `components/Sidebar.tsx:40`,
`components/Sidebar.tsx:82`, `components/OnboardingFlow.tsx:59`,
`components/InviteAcceptancePage.tsx:63`, `components/TaskTable.tsx:68`).
The members in the table above state their consequences.

## Left out

- Rendering, CSS beyond the badge classifiers, modal visibility plumbing,
  `autoFocus` and icon/colour pickers: presentation only.
- `isLoading`, `isRefining` and `isSummarizing` flags, React state batching
  and the ordering of asynchronous handlers: each handler is modelled as one
  atomic step.
- `playClickSound` (Web Audio with floating-point ramps): a side effect with
  no effect on the data.
- InstantDB queries, `db.transact` and authentication: external. A
  transaction is an outcome parameter and its records are returned as data.
  The database query results of the invitation page are parameters.
- The Gemini API call and `JSON.parse`: external, and passed in as parameters.
  A parsed field holding a non-string truthy value (say a number as the
  description) is modelled as absent.
- Date conversions (`toISOString`, `split('T')`, `new Date(dueDate)`):
  dates are opaque strings; which strings convert, and to what, is left to
  the `toIso` parameter, and only its failure (`None`) is given a meaning.
- Random id generation: ids are parameters, and nothing is assumed about
  their freshness except where a lemma states it.
- dnd-kit sensors, collision detection and the drag overlay: library-owned
  geometry. The board receives `onReorderTasks` (`App.tsx:214`) but never
  declares or calls it, so a same-column reorder on the board is not
  modelled.
- `components/SettingsPage.tsx` and `components/AuthPage.tsx`: field
  copying and thin wrappers around external calls.
- `toLowerCase` is an uninterpreted parameter, so no Unicode case
  mapping is modelled.
- The `workspaceId` reference on tasks and projects: the shown handlers
  never read or set it.
- TaskDrawer.SubTaskPriorityStyle: the source's `default` branch
  (`components/TaskDrawer.tsx:154`) cannot be reached with the three-valued
  priority type, so it has no counterpart.
- Kanban.CardPriorityStyle: the card's `default` branch is likewise
  unreachable for an enum priority, so the contract covers only the three
  priorities.
