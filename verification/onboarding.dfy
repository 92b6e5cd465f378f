/** The two-step onboarding flow: step 1 creates a workspace with its three
    default kanban columns; step 2 collects a duplicate-free list of e-mail
    addresses and, on finish, invites them. The database transaction's
    outcome is a parameter. */
module Onboarding {
  import opened Wrappers
  import opened Types
  import Seqs
  import Text

  /** The flow's state: the step (1 or 2), the workspace form, the invite
      list and its input field, and the id of the created workspace. */
  datatype OnboardingState = OnboardingState(
    step: nat,
    workspaceName: string,
    icon: string,
    color: string,
    invited: seq<string>,
    currentEmail: string,
    createdId: Option<Id>)

  const DefaultIcon := "🏠"
  const DefaultColor := "#3B82F6"

  const InitialState := OnboardingState(1, "", DefaultIcon, DefaultColor, [], "", None)

  /** An address the invite list accepts: non-empty and containing '@'. */
  predicate Acceptable(email: string) {
    email != "" && '@' in email
  }

  /** What holds of every reachable state: the step is 1 or 2 and is 2
      exactly when a workspace has been created; the invite list holds only
      acceptable addresses, each once. */
  predicate Valid(s: OnboardingState) {
    && (s.step == 1 || s.step == 2)
    && (s.step == 2 <==> s.createdId.Some?)
    && Seqs.NoDuplicates(s.invited)
    && (forall e :: e in s.invited ==> Acceptable(e))
  }

  lemma InitialValid()
    ensures Valid(InitialState)
  {
  }

  // ---------------------------------------------------------------------------
  // Step 1: create the workspace

  /** The records a workspace creation writes, in one transaction. */
  datatype WorkspaceTx = WorkspaceTx(workspace: Workspace, columns: seq<KanbanColumn>)

  datatype CreateStep = CreateStep(state: OnboardingState, tx: Option<WorkspaceTx>)

  /** The three default columns of a new workspace. */
  function DefaultColumns(wsId: Id, colIds: (Id, Id, Id)): (r: seq<KanbanColumn>)
    ensures |r| == 3
    ensures r[0].title == "To Do" && r[1].title == "In Progress" && r[2].title == "Done"
    ensures r[0].color == "#94A3B8" && r[1].color == "#3B82F6" && r[2].color == "#10B981"
    ensures r[0].id == colIds.0 && r[1].id == colIds.1 && r[2].id == colIds.2
    ensures forall c :: c in r ==> c.isDefault && c.workspaceId == wsId
  {
    [ KanbanColumn(colIds.0, "To Do", "#94A3B8", true, wsId),
      KanbanColumn(colIds.1, "In Progress", "#3B82F6", true, wsId),
      KanbanColumn(colIds.2, "Done", "#10B981", true, wsId) ]
  }

  /** Submit step 1. A name that is blank after trimming does nothing and
      writes nothing. Otherwise one transaction writes the workspace (the
      trimmed name, the chosen icon and colour, owned by the user) and the
      three default columns, all under the fresh id `wsId`; only when it
      commits does the flow record the id and move to step 2. */
  function CreateWorkspace(s: OnboardingState, userId: Id, wsId: Id, colIds: (Id, Id, Id), outcome: TxOutcome): (r: CreateStep)
    ensures Text.Trim(s.workspaceName) == "" ==> r == CreateStep(s, None)
    ensures Text.Trim(s.workspaceName) != "" ==>
      && r.tx.Some?
      && r.tx.value.workspace == Workspace(wsId, Text.Trim(s.workspaceName), s.icon, s.color, userId)
      && r.tx.value.columns == DefaultColumns(wsId, colIds)
    ensures r.state != s ==> r.tx.Some? && outcome.Committed?
    ensures r.tx.Some? && outcome.Committed? ==> r.state == s.(step := 2, createdId := Some(wsId))
  {
    var name := Text.Trim(s.workspaceName);
    if name == "" then CreateStep(s, None)
    else
      var tx := WorkspaceTx(Workspace(wsId, name, s.icon, s.color, userId), DefaultColumns(wsId, colIds));
      if outcome.Committed? then CreateStep(s.(step := 2, createdId := Some(wsId)), Some(tx))
      else CreateStep(s, Some(tx))
  }

  lemma CreatePreservesValid(s: OnboardingState, userId: Id, wsId: Id, colIds: (Id, Id, Id), outcome: TxOutcome)
    requires Valid(s)
    ensures Valid(CreateWorkspace(s, userId, wsId, colIds, outcome).state)
  {
  }

  // ---------------------------------------------------------------------------
  // Step 2: the invite list

  /** Typing into the e-mail field. */
  function TypeEmail(s: OnboardingState, text: string): (r: OnboardingState)
    ensures r.currentEmail == text
    ensures r.(currentEmail := s.currentEmail) == s
  {
    s.(currentEmail := text)
  }

  /** Add the typed address: when it is acceptable and not yet listed it is
      appended and the field cleared; otherwise nothing changes. */
  function AddEmail(s: OnboardingState): (r: OnboardingState)
    ensures Acceptable(s.currentEmail) && s.currentEmail !in s.invited ==>
      r == s.(invited := s.invited + [s.currentEmail], currentEmail := "")
    ensures !(Acceptable(s.currentEmail) && s.currentEmail !in s.invited) ==> r == s
  {
    if s.currentEmail != "" && '@' in s.currentEmail && s.currentEmail !in s.invited then
      s.(invited := s.invited + [s.currentEmail], currentEmail := "")
    else s
  }

  /** Remove every listed copy of an address; the others keep their order. */
  function RemoveEmail(s: OnboardingState, email: string): (r: OnboardingState)
    ensures email !in r.invited
    ensures forall e :: e != email ==> (e in r.invited <==> e in s.invited)
    ensures Seqs.IsSubseq(r.invited, s.invited)
    ensures r == s.(invited := r.invited)
  {
    s.(invited := Seqs.Filter((e: string) => e != email, s.invited))
  }

  lemma {:induction false} TypeAddRemovePreserveValid(s: OnboardingState, text: string, email: string)
    requires Valid(s)
    ensures Valid(TypeEmail(s, text))
    ensures Valid(AddEmail(s))
    ensures Valid(RemoveEmail(s, email))
  {
    var a := AddEmail(s);
    if a != s {
      forall i, j | 0 <= i < j < |a.invited| ensures a.invited[i] != a.invited[j] {
        if j == |s.invited| {
          assert a.invited[i] == s.invited[i];
          assert s.invited[i] in s.invited;
        }
      }
    }
    Seqs.FilterNoDuplicates((e: string) => e != email, s.invited);
  }

  /** Removing an address just added restores the list as it was. */
  lemma AddThenRemove(s: OnboardingState)
    requires Valid(s)
    requires AddEmail(s) != s
    ensures RemoveEmail(AddEmail(s), s.currentEmail).invited == s.invited
  {
    var e := s.currentEmail;
    var p := (x: string) => x != e;
    assert forall i :: 0 <= i < |s.invited| ==> p(s.invited[i]);
    Seqs.FilterDropsLast(p, s.invited, e);
  }

  // ---------------------------------------------------------------------------
  // Finish

  datatype FinishStep = FinishStep(tx: Option<seq<Invitation>>, completed: Option<Id>)

  /** `if (!createdWorkspaceId)`: a workspace id is recorded and non-empty. */
  predicate HasWorkspace(s: OnboardingState) {
    s.createdId.Some? && s.createdId.value != ""
  }

  /** One pending invitation per listed address, in list order, each to the
      created workspace from the user; `ids` and `stamps` are the fresh ids
      and creation times. */
  function Invitations(emails: seq<string>, wsId: Id, userEmail: string, ids: seq<Id>, stamps: seq<string>): (r: seq<Invitation>)
    requires |ids| == |emails| && |stamps| == |emails|
    ensures |r| == |emails|
    ensures forall i :: 0 <= i < |r| ==> r[i] == Invitation(ids[i], emails[i], wsId, userEmail, Pending, stamps[i])
  {
    seq(|emails|, i requires 0 <= i < |emails| => Invitation(ids[i], emails[i], wsId, userEmail, Pending, stamps[i]))
  }

  /** Finish step 2. Without a created workspace nothing happens. Otherwise
      an empty list writes nothing and completes at once; a non-empty list is
      written as invitations in one transaction, and the flow completes with
      the workspace id only when it commits. */
  function Finish(s: OnboardingState, userEmail: string, ids: seq<Id>, stamps: seq<string>, outcome: TxOutcome): (r: FinishStep)
    requires |ids| == |s.invited| && |stamps| == |s.invited|
    ensures !HasWorkspace(s) ==> r == FinishStep(None, None)
    ensures HasWorkspace(s) ==>
      && (r.tx.Some? <==> |s.invited| > 0)
      && (r.tx.Some? ==> r.tx.value == Invitations(s.invited, s.createdId.value, userEmail, ids, stamps))
      && (r.completed.Some? <==> |s.invited| == 0 || outcome.Committed?)
      && (r.completed.Some? ==> r.completed.value == s.createdId.value)
  {
    if !HasWorkspace(s) then FinishStep(None, None)
    else
      var wsId := s.createdId.value;
      if |s.invited| == 0 then FinishStep(None, Some(wsId))
      else
        var invs := Invitations(s.invited, wsId, userEmail, ids, stamps);
        FinishStep(Some(invs), if outcome.Committed? then Some(wsId) else None)
  }

  /** The invitations address exactly the listed e-mails, in order, once
      each, and all are pending. */
  lemma FinishInvitesList(s: OnboardingState, userEmail: string, ids: seq<Id>, stamps: seq<string>, outcome: TxOutcome)
    requires Valid(s) && HasWorkspace(s) && |s.invited| > 0
    requires |ids| == |s.invited| && |stamps| == |s.invited|
    ensures var invs := Finish(s, userEmail, ids, stamps, outcome).tx.value;
      && Seqs.Map((inv: Invitation) => inv.email, invs) == s.invited
      && Seqs.NoDuplicates(Seqs.Map((inv: Invitation) => inv.email, invs))
      && (forall inv :: inv in invs ==> inv.status == Pending && inv.workspaceId == s.createdId.value)
  {
  }

  /** In a reachable state, finishing does something exactly in step 2. */
  lemma FinishNeedsStepTwo(s: OnboardingState, userEmail: string, ids: seq<Id>, stamps: seq<string>, outcome: TxOutcome)
    requires Valid(s)
    requires |ids| == |s.invited| && |stamps| == |s.invited|
    requires s.step == 1
    ensures Finish(s, userEmail, ids, stamps, outcome) == FinishStep(None, None)
  {
  }
}
