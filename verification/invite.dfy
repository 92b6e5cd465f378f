/** The invitation page: which invitations it offers for acceptance, and
    what accepting one writes and signals. The database queries' results and
    the transaction's outcome are parameters. */
module Invite {
  import opened Wrappers
  import opened Types

  /** An invitation is offered when it exists, has not been accepted, and is
      addressed to exactly the signed-in user's e-mail (case-sensitive). */
  predicate IsValidInvite(invite: Option<Invitation>, userEmail: string) {
    invite.Some? && invite.value.status != Accepted && invite.value.email == userEmail
  }

  /** What the page shows: a spinner while the invitation query loads, the
      "invalid" notice, or the acceptance offer. */
  datatype View = Loading | Invalid | Offer(invite: Invitation)

  function ViewOf(queryLoading: bool, invite: Option<Invitation>, userEmail: string): (r: View)
    ensures queryLoading ==> r == Loading
    ensures !queryLoading ==> (r.Offer? <==> IsValidInvite(invite, userEmail))
    ensures r.Offer? ==> invite == Some(r.invite)
    ensures r.Invalid? <==> !queryLoading && !IsValidInvite(invite, userEmail)
  {
    if queryLoading then Loading
    else if invite.None? || invite.value.status == Accepted || invite.value.email != userEmail then Invalid
    else Offer(invite.value)
  }

  const FallbackError := "Failed to accept invitation."

  /** The result of pressing "accept": the invitation record written (if a
      write is attempted), the workspace id the page completes with (on
      success), and the error message it shows. */
  datatype AcceptStep = AcceptStep(write: Option<Invitation>, completed: Option<Id>, error: Option<string>)

  /** Accepting does nothing unless both the invitation and its workspace
      have loaded. Otherwise it writes the invitation with its status set to
      "accepted"; on success the page completes with the invitation's
      workspace, and on failure it shows the failure's message, or a fixed
      text when that message is empty, and does not complete. */
  function Accept(error: Option<string>, invite: Option<Invitation>, workspace: Option<Workspace>, outcome: TxOutcome): (r: AcceptStep)
    ensures invite.None? || workspace.None? ==> r == AcceptStep(None, None, error)
    ensures invite.Some? && workspace.Some? ==> r.write == Some(invite.value.(status := Accepted))
    ensures r.completed.Some? <==> r.write.Some? && outcome.Committed?
    ensures r.completed.Some? ==> r.completed.value == invite.value.workspaceId && r.error == error
    ensures r.write.Some? && outcome.Rejected? ==>
      r.error == Some(if outcome.message != "" then outcome.message else FallbackError)
    ensures r.error.Some? ==> r.error.value != "" || error == r.error
  {
    if invite.None? || workspace.None? then AcceptStep(None, None, error)
    else
      var written := invite.value.(status := Accepted);
      match outcome
      case Committed => AcceptStep(Some(written), Some(invite.value.workspaceId), error)
      case Rejected(message) =>
        AcceptStep(Some(written), None, Some(if message != "" then message else FallbackError))
  }

  /** The accept button exists only on the offer: pressing it anywhere else
      does nothing. */
  function Press(view: View, error: Option<string>, invite: Option<Invitation>, workspace: Option<Workspace>, outcome: TxOutcome): (r: AcceptStep)
    ensures !view.Offer? ==> r == AcceptStep(None, None, error)
    ensures view.Offer? ==> r == Accept(error, invite, workspace, outcome)
  {
    if view.Offer? then Accept(error, invite, workspace, outcome) else AcceptStep(None, None, error)
  }

  /** Accepting changes the invitation's status and nothing else about it. */
  lemma AcceptChangesOnlyStatus(error: Option<string>, invite: Option<Invitation>, workspace: Option<Workspace>, outcome: TxOutcome)
    requires Accept(error, invite, workspace, outcome).write.Some?
    ensures var w := Accept(error, invite, workspace, outcome).write.value;
      w.status == Accepted && w.(status := invite.value.status) == invite.value
  {
  }

  /** Once written, an accepted invitation is never offered again, so the
      page can never accept it twice. */
  lemma AcceptedNeverReaccepted(error: Option<string>, invite: Option<Invitation>, workspace: Option<Workspace>, outcome: TxOutcome,
                                userEmail: string, error2: Option<string>, workspace2: Option<Workspace>, outcome2: TxOutcome)
    requires Accept(error, invite, workspace, outcome).write.Some?
    ensures var stored := Accept(error, invite, workspace, outcome).write;
      && ViewOf(false, stored, userEmail) == Invalid
      && Press(ViewOf(false, stored, userEmail), error2, stored, workspace2, outcome2).write.None?
  {
  }

  /** A failed acceptance always leaves a non-empty error on the page. */
  lemma FailureShowsError(error: Option<string>, invite: Option<Invitation>, workspace: Option<Workspace>, message: string)
    requires invite.Some? && workspace.Some?
    ensures var r := Accept(error, invite, workspace, Rejected(message));
      r.completed.None? && r.error.Some? && r.error.value != ""
  {
  }
}
