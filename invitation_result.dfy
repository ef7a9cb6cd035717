/** The answer to an invitation: rejected with a reason, accepted, or pending an invitation. */
module InvitationResults {
  import opened Wrappers

  datatype Response = Reject | Accept | Pending

  datatype InvitationResult = InvitationResult(response: Response, invitationId: string, reason: string, extra: Option<string>)

  /** accept(): nothing else to report. */
  function AcceptResult(): InvitationResult {
    InvitationResult(Accept, "", "", None)
  }

  /** accept(extra): accepted, with extra data for the inviter. */
  function AcceptWith(extra: string): InvitationResult {
    InvitationResult(Accept, "", "", Some(extra))
  }

  /** reject(reason). */
  function RejectResult(reason: string): InvitationResult {
    InvitationResult(Reject, "", reason, None)
  }

  /** pending(invitation): the invitee will answer later, referring to this invitation id. */
  function PendingResult(invitationId: string): InvitationResult {
    InvitationResult(Pending, invitationId, "", None)
  }

  /**
   * The three kinds are told apart by their response alone, and each carries
   * only its own field: a reason only when rejected, an id only when pending,
   * extra data only when accepted.
   */
  lemma ResultFieldsByResponse(reason: string, id: string, extra: string)
    ensures RejectResult(reason).response == Reject && RejectResult(reason).reason == reason
    ensures RejectResult(reason).invitationId == "" && RejectResult(reason).extra == None
    ensures PendingResult(id).response == Pending && PendingResult(id).invitationId == id
    ensures PendingResult(id).reason == "" && PendingResult(id).extra == None
    ensures AcceptWith(extra).response == Accept && AcceptWith(extra).extra == Some(extra)
    ensures AcceptResult().extra == None && AcceptResult().invitationId == "" && AcceptResult().reason == ""
    ensures RejectResult(reason) != PendingResult(id) && PendingResult(id) != AcceptWith(extra)
  {
  }
}
