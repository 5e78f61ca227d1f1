/** The two route guards: the approval gate in front of every member page and
    the admin gate in front of the admin pages. */
module Middleware {
  import opened Wrappers
  import opened Forms
  import UserModel

  /** What a guard does with a request: redirect (optionally flashing a message
      and logging the user out first), or pass it on to the next handler. */
  datatype GateOutcome = Redirect(path: string, flash: Option<Flash>, logout: bool) | Next

  const REJECTED_MESSAGE := "Your registration has been rejected."
  const FORBIDDEN_MESSAGE := "You do not have permission to access this page."

  /** `ApprovedMiddleware.handle`. */
  function Approved(user: Option<UserModel.User>): (r: GateOutcome)
    ensures user.None? ==> r == Redirect("/login", None, false)
    ensures user.Some? && UserModel.IsPending(user.value) ==> r == Redirect("/pending-approval", None, false)
    ensures user.Some? && UserModel.IsRejected(user.value) ==>
      r == Redirect("/login", Some(Flash(FlashError, REJECTED_MESSAGE)), true)
    ensures r.Next? <==> user.Some? && !UserModel.IsPending(user.value) && !UserModel.IsRejected(user.value)
    ensures r.Redirect? && r.logout ==> user.Some? && UserModel.IsRejected(user.value)
  {
    if user.None? then Redirect("/login", None, false)
    else if UserModel.IsPending(user.value) then Redirect("/pending-approval", None, false)
    else if UserModel.IsRejected(user.value) then Redirect("/login", Some(Flash(FlashError, REJECTED_MESSAGE)), true)
    else Next
  }

  /** For the three approval states the app stores, only an approved user is let through. */
  lemma OnlyApprovedPass(u: UserModel.User)
    requires u.approvalStatus in {"approved", "pending", "rejected"}
    ensures Approved(Some(u)).Next? <==> UserModel.IsApproved(u)
  {
    UserModel.ApprovalGettersExclusive(u);
  }

  /** A rejected user is logged out, so the next request, which has no user,
      is sent to the login page again. */
  lemma RejectedStaysOut(u: UserModel.User)
    requires UserModel.IsRejected(u)
    ensures Approved(Some(u)).logout
    ensures Approved(None) == Redirect("/login", None, false)
  {
  }

  /** `AdminMiddleware.handle`. */
  function Admin(user: Option<UserModel.User>): (r: GateOutcome)
    ensures r.Next? <==> user.Some? && UserModel.IsAdmin(user.value)
    ensures r.Redirect? ==> r == Redirect("/dashboard", Some(Flash(FlashError, FORBIDDEN_MESSAGE)), false)
  {
    if user.None? || !UserModel.IsAdmin(user.value) then Redirect("/dashboard", Some(Flash(FlashError, FORBIDDEN_MESSAGE)), false)
    else Next
  }
}
