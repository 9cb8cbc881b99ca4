/** The four route guards of `middleware/auth.js`. Each decides from the session
    user alone whether the request goes on to the next handler; otherwise it
    redirects, and three of them leave an error message in the session. */
module Guards {
  import opened Wrappers
  import opened Http
  import Users

  datatype Decision = Pass | Deny(redirectTo: string, message: Option<string>)

  const LoginRequiredMsg: string := "Please log in to access this page"
  const AdminOnlyMsg: string := "Access denied. Admin only."
  const PendingApprovalMsg: string := "Your account is pending approval"

  /** `isAuthenticated`: passes iff someone is logged in; otherwise to the login page. */
  function AuthenticatedDecision(u: Option<SessionUser>): (d: Decision)
    ensures d.Pass? <==> u.Some?
    ensures d.Deny? ==> d.redirectTo == "/auth/login" && d.message == Some(LoginRequiredMsg)
  {
    if u.Some? then Pass else Deny("/auth/login", Some(LoginRequiredMsg))
  }

  /** `isAdmin`: passes iff the session user is an admin; otherwise to `/`. */
  function AdminDecision(u: Option<SessionUser>): (d: Decision)
    ensures d.Pass? <==> u.Some? && u.value.role == Users.Admin
    ensures d.Deny? ==> d.redirectTo == "/" && d.message == Some(AdminOnlyMsg)
  {
    if u.Some? && u.value.role == Users.Admin then Pass else Deny("/", Some(AdminOnlyMsg))
  }

  /** `isApproved`: passes iff the session user's status is approved; otherwise to `/`. */
  function ApprovedDecision(u: Option<SessionUser>): (d: Decision)
    ensures d.Pass? <==> u.Some? && u.value.status == Users.Approved
    ensures d.Deny? ==> d.redirectTo == "/" && d.message == Some(PendingApprovalMsg)
  {
    if u.Some? && u.value.status == Users.Approved then Pass else Deny("/", Some(PendingApprovalMsg))
  }

  /** `isGuest`: passes iff nobody is logged in; otherwise to `/` with no message. */
  function GuestDecision(u: Option<SessionUser>): (d: Decision)
    ensures d.Pass? <==> u.None?
    ensures d.Deny? ==> d.redirectTo == "/" && d.message.None?
  {
    if u.None? then Pass else Deny("/", None)
  }

  /** The guest guard passes exactly when the authentication guard refuses, and the
      admin and approval guards pass only for a logged-in user. */
  lemma {:induction false} GuardsRelate(u: Option<SessionUser>)
    ensures GuestDecision(u).Pass? <==> AuthenticatedDecision(u).Deny?
    ensures AdminDecision(u).Pass? ==> AuthenticatedDecision(u).Pass?
    ensures ApprovedDecision(u).Pass? ==> AuthenticatedDecision(u).Pass?
  {
  }

  /** Carries out a decision: `next()` on a pass; on a refusal, the message (if any)
      is written to the session and the caller redirects. Nothing else changes. */
  method Apply(s: Session, d: Decision) returns (resp: Option<Response>)
    modifies s`errorMsg
    ensures d.Pass? ==> resp.None? && s.errorMsg == old(s.errorMsg)
    ensures d.Deny? ==> resp == Some(Redirect(d.redirectTo))
    ensures d.Deny? && d.message.Some? ==> s.errorMsg == d.message
    ensures d.Deny? && d.message.None? ==> s.errorMsg == old(s.errorMsg)
  {
    if d.Pass? {
      return None;
    }
    if d.message.Some? {
      s.errorMsg := d.message;
    }
    resp := Some(Redirect(d.redirectTo));
  }
}
