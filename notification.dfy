/** The e-mail notice the review and contact endpoints send after storing a
    row. The transport itself is outside the model: whether a send goes
    through is a parameter. */
module Notification {
  import opened Common

  /** `SMTP_USER` and `SMTP_PASS` from the environment. */
  datatype SmtpEnv = SmtpEnv(user: Option<string>, pass: Option<string>)

  /** The development account that stands for "not configured". */
  const PlaceholderUser := "desarrollo@asistehealthcare.com"

  /** `hasValidSMTP`: both variables set and non-empty, and the user is not
      the placeholder. */
  predicate HasValidSmtp(env: SmtpEnv) {
    Truthy(env.user) && Truthy(env.pass) && env.user.value != PlaceholderUser
  }

  datatype MailOutcome = NotAttempted | Sent | SendFailed

  /** The send, attempted only with a valid configuration; a failure is
      caught and only logged. */
  function Notify(env: SmtpEnv, delivered: bool): (r: MailOutcome)
    ensures r.NotAttempted? <==> !HasValidSmtp(env)
    ensures r.Sent? <==> HasValidSmtp(env) && delivered
  {
    if !HasValidSmtp(env) then NotAttempted
    else if delivered then Sent
    else SendFailed
  }
}
