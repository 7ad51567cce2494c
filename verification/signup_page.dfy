/**
 * The sign-up form's submit handler: two checks on the typed passwords,
 * then the session's `signup`, whose rejection message becomes the error
 * shown, and on success a redirect to the dashboards.
 */
module SignupPage {
  import opened Wrappers
  import opened Auth

  const PasswordsDoNotMatch: string := "Passwords do not match"
  const PasswordTooShort: string := "Password must be at least 6 characters"

  /** The form's fields and the error line under it. */
  datatype SignupForm = SignupForm(email: string, password: string, confirmPassword: string, error: string)

  /** What one submit leaves behind: the form, the session, and whether the page navigated away. */
  datatype Submitted = Submitted(form: SignupForm, auth: AuthState, redirected: bool, signupCalled: bool)

  /** `handleSubmit`: the error is cleared first, then each check may set it and stop. */
  function HandleSubmit(form: SignupForm, auth: AuthState): (r: Submitted)
    ensures r.form == form.(error := r.form.error)
    ensures form.password != form.confirmPassword ==>
      r == Submitted(form.(error := PasswordsDoNotMatch), auth, false, false)
    ensures form.password == form.confirmPassword && |form.password| < MinPasswordLength ==>
      r == Submitted(form.(error := PasswordTooShort), auth, false, false)
    ensures r.signupCalled <==> form.password == form.confirmPassword && |form.password| >= MinPasswordLength
    ensures r.signupCalled ==> r.auth == Signup(auth, form.email, form.password).state
    ensures r.redirected <==> r.signupCalled && form.email != ""
    ensures r.redirected <==> r.form.error == ""
  {
    var cleared := form.(error := "");
    if form.password != form.confirmPassword then
      Submitted(cleared.(error := PasswordsDoNotMatch), auth, false, false)
    else if |form.password| < MinPasswordLength then
      Submitted(cleared.(error := PasswordTooShort), auth, false, false)
    else
      var step := Signup(auth, form.email, form.password);
      match step.outcome
      case Resolved => Submitted(cleared, step.state, true, true)
      case Rejected(message) => Submitted(cleared.(error := message), step.state, false, true)
  }

  /** The error a submit shows never depends on the error shown before it. */
  lemma PreviousErrorIsForgotten(form: SignupForm, auth: AuthState, earlier: string)
    ensures HandleSubmit(form, auth).form == HandleSubmit(form.(error := earlier), auth).form
  {
  }

  /** A mismatch is reported even when the password is also too short: the mismatch check comes first. */
  lemma MismatchReportedBeforeLength(form: SignupForm, auth: AuthState)
    requires form.password != form.confirmPassword && |form.password| < MinPasswordLength
    ensures HandleSubmit(form, auth).form.error == PasswordsDoNotMatch
    ensures !HandleSubmit(form, auth).signupCalled && HandleSubmit(form, auth).auth == auth
  {
  }

  /**
   * Past the page's own checks, the session's length rule always holds:
   * the only way `signup` can still reject is an empty email, and its
   * message is what the page shows.
   */
  lemma PageChecksCoverPasswordRule(form: SignupForm, auth: AuthState)
    requires form.password == form.confirmPassword && |form.password| >= MinPasswordLength
    ensures Signup(auth, form.email, form.password).outcome.Rejected? <==> form.email == ""
    ensures form.email == "" ==> HandleSubmit(form, auth).form.error == InvalidEmailOrPassword
    ensures form.email != "" ==> HandleSubmit(form, auth).auth.user == Some(AuthUser(form.email, User))
  {
  }
}
