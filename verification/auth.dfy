/**
 * The client-side session: who is signed in and whether a sign-in is in
 * progress. Sign-in accepts literal credentials; nothing is checked
 * against a store. Each call is one transition of the state.
 */
module Auth {
  import opened Wrappers

  datatype Role = Admin | User

  datatype AuthUser = AuthUser(email: string, role: Role)

  datatype AuthState = AuthState(user: Option<AuthUser>, isLoading: bool)

  /** How the returned promise settles: resolved, or rejected with an `Error` carrying a message. */
  datatype Outcome = Resolved | Rejected(message: string)

  datatype Step = Step(state: AuthState, outcome: Outcome)

  const AdminEmail: string := "admin@gmail.com"
  const AdminPassword: string := "admin1234"
  const MinPasswordLength: nat := 6
  const InvalidCredentials: string := "Invalid credentials"
  const InvalidEmailOrPassword: string := "Invalid email or password"

  const InitialAuth: AuthState := AuthState(None, false)

  /** `login(email, password)`; `isLoading` is set for the call and cleared in `finally`. */
  function Login(st: AuthState, email: string, password: string): (r: Step)
    ensures !r.state.isLoading
    ensures r.outcome.Rejected? <==> email == "" || password == ""
    ensures r.outcome.Rejected? ==> r.outcome.message == InvalidCredentials && r.state.user == st.user
    ensures email == AdminEmail && password == AdminPassword ==> r.state.user == Some(AuthUser(email, Admin))
    ensures r.outcome.Resolved? && !(email == AdminEmail && password == AdminPassword) ==>
      r.state.user == Some(AuthUser(email, User))
  {
    if email == AdminEmail && password == AdminPassword then
      Step(AuthState(Some(AuthUser(email, Admin)), false), Resolved)
    else if email != "" && password != "" then
      Step(AuthState(Some(AuthUser(email, User)), false), Resolved)
    else
      Step(st.(isLoading := false), Rejected(InvalidCredentials))
  }

  /** `signup(email, password)`: every new account gets the plain user role. */
  function Signup(st: AuthState, email: string, password: string): (r: Step)
    ensures !r.state.isLoading
    ensures r.outcome.Resolved? <==> email != "" && |password| >= MinPasswordLength
    ensures r.outcome.Resolved? ==> r.state.user == Some(AuthUser(email, User))
    ensures r.outcome.Rejected? ==> r.outcome.message == InvalidEmailOrPassword && r.state.user == st.user
  {
    if email != "" && |password| >= MinPasswordLength then
      Step(AuthState(Some(AuthUser(email, User)), false), Resolved)
    else
      Step(st.(isLoading := false), Rejected(InvalidEmailOrPassword))
  }

  /** `logout()`: signs out, whatever the state. */
  function Logout(st: AuthState): (r: AuthState)
    ensures r.user == None && r.isLoading == st.isLoading
  {
    st.(user := None)
  }

  datatype Action = LogIn(email: string, password: string) | SignUp(email: string, password: string) | LogOut

  function Apply(st: AuthState, act: Action): AuthState
  {
    match act
    case LogIn(e, p) => Login(st, e, p).state
    case SignUp(e, p) => Signup(st, e, p).state
    case LogOut => Logout(st)
  }

  /** The state after performing `acts` in order. */
  function Run(st: AuthState, acts: seq<Action>): AuthState
    decreases |acts|
  {
    if |acts| == 0 then st else Run(Apply(st, acts[0]), acts[1..])
  }

  /** A session a user can observe: never loading, a signed-in user has an email, and only the admin email is ever admin. */
  ghost predicate Consistent(st: AuthState)
  {
    && !st.isLoading
    && (st.user.Some? ==> st.user.value.email != "")
    && (st.user.Some? && st.user.value.role == Admin ==> st.user.value.email == AdminEmail)
  }

  /** Logging out twice is logging out once. */
  lemma LogoutIdempotent(st: AuthState)
    ensures Logout(Logout(st)) == Logout(st)
  {
  }

  /** Every sequence of calls from a consistent session ends in a consistent session. */
  lemma {:induction false} RunKeepsConsistent(st: AuthState, acts: seq<Action>)
    requires Consistent(st)
    ensures Consistent(Run(st, acts))
    decreases |acts|
  {
    if |acts| > 0 {
      RunKeepsConsistent(Apply(st, acts[0]), acts[1..]);
    }
  }

  /** A session becomes admin only through a login with the exact admin credentials. */
  lemma {:induction false} AdminOnlyByAdminLogin(st: AuthState, acts: seq<Action>)
    requires st.user.None? || st.user.value.role != Admin
    requires var end := Run(st, acts); end.user.Some? && end.user.value.role == Admin
    ensures LogIn(AdminEmail, AdminPassword) in acts
    decreases |acts|
  {
    var next := Apply(st, acts[0]);
    if next.user.Some? && next.user.value.role == Admin {
      assert acts[0] == LogIn(AdminEmail, AdminPassword);
    } else {
      AdminOnlyByAdminLogin(next, acts[1..]);
    }
  }

  /** The provider starts signed out and idle, and no sequence of calls from there breaks consistency. */
  lemma StartIsConsistent(acts: seq<Action>)
    ensures InitialAuth.user.None? && Consistent(Run(InitialAuth, acts))
  {
    RunKeepsConsistent(InitialAuth, acts);
  }
}
