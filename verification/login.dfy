/** `handleLogin` / `handleLogout`: credentials are compared in plain text
    against the constant roster, the instructor first, then the students in
    roster order. */
module Login {
  import opened Wrappers
  import opened Records
  import opened AppState
  import Mocks

  predicate Matches(u: User, email: string, password: string) {
    u.email == email && u.password == password
  }

  /** The credential test of `MOCK_STUDENTS.find(...)`: the position of the
      element `find` returns (the first match), or `None` when it returns
      `undefined`. `Lookup` maps the position to that element. */
  function FirstMatch(users: seq<User>, email: string, password: string): (r: Option<nat>)
    ensures r.Some? ==> r.value < |users| && Matches(users[r.value], email, password)
    ensures r.Some? ==> forall j :: 0 <= j < r.value ==> !Matches(users[j], email, password)
    ensures r.None? <==> forall j :: 0 <= j < |users| ==> !Matches(users[j], email, password)
    decreases |users|
  {
    if |users| == 0 then None
    else if Matches(users[0], email, password) then Some(0)
    else
      match FirstMatch(users[1..], email, password)
      case None => None
      case Some(k) => Some(k + 1)
  }

  /** The credential lookup: the instructor wins when their credentials match;
      otherwise the first matching student; otherwise nobody. */
  function Lookup(email: string, password: string): (r: Option<Session>)
    ensures Matches(Mocks.AdminUser, email, password) ==> r == Some(Session(Mocks.AdminUser, Admin))
    ensures r.Some? && r.value.role == Student ==>
      && !Matches(Mocks.AdminUser, email, password)
      && exists i :: 0 <= i < |Mocks.Students| && Mocks.Students[i] == r.value.user
                     && Matches(Mocks.Students[i], email, password)
                     && forall j :: 0 <= j < i ==> !Matches(Mocks.Students[j], email, password)
    ensures r.Some? && r.value.role == Admin ==> r.value.user == Mocks.AdminUser && Matches(Mocks.AdminUser, email, password)
    ensures r.None? <==> !Matches(Mocks.AdminUser, email, password)
                         && forall u :: u in Mocks.Students ==> !Matches(u, email, password)
  {
    if Matches(Mocks.AdminUser, email, password) then Some(Session(Mocks.AdminUser, Admin))
    else
      match FirstMatch(Mocks.Students, email, password)
      case None => None
      case Some(i) => Some(Session(Mocks.Students[i], Student))
  }

  /** Every student on the roster logs in as themself, with the student role:
      the instructor check never hides one, and no earlier student shares
      their email. */
  lemma EveryStudentLogsIn(i: nat)
    requires i < |Mocks.Students|
    ensures Lookup(Mocks.Students[i].email, Mocks.Students[i].password) == Some(Session(Mocks.Students[i], Student))
  {
    Mocks.AdminEmailUnique();
    Mocks.StudentsDistinct();
    assert Mocks.Students[i] in Mocks.Students;
  }

  /** The result of a login attempt: the new state and the alert shown, if any. */
  datatype Reply = Reply(state: State, alert: Option<Alert>)

  /** `handleLogin`: on a match the session is set and the login form hidden;
      otherwise the state is untouched and "Invalid credentials" is shown. */
  function HandleLogin(st: State): (r: Reply)
    ensures r.alert.None? ==>
      && r.state.session.Some?
      && Matches(r.state.session.value.user, st.loginEmail, st.loginPassword)
      && r.state == st.(session := r.state.session, showLogin := false)
      && r.state.session == Lookup(st.loginEmail, st.loginPassword)
    ensures r.alert.Some? ==> r.alert == Some(InvalidCredentials) && r.state == st
    ensures r.alert.Some? <==> Lookup(st.loginEmail, st.loginPassword).None?
  {
    match Lookup(st.loginEmail, st.loginPassword)
    case None => Reply(st, Some(InvalidCredentials))
    case Some(session) => Reply(st.(session := Some(session), showLogin := false), None)
  }

  /** `handleLogout`: forgets the user and the typed credentials and shows the
      login form again; every other field is kept. */
  function HandleLogout(st: State): (r: State)
    ensures r.session.None? && r.showLogin
    ensures r.loginEmail == "" && r.loginPassword == ""
    ensures r.assignments == st.assignments && r.submissions == st.submissions
    ensures r.confirmSubmit == st.confirmSubmit && r.newAssignment == st.newAssignment
  {
    st.(session := None, showLogin := true, loginEmail := "", loginPassword := "")
  }

  /** Logging out after a successful login returns to the state before it,
      except that the typed credentials are cleared. */
  lemma LogoutUndoesLogin(st: State)
    requires st.session.None? && st.showLogin
    requires HandleLogin(st).alert.None?
    ensures HandleLogout(HandleLogin(st).state) == st.(loginEmail := "", loginPassword := "")
  {
  }
}
