/** The sign-up form of `src/pages/Signup.tsx`: register, then log straight in. */
module SignupPage {
  import opened Wrappers
  import opened Api
  import Session

  /** A router navigation; `replace` swaps the current history entry. */
  datatype Nav = Nav(path: string, replace: bool)

  datatype SignupView = SignupView(loading: bool, message: Option<string>, error: Option<string>)

  const RegisterFallback: string := "Não foi possível criar sua conta agora."
  const AlreadyExists: string := "Conta já existente. Faça login para continuar."
  const CreatedLogIn: string := "Conta criada com sucesso! Faça login para continuar."

  /** What the submit handler ends with: the view, whether it went on to log in, and where
      it navigated. */
  datatype SignupEnd = SignupEnd(view: SignupView, loggedIn: bool, nav: Option<Nav>)

  /** `handleSubmit` once `register` settled with `reg` and, when it was reached, `login`
      with `login`. */
  function HandleSubmit(reg: Session.RegisterResult, login: Session.LoginResult): (r: SignupEnd)
    ensures !r.view.loading
    ensures !reg.success ==>
      r == SignupEnd(SignupView(false, None, Some(reg.error.GetOr(RegisterFallback))), false, None)
    ensures reg.success && reg.status == 409 ==>
      r == SignupEnd(SignupView(false, Some(AlreadyExists), None), false, None)
    ensures reg.success && reg.status != 409 ==> r.loggedIn && r.view.error.None?
    ensures reg.success && reg.status != 409 && login.success ==>
      r.nav == Some(Nav("/dashboard", true)) && r.view.message.None?
    ensures reg.success && reg.status != 409 && !login.success ==>
      r.nav == Some(Nav("/login", false)) && r.view.message == Some(CreatedLogIn)
  {
    if !reg.success then SignupEnd(SignupView(false, None, Some(reg.error.GetOr(RegisterFallback))), false, None)
    else if reg.status == 409 then SignupEnd(SignupView(false, Some(AlreadyExists), None), false, None)
    else if login.success then SignupEnd(SignupView(false, None, None), true, Some(Nav("/dashboard", true)))
    else SignupEnd(SignupView(false, Some(CreatedLogIn), None), true, Some(Nav("/login", false)))
  }

  /** The whole submit with the session's `register` and `login`: a 409 answer already
      fails the first check, so the page's own "account exists" branch is never taken and
      the visitor sees the session's message; the member reaches the dashboard exactly when
      the account was created and the login went through. */
  lemma SignupWithSession(s: Session.State, email: string, password: string,
                          regOutcome: Result<int, Thrown>, loginOutcome: Result<LoginResponse, Thrown>)
    ensures var reg := Session.Register(s, regOutcome).result;
      var login := Session.Login(s, email, password, loginOutcome).result;
      var r := HandleSubmit(reg, login);
      && r.view.message != Some(AlreadyExists)
      && (regOutcome == Success(409) ==> r.view.error == Some(Session.AccountExists) && r.nav.None?)
      && (r.nav == Some(Nav("/dashboard", true)) <==> regOutcome == Success(201) && loginOutcome.Success?)
      && (r.loggedIn <==> regOutcome == Success(201))
  {
    assert AlreadyExists != CreatedLogIn;
  }
}

/** The login form of `src/pages/Login.tsx`. */
module LoginPage {
  import opened Wrappers
  import opened Api
  import Session
  import SignupPage

  type Nav = SignupPage.Nav

  const LoginFallback: string := "Não foi possível acessar sua conta. Tente novamente."

  datatype LoginEnd = LoginEnd(loading: bool, error: Option<string>, nav: Option<Nav>)

  /** `handleSubmit` once `login` settled with `result`. */
  function HandleSubmit(result: Session.LoginResult): (r: LoginEnd)
    ensures !r.loading
    ensures r.error.Some? <==> !result.success
    ensures r.nav.None? <==> !result.success
    ensures !result.success ==> r.error == Some(result.error.GetOr(LoginFallback))
    ensures result.success && result.hasPaid ==> r.nav == Some(SignupPage.Nav("/dashboard", true))
    ensures result.success && !result.hasPaid ==> r.nav == Some(SignupPage.Nav("/#offer", false))
  {
    if !result.success then LoginEnd(false, Some(result.error.GetOr(LoginFallback)), None)
    else if result.hasPaid then LoginEnd(false, None, Some(SignupPage.Nav("/dashboard", true)))
    else LoginEnd(false, None, Some(SignupPage.Nav("/#offer", false)))
  }

  /** With the session's `login`: a member who has paid lands on the dashboard, one who has
      not lands on the offer, and the new session's `hasPaid` agrees with that choice. */
  lemma LoginWithSession(s: Session.State, email: string, password: string, outcome: Result<LoginResponse, Thrown>)
    ensures var step := Session.Login(s, email, password, outcome);
      var r := HandleSubmit(step.result);
      && (r.nav == Some(SignupPage.Nav("/dashboard", true)) <==> outcome.Success? && outcome.value.hasPaid)
      && (r.nav.Some? ==> step.state.user.Some? && (step.state.user.value.hasPaid <==> r.nav.value.path == "/dashboard"))
      && (r.nav.None? ==> step.state == s)
  {
  }

  /** The effect that sends an already logged-in visitor on to the dashboard. */
  function RedirectIfLoggedIn(user: Option<Session.User>): (nav: Option<Nav>)
    ensures nav.Some? <==> user.Some?
    ensures nav.Some? ==> nav.value == SignupPage.Nav("/dashboard", true)
  {
    if user.Some? then Some(SignupPage.Nav("/dashboard", true)) else None
  }
}
