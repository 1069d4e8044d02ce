/** The session store of `src/context/AuthContext.tsx`: one end-user session and,
    independently, one admin session, changed only by `login`, `register`,
    `logout`, `refreshUser`, `adminLogin` and `clearAdmin`. Each transition takes
    the settled API outcome as a parameter and returns the next state together
    with the result record the caller receives. */
module Session {
  import opened Wrappers
  import opened Api
  import opened Strings
  import Base64
  import Utf8
  import FanIn
  import Json

  datatype User = User(email: string, password: string, hasPaid: bool)

  datatype AdminAuth = AdminAuth(username: string, password: string, header: string)

  datatype State = State(user: Option<User>, admin: Option<AdminAuth>)

  /** Both sessions are empty when the provider mounts. */
  const Initial: State := State(None, None)

  datatype LoginResult = LoginResult(success: bool, hasPaid: bool, message: Option<string>, error: Option<string>)

  datatype RegisterResult = RegisterResult(success: bool, status: int, error: Option<string>)

  /** A transition: the state after it and what the caller receives. */
  datatype Step<R> = Step(state: State, result: R)

  const LoginFallback: string := "Falha ao realizar login."
  const RegisterFallback: string := "Falha ao registrar conta."
  const RefreshFallback: string := "Falha ao atualizar status do usuario."
  const AdminFallback: string := "Falha ao acessar painel admin."
  const AccountExists: string := "Conta ja existe. Faca login para continuar."
  const NoBase64: string := "Base64 encoding is not supported in this environment."

  /** The result of a settled login call, shared by `login` and `refreshUser`. */
  function LoginResultOf(outcome: Result<LoginResponse, Thrown>, fallback: string): LoginResult {
    match outcome
    case Success(resp) => LoginResult(true, resp.hasPaid, Some(resp.message), None)
    case Failure(e) => LoginResult(false, false, None, Some(ErrorText(e, fallback)))
  }

  /** `login(email, password)` once `loginAccount` settled with `outcome`. */
  function Login(s: State, email: string, password: string, outcome: Result<LoginResponse, Thrown>): (r: Step<LoginResult>)
    ensures r.state.admin == s.admin
    ensures r.result.success <==> outcome.Success?
    ensures outcome.Success? ==>
      && r.state.user == Some(User(email, password, outcome.value.hasPaid))
      && r.result.hasPaid == outcome.value.hasPaid
      && r.result.message == Some(outcome.value.message)
      && r.result.error == None
    ensures outcome.Failure? ==>
      && r.state == s
      && !r.result.hasPaid
      && r.result.error == Some(if outcome.error.NonError? then LoginFallback else outcome.error.message)
  {
    match outcome
    case Success(resp) =>
      Step(s.(user := Some(User(email, password, resp.hasPaid))), LoginResultOf(outcome, LoginFallback))
    case Failure(_) => Step(s, LoginResultOf(outcome, LoginFallback))
  }

  /** `register(email, password)` once `registerAccount` settled with `outcome`. */
  function Register(s: State, outcome: Result<int, Thrown>): (r: Step<RegisterResult>)
    ensures r.state == s
    ensures r.result.success <==> outcome == Success(201)
    ensures outcome.Success? ==> r.result.status == outcome.value
    ensures outcome.Success? ==>
      r.result.error == (if outcome.value == 409 then Some(AccountExists) else None)
    ensures outcome.Failure? && outcome.error.ApiErr? ==>
      r.result == RegisterResult(false, outcome.error.status, Some(outcome.error.message))
    ensures outcome.Failure? && !outcome.error.ApiErr? ==>
      r.result == RegisterResult(false, 500, Some(ErrorText(outcome.error, RegisterFallback)))
  {
    var result :=
      match outcome
      case Success(status) =>
        RegisterResult(status == 201, status, if status == 409 then Some(AccountExists) else None)
      case Failure(ApiErr(message, status, _)) => RegisterResult(false, status, Some(message))
      case Failure(e) => RegisterResult(false, 500, Some(ErrorText(e, RegisterFallback)));
    Step(s, result)
  }

  /** `register` over the HTTP answer `registerAccount` turns into its outcome: the account
      is created exactly on status 201; a 409 reports that the account exists; another ok
      status is no success and carries no message; an error status keeps the status and
      the server's message or the "Register failed" text; a network failure reports 500. */
  lemma RegisterOverHttp(s: State, outcome: Result<Response, Thrown>)
    ensures var reg := Register(s, RegisterOutcome(outcome)).result;
      && (reg.success <==> outcome.Success? && outcome.value.status == 201)
      && (outcome.Success? && outcome.value.status == 409 ==> reg.error == Some(AccountExists))
      && (outcome.Success? && IsOk(outcome.value.status) && outcome.value.status != 201 ==>
            !reg.success && reg.error.None?)
      && (outcome.Success? && !IsOk(outcome.value.status) && outcome.value.status != 409 ==>
            var resp := outcome.value;
            var payload := if resp.body.Parsed? then Some(resp.body.value) else None;
            && reg.status == resp.status
            && reg.error == Some(Json.MessageOr(payload, "Register failed with status " + IntToString(resp.status))))
      && (outcome.Failure? ==> reg.status == (if outcome.error.ApiErr? then outcome.error.status else 500))
  {
  }

  /** `logout()`: both sessions end. */
  function Logout(s: State): (r: State)
    ensures r.user.None? && r.admin.None?
  {
    State(None, None)
  }

  /** `clearAdmin()`: the admin session ends, the user session stays. */
  function ClearAdmin(s: State): (r: State)
    ensures r.admin.None? && r.user == s.user
  {
    s.(admin := None)
  }

  /** The call `refreshUser` makes: a login with the stored credentials, or none. */
  function RefreshCall(s: State): (e: Option<Endpoint>)
    ensures e.None? <==> s.user.None?
    ensures e.Some? ==> e.value == LoginAccount(s.user.value.email, s.user.value.password)
  {
    match s.user
    case None => None
    case Some(u) => Some(LoginAccount(u.email, u.password))
  }

  /** `refreshUser()` once the login call it made (if any) settled with `outcome`. */
  function Refresh(s: State, outcome: Result<LoginResponse, Thrown>): (r: Step<Option<LoginResult>>)
    ensures s.user.None? ==> r == Step(s, None)
    ensures s.user.Some? ==> r.result.Some? && (r.result.value.success <==> outcome.Success?)
    ensures r.state.admin == s.admin
    ensures s.user.Some? && outcome.Success? ==>
      r.state.user == Some(s.user.value.(hasPaid := outcome.value.hasPaid))
    ensures outcome.Failure? ==> r.state == s
  {
    match s.user
    case None => Step(s, None)
    case Some(u) =>
      match outcome
      case Success(resp) =>
        Step(s.(user := Some(User(u.email, u.password, resp.hasPaid))), Some(LoginResultOf(outcome, RefreshFallback)))
      case Failure(_) => Step(s, Some(LoginResultOf(outcome, RefreshFallback)))
  }

  /** A successful refresh is a login replayed with the stored credentials: the same next
      state and the same result. A failed one differs from a failed login only in the
      fallback text and in keeping the session. */
  lemma RefreshIsReplayedLogin(s: State, outcome: Result<LoginResponse, Thrown>)
    requires s.user.Some?
    ensures var u := s.user.value;
      outcome.Success? ==>
        Refresh(s, outcome) == Step(Login(s, u.email, u.password, outcome).state,
                                    Some(Login(s, u.email, u.password, outcome).result))
    ensures var u := s.user.value;
      outcome.Failure? ==>
        && Refresh(s, outcome).state == Login(s, u.email, u.password, outcome).state
        && Refresh(s, outcome).result.value.success == Login(s, u.email, u.password, outcome).result.success
  {
  }

  /** `Basic <base64(username ":" password)>`: the HTTP Basic credentials of section 2 of
      RFC 7617, with the UTF-8 bytes of the pair encoded per section 4 of RFC 4648. */
  function BasicHeader(username: string, password: string): string {
    "Basic " + Base64.Encode(Utf8.Encode(username + ":" + password))
  }

  /** A server reading the header gets back the credential pair, and, when the username
      holds no colon (RFC 7617 forbids one), the username and the password themselves. */
  lemma BasicHeaderDecodes(username: string, password: string)
    ensures var h := BasicHeader(username, password);
      && h[..6] == "Basic "
      && Base64.Decode(h[6..]) == Some(Utf8.Encode(username + ":" + password))
      && Utf8.Decode(Base64.Decode(h[6..]).value) == Some(username + ":" + password)
    ensures ':' !in username ==>
      var pair := username + ":" + password;
      && BeforeFirst(pair, ':') == username
      && pair[|username| + 1..] == password
  {
    var pair := username + ":" + password;
    Base64.DecodeEncode(Utf8.Encode(pair));
    Utf8.DecodeEncode(pair);
    if ':' !in username {
      BeforeFirstThen(username, ':', password);
      assert pair == username + [':'] + password;
    }
  }

  /** What the admin bootstrap fetched, list envelopes already unwrapped. */
  datatype AdminBootstrap = AdminBootstrap(
    recipes: seq<Recipe>, stats: AdminStats, users: seq<AdminUser>, payments: seq<AdminPayment>)

  /** The four settled admin reads and the order they settled in. */
  datatype BootstrapOutcomes = BootstrapOutcomes(
    recipes: Result<seq<Recipe>, Thrown>,
    stats: Result<AdminStats, Thrown>,
    users: Result<seq<AdminUser>, Thrown>,
    payments: Result<seq<AdminPayment>, Thrown>,
    settleOrder: seq<nat>)

  /** The four reads the bootstrap issues, all with the same credential. */
  function BootstrapCalls(header: string): (calls: seq<Endpoint>)
    ensures |calls| == 4 && forall i :: 0 <= i < 4 ==> calls[i].IsAdmin() && calls[i].auth == header
  {
    [GetAdminRecipes(header, None), GetAdminStats(header), GetAdminUsers(header), GetAdminPayments(header)]
  }

  function BootstrapErrors(o: BootstrapOutcomes): seq<Option<Thrown>> {
    [FanIn.ErrorOf(o.recipes), FanIn.ErrorOf(o.stats), FanIn.ErrorOf(o.users), FanIn.ErrorOf(o.payments)]
  }

  /** `Promise.all` over the four reads. */
  function JoinBootstrap(o: BootstrapOutcomes): (r: Result<AdminBootstrap, Thrown>)
    requires FanIn.IsSettleOrder(o.settleOrder, 4)
    ensures r.Success? <==> o.recipes.Success? && o.stats.Success? && o.users.Success? && o.payments.Success?
    ensures r.Success? ==> r.value == AdminBootstrap(o.recipes.value, o.stats.value, o.users.value, o.payments.value)
    ensures r.Failure? ==> Some(r.error) in BootstrapErrors(o)
  {
    var errors := BootstrapErrors(o);
    FanIn.AllOrNothing(errors, o.settleOrder);
    match FanIn.FirstRejection(errors, o.settleOrder)
    case Some(e) => Failure(e)
    case None =>
      assert errors[0].None? && errors[1].None? && errors[2].None? && errors[3].None?;
      Success(AdminBootstrap(o.recipes.value, o.stats.value, o.users.value, o.payments.value))
  }

  /** How `adminLogin` ends: it throws before any request when no Base64 encoder exists,
      otherwise it settles with a result. */
  datatype AdminLoginOutcome =
    | Escaped(thrown: Thrown)
    | Settled(state: State, success: bool, error: Option<string>, data: Option<AdminBootstrap>)

  /** `adminLogin(username, password)`: `hasEncoder` says whether `btoa` or `Buffer` exists,
      `o` how the four bootstrap reads settled. */
  function AdminLogin(s: State, username: string, password: string, hasEncoder: bool, o: BootstrapOutcomes): (r: AdminLoginOutcome)
    requires FanIn.IsSettleOrder(o.settleOrder, 4)
    ensures !hasEncoder ==> r == Escaped(JsError(NoBase64))
    ensures hasEncoder ==> r.Settled? && r.state.user == s.user
    ensures r.Settled? ==>
      (r.success <==> o.recipes.Success? && o.stats.Success? && o.users.Success? && o.payments.Success?)
    ensures r.Settled? && r.success ==>
      && r.state.admin == Some(AdminAuth(username, password, BasicHeader(username, password)))
      && r.data == Some(AdminBootstrap(o.recipes.value, o.stats.value, o.users.value, o.payments.value))
      && r.error == None
    ensures r.Settled? && !r.success ==>
      && r.state == s && r.data == None && r.error.Some?
      && exists e :: Some(e) in BootstrapErrors(o) && r.error == Some(ErrorText(e, AdminFallback))
  {
    if !hasEncoder then Escaped(JsError(NoBase64))
    else
      var header := BasicHeader(username, password);
      match JoinBootstrap(o)
      case Success(d) => Settled(s.(admin := Some(AdminAuth(username, password, header))), true, None, Some(d))
      case Failure(e) => Settled(s, false, Some(ErrorText(e, AdminFallback)), None)
  }

  /** Holding one session never grants the other: `login` and `refreshUser` leave the admin
      session as it was, and `adminLogin` leaves the user session as it was. */
  lemma SessionsIndependent(s: State, email: string, password: string, lo: Result<LoginResponse, Thrown>,
                            username: string, apw: string, o: BootstrapOutcomes)
    requires FanIn.IsSettleOrder(o.settleOrder, 4)
    ensures Login(s, email, password, lo).state.admin == s.admin
    ensures Refresh(s, lo).state.admin == s.admin
    ensures AdminLogin(s, username, apw, true, o).state.user == s.user
    ensures Register(s, Success(201)).state == s
  {
  }
}
