/** The HTTP client of `src/lib/api.ts`: one shared request function that fixes
    the base URL, the JSON content type, when a body is parsed, and how a
    non-2xx status becomes an `ApiError`; the registration call that treats 409
    as an answer; and one wrapper per endpoint fixing path, method, headers and
    body. The network is a parameter: each call takes the settled `fetch`
    outcome as input. */
module Api {
  import opened Wrappers
  import opened Json
  import opened Strings
  import UriEncoding
  import Utf8

  /** The host used when no override is configured. */
  const DefaultBaseUrl: string := "http://104.234.236.68:30067"

  const ContentType: string := "Content-Type"
  const JsonMediaType: string := "application/json"
  const Authorization: string := "Authorization"

  /** `import.meta.env.VITE_API_BASE_URL ?? DEFAULT_BASE_URL`: any configured string wins,
      the empty string included. */
  function BaseUrl(envOverride: Option<string>): string {
    envOverride.GetOr(DefaultBaseUrl)
  }

  datatype Method = Get | Post | Put | Delete

  /** Header names and values in insertion order. */
  type Headers = seq<(string, string)>

  /** The value sent under `name`. */
  function HeaderValue(h: Headers, name: string): Option<string> {
    if |h| == 0 then None
    else if h[0].0 == name then Some(h[0].1)
    else HeaderValue(h[1..], name)
  }

  /** Object-literal assignment of one header: an existing name keeps its position and
      takes the new value, a new name goes last. */
  function SetHeader(h: Headers, name: string, value: string): (r: Headers)
    ensures HeaderValue(r, name) == Some(value)
    ensures forall k :: k != name ==> HeaderValue(r, k) == HeaderValue(h, k)
    ensures |h| > 0 ==> |r| > 0 && r[0].0 == h[0].0
    ensures |r| >= |h| && forall i :: 0 <= i < |h| ==> r[i].0 == h[i].0
  {
    if |h| == 0 then [(name, value)]
    else if h[0].0 == name then [(name, value)] + h[1..]
    else [h[0]] + SetHeader(h[1..], name, value)
  }

  lemma {:induction false} LastValueCons<V>(x: (string, V), xs: seq<(string, V)>, k: string)
    ensures LastValue([x] + xs, k) ==
      (if LastValue(xs, k).Some? then LastValue(xs, k) else if x.0 == k then Some(x.1) else None)
  {
    if |xs| > 0 {
      assert ([x] + xs)[..|xs|] == [x] + xs[..|xs| - 1];
      LastValueCons(x, xs[..|xs| - 1], k);
    }
  }

  /** `{ ...base, ...extra }` on headers: a later name in `extra` overrides. */
  function Spread(base: Headers, extra: Headers): (r: Headers)
    ensures forall k ::
      HeaderValue(r, k) == (if LastValue(extra, k).Some? then LastValue(extra, k) else HeaderValue(base, k))
    ensures |base| > 0 ==> |r| > 0 && r[0].0 == base[0].0
    decreases |extra|
  {
    if |extra| == 0 then base
    else
      var r := Spread(SetHeader(base, extra[0].0, extra[0].1), extra[1..]);
      assert [extra[0]] + extra[1..] == extra;
      assert forall k :: LastValue([extra[0]] + extra[1..], k) == LastValue(extra, k);
      forall k ensures LastValue(extra, k) ==
        (if LastValue(extra[1..], k).Some? then LastValue(extra[1..], k)
         else if extra[0].0 == k then Some(extra[0].1) else None) {
        LastValueCons(extra[0], extra[1..], k);
      }
      r
  }

  /** The caller-controlled part of a request (`RequestInit` plus `skipJson`). */
  datatype Options = Options(verb: Method, headers: Headers, body: Option<Json>, skipJson: bool)

  /** What `fetch` is asked to send; the body is the value `JSON.stringify` serializes. */
  datatype Request = Request(url: string, verb: Method, headers: Headers, body: Option<Json>)

  /** The request `apiFetch(path, options)` sends: the URL is the base followed by the path,
      `Content-Type: application/json` comes first and survives unless the caller's headers
      set that same name, and every caller header is sent with its value. */
  function BuildRequest(env: Option<string>, path: string, opts: Options): (r: Request)
    ensures r.url == (if env.Some? then env.value else DefaultBaseUrl) + path
    ensures |r.headers| > 0 && r.headers[0].0 == ContentType
    ensures HeaderValue(r.headers, ContentType) ==
      (if LastValue(opts.headers, ContentType).Some? then LastValue(opts.headers, ContentType)
       else Some(JsonMediaType))
    ensures forall k :: k != ContentType ==> HeaderValue(r.headers, k) == LastValue(opts.headers, k)
    ensures r.verb == opts.verb && r.body == opts.body
  {
    var base := [(ContentType, JsonMediaType)];
    assert forall k :: k != ContentType ==> HeaderValue(base, k) == None by {
      assert base[1..] == [];
    }
    Request(BaseUrl(env) + path, opts.verb, Spread(base, opts.headers), opts.body)
  }

  /** What `response.json()` yields: a parsed value, or a rejection with a parse error. */
  datatype Body = Parsed(value: Json) | Unparsable(error: string)

  /** A settled `fetch`: the status, the `content-type` header if any, and the body. */
  datatype Response = Response(status: int, contentType: Option<string>, body: Body)

  /** `response.ok`. */
  predicate IsOk(status: int) {
    200 <= status <= 299
  }

  /** What a rejected promise carries: an `ApiError`, another `Error` (a network failure or
      a parse error), or a thrown value that is not an `Error`. */
  datatype Thrown =
    | ApiErr(message: string, status: int, data: Option<Json>)
    | JsError(message: string)
    | NonError

  /** The text every catch site shows: the error's message, or `default` for a non-`Error`. */
  function ErrorText(t: Thrown, default: string): (r: string)
    ensures t.NonError? ==> r == default
    ensures !t.NonError? ==> r == t.message
  {
    match t
    case NonError => default
    case _ => t.message
  }

  /** `!skipJson && contentType?.includes("application/json")`. */
  predicate CanParseJson(skipJson: bool, contentType: Option<string>) {
    !skipJson && contentType.Some? && Includes(contentType.value, JsonMediaType)
  }

  /** The message of a failed call: the template naming the path and the status. */
  function FailureTemplate(path: string, status: int): string {
    "Request to " + path + " failed with status " + IntToString(status)
  }

  /** `apiFetch` after `fetch` settled with `outcome`. */
  function ApiFetch(path: string, skipJson: bool, outcome: Result<Response, Thrown>): (r: Result<Option<Json>, Thrown>)
    // a rejected fetch propagates unchanged
    ensures outcome.Failure? ==> r == outcome.PropagateFailure()
    // the body is read only when JSON parsing is allowed; a parse failure rejects
    ensures (outcome.Success? && CanParseJson(skipJson, outcome.value.contentType) && outcome.value.body.Unparsable?)
              ==> r == Failure(JsError(outcome.value.body.error))
    ensures outcome.Success? && !CanParseJson(skipJson, outcome.value.contentType) ==>
              (r.Success? ==> r.value == None) && (r.Failure? && r.error.ApiErr? ==> r.error.data == None)
    // an ok response resolves with the payload and never raises
    ensures outcome.Success? && IsOk(outcome.value.status)
              && !(CanParseJson(skipJson, outcome.value.contentType) && outcome.value.body.Unparsable?) ==>
              r.Success? && (CanParseJson(skipJson, outcome.value.contentType) ==> r.value == Some(outcome.value.body.value))
    // a non-ok response raises ApiError with the response status and the payload
    ensures outcome.Success? && !IsOk(outcome.value.status)
              && !(CanParseJson(skipJson, outcome.value.contentType) && outcome.value.body.Unparsable?) ==>
              r.Failure? && r.error.ApiErr? && r.error.status == outcome.value.status
              && (CanParseJson(skipJson, outcome.value.contentType) ==> r.error.data == Some(outcome.value.body.value))
    ensures r.Success? ==> outcome.Success? && IsOk(outcome.value.status)
  {
    match outcome
    case Failure(e) => Failure(e)
    case Success(resp) =>
      var canParse := CanParseJson(skipJson, resp.contentType);
      if canParse && resp.body.Unparsable? then Failure(JsError(resp.body.error))
      else
        var payload := if canParse then Some(resp.body.value) else None;
        if !IsOk(resp.status) then
          Failure(ApiErr(MessageOr(payload, FailureTemplate(path, resp.status)), resp.status, payload))
        else Success(payload)
  }

  /** The message of a non-ok `apiFetch` is the server's non-nullish `message`, else the template. */
  lemma ApiErrorMessage(path: string, skipJson: bool, resp: Response)
    requires !IsOk(resp.status)
    requires !(CanParseJson(skipJson, resp.contentType) && resp.body.Unparsable?)
    ensures var r := ApiFetch(path, skipJson, Success(resp));
      var payload := r.error.data;
      && (NonNullish(OptionalMember(payload, "message")).None? ==>
            r.error.message == "Request to " + path + " failed with status " + IntToString(resp.status))
      && (forall m :: OptionalMember(payload, "message") == Some(JStr(m)) ==> r.error.message == m)
  {
  }

  /** `registerAccount` after `fetch` settled: the status is returned when the response is ok
      or 409; otherwise the body is read whatever its content type, a parse failure counting
      as no payload, and an `ApiError` is raised. */
  function RegisterOutcome(outcome: Result<Response, Thrown>): (r: Result<int, Thrown>)
    ensures outcome.Failure? ==> r == outcome.PropagateFailure()
    ensures outcome.Success? ==>
      (r.Success? <==> IsOk(outcome.value.status) || outcome.value.status == 409)
    ensures r.Success? ==> r.value == outcome.value.status
    ensures outcome.Success? && r.Failure? ==>
      var resp := outcome.value;
      var payload := if resp.body.Parsed? then Some(resp.body.value) else None;
      r.error == ApiErr(MessageOr(payload, "Register failed with status " + IntToString(resp.status)), resp.status, payload)
  {
    match outcome
    case Failure(e) => Failure(e)
    case Success(resp) =>
      if !IsOk(resp.status) && resp.status != 409 then
        var payload := if resp.body.Parsed? then Some(resp.body.value) else None;
        var message := MessageOr(payload, "Register failed with status " + IntToString(resp.status));
        Failure(ApiErr(message, resp.status, payload))
      else Success(resp.status)
  }

  /** A recipe as the server returns it. */
  datatype Recipe = Recipe(id: int, title: string, content: string, category: Option<string>, isPublic: bool)

  /** The body of an admin create or update. */
  datatype RecipePayload = RecipePayload(title: string, content: string, category: string, isPublic: bool)

  datatype LoginResponse = LoginResponse(email: string, hasPaid: bool, message: string)

  datatype AdminStats = AdminStats(
    usersTotal: int, usersPaid: int,
    recipesTotal: int, recipesPublic: int, recipesPrivate: int,
    totalAmountCents: int, currency: string)

  datatype AdminUser = AdminUser(email: string, hasPaid: bool)

  datatype AdminPayment = AdminPayment(id: string, email: string, amountCents: int, currency: string, createdAt: string)

  /** The optional filters of the admin recipe listing. */
  datatype AdminFilter = AdminFilter(category: Option<string>, isPublic: Option<string>)

  /** The category recipes fall back to when they have none. */
  const DefaultCategory: string := "geral"

  const CategoryName: string := "category"

  /** The query of `listPublicRecipes`. */
  function PublicQuery(category: Option<string>): string {
    if TruthyText(category) then "?" + CategoryName + "=" + UriEncoding.EncodeURIComponent(category.value) else ""
  }

  /** The `{ name: value }` entries `URLSearchParams` receives in `getAdminRecipes`. */
  function AdminParams(filter: Option<AdminFilter>): seq<(string, string)> {
    match filter
    case None => []
    case Some(f) =>
      (if TruthyText(f.category) then [("category", f.category.value)] else [])
      + (if TruthyText(f.isPublic) then [("is_public", f.isPublic.value)] else [])
  }

  /** `URLSearchParams#toString`: encoded `name=value` pairs joined by `&`. */
  function FormQuery(params: seq<(string, string)>): (r: string)
    ensures r == "" <==> |params| == 0
  {
    Join(seq(|params|, i requires 0 <= i < |params| =>
      UriEncoding.FormEncode(params[i].0) + "=" + UriEncoding.FormEncode(params[i].1)), "&")
  }

  /** The query of `getAdminRecipes`: `?` and the pairs, or nothing when there are none. */
  function AdminQuery(filter: Option<AdminFilter>): string {
    var q := FormQuery(AdminParams(filter));
    if q == "" then "" else "?" + q
  }

  /** The body of `listMyRecipes`: the credentials, then `category` only when it is truthy. */
  function MyRecipesBody(email: string, password: string, category: Option<string>): Json {
    JObj([("email", JStr(email)), ("password", JStr(password))]
         + (if TruthyText(category) then [("category", JStr(category.value))] else []))
  }

  function PayloadJson(p: RecipePayload): Json {
    JObj([("title", JStr(p.title)), ("content", JStr(p.content)),
          ("category", JStr(p.category)), ("is_public", JBool(p.isPublic))])
  }

  function CredentialsJson(email: string, password: string): Json {
    JObj([("email", JStr(email)), ("password", JStr(password))])
  }

  /** The path of one admin recipe. */
  function RecipePath(id: int): string {
    "/admin/recipes/" + IntToString(id)
  }

  /** Every call the client can make, with its arguments. */
  datatype Endpoint =
    | HealthCheck
    | RegisterAccount(email: string, password: string)
    | LoginAccount(email: string, password: string)
    | CreateCheckoutSession
    | ListPublicRecipes(category: Option<string>)
    | ListMyRecipes(email: string, password: string, myCategory: Option<string>)
    | GetAdminRecipes(auth: string, filter: Option<AdminFilter>)
    | CreateAdminRecipe(auth: string, payload: RecipePayload)
    | UpdateAdminRecipe(auth: string, id: int, payload: RecipePayload)
    | DeleteAdminRecipe(auth: string, id: int)
    | GetAdminStats(auth: string)
    | GetAdminUsers(auth: string)
    | GetAdminPayments(auth: string)
  {
    /** Every call but `registerAccount` goes through `apiFetch`; that one calls `fetch`
        itself, with the same URL and headers, and reads the body as `RegisterOutcome` says. */
    predicate ViaApiFetch() {
      !RegisterAccount?
    }

    predicate IsAdmin() {
      GetAdminRecipes? || CreateAdminRecipe? || UpdateAdminRecipe? || DeleteAdminRecipe?
      || GetAdminStats? || GetAdminUsers? || GetAdminPayments?
    }
  }

  function Path(e: Endpoint): string {
    match e
    case HealthCheck => "/health"
    case RegisterAccount(_, _) => "/register"
    case LoginAccount(_, _) => "/login"
    case CreateCheckoutSession => "/create-checkout-session"
    case ListPublicRecipes(c) => "/recipes/public" + PublicQuery(c)
    case ListMyRecipes(_, _, _) => "/recipes/my"
    case GetAdminRecipes(_, f) => "/admin/recipes" + AdminQuery(f)
    case CreateAdminRecipe(_, _) => "/admin/recipes"
    case UpdateAdminRecipe(_, id, _) => RecipePath(id)
    case DeleteAdminRecipe(_, id) => RecipePath(id)
    case GetAdminStats(_) => "/admin/stats"
    case GetAdminUsers(_) => "/admin/users"
    case GetAdminPayments(_) => "/admin/payments"
  }

  function OptionsOf(e: Endpoint): Options {
    var auth := if e.IsAdmin() then [(Authorization, e.auth)] else [];
    match e
    case HealthCheck => Options(Get, auth, None, false)
    case RegisterAccount(email, password) => Options(Post, auth, Some(CredentialsJson(email, password)), false)
    case LoginAccount(email, password) => Options(Post, auth, Some(CredentialsJson(email, password)), false)
    case CreateCheckoutSession => Options(Post, auth, None, false)
    case ListPublicRecipes(_) => Options(Get, auth, None, false)
    case ListMyRecipes(email, password, c) => Options(Post, auth, Some(MyRecipesBody(email, password, c)), false)
    case GetAdminRecipes(_, _) => Options(Get, auth, None, false)
    case CreateAdminRecipe(_, p) => Options(Post, auth, Some(PayloadJson(p)), false)
    case UpdateAdminRecipe(_, _, p) => Options(Put, auth, Some(PayloadJson(p)), false)
    case DeleteAdminRecipe(_, _) => Options(Delete, auth, None, true)
    case GetAdminStats(_) => Options(Get, auth, None, false)
    case GetAdminUsers(_) => Options(Get, auth, None, false)
    case GetAdminPayments(_) => Options(Get, auth, None, false)
  }

  /** The request an endpoint sends. */
  function RequestFor(env: Option<string>, e: Endpoint): Request {
    BuildRequest(env, Path(e), OptionsOf(e))
  }

  /** Every request is JSON-typed; exactly the admin calls carry the Authorization header,
      with the caller's credential string; of the calls made through `apiFetch`, only the
      delete call skips body parsing. */
  lemma RequestHeaders(env: Option<string>, e: Endpoint)
    ensures HeaderValue(RequestFor(env, e).headers, ContentType) == Some(JsonMediaType)
    ensures e.IsAdmin() ==> HeaderValue(RequestFor(env, e).headers, Authorization) == Some(e.auth)
    ensures !e.IsAdmin() ==> HeaderValue(RequestFor(env, e).headers, Authorization) == None
    ensures e.ViaApiFetch() ==> (OptionsOf(e).skipJson <==> e.DeleteAdminRecipe?)
  {
    OptionsHeaders(e);
    CredentialHeaders(env, Path(e), OptionsOf(e), if e.IsAdmin() then Some(e.auth) else None);
  }

  /** A request whose only caller header is an optional credential. */
  lemma CredentialHeaders(env: Option<string>, path: string, opts: Options, cred: Option<string>)
    requires opts.headers == if cred.Some? then [(Authorization, cred.value)] else []
    ensures HeaderValue(BuildRequest(env, path, opts).headers, ContentType) == Some(JsonMediaType)
    ensures HeaderValue(BuildRequest(env, path, opts).headers, Authorization) == cred
  {
    assert ContentType != Authorization;
    assert LastValue(opts.headers, ContentType) == None;
    assert LastValue(opts.headers, Authorization) == cred;
  }

  /** The caller headers an endpoint passes: only the admin credential, on admin calls. */
  lemma OptionsHeaders(e: Endpoint)
    ensures OptionsOf(e).headers == if e.IsAdmin() then [(Authorization, e.auth)] else []
    ensures e.ViaApiFetch() ==> (OptionsOf(e).skipJson <==> e.DeleteAdminRecipe?)
  {
  }

  /** Distinct recipe ids address distinct paths. */
  lemma RecipePathInjective(a: int, b: int)
    requires RecipePath(a) == RecipePath(b)
    ensures a == b
  {
    var prefix := "/admin/recipes/";
    assert IntToString(a) == RecipePath(a)[|prefix|..];
    assert IntToString(b) == RecipePath(b)[|prefix|..];
    IntToStringInjective(a, b);
  }

  /** The `listMyRecipes` body holds `category` exactly when the argument is truthy. */
  lemma MyRecipesCategory(email: string, password: string, category: Option<string>)
    ensures Member(MyRecipesBody(email, password, category), "category") ==
      (if TruthyText(category) then Some(JStr(category.value)) else None)
    ensures Member(MyRecipesBody(email, password, category), "email") == Some(JStr(email))
    ensures Member(MyRecipesBody(email, password, category), "password") == Some(JStr(password))
  {
    var fixed := [("email", JStr(email)), ("password", JStr(password))];
    var extra := if TruthyText(category) then [("category", JStr(category.value))] else [];
    var fields := fixed + extra;
    assert fields[..2] == fixed;
    assert LastValue(fixed, "email") == Some(JStr(email));
    assert LastValue(fixed, "password") == Some(JStr(password));
    if TruthyText(category) {
      assert fields[..|fields| - 1] == fixed;
    }
  }

  /** `name=` followed by an encoded value is a single parameter: it holds no `&`. */
  lemma SingleParam(name: string, enc: string)
    requires '&' !in name
    requires forall i :: 0 <= i < |enc| ==> UriEncoding.IsQueryValueChar(enc[i])
    ensures var t := name + "=" + enc; Split(t, '&') == [t]
  {
    var t := name + "=" + enc;
    forall i | 0 <= i < |t| ensures t[i] != '&' {
      if i > |name| {
        assert t[i] == enc[i - |name| - 1];
        assert UriEncoding.IsQueryValueChar(enc[i - |name| - 1]);
      }
    }
    SplitNoSeparator(t, '&');
  }

  /** `name=value` splits at its first `=` into the name and the value. */
  lemma NameValue(name: string, value: string)
    requires '=' !in name
    ensures BeforeFirst(name + "=" + value, '=') == name
    ensures (name + "=" + value)[|name| + 1..] == value
  {
    assert name + "=" + value == name + ['='] + value;
    BeforeFirstThen(name, '=', value);
  }

  /** A one-parameter query `?name=enc` parses back into the name and the encoded value. */
  lemma OneParamQuery(name: string, enc: string)
    requires '&' !in name && '=' !in name
    requires forall i :: 0 <= i < |enc| ==> UriEncoding.IsQueryValueChar(enc[i])
    ensures var q := "?" + name + "=" + enc;
      && q[0] == '?'
      && Split(q[1..], '&') == [q[1..]]
      && BeforeFirst(q[1..], '=') == name
      && q[|name| + 2..] == enc
  {
    var t := name + "=" + enc;
    var q := "?" + name + "=" + enc;
    assert q[1..] == t;
    SingleParam(name, enc);
    NameValue(name, enc);
    assert q[|name| + 2..] == t[|name| + 1..];
  }

  /** A server reading the public-recipes query gets back exactly the category filter:
      nothing when it is falsy, else one `category` parameter whose decoded value is it. */
  lemma PublicQueryRoundTrip(category: Option<string>)
    ensures PublicQuery(category) == "" <==> !TruthyText(category)
    ensures TruthyText(category) ==>
      var q := PublicQuery(category);
      && q[0] == '?'
      && Split(q[1..], '&') == [q[1..]]
      && BeforeFirst(q[1..], '=') == CategoryName
      && UriEncoding.DecodeText(q[|CategoryName| + 2..], false) == category
  {
    if TruthyText(category) {
      var enc := UriEncoding.EncodeURIComponent(category.value);
      assert '&' !in CategoryName && '=' !in CategoryName;
      OneParamQuery(CategoryName, enc);
      UriEncoding.ComponentRoundTrip(category.value);
    }
  }

  /** One decoded query parameter: the decoded name and the decoded value. */
  function DecodeParam(part: string): (Option<string>, Option<string>) {
    var name := BeforeFirst(part, '=');
    if |name| == |part| then (UriEncoding.DecodeText(name, true), None)
    else (UriEncoding.DecodeText(name, true), UriEncoding.DecodeText(part[|name| + 1..], true))
  }

  /** A server reading a `URLSearchParams` query gets back every pair, in order. */
  lemma FormQueryRoundTrip(params: seq<(string, string)>)
    requires |params| > 0
    ensures var parts := Split(FormQuery(params), '&');
      && |parts| == |params|
      && forall i :: 0 <= i < |params| ==> DecodeParam(parts[i]) == (Some(params[i].0), Some(params[i].1))
  {
    var parts := seq(|params|, i requires 0 <= i < |params| =>
      UriEncoding.FormEncode(params[i].0) + "=" + UriEncoding.FormEncode(params[i].1));
    forall i | 0 <= i < |parts| ensures '&' !in parts[i] {
      var k, v := UriEncoding.FormEncode(params[i].0), UriEncoding.FormEncode(params[i].1);
      assert forall j :: 0 <= j < |v| ==> parts[i][|k| + 1 + j] == v[j];
    }
    SplitJoin(parts, '&');
    forall i | 0 <= i < |params|
      ensures DecodeParam(parts[i]) == (Some(params[i].0), Some(params[i].1))
    {
      var k, v := UriEncoding.FormEncode(params[i].0), UriEncoding.FormEncode(params[i].1);
      assert '=' !in k;
      NameValue(k, v);
      UriEncoding.FormRoundTrip(params[i].0);
      UriEncoding.FormRoundTrip(params[i].1);
    }
  }

  /** The admin listing pairs: `category` before `is_public`, each present exactly when it
      is truthy, never with an empty value. */
  lemma AdminParamsShape(filter: Option<AdminFilter>)
    ensures var ps := AdminParams(filter);
      && (forall i :: 0 <= i < |ps| ==> ps[i].1 != "")
      && (filter.None? ==> |ps| == 0)
      && (filter.Some? ==> |ps| == (if TruthyText(filter.value.category) then 1 else 0)
                                   + (if TruthyText(filter.value.isPublic) then 1 else 0))
      && (filter.Some? && TruthyText(filter.value.category) ==> ps[0] == ("category", filter.value.category.value))
      && (filter.Some? && TruthyText(filter.value.isPublic) ==> ps[|ps| - 1] == ("is_public", filter.value.isPublic.value))
  {
    match filter
    case None =>
    case Some(f) =>
      var a: seq<(string, string)> := if TruthyText(f.category) then [("category", f.category.value)] else [];
      var b: seq<(string, string)> := if TruthyText(f.isPublic) then [("is_public", f.isPublic.value)] else [];
      var ps := a + b;
      assert AdminParams(filter) == ps;
      assert forall i :: 0 <= i < |a| ==> ps[i] == a[i];
      assert forall i :: 0 <= i < |b| ==> ps[|a| + i] == b[i];
  }

  /** The admin listing query: the pairs above, and `?` only in front of a non-empty query. */
  lemma AdminQueryShape(filter: Option<AdminFilter>)
    ensures var ps := AdminParams(filter);
      && (AdminQuery(filter) == "" <==> |ps| == 0)
      && (|ps| > 0 ==> AdminQuery(filter) == "?" + FormQuery(ps))
      && (filter.None? ==> AdminQuery(filter) == "")
      && (filter.Some? && !TruthyText(filter.value.category) && !TruthyText(filter.value.isPublic) ==> AdminQuery(filter) == "")
  {
    AdminParamsShape(filter);
  }
}
