# 1000 Receitas de Amor — a verified model of the web client

This project models the TypeScript client of "1000 Receitas de Amor", a small
recipe-subscription site. It covers the API client, the authentication context, the
Stripe checkout redirector, the local-storage notice board, and the dashboard, admin,
sign-up and login pages. It also covers the site header. Each operation is a pure
function. The settled outcome of every network call, storage read or clock read is a
parameter. The navigations, toasts and next states are results.

Modules:

- `Wrappers`: `Option` and `Result`.
- `Strings`: `includes`, `replace`, `trim`, `split` and `join`, and decimal numerals.
- `Json`: parsed JSON values, `?.`, `??`, truthiness and `String(v)`.
- `Utf8`, `Base64`, `UriEncoding`: the byte encodings the client relies on.
  - UTF-8.
  - Base64, section 4 of RFC 4648.
  - `encodeURIComponent`.
  - `application/x-www-form-urlencoded` (what `URLSearchParams` emits).
- `FanIn`: `Promise.all` rejecting with the rejection that settles first.
- `Api`: `apiFetch`, `registerAccount` and the request each endpoint sends.
- `Session`: the `AuthContext` state and its operations.
- `Checkout`: `useStripeCheckout`.
- `Announcements`: `useAnnouncements`.
- Pages and header: `Dashboard`, `AdminPage`, `SignupPage`, `LoginPage`, `SiteHeader`.

Errors are modelled as `Api.Thrown`, which has three cases:

- `ApiErr`: the client's `ApiError`, with message, status and payload.
- `JsError`: any other `Error`, such as a network failure or a JSON parse error.
- `NonError`: a thrown value that is not an `Error`.

Every catch site that shows an error shows `err instanceof Error ? err.message : fallback`. That is `Api.ErrorText`.

## Model

| member | source | states |
|---|---|---|
| Api.BuildRequest | src/lib/api.ts:21-30 | The URL is the base URL followed by the path. `Content-Type: application/json` is sent first, and a caller header of the same name overrides its value. Every other caller header is sent with its last value. Method and body pass through. |
| Api.SetHeader | src/lib/api.ts:24-30 | Assigning one header in an object literal: the name then reads back the new value, every other name keeps its value, and existing names keep their positions. |
| Api.Spread | src/lib/api.ts:24-30 | `{ ...base, ...extra }`: a name set in `extra` reads its last value there, any other name reads its value in `base`. |
| Api.ApiFetch | src/lib/api.ts:21-45 | A rejected fetch propagates unchanged. The body is parsed only when parsing is not skipped and the content type includes `application/json`, and a parse failure rejects. An ok status resolves with the payload, or with nothing when it was not parsed. A non-ok status raises `ApiError` carrying the response status and the parsed payload. Only ok responses resolve. |
| Api.ApiErrorMessage | src/lib/api.ts:37-42 | The message of a non-ok response is the server's non-nullish `message` when there is one. Otherwise it is "Request to <path> failed with status <n>". |
| Api.RegisterOutcome | src/lib/api.ts:51-66 | `registerAccount` resolves exactly on an ok status or 409, with that status. Any other status raises `ApiError` with the status, the payload read whatever the content type (a parse failure counts as none), and the server message or the "Register failed" template. |
| Api.RequestHeaders | src/lib/api.ts:47-195 | Every endpoint's request carries `Content-Type: application/json`. Exactly the admin endpoints carry `Authorization`, with the caller's credential. Of the calls made through `apiFetch` (all but `registerAccount`), only `deleteAdminRecipe` skips body parsing. |
| Api.RecipePathInjective | src/lib/api.ts:144-158 | Distinct recipe ids give distinct `/admin/recipes/<id>` paths. |
| Strings.IntToStringInjective | src/lib/api.ts:144-158 | The decimal text of an integer determines the integer: distinct ids give distinct texts. This is how a template literal writes an integer a JavaScript number holds exactly. |
| Api.MyRecipesCategory | src/lib/api.ts:108-117 | The `listMyRecipes` body holds the email and password. It holds `category` exactly when the argument is truthy. |
| Api.PublicQueryRoundTrip | src/lib/api.ts:103-106 | The public-recipes query is empty exactly for a falsy category. Otherwise it is one `category` parameter whose percent-decoded value is the category itself. |
| Api.FormQuery | src/lib/api.ts:126-134 | The `URLSearchParams` text is empty exactly when there are no pairs. |
| Api.FormQueryRoundTrip | src/lib/api.ts:126-134 | Splitting the query at `&` and form-decoding each part gives back every name and value pair, in order. |
| Api.AdminParamsShape | src/lib/api.ts:126-129 | Without a filter no pair is set. With one, `category` is set exactly when truthy and comes first, and `is_public` exactly when truthy and comes last. No pair has an empty value. |
| Api.AdminQueryShape | src/lib/api.ts:126-131 | The admin listing query is empty exactly when no pair is set, and otherwise is `?` followed by the `URLSearchParams` text of the pairs. A missing filter, or one with both fields falsy, gives the bare path. |
| Session.Login | src/context/AuthContext.tsx:75-89 | Success stores the user with the server's `has_paid` and reports its message. Failure leaves the state unchanged and reports the error message, or "Falha ao realizar login." for a non-`Error`. The admin session is never touched. |
| Session.Register | src/context/AuthContext.tsx:91-106 | Registration succeeds exactly on status 201. A 409 reports the "account exists" message. An `ApiError` keeps its status and message, and any other failure reports status 500. The session state never changes. |
| Session.RegisterOverHttp | src/lib/api.ts:51-66 | `register` over the HTTP answer. The account is created exactly on status 201, and a 409 reports that it exists. Another ok status is no success and carries no message. An error status keeps its status and the server's message, or the "Register failed" text. A network failure reports 500. |
| Session.Logout | src/context/AuthContext.tsx:108-111 | Both the user and the admin session end. |
| Session.ClearAdmin | src/context/AuthContext.tsx:168-170 | The admin session ends and the user session is kept. |
| Session.RefreshCall | src/context/AuthContext.tsx:113-119 | A refresh calls `/login` with the stored credentials exactly when a user is logged in. |
| Session.Refresh | src/context/AuthContext.tsx:113-131 | Without a user the refresh returns `null` and changes nothing. Success updates only `hasPaid`. Failure keeps the session. The admin session is never touched. |
| Session.RefreshIsReplayedLogin | src/context/AuthContext.tsx:75-131 | A successful refresh equals a login replayed with the stored credentials, in both next state and result. A failed one matches it in state and success flag. |
| Session.BasicHeaderDecodes | src/context/AuthContext.tsx:135 | The admin header is `Basic ` followed by Base64 of the UTF-8 of `user:password`. Decoding it gives back that pair. When the username has no colon, splitting at the first colon gives back the username and the password. |
| Session.BootstrapCalls | src/context/AuthContext.tsx:138-143 | The bootstrap issues the four admin reads, all with the same credential. |
| Session.JoinBootstrap | src/context/AuthContext.tsx:138-143 | `Promise.all` over the four reads succeeds exactly when all four succeed, with their four values. Otherwise it fails with one of the reads' errors. |
| Session.AdminLogin | src/context/AuthContext.tsx:133-166 | Without a Base64 encoder the call rejects before any request. Otherwise it succeeds exactly when the four reads do, storing the admin credentials and returning the data. On failure the state is unchanged and one read's error message, or the fallback, is reported. The user session is never touched. |
| Session.SessionsIndependent | src/context/AuthContext.tsx:75-166 | Login and refresh leave the admin session as it was, and the admin login leaves the user session as it was. |
| FanIn.FirstRejection | src/context/AuthContext.tsx:138-143 | `Promise.all` rejects with the error of the first read to reject in settle order, or resolves when none rejects. |
| FanIn.AllOrNothing | src/pages/Admin.tsx:53-58 | The join has no rejection exactly when every input succeeded. |
| Base64.DecodeEncode | src/context/AuthContext.tsx:60-69 | Base64 encoding (section 4 of RFC 4648, with `=` padding) decodes back to the original bytes. |
| Base64.EncodeLength | src/context/AuthContext.tsx:60-69 | Every started group of three bytes becomes four characters, so the padded encoding is four times the rounded-up number of groups long. |
| Utf8.DecodeEncode | src/context/AuthContext.tsx:60-69 | The UTF-8 bytes of a string, as `unescape(encodeURIComponent(s))` or `Buffer.from(s, "utf-8")` produce them, decode back to the string. |
| UriEncoding.EncodeURIComponent | src/lib/api.ts:103-106 | `encodeURIComponent` leaves only unreserved characters and percent escapes, so its output never holds `&`, `=` or `#`. |
| UriEncoding.ComponentRoundTrip | src/lib/api.ts:103-106 | Percent-decoding `encodeURIComponent(s)` gives back `s`. |
| UriEncoding.FormRoundTrip | src/lib/api.ts:126-134 | Form-decoding the `URLSearchParams` encoding of a string, with `+` read as a space, gives back the string. |
| Checkout.FallbackUrl | src/hooks/use-stripe-checkout.ts:6-8 | The configured checkout URL wins, even when empty. Without one, the built-in Stripe test link is used. |
| Checkout.Invoke | src/hooks/use-stripe-checkout.ts:14-42 | A call made while redirecting does nothing. Otherwise the checkout API is called, then: the session URL is followed on success; on failure the non-empty fallback URL is followed; with an empty fallback the hook goes back to idle and shows the error. At most one navigation happens, and an error is never shown while redirecting. |
| Checkout.PendingInvocationIsNoOp | src/hooks/use-stripe-checkout.ts:14-18 | A second click while the first request is pending sends no request and navigates nowhere. |
| Checkout.AtMostOneNavigation | src/hooks/use-stripe-checkout.ts:14-44 | Over any sequence of invocations the browser is sent away at most once. Once it has been, the hook stays redirecting. |
| Checkout.ErrorNeedsEmptyOverride | src/hooks/use-stripe-checkout.ts:6-42 | An error is shown only when the checkout call failed and the configured fallback is the empty string. |
| Announcements.Read | src/hooks/use-announcements.ts:28-42 | A stored, non-empty text that parses to a non-empty array is the list. Anything else gives the defaults: no window, a storage error, no value, a parse error, a non-array or an empty array. |
| Announcements.Add | src/hooks/use-announcements.ts:60-85 | Adding rejects exactly when the trimmed title or content is empty, with "Titulo e conteudo sao obrigatorios". Otherwise one notice is prepended, with the trimmed fields, an `announcement_` id and the given time, and the same list is shown and stored. |
| Announcements.WithoutId | src/hooks/use-announcements.ts:87-93 | The filtered list holds no item with that id and is no longer than the input. |
| Announcements.WithoutIdCount | src/hooks/use-announcements.ts:87-93 | Filtering keeps each other item's multiplicity and drops every item with that id, so it keeps every other item and adds none. |
| Announcements.Delete | src/hooks/use-announcements.ts:87-93 | Storage receives the filtered list. The screen shows it, or the defaults once it is empty. |
| Announcements.ReloadShowsList | src/hooks/use-announcements.ts:28-93 | After an add or a delete, the next mount reads back from storage exactly the list that was on screen, the defaults included once the list was emptied. |
| Announcements.DeleteTwice | src/hooks/use-announcements.ts:87-93 | A second delete of the same id runs on the list the hook holds. While the first delete left items, the second changes nothing. When the first emptied the list, the hook holds the defaults, so the second writes the defaults without that id to storage. With no default of that id, that is all the defaults, where the first wrote `[]`. |
| Announcements.DeleteUndoesAdd | src/hooks/use-announcements.ts:60-93 | Deleting a notice right after adding it restores the list it was added to, provided the new id was fresh. The screen shows that list too when it was not empty. |
| Strings.TrimEmptyIff | src/hooks/use-announcements.ts:61-65 | `trim()` is empty exactly when the text is all JavaScript white space. |
| Dashboard.Key | src/pages/Dashboard.tsx:137 | `category ?? "geral"`: only a missing category falls back, and an empty one stays empty. |
| Dashboard.Group | src/pages/Dashboard.tsx:135-141 | The intended grouping has distinct keys in first-appearance order. Each group is exactly the recipes of that key, in input order, and is non-empty. Every recipe's key has a group. |
| Dashboard.GroupAsWritten | src/pages/Dashboard.tsx:135-141 | The reduce as written, on an accumulator that inherits from `Object.prototype`. When it does not throw, it gives the intended grouping. |
| Dashboard.GroupAsWrittenFails | src/pages/Dashboard.tsx:135-141 | The reduce as written throws exactly when some recipe's category is a name `{}` inherits, such as `constructor` or `toString`. |
| Dashboard.PrototypeKeyCrashes | src/pages/Dashboard.tsx:135-141 | One recipe in category `constructor` makes the reduce as written throw. The intended grouping puts it in a group of its own. |
| Dashboard.GroupSizesSum | src/pages/Dashboard.tsx:135-141 | The group sizes add up to the number of recipes, so every recipe lands in exactly one group. |
| Dashboard.FirstCategoryIsFirstRecipe | src/pages/Dashboard.tsx:143-144 | The first tab is the first recipe's category, or "geral" when there are no recipes. |
| Dashboard.RecipesCall | src/pages/Dashboard.tsx:59-70 | Recipes are requested exactly for a paying member, with the member's credentials and no category. |
| Dashboard.LoadRecipes | src/pages/Dashboard.tsx:59-87 | Without access the list is emptied. Success shows the recipes and clears the error. Failure keeps the list and shows the error. |
| Dashboard.NoRecipesWithoutAccess | src/pages/Dashboard.tsx:59-64 | A visitor or unpaid member never gets recipes, whatever the call returned. |
| Dashboard.LoadFollowsCall | src/pages/Dashboard.tsx:59-87 | The list follows the call the effect makes. With no call it is empty. A call that returned items shows exactly those. A failed call keeps the old list and shows an error. Running the effect again on the same answer changes nothing. |
| Dashboard.VerifyPayment | src/pages/Dashboard.tsx:89-133 | There is no toast without a user. The toast is "confirmed" for a paying result and "pending" for an unpaid one. A failed result shows its error, `null` shows "could not verify now", and a rejection shows the server-error toast. Only confirmed and pending are non-destructive. |
| Dashboard.VerifyAfterRefresh | src/pages/Dashboard.tsx:89-133 | Driven by the session's refresh, the check confirms exactly when the server reports payment and says pending exactly when it reports none. A failure shows the refresh error. The null and server-error toasts cannot occur. |
| Dashboard.ShowPaymentOverlay | src/pages/Dashboard.tsx:148 | The payment overlay shows exactly for members without access. |
| Dashboard.GreetingName | src/pages/Dashboard.tsx:412 | The greeting is the prefix of the address before its first `@`. |
| Dashboard.GreetingOfAddress | src/pages/Dashboard.tsx:412 | For `local@domain` with no `@` in `local`, the greeting is `local`. |
| Dashboard.LoginRedirect | src/pages/Dashboard.tsx:29-33 | A visitor without a session is sent to `/login`, replacing the current history entry, and only such a visitor is. |
| AdminPage.LoadAdminData | src/pages/Admin.tsx:48-75 | The panel data is replaced exactly when all four reads succeed. Otherwise the previous data stays and one read's error is shown. Loading ends, and the form is untouched. |
| AdminPage.HandleLoginSubmit | src/pages/Admin.tsx:77-95 | A failed admin login shows its error, or "Credenciais inválidas…". A successful one shows the data. A rejected one leaves the form loading. |
| AdminPage.LoginSubmitWithSession | src/pages/Admin.tsx:77-95 | With the session's admin login, the data appears exactly when all four reads succeed, together with the stored admin credentials. A failure keeps the old data and the old session. |
| AdminPage.OnAdminChange | src/pages/Admin.tsx:97-101 | The panel data is dropped exactly when the admin session is gone. |
| AdminPage.EndAdminSession | src/pages/Admin.tsx:248-251 | Ending the admin session clears the admin credentials and the panel data, and keeps the user session. |
| AdminPage.FlipFormVisibility | src/pages/Admin.tsx:307 | The visibility button flips `is_public` and changes nothing else. |
| AdminPage.HandleCreate | src/pages/Admin.tsx:103-118 | Without an admin nothing happens. A created recipe resets the form and reloads the data. A failure keeps the form and shows the error. The form is never left submitting. |
| AdminPage.CreateResetsForm | src/pages/Admin.tsx:103-118 | The form is cleared exactly when the recipe was created. |
| AdminPage.CreateThenReload | src/pages/Admin.tsx:103-118 | After a create, the form is empty whatever the reload did. When the reload succeeds and lists the new recipe, the panel shows a recipe holding what the form sent. When a reload read fails, the old data stays and an error shows, although the recipe was created. |
| AdminPage.HandleDelete | src/pages/Admin.tsx:120-132 | Without an admin nothing happens. A deletion reloads the data, and a failure shows the error. The form is kept and loading ends. |
| AdminPage.DeleteThenReload | src/pages/Admin.tsx:120-132 | After a delete whose reload no longer lists the id, no recipe on the panel has that id. A failed reload keeps the old list and shows an error. |
| AdminPage.TogglePayload | src/pages/Admin.tsx:138-143 | The toggle sends the same title and content, the category or "geral", and the opposite visibility. |
| AdminPage.ToggleTwice | src/pages/Admin.tsx:134-151 | Toggling twice restores visibility, title and content, and pins a missing category to "geral". |
| AdminPage.ToggleCall | src/pages/Admin.tsx:134-143 | The toggle calls `updateAdminRecipe` with the admin credential and the recipe id exactly when an admin is logged in. |
| AdminPage.HandleToggle | src/pages/Admin.tsx:134-151 | Without an admin nothing happens. An update reloads the data, and a failure shows the error. The form is kept and loading ends. |
| AdminPage.ToggleThenReload | src/pages/Admin.tsx:134-151 | After a toggle whose reload lists the recipe as the server stored the update, the panel shows that recipe with its id and text and the opposite visibility. A failed reload keeps the old list and shows an error. |
| SignupPage.HandleSubmit | src/pages/Signup.tsx:29-58 | A failed registration shows its error. A 409 answer shows "account already exists". A created account goes on to log in, then reaches the dashboard, or the login page with "account created" when the login failed. |
| SignupPage.SignupWithSession | src/pages/Signup.tsx:29-58 | With the session's `register`, the page's own "already exists" branch is never reached: a 409 shows the session's message instead. The dashboard is reached exactly when the account was created and the login succeeded. |
| LoginPage.HandleSubmit | src/pages/Login.tsx:25-42 | A failed login shows its error and stays. A paying member goes to the dashboard, replacing history. Anyone else goes to the offer. |
| LoginPage.LoginWithSession | src/pages/Login.tsx:25-42 | With the session's `login`, the dashboard is reached exactly when the server reports payment. The stored `hasPaid` agrees with where the visitor went, and a failure changes no state. |
| LoginPage.RedirectIfLoggedIn | src/pages/Login.tsx:19-23 | A logged-in visitor is sent to the dashboard, and only such a visitor. |
| SiteHeader.MarketingHref | src/components/SiteHeader.tsx:28-30 | On the landing page the first `/#` becomes `#`. Elsewhere, or without `/#`, the href is kept. |
| SiteHeader.MarketingLinksOnHome | src/components/SiteHeader.tsx:8-30 | On the landing page each marketing anchor loses exactly its leading slash. |
| SiteHeader.AppLinks | src/components/SiteHeader.tsx:32-37 | The Dashboard link shows exactly for a user and the Admin link exactly for an admin, Dashboard first. |
| SiteHeader.HealthOf | src/components/SiteHeader.tsx:21-25 | The badge is online exactly when the health call resolved with an object whose `ok` is truthy. Otherwise it is offline. |
| SiteHeader.HealthOfResponse | src/components/SiteHeader.tsx:21-25 | The server's `{"ok": true, "time": …}` JSON answer turns the badge online, and an error status never does. |
| SiteHeader.HandleLogout | src/components/SiteHeader.tsx:39-45 | Logout ends both sessions and closes the menu. It navigates home exactly when not already there. |
| SiteHeader.NoLinksAfterLogout | src/components/SiteHeader.tsx:32-45 | After logging out no app link is left. |

## Left out

- Real I/O is replaced by parameters for its settled outcomes. This covers `fetch`, `window.location.assign`, `localStorage`, `console` and the toast renderer.
- React scheduling is not modelled. That includes effects, re-renders, and the `isMounted` and `cancelled` flags that drop results after unmount. Each handler is modelled once its awaited calls have settled.
- Checkout.Invoke: the double-click guard is modelled on the state the invocation observes. A stale closure that still sees `idle` is not modelled.
- JSON text is not modelled: `JSON.stringify` of request bodies and the text form of `JSON.parse`. Bodies are parsed values, and typed payloads are assumed to have the declared shape.
- JSON numbers are integers, since no operation of the client computes with a fractional number.
- Strings.IntToString: JavaScript numbers are doubles. They hold integers exactly only below 2^53 in magnitude, and `${n}` writes plain decimal only below 1e21. `JSON.parse` rounds a larger id, so the client would request a neighbouring id's path. The model keeps every id exact and writes it in plain decimal. JSON numbers (`Json.JNum`) are rendered the same way.
- Strings.IntToStringInjective holds for the ids the model keeps exact. For JavaScript numbers past 2^53 it states nothing about the rounded values.
- Utf8.DecodeEncode covers scalar characters only. `encodeURIComponent` throws `URIError` on a lone surrogate, and Dafny's `char` cannot hold one. The decoder accepts some overlong forms; only its round trip is stated.
- The choice between `btoa` and `Buffer` is one flag, `hasEncoder`, since both give the same bytes.
- `crypto.randomUUID`, `Math.random` and `Date` become parameters: `uniqueId`, `createdAt` and the default notices' timestamps.
- A failed write to local storage is swallowed by the hook. `ListUpdate.persisted` is the list the hook writes, whether or not the write succeeds.
- Announcements.Defaults has no contract. It is constant data whose timestamps come from the clock.
- Number, currency and date formatting in the pages is presentation only.
- The Dashboard auto-refresh effect (src/pages/Dashboard.tsx:35-57) is not a separate member. Its one call is `Session.Refresh`.
- Dashboard.Group keeps groups in first-appearance order. `Object.keys` lists integer-like keys such as "7" first, in ascending order, and that order is not modelled. The crash on inherited names is modelled separately, by `Dashboard.GroupAsWritten`.
- Dashboard.FirstCategoryIsFirstRecipe holds only when no category name is an integer-like key such as "7". `Object.keys` lists such keys first, in ascending order, while the grouping keeps insertion order.
- The admin list envelopes are not normalised. The code reads `.items` from each list response, and the lists are given as already unwrapped sequences.
- The code has no relative proxy base URL, no image upload, no `imageUrl` field, no currency default and no `PUT /admin/users`, so none of them is modelled.
- The marketing sections, FAQ, footer, loading screen and checkout result pages are static presentation and are not part of this model.

## Findings

| source | as written | input that shows it | evidently intended | confidence | as-written member | corrected member |
|---|---|---|---|---|---|---|
| src/pages/Dashboard.tsx:136-140 | The grouping reduce starts from `{}`, so `acc[key]` also finds the names `{}` inherits from `Object.prototype`. Such a value is truthy and not iterable, so spreading it throws a `TypeError` and the dashboard fails to render. | One recipe whose category is `constructor` (or `toString`, `valueOf`, `__proto__`, ...). | Each category is its own group, as a prototype-free dictionary such as `Object.create(null)` or a `Map` would give. | not executed; high: ECMA-262 array spread requires an iterable | Dashboard.GroupAsWritten, Dashboard.PrototypeKeyCrashes | Dashboard.Group |
