/** The navigation bar of `src/components/SiteHeader.tsx`: marketing anchors, the links
    a session unlocks, the API health badge and the logout button. */
module SiteHeader {
  import opened Wrappers
  import opened Strings
  import opened Json
  import Api
  import Session

  const Home: string := "/"

  /** The marketing anchors, which point at sections of the landing page. */
  const MarketingLinks: seq<string> := ["/#hero", "/#offer", "/#faq"]

  /** `marketingHref(href)`: on the landing page the first `/#` becomes `#`, so the
      anchor scrolls instead of navigating; elsewhere the href is kept. */
  function MarketingHref(pathname: string, href: string): (r: string)
    ensures pathname != Home ==> r == href
    ensures pathname == Home && !Includes(href, "/#") ==> r == href
    ensures pathname == Home && Includes(href, "/#") ==>
      exists k: nat ::
        && OccursAt(href, "/#", k) && r == href[..k] + "#" + href[k + 2..]
        && forall j: nat :: j < k ==> !OccursAt(href, "/#", j)
  {
    if pathname == Home then ReplaceFirst(href, "/#", "#") else href
  }

  /** On the landing page each anchor loses only its leading slash. */
  lemma MarketingLinksOnHome()
    ensures forall i :: 0 <= i < |MarketingLinks| ==> MarketingHref(Home, MarketingLinks[i]) == MarketingLinks[i][1..]
  {
    forall i | 0 <= i < |MarketingLinks| ensures MarketingHref(Home, MarketingLinks[i]) == MarketingLinks[i][1..] {
      var h := MarketingLinks[i];
      assert OccursAt(h, "/#", 0);
      IncludesIff(h, "/#");
      assert h[..0] + "#" + h[2..] == h[1..];
    }
  }

  datatype AppLink = AppLink(text: string, to: string)

  const DashboardLink: AppLink := AppLink("Dashboard", "/dashboard")
  const AdminLink: AppLink := AppLink("Admin", "/admin")

  /** `appLinks`: Dashboard for a logged-in member, then Admin for an admin session. */
  function AppLinks(s: Session.State): (links: seq<AppLink>)
    ensures DashboardLink in links <==> s.user.Some?
    ensures AdminLink in links <==> s.admin.Some?
    ensures |links| == (if s.user.Some? then 1 else 0) + (if s.admin.Some? then 1 else 0)
    ensures s.user.Some? ==> links[0] == DashboardLink
  {
    (if s.user.Some? then [DashboardLink] else []) + (if s.admin.Some? then [AdminLink] else [])
  }

  datatype Health = Loading | Online | Offline

  /** The badge once `healthCheck()` settled: `response.ok` decides, and reading `ok` off a
      missing or `null` body throws, which the catch turns into offline too. */
  function HealthOf(outcome: Result<Option<Json>, Api.Thrown>): (h: Health)
    ensures h != Loading
    ensures h == Online <==>
      outcome.Success? && outcome.value.Some? && outcome.value.value.JObj?
      && Member(outcome.value.value, "ok").Some? && Truthy(Member(outcome.value.value, "ok").value)
  {
    match outcome
    case Failure(_) => Offline
    case Success(None) => Offline
    case Success(Some(v)) =>
      match Member(v, "ok")
      case Some(ok) => if Truthy(ok) then Online else Offline
      case None => Offline
  }

  /** The health endpoint's answer `{"ok": true, ...}` turns the badge online, and an error
      response never does. */
  lemma HealthOfResponse(resp: Api.Response, time: string)
    ensures (
      && resp.contentType == Some(Api.JsonMediaType) && Api.IsOk(resp.status)
      && resp.body == Api.Parsed(JObj([("ok", JBool(true)), ("time", JStr(time))]))
    ) ==> HealthOf(Api.ApiFetch("/health", false, Success(resp))) == Online
    ensures !Api.IsOk(resp.status) ==> HealthOf(Api.ApiFetch("/health", false, Success(resp))) == Offline
  {
    if resp.contentType == Some(Api.JsonMediaType) {
      assert Includes(Api.JsonMediaType, Api.JsonMediaType) by {
        assert OccursAt(Api.JsonMediaType, Api.JsonMediaType, 0);
        IncludesIff(Api.JsonMediaType, Api.JsonMediaType);
      }
      var fields := [("ok", JBool(true)), ("time", JStr(time))];
      assert fields[1].0 != "ok";
      assert fields[..1] == [("ok", JBool(true))];
      assert LastValue(fields, "ok") == LastValue(fields[..1], "ok");
      assert LastValue(fields[..1], "ok") == Some(JBool(true));
      assert Member(JObj(fields), "ok") == Some(JBool(true));
    }
  }

  datatype LogoutEnd = LogoutEnd(state: Session.State, menuOpen: bool, nav: Option<string>)

  /** `handleLogout()`: the session ends, the menu closes, and the visitor goes home unless
      already there. */
  function HandleLogout(s: Session.State, pathname: string): (r: LogoutEnd)
    ensures r.state.user.None? && r.state.admin.None? && !r.menuOpen
    ensures r.nav.Some? <==> pathname != Home
    ensures r.nav.Some? ==> r.nav.value == Home
  {
    LogoutEnd(Session.Logout(s), false, if pathname != Home then Some(Home) else None)
  }

  /** After logging out no app link is left. */
  lemma NoLinksAfterLogout(s: Session.State, pathname: string)
    ensures AppLinks(HandleLogout(s, pathname).state) == []
  {
  }
}
