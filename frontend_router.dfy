/**
 * The front end's route table and the navigation guard in front of every route
 * (`router/index.ts`). Only the sign-in page is public; everything else needs a signed-in user.
 */
module FrontendRouter {
  import opened Wrappers

  /** One entry of the route table: a page with its name and `meta`, or a redirect. */
  datatype RouteRecord =
    | Page(path: string, name: string, isPublic: bool, requiresAuth: bool)
    | Redirect(pattern: string, to: string)

  const LOGIN := "login"
  const HOME := "home"

  /** The route table in declaration order; the last entry catches every other path. */
  const ROUTES: seq<RouteRecord> := [
    Page("/login", LOGIN, true, false),
    Page("/", HOME, false, true),
    Page("/stocks", "stocks-home", false, true),
    Page("/stocks/comprehensive", "stocks-comprehensive", false, true),
    Page("/stocks/structured", "stocks-structured", false, true),
    Page("/stocks/kline", "stocks-kline", false, true),
    Page("/stocks/history", "stocks-history", false, true),
    Page("/news", "news", false, true),
    Redirect("/:pathMatch(.*)*", "/")
  ]

  /** The page a path lands on: the first page with that path, else the page the catch-all
      redirect leads to. */
  function Resolve(path: string): (r: RouteRecord)
    ensures r.Page? && r in ROUTES
    ensures (exists i :: 0 <= i < |ROUTES| - 1 && ROUTES[i].path == path) ==> r.path == path
    ensures (forall i :: 0 <= i < |ROUTES| - 1 ==> ROUTES[i].path != path) ==> r == ROUTES[1]
  {
    ResolveFrom(0, path)
  }

  /** The matching from the `i`-th entry on. */
  function ResolveFrom(i: nat, path: string): (r: RouteRecord)
    requires i <= |ROUTES| - 1
    decreases |ROUTES| - 1 - i
    ensures r.Page? && r in ROUTES
    ensures (exists j :: i <= j < |ROUTES| - 1 && ROUTES[j].path == path) ==> r.path == path
    ensures (forall j :: i <= j < |ROUTES| - 1 ==> ROUTES[j].path != path) ==> r == ROUTES[1]
  {
    if i == |ROUTES| - 1 then ROUTES[1]
    else if ROUTES[i].path == path then ROUTES[i]
    else ResolveFrom(i + 1, path)
  }

  /** Only the sign-in page is public, and every other page requires a signed-in user. */
  lemma OnlyLoginIsPublic(path: string)
    ensures Resolve(path).isPublic <==> Resolve(path).name == LOGIN
    ensures !Resolve(path).isPublic ==> Resolve(path).requiresAuth
  {
  }

  /** Where a navigation is headed: the matched route's name, its `meta.public` and the full
      path of the target. */
  datatype Target = Target(name: Option<string>, isPublic: bool, fullPath: string)

  function TargetOf(path: string): Target {
    var page := Resolve(path);
    Target(Some(page.name), page.isPublic, page.path)
  }

  /** What `beforeEach` tells the router. */
  datatype Decision = Proceed | ToLogin(redirect: string) | ToHome

  /** The guard: a non-public target without a signed-in user goes to the sign-in page,
      remembering where it was headed; the sign-in page with a signed-in user goes home;
      everything else proceeds. */
  function Guard(to: Target, authenticated: bool): (d: Decision)
    ensures d.ToLogin? <==> !to.isPublic && !authenticated
    ensures d.ToLogin? ==> d.redirect == to.fullPath
    ensures d == ToHome <==> to.name == Some(LOGIN) && authenticated
    ensures d == Proceed <==> (to.isPublic || authenticated) && !(to.name == Some(LOGIN) && authenticated)
  {
    if !to.isPublic && !authenticated then ToLogin(to.fullPath)
    else if to.name == Some(LOGIN) && authenticated then ToHome
    else Proceed
  }

  /** A signed-out user can always reach the sign-in page. */
  lemma LoginReachableSignedOut()
    ensures Guard(TargetOf("/login"), false) == Proceed
  {
  }

  /** Every redirect the guard issues lands on a page the guard then lets through, so a
      navigation settles after at most one redirect. */
  lemma GuardSettlesAfterOneRedirect(path: string, authenticated: bool)
    ensures Guard(TargetOf(path), authenticated).ToLogin? ==> Guard(TargetOf("/login"), authenticated) == Proceed
    ensures Guard(TargetOf(path), authenticated).ToHome? ==> Guard(TargetOf("/"), authenticated) == Proceed
  {
    assert Resolve("/login") == ROUTES[0];
    assert Resolve("/") == ROUTES[1];
  }

  /** A signed-out visit to any page but the sign-in page is sent to sign in, and a path the
      table does not know is first redirected to `/`. */
  lemma SignedOutVisitGoesToLogin(path: string)
    requires path != "/login"
    ensures Guard(TargetOf(path), false) == ToLogin(Resolve(path).path)
    ensures (forall i :: 0 <= i < |ROUTES| - 1 ==> ROUTES[i].path != path) ==>
              Guard(TargetOf(path), false) == ToLogin("/")
  {
    assert ROUTES[0].path == "/login";
  }
}
