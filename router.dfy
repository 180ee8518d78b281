/**
 * The browser's route table and its authentication guard: pages marked as
 * needing a login send a visitor without a token to the login page, and a
 * logged-in visitor asking for the login or registration page is sent to
 * the dashboard.
 */
module Router {
  import opened JsValues

  const LoginPath := "/login"
  const RegisterPath := "/register"
  const DashboardPath := "/dashboard"

  /** A route of the table, by its full path: where it redirects, and
      whether it (or a parent) carries `meta.requiresAuth`. */
  datatype RouteRecord = RouteRecord(path: string, redirect: Option<string>, requiresAuth: bool)

  /** The navigation target the guard sees: its path and its merged meta flag. */
  datatype Target = Target(path: string, requiresAuth: bool)

  /** The stored `authToken`; `None` when nothing is stored. An empty string
      is stored but falsy. */
  predicate HasToken(token: Option<string>)
  {
    token.Some? && token.value != ""
  }

  /** The guard of `router.beforeEach`: `Some(path)` redirects, `None` lets
      the navigation through. */
  function Guard(to: Target, token: Option<string>): (r: Option<string>)
    ensures r == Some(LoginPath) <==> to.requiresAuth && !HasToken(token)
    ensures r == Some(DashboardPath) <==> (to.path == LoginPath || to.path == RegisterPath) && HasToken(token)
    ensures r.Some? ==> r == Some(LoginPath) || r == Some(DashboardPath)
  {
    if to.requiresAuth && !HasToken(token) then Some(LoginPath)
    else if (to.path == LoginPath || to.path == RegisterPath) && HasToken(token) then Some(DashboardPath)
    else None
  }

  /** The route table with its nested routes written out as full paths. */
  const Routes: seq<RouteRecord> := [
    RouteRecord("/", Some(LoginPath), false),
    RouteRecord(LoginPath, None, false),
    RouteRecord(RegisterPath, None, false),
    RouteRecord("/forgot-password", None, false),
    RouteRecord("/reset-password", None, false),
    RouteRecord("/auth/login", None, false),
    RouteRecord("/auth/register", None, false),
    RouteRecord("/auth/forgot-password", None, false),
    RouteRecord("/auth/reset-password", None, false),
    RouteRecord(DashboardPath, None, true),
    RouteRecord("/dashboard/profile", None, true),
    RouteRecord("/dashboard/settings", None, true),
    RouteRecord("/preferences", None, true),
    RouteRecord("/movies", None, true),
    RouteRecord("/favorites", None, true)]

  /** The first route whose path is `path`, from position `i` on. */
  function Find(routes: seq<RouteRecord>, path: string, i: nat): (r: Option<RouteRecord>)
    requires i <= |routes|
    ensures r.Some? ==> r.value in routes[i..] && r.value.path == path
    ensures r.None? ==> forall j :: i <= j < |routes| ==> routes[j].path != path
    decreases |routes| - i
  {
    if i == |routes| then None
    else if routes[i].path == path then Some(routes[i])
    else Find(routes, path, i + 1)
  }

  /** What the guard sees for a path: a path no route matches has no meta. */
  function TargetOf(path: string): (t: Target)
    ensures t.path == path
    ensures t.requiresAuth <==> exists j :: 0 <= j < |Routes| && Routes[j].path == path && Routes[j].requiresAuth
  {
    var r := Find(Routes, path, 0);
    RoutePathsDistinct();
    Target(path, r.Some? && r.value.requiresAuth)
  }

  /** No path appears twice in the table, so the first match is the only one. */
  lemma RoutePathsDistinct()
    ensures forall i, j :: 0 <= i < j < |Routes| ==> Routes[i].path != Routes[j].path
  {
  }

  /** Where a navigation to `path` ends: the table's own redirect is applied
      first, then the guard, whose redirect is itself guarded again. */
  function Destination(path: string, token: Option<string>): string
  {
    var r := Find(Routes, path, 0);
    var p := if r.Some? && r.value.redirect.Some? then r.value.redirect.value else path;
    match Guard(TargetOf(p), token)
    case None => p
    case Some(q) => if Guard(TargetOf(q), token).Some? then Guard(TargetOf(q), token).value else q
  }

  lemma LoginRoute()
    ensures TargetOf(LoginPath) == Target(LoginPath, false)
  {
    assert Routes[0].path == "/" && |"/"| != |LoginPath|;
    assert Routes[1] == RouteRecord(LoginPath, None, false);
    assert Find(Routes, LoginPath, 1) == Some(Routes[1]);
  }

  /** Only the root route redirects, and it needs no login. */
  lemma OnlyRootRedirects(j: nat)
    requires j < |Routes|
    ensures Routes[j].redirect.Some? ==> j == 0 && !Routes[j].requiresAuth
  {
  }

  lemma DashboardRoute()
    ensures TargetOf(DashboardPath) == Target(DashboardPath, true)
  {
    assert Routes[9] == RouteRecord(DashboardPath, None, true);
    assert forall j :: 0 <= j < 9 ==> |Routes[j].path| != |DashboardPath|;
    FindSkips(Routes, DashboardPath, 0, 9);
  }

  /** A redirect made by the guard is never redirected again: the login
      page is reached only without a token, and the dashboard only with one. */
  lemma GuardRedirectIsFinal(to: Target, token: Option<string>)
    requires Guard(to, token).Some?
    ensures Guard(TargetOf(Guard(to, token).value), token) == None
  {
    LoginRoute();
    DashboardRoute();
  }

  /** A visitor without a token who asks for a protected route ends on the
      login page. */
  lemma ProtectedNeedsToken(path: string, token: Option<string>)
    requires TargetOf(path).requiresAuth && !HasToken(token)
    ensures Destination(path, token) == LoginPath
  {
    var r := Find(Routes, path, 0);
    assert r.Some? && r.value.requiresAuth;
    var j :| 0 <= j < |Routes| && Routes[j] == r.value;
    OnlyRootRedirects(j);
    LoginRoute();
  }

  /** The root path ends on the login page without a token and on the
      dashboard with one. */
  lemma RootDestination(token: Option<string>)
    ensures Destination("/", token) == (if HasToken(token) then DashboardPath else LoginPath)
  {
    assert Find(Routes, "/", 0) == Some(Routes[0]);
    LoginRoute();
    DashboardRoute();
  }

  /** Routes before position `k` that do not match are passed over. */
  lemma {:induction false} FindSkips(routes: seq<RouteRecord>, path: string, i: nat, k: nat)
    requires i <= k <= |routes|
    requires forall j :: i <= j < k ==> routes[j].path != path
    ensures Find(routes, path, i) == Find(routes, path, k)
    decreases k - i
  {
    if i < k {
      FindSkips(routes, path, i + 1, k);
    }
  }

  lemma LegacyLoginRoute()
    ensures Find(Routes, "/auth/login", 0) == Some(RouteRecord("/auth/login", None, false))
  {
    var p := "/auth/login";
    assert Routes[5] == RouteRecord(p, None, false);
    assert forall j :: 0 <= j < 5 ==> |Routes[j].path| != |p|;
    FindSkips(Routes, p, 0, 5);
  }

  /** The older `/auth/login` path is not covered by the guard's login check:
      a logged-in visitor stays there. */
  lemma LegacyLoginNotRedirected(token: Option<string>)
    ensures Destination("/auth/login", token) == "/auth/login"
  {
    var p := "/auth/login";
    LegacyLoginRoute();
    assert |p| != |LoginPath| && |p| != |RegisterPath|;
    assert TargetOf(p) == Target(p, false);
    assert Guard(TargetOf(p), token) == None;
  }

  /** Every destination lets the guard through: navigation always settles. */
  lemma DestinationSettles(path: string, token: Option<string>)
    ensures Guard(TargetOf(Destination(path, token)), token) == None
  {
    var r := Find(Routes, path, 0);
    var p := if r.Some? && r.value.redirect.Some? then r.value.redirect.value else path;
    if Guard(TargetOf(p), token).Some? {
      GuardRedirectIsFinal(TargetOf(p), token);
    }
  }
}
