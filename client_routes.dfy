/**
 * The client's routing decisions (client/src/App.jsx): `ProtectedRoute` and the
 * role-based redirects of `AppRoutes`. The signed-in user is represented by
 * their role.
 */
module ClientRoutes {
  import opened Wrappers
  import opened Users

  /** The authentication context: still loading, and the signed-in user's role if any. */
  datatype AuthState = AuthState(loading: bool, user: Option<Role>)

  datatype Page = HomePage | LoginPage | RegisterPage | ReportPage | DashboardPage | MapPage

  /** What a route renders: nothing, a page, or a redirect to another path. */
  datatype Screen = Nothing | Show(page: Page) | Redirect(to: string)

  /** Where a signed-in user is sent from the public pages. */
  function Landing(role: Role): (path: string)
    ensures path == "/dashboard" <==> role.Admin?
    ensures path == "/report" <==> role.Staff?
  {
    if role.Admin? then "/dashboard" else "/report"
  }

  /** `ProtectedRoute` around `page`. */
  function Guard(state: AuthState, adminOnly: bool, page: Page): (s: Screen)
    ensures s.Show? ==> s.page == page
  {
    if state.loading then Nothing
    else if state.user.None? then Redirect("/login")
    else if adminOnly && state.user.value != Admin then Redirect("/report")
    else Show(page)
  }

  /** A public page: shown to a visitor, a redirect to the landing page for a signed-in user. */
  function PublicPage(state: AuthState, page: Page): Screen
  {
    if state.user.None? then Show(page) else Redirect(Landing(state.user.value))
  }

  /** The route table of `AppRoutes`. */
  function Route(path: string, state: AuthState): Screen
  {
    if path == "/" then PublicPage(state, HomePage)
    else if path == "/login" then PublicPage(state, LoginPage)
    else if path == "/register" then PublicPage(state, RegisterPage)
    else if path == "/report" then Guard(state, false, ReportPage)
    else if path == "/dashboard" then Guard(state, true, DashboardPage)
    else if path == "/map" then Guard(state, true, MapPage)
    else Redirect("/")
  }

  /**
   * The guard decides in order: nothing while loading, then the login page for
   * a visitor, then the report page for a non-admin on an admin-only route;
   * the page is shown only to a signed-in user, and an admin-only page only to
   * an admin.
   */
  lemma GuardDecision(state: AuthState, adminOnly: bool, page: Page)
    ensures state.loading ==> Guard(state, adminOnly, page) == Nothing
    ensures !state.loading && state.user.None? ==> Guard(state, adminOnly, page) == Redirect("/login")
    ensures Guard(state, adminOnly, page).Show? <==>
      !state.loading && state.user.Some? && (adminOnly ==> state.user.value == Admin)
  {
  }

  /** Every page a route shows is one its viewer may see. */
  lemma RouteShowsAllowed(path: string, state: AuthState)
    requires Route(path, state).Show?
    ensures var p := Route(path, state).page;
      && (p == HomePage || p == LoginPage || p == RegisterPage ==> state.user.None?)
      && (p == ReportPage ==> state.user.Some?)
      && (p == DashboardPage || p == MapPage ==> state.user == Some(Admin))
  {
  }

  /** A path outside the table redirects home. */
  lemma UnknownPath(path: string, state: AuthState)
    requires path !in {"/", "/login", "/register", "/report", "/dashboard", "/map"}
    ensures Route(path, state) == Redirect("/")
  {
  }

  /** The screen reached after following at most `hops` redirects. */
  function Resolve(path: string, state: AuthState, hops: nat): Screen
    decreases hops
  {
    match Route(path, state)
    case Redirect(to) => if hops == 0 then Redirect(to) else Resolve(to, state, hops - 1)
    case s => s
  }

  /**
   * Redirects never loop: once loading is over, any path shows a page after at
   * most two redirects, and that page is the login page for a visitor who asked
   * for a protected page, the landing page of a signed-in user who asked for a
   * public or unknown page.
   */
  lemma {:induction false} RoutesSettle(path: string, state: AuthState)
    requires !state.loading
    ensures Resolve(path, state, 2).Show?
    ensures state.user == Some(Admin) && path !in {"/report", "/map"} ==> Resolve(path, state, 2) == Show(DashboardPage)
    ensures state.user == Some(Staff) ==> Resolve(path, state, 2) == Show(ReportPage)
  {
    LandingSettles(state);
    match Route(path, state)
    case Redirect(to) =>
      assert to in {"/", "/login", "/report", "/dashboard"};
      if to == "/" {
        assert Resolve(to, state, 1) == Resolve("/", state, 1);
      }
    case _ =>
  }

  /** From home, and from the landing pages, a signed-in user settles after at most one redirect. */
  lemma LandingSettles(state: AuthState)
    requires !state.loading
    ensures Resolve("/", state, 1).Show? && Resolve("/login", state, 1).Show?
    ensures Resolve("/report", state, 1).Show? && Resolve("/dashboard", state, 1).Show?
    ensures state.user == Some(Admin) ==> Resolve("/", state, 1) == Show(DashboardPage)
    ensures state.user == Some(Admin) ==> Resolve("/dashboard", state, 1) == Show(DashboardPage)
    ensures state.user == Some(Staff) ==> Resolve("/", state, 1) == Show(ReportPage)
    ensures state.user == Some(Staff) ==> Resolve("/report", state, 1) == Show(ReportPage)
    ensures state.user == Some(Staff) ==> Resolve("/dashboard", state, 1) == Show(ReportPage)
  {
    if state.user.Some? {
      assert Route(Landing(state.user.value), state).Show?;
    }
  }
}
