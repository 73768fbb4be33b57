/** The authentication flag and route guard (src/App.tsx). The flag starts
    from the stored `habittrack:auth` value, login sets it and stores "true",
    logout clears both and goes to the login page. The route table decides,
    for each path and each value of the flag, which page is shown or where
    the router redirects. */
module Auth {
  import opened Wrappers

  /** The value login writes under the storage key `habittrack:auth`. */
  const AuthTrue: string := "true"

  datatype Page = LandingPage | LoginPage | RegisterPage | ForgotPasswordPage | DashboardView

  datatype RouteResult = Show(page: Page) | Redirect(to: string) | NoMatch

  /** The paths the router knows. */
  const Paths: set<string> := {"/", "/login", "/register", "/forgot-password", "/dashboard"}

  /** The `<Routes>` table. */
  function Route(path: string, isAuthenticated: bool): (r: RouteResult)
    ensures r == NoMatch <==> path !in Paths
    ensures r.Redirect? ==> r.to in Paths && r.to != path
  {
    if path == "/" then
      if isAuthenticated then Redirect("/dashboard") else Show(LandingPage)
    else if path == "/login" then
      if isAuthenticated then Redirect("/dashboard") else Show(LoginPage)
    else if path == "/register" then
      if isAuthenticated then Redirect("/dashboard") else Show(RegisterPage)
    else if path == "/forgot-password" then
      if isAuthenticated then Redirect("/dashboard") else Show(ForgotPasswordPage)
    else if path == "/dashboard" then
      if isAuthenticated then Show(DashboardView) else Redirect("/")
    else NoMatch
  }

  /** What is on screen after the router has followed a `<Navigate>`. */
  function Resolve(path: string, isAuthenticated: bool): (r: RouteResult)
    ensures !r.Redirect?
    ensures r == NoMatch <==> path !in Paths
  {
    match Route(path, isAuthenticated)
    case Redirect(to) => Route(to, isAuthenticated)
    case other => other
  }

  /** The guard: from every known path one redirect at most leads to a page,
      and that page is the dashboard exactly when the user is authenticated.
      The redirects never chain or loop. */
  lemma RouteGuard(path: string, isAuthenticated: bool)
    requires path in Paths
    ensures Resolve(path, isAuthenticated).Show?
    ensures Resolve(path, isAuthenticated).page == DashboardView <==> isAuthenticated
    ensures Route(path, isAuthenticated).Redirect? ==> Route(Route(path, isAuthenticated).to, isAuthenticated).Show?
  {
  }

  /** Authenticated users are sent from every public page to the dashboard;
      unauthenticated users are sent from the dashboard to the landing page. */
  lemma RedirectTable()
    ensures forall p | p in Paths && p != "/dashboard" :: Route(p, true) == Redirect("/dashboard")
    ensures Route("/dashboard", false) == Redirect("/")
    ensures Route("/dashboard", true) == Show(DashboardView)
  {
  }

  /** The `AppContent` component: the flag, the stored value and the current
      location. */
  class AppContent {
    var isAuthenticated: bool
    /** `localStorage.getItem('habittrack:auth')`, `None` when absent. */
    var storedAuth: Option<string>
    var location: string

    /** The flag agrees with what a reload would read back from storage. */
    ghost predicate Valid()
      reads this
    {
      isAuthenticated <==> storedAuth == Some(AuthTrue)
    }

    constructor(stored: Option<string>, location: string)
      ensures isAuthenticated <==> stored == Some(AuthTrue)
      ensures storedAuth == stored && this.location == location
      ensures Valid()
    {
      isAuthenticated := stored == Some(AuthTrue);
      storedAuth := stored;
      this.location := location;
    }

    /** handleLogin: the login page then sees a redirect to the dashboard. */
    method HandleLogin()
      modifies this
      ensures isAuthenticated && storedAuth == Some(AuthTrue)
      ensures location == old(location)
      ensures Valid()
      ensures location in Paths ==> Resolve(location, isAuthenticated) == Show(DashboardView)
    {
      isAuthenticated := true;
      storedAuth := Some(AuthTrue);
      if location in Paths {
        RouteGuard(location, isAuthenticated);
      }
    }

    /** handleLogout: clears the flag, removes the stored key and navigates
        to the login page, which is then shown. */
    method HandleLogout()
      modifies this
      ensures !isAuthenticated && storedAuth == None
      ensures location == "/login"
      ensures Valid()
      ensures Resolve(location, isAuthenticated) == Show(LoginPage)
    {
      isAuthenticated := false;
      storedAuth := None;
      location := "/login";
    }
  }
}
