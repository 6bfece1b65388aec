/** The redirect decision of middleware.ts. The session lookup is reduced to
    whether a session exists; cookie plumbing is not part of this model. */
module RouteGate {
  import opened Text

  datatype Decision =
    | PassThrough
    | RedirectToLogin(redirectTo: string)
    | RedirectToDashboard

  /** `protectedRoutes.some(route => pathname.startsWith(route))`. */
  predicate IsProtectedRoute(pathname: string) {
    StartsWith(pathname, "/dashboard") || StartsWith(pathname, "/polls/create")
  }

  /** `authRoutes.includes(pathname)`: an exact match. */
  predicate IsAuthRoute(pathname: string) {
    pathname == "/login" || pathname == "/register"
  }

  /** A protected path without a session goes to the login page, which is
      told where to return; an auth page with a session goes to the
      dashboard; everything else passes through. */
  function Decide(pathname: string, hasSession: bool): (d: Decision)
    ensures d.RedirectToLogin? <==> IsProtectedRoute(pathname) && !hasSession
    ensures d.RedirectToLogin? ==> d.redirectTo == pathname
    ensures d == RedirectToDashboard <==> IsAuthRoute(pathname) && hasSession
    ensures d == PassThrough <==>
      !(IsProtectedRoute(pathname) && !hasSession) && !(IsAuthRoute(pathname) && hasSession)
  {
    if IsProtectedRoute(pathname) && !hasSession then RedirectToLogin(pathname)
    else if IsAuthRoute(pathname) && hasSession then RedirectToDashboard
    else PassThrough
  }

  /** No path is both protected and an auth page, so the order of the two
      checks never matters. */
  lemma ProtectedAndAuthDisjoint(pathname: string)
    ensures !(IsProtectedRoute(pathname) && IsAuthRoute(pathname))
  {
  }

  /** The test is on prefixes: any extension of "/dashboard", such as
      "/dashboardX", is protected too. */
  lemma DashboardPrefixIsProtected(suffix: string)
    ensures IsProtectedRoute("/dashboard" + suffix)
  {
    assert ("/dashboard" + suffix)[..10] == "/dashboard";
  }

  /** The login page is open to a visitor without a session. */
  lemma LoginWithoutSessionPasses()
    ensures Decide("/login", false) == PassThrough
  {
    ProtectedAndAuthDisjoint("/login");
  }
}
