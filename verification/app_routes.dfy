/** The application shell (frontend/src/App.js): which page each route
    shows for the current user, where it redirects otherwise, and how the
    session is restored from and cleared out of browser storage.

    Routes are given already matched: the router's path matching is not
    part of this model. */
module AppRoutes {
  import opened Wrappers
  import Models
  import Client

  datatype Route =
    | LoginRoute
    | DashboardRoute
    | CoursesRoute
    | CoursePlayerRoute(courseId: string)
    | CertificatesRoute
    | AdminAssignRoute
    | AdminUnassignRoute
    | OtherRoute(path: string)

  datatype Page =
    | LoginPage
    | TeamDashboardPage
    | DashboardPage(role: string)
    | CoursesPage
    | CoursePlayerPage(courseId: string)
    | CertificatesPage
    | AssignSupervisorPage
    | UnassignSupervisorPage

  /** What a route renders: a page, or a redirect to another route. */
  datatype View = Show(page: Page) | Redirect(to: Route)

  /** The routes that need a signed-in user. */
  predicate IsProtected(r: Route) {
    r.DashboardRoute? || r.CoursesRoute? || r.CoursePlayerRoute? || r.CertificatesRoute?
  }

  predicate IsAdminRoute(r: Route) {
    r.AdminAssignRoute? || r.AdminUnassignRoute?
  }

  predicate IsAdmin(user: Option<Client.User>) {
    user.Some? && user.value.role == "Admin"
  }

  predicate HasTeamTitle(u: Client.User) {
    u.role == "Team Leader" || u.role == "Care Manager"
  }

  /** The element of each `<Route>`. */
  function Render(r: Route, user: Option<Client.User>): (v: View)
    ensures r.LoginRoute? ==> v == Show(LoginPage)
    ensures IsProtected(r) && user.None? ==> v == Redirect(LoginRoute)
    ensures IsProtected(r) && user.Some? ==> v.Show?
    ensures IsAdminRoute(r) ==> (v.Show? <==> IsAdmin(user))
    ensures IsAdminRoute(r) && !IsAdmin(user) ==> v == Redirect(DashboardRoute)
    ensures r.DashboardRoute? && user.Some? ==> (v == Show(TeamDashboardPage) <==> HasTeamTitle(user.value))
    ensures r.OtherRoute? ==> v == Redirect(LoginRoute)
    ensures v.Show? && v.page != LoginPage ==> user.Some?
  {
    match r
    case LoginRoute => Show(LoginPage)
    case DashboardRoute =>
      if user.None? then Redirect(LoginRoute)
      else if HasTeamTitle(user.value) then Show(TeamDashboardPage)
      else Show(DashboardPage(user.value.role))
    case CoursesRoute => if user.None? then Redirect(LoginRoute) else Show(CoursesPage)
    case CoursePlayerRoute(id) => if user.None? then Redirect(LoginRoute) else Show(CoursePlayerPage(id))
    case CertificatesRoute => if user.None? then Redirect(LoginRoute) else Show(CertificatesPage)
    case AdminAssignRoute => if IsAdmin(user) then Show(AssignSupervisorPage) else Redirect(DashboardRoute)
    case AdminUnassignRoute => if IsAdmin(user) then Show(UnassignSupervisorPage) else Redirect(DashboardRoute)
    case OtherRoute(_) => Redirect(LoginRoute)
  }

  /** How many redirects a route can still take. */
  function Depth(r: Route): nat {
    if r.LoginRoute? then 0 else if IsAdminRoute(r) then 2 else 1
  }

  /** The page finally shown after following the redirects.  Without a
      user every route ends on the login page, and the supervisor
      administration pages are reached by `Admin` only. */
  function Settle(r: Route, user: Option<Client.User>): (p: Page)
    ensures user.None? ==> p == LoginPage
    ensures p == AssignSupervisorPage || p == UnassignSupervisorPage ==> IsAdmin(user)
    ensures p == TeamDashboardPage ==> HasTeamTitle(user.value)
    decreases Depth(r)
  {
    match Render(r, user)
    case Show(p) => p
    case Redirect(to) =>
      assert Depth(to) < Depth(r);
      Settle(to, user)
  }

  /** A signed-in user who is not `Admin` and asks for an administration
      page lands on their dashboard. */
  lemma NonAdminSentToDashboard(r: Route, user: Option<Client.User>)
    requires IsAdminRoute(r) && user.Some? && !IsAdmin(user)
    ensures Settle(r, user) == Settle(DashboardRoute, user)
    ensures Settle(r, user) == TeamDashboardPage || Settle(r, user) == DashboardPage(user.value.role)
  {
  }

  /** The team dashboard needs a title no server role has: a user whose
      role is a `UserRole` value always gets the personal dashboard. */
  lemma ServerRolesGetPersonalDashboard(u: Client.User)
    requires Models.RoleFromValue(u.role).Some?
    ensures Settle(DashboardRoute, Some(u)) == DashboardPage(u.role)
  {
    Models.ManagerTitlesAreNotRoles(Models.RoleFromValue(u.role).value);
  }

  /** Browser storage: keys to strings. */
  type Storage = map<string, string>

  /** A stored value that is present and not empty. */
  predicate Truthy(storage: Storage, key: string) {
    key in storage && storage[key] != ""
  }

  /** The start-up effect: the saved user is restored only when both the
      token and the user are stored; `parse` is `JSON.parse`, whose failure
      (or a parsed `null`) leaves no user. */
  function Restore(storage: Storage, parse: string -> Option<Client.User>): (user: Option<Client.User>)
    ensures user.Some? ==> Truthy(storage, "token") && Truthy(storage, "user") && user == parse(storage["user"])
    ensures Truthy(storage, "token") && Truthy(storage, "user") ==> user == parse(storage["user"])
  {
    if Truthy(storage, "token") && Truthy(storage, "user") then parse(storage["user"]) else None
  }

  /** `handleLogout`: both keys removed, every other key kept, and no
      current user. */
  function Logout(storage: Storage): (r: (Storage, Option<Client.User>))
    ensures "token" !in r.0 && "user" !in r.0
    ensures forall k :: k != "token" && k != "user" ==> (k in r.0 <==> k in storage)
    ensures forall k :: k in r.0 ==> r.0[k] == storage[k]
    ensures r.1.None?
  {
    (storage - {"token", "user"}, None)
  }

  /** After a logout, reloading the application restores nobody. */
  lemma NoRestoreAfterLogout(storage: Storage, parse: string -> Option<Client.User>)
    ensures Restore(Logout(storage).0, parse).None?
  {
  }
}
