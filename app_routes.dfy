/** The application's route table and what a visit to a path shows,
    with the route guard applied to the guarded routes. */
module AppRoutes {
  import opened Common
  import opened Records
  import opened ProtectedRoute

  datatype Page = HomePage | AboutPage | LoginPage | SignUpPage | NotesPage | ProfilePage | AdminPage

  /** An entry of the table: a page shown as it is, a page behind the
      guard (with the role it requires, if any), or the catch-all redirect. */
  datatype Route = Open(page: Page) | Guarded(page: Page, role: Option<Role>) | Redirect(to: string)

  /** The `<Routes>` table, first matching entry wins. */
  function RouteFor(path: string): (r: Route)
    ensures r.Open? <==> path == "/" || path == "/about" || path == "/login" || path == "/signup"
    ensures r.Guarded? && r.role.None? <==> path == "/notes" || path == "/profile"
    ensures r.Guarded? && r.role == Some(Admin) <==> path == "/admin"
    ensures r.Guarded? ==> r.role != Some(Student) && r.role != Some(Faculty)
    ensures r.Redirect? ==> r.to == "/"
    ensures path == "/" ==> r.page == HomePage
    ensures path == "/about" ==> r.page == AboutPage
    ensures path == "/login" ==> r.page == LoginPage
    ensures path == "/signup" ==> r.page == SignUpPage
    ensures path == "/notes" ==> r.page == NotesPage
    ensures path == "/profile" ==> r.page == ProfilePage
    ensures path == "/admin" ==> r.page == AdminPage
  {
    match path
    case "/" => Open(HomePage)
    case "/about" => Open(AboutPage)
    case "/login" => Open(LoginPage)
    case "/signup" => Open(SignUpPage)
    case "/notes" => Guarded(NotesPage, None)
    case "/profile" => Guarded(ProfilePage, None)
    case "/admin" => Guarded(AdminPage, Some(Admin))
    case _ => Redirect("/")
  }

  /** The session as the auth provider reports it. */
  datatype Session = Session(loading: bool, user: Option<User>, profile: Option<Profile>)

  /** What the browser ends up with on one visit. */
  datatype Screen = Loading | Navigate(to: string) | Show(page: Page)

  function Visit(path: string, s: Session): (screen: Screen)
    ensures screen == Loading <==> RouteFor(path).Guarded? && s.loading
    ensures screen.Show? ==> !RouteFor(path).Redirect? && screen.page == RouteFor(path).page
    ensures RouteFor(path).Open? ==> screen == Show(RouteFor(path).page)
    ensures RouteFor(path).Guarded? ==>
      (screen.Show? <==>
         && !s.loading && s.user.Some?
         && (RouteFor(path).role.None? || (s.profile.Some? && s.profile.value.role == RouteFor(path).role.value)))
    ensures screen.Navigate? ==> screen.to == "/" || screen.to == "/login" || screen.to == "/notes"
  {
    match RouteFor(path)
    case Open(p) => Show(p)
    case Redirect(to) => Navigate(to)
    case Guarded(p, role) =>
      match Decide(s.loading, s.user, s.profile, role)
      case ShowSpinner => Loading
      case ToLogin => Navigate("/login")
      case ToNotes => Navigate("/notes")
      case RenderChildren => Show(p)
  }

  /** The admin dashboard: a visitor without a session lands on the login
      page, a signed-in non-admin on the Notes page, and only an admin
      profile sees it. */
  lemma AdminRouteOutcomes(s: Session)
    ensures !s.loading && s.user.None? ==> Visit("/admin", s) == Navigate("/login")
    ensures !s.loading && s.user.Some? && (s.profile.None? || s.profile.value.role != Admin) ==>
      Visit("/admin", s) == Navigate("/notes")
    ensures Visit("/admin", s) == Show(AdminPage) <==>
      !s.loading && s.user.Some? && s.profile.Some? && s.profile.value.role == Admin
  {
  }

  /** Following redirects from any path at most `hops` times. */
  function Settle(path: string, s: Session, hops: nat): Screen
    decreases hops
  {
    var screen := Visit(path, s);
    if screen.Navigate? && hops > 0 then Settle(screen.to, s, hops - 1) else screen
  }

  /** There are no redirect chains: after at most one redirect every
      visit shows a page, or the spinner while the session is still loading. */
  lemma {:induction false} OneRedirectSettles(path: string, s: Session)
    ensures !Settle(path, s, 1).Navigate?
    ensures Settle(path, s, 1).Loading? ==> s.loading
  {
    var first := Visit(path, s);
    if first.Navigate? {
      assert first.to == "/" || first.to == "/login" || (first.to == "/notes" && s.user.Some?);
    }
  }
}
