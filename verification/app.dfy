/** The route table and its guard (`App.jsx`), and how sign-in and profile
    completion hand a user on to the dashboard. */
module App {
  import opened Results
  import opened Backend
  import Text
  import Profile
  import Login

  datatype Page = LandingPage | LoginPage | CompleteProfilePage | DashboardPage

  /** What a route renders: the loading spinner, a `<Navigate replace>` to
      another path, or a page. */
  datatype Screen = Spinner | NavigateTo(path: string) | Show(page: Page)

  /** The auth listener's state as `ProtectedRoute` holds it. */
  datatype AuthState = AuthState(loading: bool, signedIn: bool)

  /** `ProtectedRoute`: the spinner until the first auth report, then the
      page for a signed-in user and the login page for anyone else. */
  function ProtectedRoute(auth: AuthState, page: Page): (s: Screen)
    ensures auth.loading ==> s == Spinner
    ensures !auth.loading && !auth.signedIn ==> s == NavigateTo("/login")
    ensures !auth.loading && auth.signedIn ==> s == Show(page)
  {
    if auth.loading then Spinner
    else if !auth.signedIn then NavigateTo("/login")
    else Show(page)
  }

  /** The route table: two public pages, two guarded ones, and every other
      path sent to `/`. Paths are compared as given. */
  function Route(path: string, auth: AuthState): (s: Screen)
    ensures s.Show? ==> PathOf(s.page) == path
    ensures s.Show? && Guarded(s.page) ==> !auth.loading && auth.signedIn
    ensures s == Spinner ==> auth.loading
    ensures s.NavigateTo? ==> s.path == "/" || s.path == "/login"
    ensures path !in {"/", "/login", "/complete-profile", "/dashboard"} ==> s == NavigateTo("/")
  {
    if path == "/" then Show(LandingPage)
    else if path == "/login" then Show(LoginPage)
    else if path == "/complete-profile" then ProtectedRoute(auth, CompleteProfilePage)
    else if path == "/dashboard" then ProtectedRoute(auth, DashboardPage)
    else NavigateTo("/")
  }

  predicate Guarded(p: Page) {
    p == CompleteProfilePage || p == DashboardPage
  }

  /** The path each page is served at. */
  function PathOf(p: Page): (path: string) {
    match p
    case LandingPage => "/"
    case LoginPage => "/login"
    case CompleteProfilePage => "/complete-profile"
    case DashboardPage => "/dashboard"
  }

  /** Following a route's redirect (there is at most one) to what is finally
      on screen: a guarded path shows the spinner while auth loads, then the
      login page to a visitor who is not signed in. */
  function Resolve(path: string, auth: AuthState): (s: Screen)
    ensures !s.NavigateTo?
    ensures (path == "/complete-profile" || path == "/dashboard") && auth.loading ==> s == Spinner
    ensures (path == "/complete-profile" || path == "/dashboard") && !auth.loading && !auth.signedIn ==> s == Show(LoginPage)
  {
    match Route(path, auth)
    case NavigateTo(next) => if next == "/" then Show(LandingPage) else Show(LoginPage)
    case other => other
  }

  /** Every page is reachable at its path, and a public page whatever the
      auth state; a guarded page is shown exactly when its user is known to
      be signed in. */
  lemma RouteTable(p: Page, auth: AuthState)
    ensures !Guarded(p) ==> Route(PathOf(p), auth) == Show(p)
    ensures Guarded(p) ==> (Route(PathOf(p), auth) == Show(p) <==> !auth.loading && auth.signedIn)
    ensures Guarded(p) && auth.loading ==> Route(PathOf(p), auth) == Spinner
  {
  }

  /** No guarded page is ever on screen for a visitor who is not signed in,
      whatever path was asked for; while auth is still loading nothing
      guarded is shown either. */
  lemma GuardHolds(path: string, auth: AuthState)
    ensures var s := Resolve(path, auth);
      s.Show? && Guarded(s.page) ==> !auth.loading && auth.signedIn
  {
  }

  /** A path outside the table lands on the landing page. */
  lemma UnknownPathGoesHome(path: string, auth: AuthState)
    requires path !in {"/", "/login", "/complete-profile", "/dashboard"}
    ensures Route(path, auth) == NavigateTo("/")
    ensures Resolve(path, auth) == Show(LandingPage)
  {
  }

  /** Once the code is accepted, the user's next sign-in goes straight to
      the dashboard: the verification flag written by profile completion is
      the one the login routing reads. */
  lemma VerifiedUserReachesDashboard(st: Profile.ProfileState, uid: Uid, vo: Profile.VerifyOracle,
                                     users: map<Uid, UserDoc>, v: Login.LoginView, user: Login.GoogleUser, lo: Login.LoginOracle)
    requires user.uid == uid
    requires Profile.VerifyCode(st, uid, vo, users).navigateTo.Some?
    requires lo.read.Pass? && lo.write.Pass?
    ensures var after := Profile.VerifyCode(st, uid, vo, users).users;
      Login.HandleUserLogin(v, user, lo, after).navigateTo == Some(Login.DASHBOARD)
  {
    var after := Profile.VerifyCode(st, uid, vo, users).users;
    assert Login.PhoneVerified(after[uid]) by {
      assert Field(after[uid], "phoneVerified") == Some(Flag(true));
    }
  }

  /** And before that, whatever step 1 of profile completion wrote keeps
      the user on profile completion. */
  lemma UnverifiedUserCompletesProfile(st: Profile.ProfileState, pu: Profile.AuthUser, no: Profile.NextOracle,
                                       users: map<Uid, UserDoc>, v: Login.LoginView, user: Login.GoogleUser, lo: Login.LoginOracle)
    requires user.uid == pu.uid && st.step == 1
    requires !Text.IsBlank(st.form.displayName) && !Profile.PhotoFailed(no) && no.profileUpdated.Pass? && no.docWritten.Pass?
    requires lo.read.Pass?
    ensures var after := Profile.NextStep(st, pu, no, users).users;
      && Login.HandleUserLogin(v, user, lo, after).navigateTo == Some(Login.COMPLETE_PROFILE)
      && Login.HandleUserLogin(v, user, lo, after).users == after
  {
    var r := Profile.SaveProfile(st, pu, no, users, false);
    assert Profile.NextStep(st, pu, no, users) == r;
    assert !Login.PhoneVerified(r.users[pu.uid]) by {
      assert Field(r.users[pu.uid], "phoneVerified") == Some(Flag(false));
    }
  }
}
