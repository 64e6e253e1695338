/** `AppContent` of `frontend/src/App.jsx`: which screen is shown for the
    signed-in user (if any) and the `page` state the navigation sets. */
module AppShell {
  import opened Common
  import opened Accounts
  import opened Http

  /** The values the `page` state takes: `'login'` initially, `'signup'`
      from the login page's link, `'admin'` and `'profile'` from the nav. */
  datatype Page = LoginView | SignupView | AdminView | ProfileView

  /** What `<main>` holds when someone is signed in. */
  datatype Main = DashboardMain | ProfileMain | EmptyMain

  /** The whole screen: one of the two credential pages when signed out;
      otherwise the nav bar (with or without the Users entry; the Profile
      entry is always there) and the main area. */
  datatype Screen = LoginScreen | SignupScreen | Shell(usersEntry: bool, main: Main)

  /** `activePage`: the role decides when someone is signed in. */
  function ActivePage(user: Option<AccountView>, page: Page): (p: Page)
    ensures user.None? ==> p == page
    ensures user.Some? ==> (p == AdminView <==> user.value.role == Admin)
    ensures user.Some? ==> (p == ProfileView <==> user.value.role != Admin)
  {
    match user
    case None => page
    case Some(u) => if u.role == Admin then AdminView else ProfileView
  }

  /** The rendered screen as the component is written. */
  function Render(user: Option<AccountView>, page: Page): (s: Screen)
    ensures user.None? ==> (s == LoginScreen <==> page == LoginView)
    ensures user.None? ==> (s == SignupScreen <==> page != LoginView)
    ensures user.Some? ==> s.Shell? && (s.usersEntry <==> user.value.role == Admin)
    ensures s.Shell? && s.main == DashboardMain ==> user.Some? && user.value.role == Admin
  {
    match user
    case None => if page == LoginView then LoginScreen else SignupScreen
    case Some(u) =>
      var active := ActivePage(user, page);
      Shell(u.role == Admin,
            if active == AdminView && u.role == Admin then DashboardMain
            else if active == ProfileView then ProfileMain
            else EmptyMain)
  }

  /** Signed in, the main area depends on the role alone: no click on the
      nav changes it, and it is never empty. */
  lemma MainIgnoresPage(u: AccountView, p: Page, q: Page)
    ensures Render(Some(u), p) == Render(Some(u), q)
    ensures Render(Some(u), p).main == (if u.role == Admin then DashboardMain else ProfileMain)
  {
  }

  /** The discrepancy: an administrator who clicks Profile still sees the
      dashboard, so the profile page is out of an administrator's reach. */
  lemma AdminCannotReachProfile(u: AccountView)
    requires u.role == Admin
    ensures Render(Some(u), ProfileView).main == DashboardMain
    ensures forall p :: Render(Some(u), p).main != ProfileMain
  {
  }

  /** Signing out after using the nav shows the signup page, not the login
      page, because `page` keeps the last nav value. */
  lemma SignOutAfterNavShowsSignup(p: Page)
    requires p == AdminView || p == ProfileView
    ensures Render(None, p) == SignupScreen
  {
  }

  /** `activePage` as evidently intended: the nav's choice is honoured when
      it is allowed (Profile always, Users for administrators), and the
      role decides otherwise, as on first sign-in. */
  function ActivePageIntended(user: Option<AccountView>, page: Page): (p: Page)
    ensures user.None? ==> p == page
    ensures user.Some? ==> p == AdminView || p == ProfileView
    ensures user.Some? && p == AdminView ==> user.value.role == Admin
  {
    match user
    case None => page
    case Some(u) =>
      if page == ProfileView then ProfileView
      else if page == AdminView && u.role == Admin then AdminView
      else ActivePage(user, page)
  }

  /** The screen with the corrected `activePage`; the rendering conditions
      are unchanged. */
  function RenderIntended(user: Option<AccountView>, page: Page): (s: Screen)
    ensures user.None? ==> s == Render(user, page)
    ensures user.Some? ==> s.Shell? && (s.usersEntry <==> user.value.role == Admin)
    ensures s.Shell? && s.main == DashboardMain ==> user.Some? && user.value.role == Admin
  {
    match user
    case None => Render(user, page)
    case Some(u) =>
      var active := ActivePageIntended(user, page);
      Shell(u.role == Admin,
            if active == AdminView && u.role == Admin then DashboardMain
            else if active == ProfileView then ProfileMain
            else EmptyMain)
  }

  /** With the correction every signed-in user reaches the profile through
      its nav entry, administrators reach the dashboard through theirs,
      and before any nav click the screen is the one shown today. */
  lemma IntendedNavigationWorks(u: AccountView, p: Page)
    ensures RenderIntended(Some(u), ProfileView).main == ProfileMain
    ensures u.role == Admin ==> RenderIntended(Some(u), AdminView).main == DashboardMain
    ensures u.role != Admin ==> RenderIntended(Some(u), AdminView).main == ProfileMain
    ensures p == LoginView || p == SignupView ==> RenderIntended(Some(u), p) == Render(Some(u), p)
    ensures RenderIntended(Some(u), p).main != EmptyMain
  {
  }
}
