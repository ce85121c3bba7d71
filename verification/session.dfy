/** The session held by the top-level `App` component
    (frontend/src/App.js): who is logged in, whether the start-up probe
    of `/api/me` has answered, and which view each path shows. */
module Session {
  import opened Base
  import Api

  /** `user` and `loading` of `App`. */
  datatype App = App(user: Option<Api.UserInfo>, loading: bool)

  /** The state before the probe answers. */
  const Start: App := App(None, true)

  /** `checkAuthStatus` once the probe answers: `probe` is the user
      `/api/me` returned, or `None` when the request failed. */
  function CheckAuthStatus(a: App, probe: Option<Api.UserInfo>): (r: App)
    ensures !r.loading
    ensures r.user == probe
  {
    App(probe, false)
  }

  /** `handleLogin`: the login and register pages hand over the user they
      received; no request is made. */
  function HandleLogin(a: App, u: Api.UserInfo): (r: App)
    ensures r.user == Some(u)
    ensures r.loading == a.loading
  {
    a.(user := Some(u))
  }

  /** `handleLogout`, given whether `POST /api/logout` succeeded: the user
      is dropped only after a successful logout. */
  function HandleLogout(a: App, succeeded: bool): (r: App)
    ensures succeeded ==> r.user.None?
    ensures !succeeded ==> r == a
    ensures r.loading == a.loading
  {
    if succeeded then a.(user := None) else a
  }

  /** The views `App` can route to. */
  datatype View = LoginView | RegisterView | DashboardView | SearchView | PortfolioView | WatchlistView

  /** What a route renders: a view, a `<Navigate>` to another path, or
      nothing when no route matches. */
  datatype Outcome = Render(view: View) | Redirect(to: string) | NoMatch

  /** The pages only a logged-in user may see, by path. */
  function ProtectedView(path: string): (r: Option<View>)
    ensures r.Some? ==> r.value in {DashboardView, SearchView, PortfolioView, WatchlistView}
  {
    if path == "/dashboard" then Some(DashboardView)
    else if path == "/search" then Some(SearchView)
    else if path == "/portfolio" then Some(PortfolioView)
    else if path == "/watchlist" then Some(WatchlistView)
    else None
  }

  /** The pages only an anonymous visitor may see, by path. */
  function PublicView(path: string): (r: Option<View>)
    ensures r.Some? ==> r.value in {LoginView, RegisterView}
  {
    if path == "/login" then Some(LoginView)
    else if path == "/register" then Some(RegisterView)
    else None
  }

  /** The route table. */
  function Route(path: string, user: Option<Api.UserInfo>): (o: Outcome)
    ensures PublicView(path).Some? ==>
      o == if user.Some? then Redirect("/dashboard") else Render(PublicView(path).value)
    ensures ProtectedView(path).Some? ==>
      o == if user.Some? then Render(ProtectedView(path).value) else Redirect("/login")
    ensures path == "/" ==> o == Redirect(if user.Some? then "/dashboard" else "/login")
    ensures o.NoMatch? <==> path != "/" && PublicView(path).None? && ProtectedView(path).None?
  {
    match PublicView(path)
    case Some(v) => if user.Some? then Redirect("/dashboard") else Render(v)
    case None =>
      match ProtectedView(path)
      case Some(v) => if user.Some? then Render(v) else Redirect("/login")
      case None =>
        if path == "/" then Redirect(if user.Some? then "/dashboard" else "/login")
        else NoMatch
  }

  /** What `App` shows: a spinner while the probe is pending (no route is
      looked at), else the navbar exactly when someone is logged in, above
      the routed outcome. */
  datatype Screen = Spinner | Shown(navbar: bool, outcome: Outcome)

  function Display(a: App, path: string): (s: Screen)
    ensures s.Spinner? <==> a.loading
    ensures s.Shown? ==> (s.navbar <==> a.user.Some?)
    ensures s.Shown? ==> s.outcome == Route(path, a.user)
  {
    if a.loading then Spinner else Shown(a.user.Some?, Route(path, a.user))
  }

  /** A view only a logged-in user may see is shown only to a logged-in
      user, and a login or register form only to an anonymous one. */
  lemma GuardIsSound(a: App, path: string)
    ensures Display(a, path).Shown? && Display(a, path).outcome.Render? ==>
      var v := Display(a, path).outcome.view;
      (v in {LoginView, RegisterView} <==> a.user.None?)
  {
  }

  /** Every redirect lands, in one step, on a path that renders a view:
      following `<Navigate>` never loops. */
  lemma RedirectsSettle(path: string, user: Option<Api.UserInfo>)
    ensures Route(path, user).Redirect? ==> Route(Route(path, user).to, user).Render?
  {
    var o := Route(path, user);
    if o.Redirect? {
      assert o.to == "/dashboard" || o.to == "/login";
      if o.to == "/dashboard" {
        assert PublicView(o.to).None?;
        assert ProtectedView(o.to) == Some(DashboardView);
      } else {
        assert PublicView(o.to) == Some(LoginView);
      }
    }
  }

  /** After the probe answers the spinner is gone for good: logging in and
      out never bring it back. */
  lemma SpinnerOnlyBeforeProbe(probe: Option<Api.UserInfo>, u: Api.UserInfo, ok: bool, path: string)
    ensures Display(Start, path).Spinner?
    ensures Display(CheckAuthStatus(Start, probe), path).Shown?
    ensures Display(HandleLogin(CheckAuthStatus(Start, probe), u), path).Shown?
    ensures Display(HandleLogout(CheckAuthStatus(Start, probe), ok), path).Shown?
  {
  }

  /** A failed logout leaves the screen exactly as it was. */
  lemma FailedLogoutKeepsScreen(a: App, path: string)
    ensures Display(HandleLogout(a, false), path) == Display(a, path)
  {
  }
}
