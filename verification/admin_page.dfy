/** The admin page: who may see the panels, where everyone else is sent, the
    tabs, and signing out. The session (`user`, `loading`, `isAdmin`) comes
    from the authentication hook and is a parameter here. */
module AdminPage {
  import opened Options

  /** The session as the authentication hook reports it; `user` holds the
      signed-in user's e-mail. */
  datatype Session = Session(loading: bool, user: Option<string>, isAdmin: bool)

  /** What the page's effect does. */
  datatype Guard = Stay | Redirect(route: string, toast: Option<string>)

  /** What the page renders. */
  datatype View = Spinner | Blank | Panels(email: string)

  const LoginRoute := "/admin/login"
  const HomeRoute := "/"
  const NoAccess := "Anda tidak memiliki akses admin"
  const SignedOut := "Berhasil logout"

  /** The effect: nothing while the session loads; a visitor is sent to the
      login page; a signed-in user who is not an administrator is told so
      and sent home. */
  function GuardOf(s: Session): (g: Guard)
    ensures s.loading ==> g == Stay
    ensures g.Redirect? && g.route == LoginRoute <==> !s.loading && s.user.None?
    ensures g.Redirect? && g.route == HomeRoute <==> !s.loading && s.user.Some? && !s.isAdmin
    ensures g.Redirect? ==> (g.toast.Some? <==> g.route == HomeRoute)
    ensures g.Redirect? && g.toast.Some? ==> g.toast.value == NoAccess
  {
    if s.loading then Stay
    else if s.user.None? then Redirect(LoginRoute, None)
    else if !s.isAdmin then Redirect(HomeRoute, Some(NoAccess))
    else Stay
  }

  /** The render: a spinner while loading, nothing for anyone who may not
      see the panels, the panels otherwise. */
  function ViewOf(s: Session): (v: View)
    ensures v.Spinner? <==> s.loading
    ensures v.Panels? <==> !s.loading && s.user.Some? && s.isAdmin
    ensures v.Panels? ==> v.email == s.user.value
  {
    if s.loading then Spinner
    else if s.user.None? || !s.isAdmin then Blank
    else Panels(s.user.value)
  }

  /** The render and the effect agree: the panels are shown exactly when
      the effect lets the user stay once loading has finished, and the page
      is blank exactly when the effect redirects. */
  lemma ViewAgreesWithGuard(s: Session)
    ensures ViewOf(s).Panels? <==> !s.loading && GuardOf(s) == Stay
    ensures ViewOf(s).Blank? <==> GuardOf(s).Redirect?
  {
  }

  /** The panels of the page. */
  datatype Panel = Rooms | Gallery | Testimonials | Blogs | Settings

  /** The tab values, in order; the first is open by default. */
  const Tabs: seq<string> := ["rooms", "gallery", "testimonials", "blogs", "settings"]

  const DefaultTab := "rooms"

  /** The panel each tab shows. */
  function PanelOf(tab: string): (p: Option<Panel>)
    ensures p.Some? <==> tab in Tabs
    ensures tab == DefaultTab ==> p == Some(Rooms)
  {
    match tab
    case "rooms" => Some(Rooms)
    case "gallery" => Some(Gallery)
    case "testimonials" => Some(Testimonials)
    case "blogs" => Some(Blogs)
    case "settings" => Some(Settings)
    case _ => None
  }

  /** Every panel has exactly one tab. */
  lemma EachPanelHasOneTab(p: Panel)
    ensures exists i :: 0 <= i < |Tabs| && PanelOf(Tabs[i]) == Some(p)
    ensures forall i, j :: 0 <= i < j < |Tabs| ==> PanelOf(Tabs[i]) != PanelOf(Tabs[j])
  {
    var i := match p
      case Rooms => 0
      case Gallery => 1
      case Testimonials => 2
      case Blogs => 3
      case Settings => 4;
    assert PanelOf(Tabs[i]) == Some(p);
  }

  /** `handleSignOut`: once signing out completes, a toast and the login
      page; when it fails, the handler stops there. */
  function SignOut(completed: bool): (r: Option<(string, string)>)
    ensures r.Some? <==> completed
    ensures r.Some? ==> r.value == (SignedOut, LoginRoute)
  {
    if completed then Some((SignedOut, LoginRoute)) else None
  }

  /** Signing out and the guard agree: the page a completed sign-out moves
      to is the one the guard sends a signed-out session to, without the
      no-access toast. */
  lemma SignOutMatchesGuard(s: Session)
    requires !s.loading && s.user.None?
    ensures GuardOf(s) == Redirect(SignOut(true).value.1, None)
    ensures ViewOf(s) == Blank
  {
  }
}
