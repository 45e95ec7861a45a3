/**
 * The application shell: on every navigation the page's views are rebuilt
 * from the route and the session. Protected routes bounce to the login page
 * (or, for an event id that is not an integer, back to the dashboard after
 * setting the page's snack bar to "Invalid Event ID", which is not opened),
 * and a bounce is itself a navigation. Logging in and out update the session.
 */
module MainApp {
  import opened Wrappers
  import Text
  import Models

  /** The values the page session stores. */
  datatype Session = Session(userId: Option<int>, userRole: Option<string>, userName: Option<string>)

  const EmptySession := Session(None, None, None)

  /** The session's user id is truthy: present and not 0. */
  predicate LoggedIn(s: Session) {
    s.userId.Some? && s.userId.value != 0
  }

  predicate MayViewDashboard(s: Session) {
    LoggedIn(s) && (s.userRole == Some("Admin") || s.userRole == Some("AdminViewer"))
  }

  predicate MayConfigure(s: Session) {
    LoggedIn(s) && s.userRole == Some("Admin")
  }

  /** The screens the shell can show. */
  datatype View = LoginView | AdminDashboard | EventConfig(eventId: int)

  /**
   * One pass of the route handler: show a view, or go elsewhere; `invalidId`
   * says the page's snack bar was set to "Invalid Event ID" on the way.
   */
  datatype Step = Show(view: View) | Redirect(target: string, invalidId: bool)

  const EventPrefix := "/admin/event/"

  predicate IsEventRoute(route: string) {
    |route| >= |EventPrefix| && route[..|EventPrefix|] == EventPrefix
  }

  /** The route's last "/"-separated component, where the event id is read from. */
  function LastComponent(route: string): string {
    var pieces := Text.Split(route, '/');
    pieces[|pieces| - 1]
  }

  /** Redirects lead from event routes to "/admin" and from there to the login page, which always shows. */
  function Rank(route: string): nat {
    if route == "/login" || route == "/" then 0 else if route == "/admin" then 1 else 2
  }

  /** The decision of the route handler for one route. */
  function Decide(route: string, s: Session): (st: Step)
    ensures route == "/login" || route == "/" ==> st == Show(LoginView)
    ensures route == "/admin" ==> (st == Show(AdminDashboard) <==> MayViewDashboard(s))
    ensures route == "/admin" && !MayViewDashboard(s) ==> st == Redirect("/login", false)
    ensures IsEventRoute(route) && !MayConfigure(s) ==> st == Redirect("/login", false)
    ensures IsEventRoute(route) && MayConfigure(s) ==>
              match Text.ParseInt(LastComponent(route))
              case Some(n) => st == Show(EventConfig(n))
              case None => st == Redirect("/admin", true)
    ensures route !in {"/login", "/", "/admin"} && !IsEventRoute(route) ==> st == Redirect("/login", false)
    ensures st.Redirect? ==> Rank(st.target) < Rank(route)
  {
    if route == "/login" || route == "/" then Show(LoginView)
    else if route == "/admin" then
      if MayViewDashboard(s) then Show(AdminDashboard) else Redirect("/login", false)
    else if IsEventRoute(route) then
      if MayConfigure(s) then
        match Text.ParseInt(LastComponent(route))
        case Some(n) => Show(EventConfig(n))
        case None => Redirect("/admin", true)
      else Redirect("/login", false)
    else Redirect("/login", false)
  }

  /** Where a navigation ends: the view shown, the final route, and whether the snack bar was set to "Invalid Event ID". */
  datatype Landing = Landing(view: View, route: string, invalidId: bool)

  /** A navigation followed through its redirects. */
  function Resolve(route: string, s: Session): (l: Landing)
    decreases Rank(route)
    ensures l.view == AdminDashboard ==> MayViewDashboard(s)
    ensures l.view.EventConfig? ==> MayConfigure(s) && IsEventRoute(l.route)
    ensures l.view == LoginView <==> l.route in {"/login", "/"}
    ensures l.invalidId ==> MayConfigure(s) && l.view == AdminDashboard && IsEventRoute(route)
  {
    match Decide(route, s)
    case Show(v) => Landing(v, route, false)
    case Redirect(target, bad) =>
      var next := Resolve(target, s);
      Landing(next.view, next.route, bad || next.invalidId)
  }

  /** Without the right session every protected route ends on the login page. */
  lemma UnauthorisedEndsAtLogin(route: string, s: Session)
    ensures !LoggedIn(s) ==> Resolve(route, s) == Landing(LoginView, if route == "/" then "/" else "/login", false)
  {
  }

  /** An administrator following a link to an event's configuration gets that event. */
  lemma EventLinkOpensEvent(n: int, s: Session)
    requires MayConfigure(s)
    ensures Resolve(EventPrefix + Text.ShowInt(n), s) == Landing(EventConfig(n), EventPrefix + Text.ShowInt(n), false)
  {
    var route := EventPrefix + Text.ShowInt(n);
    Text.ShowIntPlain(n);
    assert '/' !in Text.ShowInt(n);
    assert route == "/admin/event" + ['/'] + Text.ShowInt(n);
    Text.SplitAppendPiece("/admin/event", Text.ShowInt(n), '/');
    assert LastComponent(route) == Text.ShowInt(n);
    Text.ParseShowInt(n);
    assert route[..|EventPrefix|] == EventPrefix;
  }

  /**
   * An event route with no id after the last slash sends an administrator
   * back to the dashboard, with the snack bar set to "Invalid Event ID".
   */
  lemma MissingIdBacksOff(s: Session)
    requires MayConfigure(s)
    ensures Resolve(EventPrefix, s) == Landing(AdminDashboard, "/admin", true)
  {
    assert EventPrefix == "/admin/event" + ['/'] + [];
    Text.SplitAppendPiece("/admin/event", [], '/');
    assert LastComponent(EventPrefix) == [];
    assert Text.Strip([]) == [];
  }

  /**
   * The page: its route, its stack of views and its session. `invalidIdNotice`
   * says `page.snack_bar` holds "Invalid Event ID"; `snackBarOpen` says a snack
   * bar is open, which is what puts it on the screen.
   */
  class Page {
    var route: string
    var views: seq<View>
    var session: Session
    var invalidIdNotice: bool
    var snackBarOpen: bool

    constructor(route: string)
      ensures this.route == route && views == [] && session == EmptySession
      ensures !invalidIdNotice && !snackBarOpen
    {
      this.route := route;
      views := [];
      session := EmptySession;
      invalidIdNotice, snackBarOpen := false, false;
    }

    /**
     * `page.go`: set the route and rebuild the views, following redirects. An
     * invalid event id sets the snack bar but never opens it.
     */
    method Go(target: string)
      modifies this`route, this`views, this`invalidIdNotice
      decreases Rank(target)
      ensures route == Resolve(target, session).route
      ensures views == [Resolve(target, session).view]
      ensures invalidIdNotice == (old(invalidIdNotice) || Resolve(target, session).invalidId)
    {
      route := target;
      views := [];
      match Decide(target, session)
      case Show(v) =>
        views := views + [v];
      case Redirect(next, bad) =>
        if bad {
          invalidIdNotice := true;
        }
        Go(next);
    }

    /**
     * `page.go` with the invalid-id snack bar opened as well (`page.open(...)`),
     * as the other screens show their notices.
     */
    method GoOpeningNotice(target: string)
      modifies this`route, this`views, this`invalidIdNotice, this`snackBarOpen
      decreases Rank(target)
      ensures route == Resolve(target, session).route
      ensures views == [Resolve(target, session).view]
      ensures invalidIdNotice == (old(invalidIdNotice) || Resolve(target, session).invalidId)
      ensures snackBarOpen == (old(snackBarOpen) || Resolve(target, session).invalidId)
    {
      route := target;
      views := [];
      match Decide(target, session)
      case Show(v) =>
        views := views + [v];
      case Redirect(next, bad) =>
        if bad {
          invalidIdNotice, snackBarOpen := true, true;
        }
        GoOpeningNotice(next);
    }

    /** Logging in stores the user in the session; an administrator goes to the dashboard, anyone else to the login page. */
    method OnLoginSuccess(user: Models.User)
      modifies this`route, this`views, this`invalidIdNotice, this`session
      ensures session == Session(Some(user.id), Some(user.role), Some(user.name))
      ensures user.role == "Admin" && user.id != 0 ==> views == [AdminDashboard] && route == "/admin"
      ensures user.role != "Admin" ==> views == [LoginView] && route == "/login"
      ensures invalidIdNotice == old(invalidIdNotice)
    {
      session := Session(Some(user.id), Some(user.role), Some(user.name));
      if user.role == "Admin" {
        Go("/admin");
      } else {
        Go("/login");
      }
    }

    /** Logging out clears the session and shows the login page. */
    method OnLogout()
      modifies this`route, this`views, this`invalidIdNotice, this`session
      ensures session == EmptySession && route == "/login" && views == [LoginView]
      ensures invalidIdNotice == old(invalidIdNotice)
    {
      session := EmptySession;
      Go("/login");
    }
  }

  /**
   * The shell as written: a navigation that sets the snack bar to "Invalid
   * Event ID" (such as an administrator following "/admin/event/", see
   * `MissingIdBacksOff`) opens no snack bar, so the notice is never on screen.
   */
  method InvalidIdNoticeNotShown(route: string, s: Session) returns (noticeSet: bool, noticeShown: bool)
    requires Resolve(route, s).invalidId
    ensures noticeSet && !noticeShown
  {
    var page := new Page("/");
    page.session := s;
    page.Go(route);
    noticeSet, noticeShown := page.invalidIdNotice, page.snackBarOpen;
  }

  /** With the bar opened, the same navigation puts "Invalid Event ID" on screen. */
  method CorrectedNoticeShown(route: string, s: Session) returns (noticeShown: bool)
    requires Resolve(route, s).invalidId
    ensures noticeShown
  {
    var page := new Page("/");
    page.session := s;
    page.GoOpeningNotice(route);
    noticeShown := page.snackBarOpen;
  }
}
