/** The site header (components/layout/Header.tsx): the desktop nav with
    its dropdown sections, the mobile drawer, the body scroll lock and the
    active-link highlighting.

    The header's whole state is two values: whether the mobile drawer is
    open and which dropdown section (if any) is expanded. The same
    `activeDropdown` drives the desktop panels and the drawer's sections. */
module Header {
  import opened Wrappers

  /** The ids of the nav sections, in menu order. */
  const SectionIds: seq<string> := ["solutions", "company"]

  datatype State = State(mobileOpen: bool, activeDropdown: Option<string>)

  /** The state after mount: drawer closed, no section expanded. */
  const Initial: State := State(false, None)

  /** What the user (or the router) can do to the header. */
  datatype Event =
    | ToggleSection(id: string)  // a section button, on desktop or in the drawer
    | DesktopClose               // a desktop panel's backdrop or one of its links
    | OpenDrawer                 // the menu button
    | CloseDrawer                // the drawer's backdrop, close button or links, and a drawer section's links
    | RouteChange                // the pathname changed

  /** Expanding or collapsing one section: the open section collapses,
      any other section is opened in place of whatever was open. */
  function Toggle(active: Option<string>, id: string): (r: Option<string>)
    ensures r == Some(id) <==> active != Some(id)
    ensures r.None? <==> active == Some(id)
  {
    if active == Some(id) then None else Some(id)
  }

  /** One event's effect. A route change resets the header; every other
      event touches only one of the two values, and events the rendered
      header can produce keep the expanded section a real one. */
  function Step(s: State, e: Event): (t: State)
    ensures !e.RouteChange? ==> t.mobileOpen == s.mobileOpen || t.activeDropdown == s.activeDropdown
    ensures Valid(s) && FromUi(e) ==> Valid(t)
  {
    match e
    case ToggleSection(id) => s.(activeDropdown := Toggle(s.activeDropdown, id))
    case DesktopClose => s.(activeDropdown := None)
    case OpenDrawer => s.(mobileOpen := true)
    case CloseDrawer => s.(mobileOpen := false)
    case RouteChange => Initial
  }

  /** The state after a sequence of events, oldest first. */
  function Run(s: State, es: seq<Event>): State
    decreases |es|
  {
    if es == [] then s else Run(Step(s, es[0]), es[1..])
  }

  /** The drawer is in the DOM exactly when it is open. */
  predicate DrawerRendered(s: State) {
    s.mobileOpen
  }

  /** A desktop panel (and its backdrop) is in the DOM, and the drawer's
      section of the same id is expanded, exactly when it is active. */
  predicate PanelRendered(s: State, id: string) {
    s.activeDropdown == Some(id)
  }

  /** Value the scroll-lock effect writes to `document.body.style.overflow`. */
  function BodyOverflow(s: State): string {
    if s.mobileOpen then "hidden" else ""
  }

  /** Value the effect's cleanup writes when the header unmounts. */
  const TeardownOverflow: string := ""

  /** The scroll-lock effect depends on `mobileOpen` only: after a render in
      which it changed, the old effect's cleanup clears the lock and the new
      effect sets it; otherwise the body keeps what it had. */
  function SyncBody(before: State, after: State, body: string): string {
    if before.mobileOpen == after.mobileOpen then body
    else
      var cleared := TeardownOverflow;
      if after.mobileOpen then "hidden" else cleared
  }

  /** The body's overflow after a sequence of events. */
  function RunBody(s: State, es: seq<Event>, body: string): string
    decreases |es|
  {
    if es == [] then body
    else
      var t := Step(s, es[0]);
      RunBody(t, es[1..], SyncBody(s, t, body))
  }

  /** Only ids of real sections are ever expanded. */
  predicate Valid(s: State) {
    s.activeDropdown.Some? ==> s.activeDropdown.value in SectionIds
  }

  /** Events the rendered header can produce: toggles name real sections. */
  predicate FromUi(e: Event) {
    e.ToggleSection? ==> e.id in SectionIds
  }

  // ---------------------------------------------------------------------
  // Transitions
  // ---------------------------------------------------------------------

  /** Toggling the same section twice leaves the header as it was when
      that section or none was expanded; when a different section was
      expanded, the first toggle replaces it and the second leaves all
      sections collapsed. */
  lemma ToggleTwice(s: State, id: string)
    ensures var t := Step(Step(s, ToggleSection(id)), ToggleSection(id));
      && (t == s <==> s.activeDropdown == None || s.activeDropdown == Some(id))
      && (s.activeDropdown.Some? && s.activeDropdown != Some(id) ==> t == s.(activeDropdown := None))
  {
  }

  /** A toggle opens a closed section, closes the open one, switches
      straight from another open section, and never touches the drawer. */
  lemma ToggleEffect(s: State, id: string)
    ensures var t := Step(s, ToggleSection(id));
      && t.mobileOpen == s.mobileOpen
      && (s.activeDropdown != Some(id) ==> PanelRendered(t, id))
      && (s.activeDropdown == Some(id) ==> t.activeDropdown == None)
      && (forall other :: other != id ==> !PanelRendered(t, other))
  {
  }

  /** The desktop close (a panel's backdrop or link) collapses the section
      and leaves the drawer as it was. */
  lemma DesktopCloseKeepsDrawer(s: State)
    ensures Step(s, DesktopClose).activeDropdown == None
    ensures Step(s, DesktopClose).mobileOpen == s.mobileOpen
  {
  }

  /** Opening and closing the drawer (including the close handler of a
      drawer section's links) leave the expanded section as it was. */
  lemma DrawerEventsKeepSection(s: State)
    ensures !Step(s, CloseDrawer).mobileOpen
    ensures Step(s, CloseDrawer).activeDropdown == s.activeDropdown
    ensures Step(s, OpenDrawer).mobileOpen
    ensures Step(s, OpenDrawer).activeDropdown == s.activeDropdown
  {
  }

  /** A route change closes everything and unlocks the body. */
  lemma RouteChangeResets(s: State, es: seq<Event>)
    ensures Run(s, es + [RouteChange]) == Initial
    ensures !DrawerRendered(Run(s, es + [RouteChange]))
    ensures forall id :: !PanelRendered(Run(s, es + [RouteChange]), id)
    ensures BodyOverflow(Run(s, es + [RouteChange])) == ""
  {
    RunAppend(s, es, RouteChange);
  }

  lemma {:induction false} RunAppend(s: State, es: seq<Event>, e: Event)
    ensures Run(s, es + [e]) == Step(Run(s, es), e)
    decreases |es|
  {
    if es == [] {
      assert [] + [e] == [e];
    } else {
      assert (es + [e])[1..] == es[1..] + [e];
      RunAppend(Step(s, es[0]), es[1..], e);
    }
  }

  /** Whatever the user does, the expanded section stays a real nav
      section (`Valid` is preserved). That at most one panel is shown holds
      of every state by construction, since `activeDropdown` is a single
      optional id; it is restated here for the run's final state. */
  lemma {:induction false} UiRunsStayValid(s: State, es: seq<Event>)
    requires Valid(s)
    requires forall k :: 0 <= k < |es| ==> FromUi(es[k])
    ensures Valid(Run(s, es))
    ensures forall a, b :: PanelRendered(Run(s, es), a) && PanelRendered(Run(s, es), b) ==> a == b
    ensures forall id :: PanelRendered(Run(s, es), id) ==> id in SectionIds
    decreases |es|
  {
    if es != [] {
      assert FromUi(es[0]);
      UiRunsStayValid(Step(s, es[0]), es[1..]);
    }
  }

  // ---------------------------------------------------------------------
  // The body scroll lock
  // ---------------------------------------------------------------------

  /** The body is locked exactly while the drawer is rendered. */
  lemma LockedIffDrawer(s: State)
    ensures BodyOverflow(s) == "hidden" <==> DrawerRendered(s)
    ensures BodyOverflow(s) == "" <==> !DrawerRendered(s)
  {
  }

  /** Although the effect re-runs only when `mobileOpen` changes, the body's
      overflow never drifts from the drawer state: starting in sync, it is
      in sync after any sequence of events. */
  lemma {:induction false} BodyStaysInSync(s: State, es: seq<Event>, body: string)
    requires body == BodyOverflow(s)
    ensures RunBody(s, es, body) == BodyOverflow(Run(s, es))
    decreases |es|
  {
    if es != [] {
      var t := Step(s, es[0]);
      assert SyncBody(s, t, body) == BodyOverflow(t);
      BodyStaysInSync(t, es[1..], SyncBody(s, t, body));
    }
  }

  /** After mount the body is unlocked, and it stays matched to the drawer. */
  lemma MountedBodyMatchesDrawer(es: seq<Event>)
    ensures RunBody(Initial, es, "") == "hidden" <==> DrawerRendered(Run(Initial, es))
  {
    BodyStaysInSync(Initial, es, "");
    LockedIffDrawer(Run(Initial, es));
  }

  // ---------------------------------------------------------------------
  // Active links
  // ---------------------------------------------------------------------

  /** The Home link (desktop and drawer) is highlighted on "/" only. */
  predicate HomeLinkActive(pathname: string) {
    pathname == "/"
  }

  /** The News link (desktop and drawer) is highlighted on any pathname
      that starts with "/news". */
  predicate NewsLinkActive(pathname: string) {
    "/news" <= pathname
  }

  /** The drawer's external Clinicans link uses the same test as the News
      link. */
  predicate ClinicansLinkActive(pathname: string) {
    "/news" <= pathname
  }

  /** Home and News are never highlighted together. */
  lemma HomeAndNewsExclusive(pathname: string)
    ensures !(HomeLinkActive(pathname) && NewsLinkActive(pathname))
  {
  }

  /** News matching is a plain prefix test: sub-pages match, but so does
      any longer word starting with "news"; a "/news" further along the
      path does not. */
  lemma NewsMatchingIsPrefix()
    ensures NewsLinkActive("/news") && NewsLinkActive("/news/launch")
    ensures NewsLinkActive("/newsletter")
    ensures !NewsLinkActive("/about/news") && !NewsLinkActive("/")
  {
    assert "/news" == "/news/launch"[..5];
    assert "/news" == "/newsletter"[..5];
    assert "/about/news"[1] != "/news"[1];
  }

  /** The News test against an independent description: a pathname is
      highlighted exactly when it is "/news" followed by anything at all,
      and the same holds of the drawer's Clinicans link. */
  lemma NewsLinkIsNewsPlusAnything(pathname: string)
    ensures NewsLinkActive(pathname) <==> exists rest :: pathname == "/news" + rest
    ensures ClinicansLinkActive(pathname) <==> exists rest :: pathname == "/news" + rest
  {
    if NewsLinkActive(pathname) {
      assert pathname == "/news" + pathname[5..];
    }
    if exists rest :: pathname == "/news" + rest {
      var rest :| pathname == "/news" + rest;
      assert pathname[..5] == "/news";
    }
  }

  /** The Clinicans drawer link lights up together with News, and not on
      the site's own /clinicans page. */
  lemma ClinicansLinkFollowsNews(pathname: string)
    ensures ClinicansLinkActive(pathname) <==> NewsLinkActive(pathname)
    ensures !ClinicansLinkActive("/clinicans")
  {
    assert "/clinicans"[1] != "/news"[1];
  }
}
