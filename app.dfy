/** Route wiring: the staff gate, the route table and the navigation bar's
    staff test. */
module App {
  import opened Wrappers
  import opened Records
  import opened AuthContext

  datatype Outcome = ShowLoading | RedirectTo(path: string) | RenderChildren

  /** `user.role === "staff"` on a user object. */
  predicate HasStaffRole(v: JsValue) {
    v.UserObject? && v.user.role == Some("staff")
  }

  /** `StaffRoute`: destructures `user` and `loading` from the context. */
  function StaffRoute(ctx: map<string, JsValue>): (o: Outcome)
    ensures o == ShowLoading <==> Truthy(Lookup(ctx, "loading"))
    ensures o == RenderChildren <==> !Truthy(Lookup(ctx, "loading")) && HasStaffRole(Lookup(ctx, "user"))
    ensures o.RedirectTo? ==> o.path == "/"
  {
    var user := Lookup(ctx, "user");
    var loading := Lookup(ctx, "loading");
    if Truthy(loading) then ShowLoading
    else if !Truthy(user) || !HasStaffRole(user) then RedirectTo("/")
    else RenderChildren
  }

  /** The navigation bar's `user?.role === "staff"`. */
  predicate ShowsManageLink(ctx: map<string, JsValue>) {
    var user := Lookup(ctx, "user");
    user.UserObject? && user.user.role == Some("staff")
  }

  /** Under the provider's context the loading branch is never taken, a
      missing or non-staff user is sent to "/", and a staff user gets the
      page exactly when the navigation bar shows the Manage Events link. */
  lemma StaffGateUnderProvider(user: Option<User>)
    ensures StaffRoute(ContextValue(user)) != ShowLoading
    ensures user.None? ==> StaffRoute(ContextValue(user)) == RedirectTo("/")
    ensures user.Some? && user.value.role != Some("staff") ==> StaffRoute(ContextValue(user)) == RedirectTo("/")
    ensures StaffRoute(ContextValue(user)) == RenderChildren <==> ShowsManageLink(ContextValue(user))
  {
  }

  datatype Guard = Protected | Staff

  datatype Page =
    | HomePage | EventsPage | EventDetailPage | LoginPage | SignUpPage
    | DashboardPage | ManageEventsPage | CreateEventPage

  /** A route: its path pattern, the wrappers around its page from the
      outside in, and the page. */
  datatype Route = Route(path: string, guards: seq<Guard>, page: Page)

  function Routes(): seq<Route> {
    [ Route("/", [], HomePage),
      Route("/events", [], EventsPage),
      Route("/events/:id", [], EventDetailPage),
      Route("/login", [], LoginPage),
      Route("/signup", [], SignUpPage),
      Route("/dashboard", [Protected], DashboardPage),
      Route("/manage-events", [Protected, Staff], ManageEventsPage),
      Route("/events/new", [Protected, Staff], CreateEventPage) ]
  }

  function GuardsOf(routes: seq<Route>, path: string): (g: Option<seq<Guard>>)
    ensures g.Some? ==> exists r :: r in routes && r.path == path && r.guards == g.value
  {
    if routes == [] then None
    else if routes[0].path == path then Some(routes[0].guards)
    else GuardsOf(routes[1..], path)
  }

  /** The Manage Events page sits behind both wrappers. */
  lemma ManageEventsGuards()
    ensures GuardsOf(Routes(), "/manage-events") == Some([Protected, Staff])
  {
    var rs := Routes();
    var path := "/manage-events";
    forall i | 0 <= i < 6 ensures rs[i].path != path {
      assert |rs[i].path| != |path|;
    }
    GuardsOfSkips(rs, 6, path);
  }

  /** The Create Event page sits behind both wrappers. */
  lemma CreateEventGuards()
    ensures GuardsOf(Routes(), "/events/new") == Some([Protected, Staff])
  {
    var rs := Routes();
    var path := "/events/new";
    forall i | 0 <= i < 7 ensures rs[i].path != path {
      assert |rs[i].path| != |path| || rs[i].path[8] != path[8];
    }
    GuardsOfSkips(rs, 7, path);
  }

  /** The dashboard sits behind the sign-in wrapper only. */
  lemma DashboardGuards()
    ensures GuardsOf(Routes(), "/dashboard") == Some([Protected])
  {
    var rs := Routes();
    var path := "/dashboard";
    forall i | 0 <= i < 5 ensures rs[i].path != path {
      assert |rs[i].path| != |path|;
    }
    GuardsOfSkips(rs, 5, path);
  }

  /** Only the two staff pages are behind the staff gate. */
  lemma OnlyStaffPagesAreGated()
    ensures forall r :: r in Routes() && Staff in r.guards ==> r.page == ManageEventsPage || r.page == CreateEventPage
  {
  }

  /** A lookup passes over the routes before the first match. */
  lemma {:induction false} GuardsOfSkips(routes: seq<Route>, k: nat, path: string)
    requires k <= |routes|
    requires forall i :: 0 <= i < k ==> routes[i].path != path
    ensures GuardsOf(routes, path) == GuardsOf(routes[k..], path)
  {
    if k > 0 {
      GuardsOfSkips(routes[1..], k - 1, path);
      assert routes[1..][k - 1..] == routes[k..];
    }
  }
}
