/** The application's route tree and what navigating in it shows under each auth status. */
module App {
  import opened Session
  import opened Guards
  import opened Routes

  /** The routes nested under the layout root, in declaration order. */
  const LAYOUT_CHILDREN: seq<ChildRoute> := [
    ChildRoute(IndexChild, HomePage),
    ChildRoute(Named("dashboard"), DashboardPage),
    ChildRoute(Named("donate"), DonationPage),
    ChildRoute(Named("available-donations"), AvailableDonationsPage),
    ChildRoute(Named("inventory"), InventoryPage),
    ChildRoute(Named("logistics"), LogisticsPage),
    ChildRoute(Named("analytics"), AnalyticsPage),
    ChildRoute(Named("profile"), ProfilePage),
    ChildRoute(Named("settings"), SettingsPage),
    ChildRoute(CatchAll, NotFoundPage)
  ]

  /** `/auth`, wrapped in `PublicRoute`. */
  const AUTH_ENTRY: RouteEntry := RouteEntry(AUTH_PATH, Public, AuthPage, [])

  /** `/`, the layout wrapped in `ProtectedRoute`, with its nested routes. */
  const ROOT_ENTRY: RouteEntry := RouteEntry([], Protected, Layout, LAYOUT_CHILDREN)

  const APP_TABLE: Table := [AUTH_ENTRY, ROOT_ENTRY]

  /** What navigating to `url` shows under status `s`. */
  function Navigate(url: Path, s: Status): (r: Outcome)
    ensures r != NoMatch
  {
    MatchTotal(url);
    Resolve(APP_TABLE, url, s)
  }

  /** The page the layout's outlet shows for a path below `/`, as the nested routes describe it. */
  function OutletPage(url: Path): Screen {
    if url == [] then HomePage
    else if url == ["dashboard"] then DashboardPage
    else if url == ["donate"] then DonationPage
    else if url == ["available-donations"] then AvailableDonationsPage
    else if url == ["inventory"] then InventoryPage
    else if url == ["logistics"] then LogisticsPage
    else if url == ["analytics"] then AnalyticsPage
    else if url == ["profile"] then ProfilePage
    else if url == ["settings"] then SettingsPage
    else NotFoundPage
  }

  // ---------------------------------------------------------------------------
  // Shape of the declared table

  /** `/auth` is the only entry under `PublicRoute`, the layout root `/` is under
      `ProtectedRoute`, the index child is the home page and `*` is the not-found page. */
  lemma TableShape()
    ensures forall i :: 0 <= i < |APP_TABLE| ==> (APP_TABLE[i].guard == Public <==> APP_TABLE[i].path == AUTH_PATH)
    ensures forall i :: 0 <= i < |APP_TABLE| ==> (APP_TABLE[i].guard == Protected <==> APP_TABLE[i].path == [])
    ensures forall j :: 0 <= j < |LAYOUT_CHILDREN| ==> (LAYOUT_CHILDREN[j].pattern == IndexChild <==> LAYOUT_CHILDREN[j].screen == HomePage)
    ensures forall j :: 0 <= j < |LAYOUT_CHILDREN| ==> (LAYOUT_CHILDREN[j].pattern == CatchAll <==> LAYOUT_CHILDREN[j].screen == NotFoundPage)
  {
  }

  /** The eight named child segments are pairwise distinct, and so are all sibling patterns. */
  lemma ChildPatternsDistinct()
    ensures PatternsDistinct(LAYOUT_CHILDREN)
  {
    assert "inventory" != "logistics" by { assert "inventory"[0] != "logistics"[0]; }
    assert "inventory" != "analytics" by { assert "inventory"[0] != "analytics"[0]; }
    assert "logistics" != "analytics" by { assert "logistics"[0] != "analytics"[0]; }
  }

  /** `/auth` is not also the path of a child of the layout root. */
  lemma AuthApartFromLayout()
    ensures ExactPathsApart(AUTH_ENTRY, ROOT_ENTRY) && ExactPathsApart(ROOT_ENTRY, AUTH_ENTRY)
  {
    forall j | 0 <= j < |LAYOUT_CHILDREN| ensures !ChildMatchesExactly(LAYOUT_CHILDREN[j], [], AUTH_PATH) {
      var p := LAYOUT_CHILDREN[j].pattern;
      if p.Named? {
        assert ExactPath([], p) == [p.segment];
        assert p.segment != "auth";
      }
    }
  }

  /** The declared table is well formed. */
  lemma TableWellFormed()
    ensures WellFormed(APP_TABLE)
  {
    ChildPatternsDistinct();
    AuthApartFromLayout();
    assert PatternsDistinct(AUTH_ENTRY.children);
    assert !HasCatchAll(AUTH_ENTRY);
  }

  // ---------------------------------------------------------------------------
  // Resolution

  /** Every path matches exactly one declared route: `/auth` itself, or else a child of the
      layout root showing the page `OutletPage` names, the `*` child when no index or named
      child fits. */
  lemma MatchTotal(url: Path)
    ensures MatchRoute(APP_TABLE, url).Some?
    ensures url == AUTH_PATH ==> MatchRoute(APP_TABLE, url) == Some(Hit(0, None))
    ensures url != AUTH_PATH ==>
      var h := MatchRoute(APP_TABLE, url).value;
      h.entry == 1 && h.child.Some? && h.child.value < |LAYOUT_CHILDREN| &&
      LAYOUT_CHILDREN[h.child.value].screen == OutletPage(url) &&
      (OutletPage(url) == NotFoundPage <==> h.child == Some(9))
  {
    TableWellFormed();
    var j :=
      if url == [] then 0
      else if url == ["dashboard"] then 1
      else if url == ["donate"] then 2
      else if url == ["available-donations"] then 3
      else if url == ["inventory"] then 4
      else if url == ["logistics"] then 5
      else if url == ["analytics"] then 6
      else if url == ["profile"] then 7
      else if url == ["settings"] then 8
      else 9;
    if url == AUTH_PATH {
      StaticHitChosen(APP_TABLE, url, Hit(0, None));
    } else if j < 9 {
      StaticHitChosen(APP_TABLE, url, Hit(1, Some(j)));
    } else {
      forall h: Hit ensures !IsStaticHit(APP_TABLE, url, h) {
      }
      SplatHitChosen(APP_TABLE, url, Hit(1, Some(9)));
    }
  }

  // ---------------------------------------------------------------------------
  // Navigation outcomes

  /** Navigating is `PublicRoute` around the auth page at `/auth`, and `ProtectedRoute` around
      the layout showing `OutletPage(url)` everywhere else. */
  lemma NavigateCharacterised(url: Path, s: Status)
    ensures Navigate(url, s) ==
      if url == AUTH_PATH then Apply(PublicRoute(s), [AuthPage])
      else Apply(ProtectedRoute(s), [Layout, OutletPage(url)])
  {
    MatchTotal(url);
  }

  /** While the status is loading every path shows the placeholder: no redirect and no
      page is ever issued before the user check. */
  lemma LoadingEverywhere(url: Path, s: Status)
    requires s.isLoading
    ensures Navigate(url, s) == Loading
  {
    NavigateCharacterised(url, s);
  }

  /** The only redirects are to `/auth`, from any other path when no user is signed in,
      and to `/dashboard`, from `/auth` when one is. */
  lemma RedirectTargets(url: Path, s: Status)
    ensures Navigate(url, s) == Redirect(AUTH_PATH) <==> url != AUTH_PATH && PhaseOf(s) == Anonymous
    ensures Navigate(url, s) == Redirect(DASHBOARD_PATH) <==> url == AUTH_PATH && PhaseOf(s) == Authenticated
    ensures Navigate(url, s).Redirect? ==> Navigate(url, s).target in {AUTH_PATH, DASHBOARD_PATH}
  {
    NavigateCharacterised(url, s);
  }

  /** A page renders exactly when the status has settled and matches the entry's guard:
      the auth page without a user, anything under the layout with one. */
  lemma RenderMatchesStatus(url: Path, s: Status)
    ensures Navigate(url, s).Render? <==>
      (url == AUTH_PATH && PhaseOf(s) == Anonymous) || (url != AUTH_PATH && PhaseOf(s) == Authenticated)
    ensures Navigate(url, s).Render? && Layout in Navigate(url, s).screens ==> s.user.Some?
  {
    NavigateCharacterised(url, s);
  }

  /** A redirect lands on a route that renders under the very status that caused it,
      so following a redirect never leads to a second one. */
  lemma RedirectSettlesInOneHop(url: Path, s: Status)
    requires Navigate(url, s).Redirect?
    ensures Navigate(Navigate(url, s).target, s) ==
      if s.user.None? then Render([AuthPage]) else Render([Layout, DashboardPage])
  {
    NavigateCharacterised(url, s);
    NavigateCharacterised(Navigate(url, s).target, s);
  }

  /** Navigation keeps no state: two statuses with the same phase give the same outcome. */
  lemma NavigateDecidedByPhase(url: Path, s1: Status, s2: Status)
    requires PhaseOf(s1) == PhaseOf(s2)
    ensures Navigate(url, s1) == Navigate(url, s2)
  {
  }

  // ---------------------------------------------------------------------------
  // Scenarios

  /** `/inventory` without a user goes to `/auth`; `/auth` with a user goes to `/dashboard`;
      an unknown path with a user is the not-found page in the layout; `/` with a user is
      the home page in the layout. */
  lemma Scenarios(u: User)
    ensures Navigate(["inventory"], Status(None, false)) == Redirect(AUTH_PATH)
    ensures Navigate(AUTH_PATH, Status(Some(u), false)) == Redirect(DASHBOARD_PATH)
    ensures Navigate(["unknown-thing"], Status(Some(u), false)) == Render([Layout, NotFoundPage])
    ensures Navigate([], Status(Some(u), false)) == Render([Layout, HomePage])
  {
    NavigateCharacterised(["inventory"], Status(None, false));
    NavigateCharacterised(AUTH_PATH, Status(Some(u), false));
    NavigateCharacterised(["unknown-thing"], Status(Some(u), false));
    NavigateCharacterised([], Status(Some(u), false));
  }

  /** Signing in at `/auth` lands on the dashboard; a logout that passes through loading shows
      the placeholder, never the dashboard, and then sends the visitor back to `/auth`. */
  lemma LoginLogoutRoundTrip(u: User)
    ensures Navigate(AUTH_PATH, Status(Some(u), false)) == Redirect(DASHBOARD_PATH)
    ensures Navigate(DASHBOARD_PATH, Status(Some(u), false)) == Render([Layout, DashboardPage])
    ensures Navigate(DASHBOARD_PATH, Status(Some(u), true)) == Loading
    ensures Navigate(DASHBOARD_PATH, Status(None, true)) == Loading
    ensures Navigate(DASHBOARD_PATH, Status(None, false)) == Redirect(AUTH_PATH)
    ensures Navigate(AUTH_PATH, Status(None, false)) == Render([AuthPage])
  {
    NavigateCharacterised(AUTH_PATH, Status(Some(u), false));
    NavigateCharacterised(DASHBOARD_PATH, Status(Some(u), false));
    NavigateCharacterised(DASHBOARD_PATH, Status(Some(u), true));
    NavigateCharacterised(DASHBOARD_PATH, Status(None, true));
    NavigateCharacterised(DASHBOARD_PATH, Status(None, false));
    NavigateCharacterised(AUTH_PATH, Status(None, false));
  }
}
