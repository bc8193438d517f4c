/** A route table as data, and the lookup that picks the entry a path renders.

    The lookup is the part of nested routing this table relies on, written out:
    - a top-level entry without children matches exactly its own path;
    - an entry with children matches its own path through an index child, and its path
      followed by one more segment through a child declared with that segment;
    - a `*` child matches any path that starts with its parent's path;
    - an exact match (the first two rules) always wins over a `*` match. */
module Routes {
  import opened Session
  import opened Guards

  /** The page and layout components, as opaque render targets. */
  datatype Screen =
    | AuthPage | Layout | HomePage | DashboardPage | DonationPage | AvailableDonationsPage
    | InventoryPage | LogisticsPage | AnalyticsPage | ProfilePage | SettingsPage | NotFoundPage

  /** How a nested route is declared: `index`, `path="segment"` or `path="*"`. */
  datatype ChildPattern = IndexChild | Named(segment: string) | CatchAll

  datatype ChildRoute = ChildRoute(pattern: ChildPattern, screen: Screen)

  /** A top-level `<Route>`: its path, the guard wrapping its element, the element, and
      the nested routes rendered in that element's outlet. */
  datatype RouteEntry = RouteEntry(path: Path, guard: Guard, element: Screen, children: seq<ChildRoute>)

  type Table = seq<RouteEntry>

  /** A matched route: the entry, and the nested child on the matched branch if any. */
  datatype Hit = Hit(entry: nat, child: Option<nat>)

  /** What navigating to a path shows. `NoMatch` is react-router rendering nothing. */
  datatype Outcome = Loading | Redirect(target: Path) | Render(screens: seq<Screen>) | NoMatch

  /** The full path an index or named child stands for under `base`. */
  function ExactPath(base: Path, p: ChildPattern): Path
    requires !p.CatchAll?
  {
    match p
    case IndexChild => base
    case Named(seg) => base + [seg]
  }

  predicate ChildMatchesExactly(c: ChildRoute, base: Path, url: Path) {
    !c.pattern.CatchAll? && url == ExactPath(base, c.pattern)
  }

  /** `h` is an exact match of `url`: a childless entry's own path, or an index or named child. */
  predicate IsStaticHit(t: Table, url: Path, h: Hit) {
    h.entry < |t| &&
    match h.child
    case None => t[h.entry].children == [] && t[h.entry].path == url
    case Some(j) => j < |t[h.entry].children| && ChildMatchesExactly(t[h.entry].children[j], t[h.entry].path, url)
  }

  /** `h` is a `*` child whose parent's path is a prefix of `url`. */
  predicate IsSplatHit(t: Table, url: Path, h: Hit) {
    h.entry < |t| && h.child.Some? && h.child.value < |t[h.entry].children| &&
    t[h.entry].children[h.child.value].pattern.CatchAll? && t[h.entry].path <= url
  }

  /** The first child from `j` on that matches `url` exactly. */
  function FirstExactChild(cs: seq<ChildRoute>, base: Path, url: Path, j: nat): (r: Option<nat>)
    requires j <= |cs|
    decreases |cs| - j
    ensures r.Some? ==> j <= r.value < |cs| && ChildMatchesExactly(cs[r.value], base, url)
    ensures forall k :: j <= k < |cs| && ChildMatchesExactly(cs[k], base, url) ==> r.Some? && r.value <= k
  {
    if j == |cs| then None
    else if ChildMatchesExactly(cs[j], base, url) then Some(j)
    else FirstExactChild(cs, base, url, j + 1)
  }

  /** The first `*` child from `j` on. */
  function FirstCatchAll(cs: seq<ChildRoute>, j: nat): (r: Option<nat>)
    requires j <= |cs|
    decreases |cs| - j
    ensures r.Some? ==> j <= r.value < |cs| && cs[r.value].pattern.CatchAll?
    ensures forall k :: j <= k < |cs| && cs[k].pattern.CatchAll? ==> r.Some? && r.value <= k
  {
    if j == |cs| then None
    else if cs[j].pattern.CatchAll? then Some(j)
    else FirstCatchAll(cs, j + 1)
  }

  /** The first exact match among the entries from `i` on. */
  function FindStatic(t: Table, url: Path, i: nat): (r: Option<Hit>)
    requires i <= |t|
    decreases |t| - i
    ensures r.Some? ==> i <= r.value.entry && IsStaticHit(t, url, r.value)
    ensures forall h: Hit :: i <= h.entry && IsStaticHit(t, url, h) ==> r.Some? && r.value.entry <= h.entry
  {
    if i == |t| then None
    else if t[i].children == [] && t[i].path == url then Some(Hit(i, None))
    else match FirstExactChild(t[i].children, t[i].path, url, 0)
      case Some(j) => Some(Hit(i, Some(j)))
      case None => FindStatic(t, url, i + 1)
  }

  /** The first `*` match among the entries from `i` on. */
  function FindSplat(t: Table, url: Path, i: nat): (r: Option<Hit>)
    requires i <= |t|
    decreases |t| - i
    ensures r.Some? ==> i <= r.value.entry && IsSplatHit(t, url, r.value)
    ensures forall h: Hit :: i <= h.entry && IsSplatHit(t, url, h) ==> r.Some? && r.value.entry <= h.entry
  {
    if i == |t| then None
    else if t[i].path <= url then
      match FirstCatchAll(t[i].children, 0)
      case Some(j) => Some(Hit(i, Some(j)))
      case None => FindSplat(t, url, i + 1)
    else FindSplat(t, url, i + 1)
  }

  /** The route `url` renders: an exact match if there is one, else a `*` match, else none. */
  function MatchRoute(t: Table, url: Path): (r: Option<Hit>)
    ensures r.Some? ==> IsStaticHit(t, url, r.value) || IsSplatHit(t, url, r.value)
    ensures forall h :: IsStaticHit(t, url, h) ==> r.Some? && IsStaticHit(t, url, r.value)
    ensures forall h :: IsSplatHit(t, url, h) ==> r.Some?
  {
    var s := FindStatic(t, url, 0);
    if s.Some? then s else FindSplat(t, url, 0)
  }

  /** The screens a hit renders, outermost first: the entry's element, then the child in its outlet. */
  function Screens(t: Table, h: Hit): seq<Screen>
    requires h.entry < |t|
    requires h.child.Some? ==> h.child.value < |t[h.entry].children|
  {
    [t[h.entry].element] + match h.child
      case None => []
      case Some(j) => [t[h.entry].children[j].screen]
  }

  /** A guard's decision applied to the screens it wraps. */
  function Apply(d: Decision, screens: seq<Screen>): Outcome {
    match d
    case ShowLoading => Loading
    case NavigateTo(p) => Redirect(p)
    case RenderChildren => Render(screens)
  }

  /** Navigating to `url` under status `s`: match a route, then let its entry's guard decide. */
  function Resolve(t: Table, url: Path, s: Status): (r: Outcome)
    ensures r == NoMatch <==> forall h :: !IsStaticHit(t, url, h) && !IsSplatHit(t, url, h)
    ensures r.Redirect? ==> !s.isLoading
    ensures r == Loading ==> s.isLoading
  {
    match MatchRoute(t, url)
    case None => NoMatch
    case Some(h) => Apply(Evaluate(t[h.entry].guard, s), Screens(t, h))
  }

  // ---------------------------------------------------------------------------
  // Well-formed tables: no path is claimed twice

  /** Sibling routes are declared with pairwise different patterns. */
  predicate PatternsDistinct(cs: seq<ChildRoute>) {
    forall a, b :: 0 <= a < b < |cs| ==> cs[a].pattern != cs[b].pattern
  }

  predicate HasCatchAll(e: RouteEntry) {
    exists j :: 0 <= j < |e.children| && e.children[j].pattern.CatchAll?
  }

  /** No exact path of `e1` is also an exact path of `e2`. */
  predicate ExactPathsApart(e1: RouteEntry, e2: RouteEntry) {
    && (e1.children == [] && e2.children == [] ==> e1.path != e2.path)
    && (e1.children == [] ==>
          forall j :: 0 <= j < |e2.children| ==> !ChildMatchesExactly(e2.children[j], e2.path, e1.path))
    && (forall j1, j2 :: 0 <= j1 < |e1.children| && 0 <= j2 < |e2.children| && !e1.children[j1].pattern.CatchAll? ==>
          !ChildMatchesExactly(e2.children[j2], e2.path, ExactPath(e1.path, e1.children[j1].pattern)))
  }

  /** Siblings are distinct, different entries claim different exact paths, and at most
      one entry declares a `*` child. */
  predicate WellFormed(t: Table) {
    && (forall i :: 0 <= i < |t| ==> PatternsDistinct(t[i].children))
    && (forall i, i' :: 0 <= i < |t| && 0 <= i' < |t| && i != i' ==> ExactPathsApart(t[i], t[i']))
    && (forall i, i' :: 0 <= i < |t| && 0 <= i' < |t| && HasCatchAll(t[i]) && HasCatchAll(t[i']) ==> i == i')
  }

  lemma ExactPathInjective(base: Path, p1: ChildPattern, p2: ChildPattern)
    requires !p1.CatchAll? && !p2.CatchAll?
    requires ExactPath(base, p1) == ExactPath(base, p2)
    ensures p1 == p2
  {
    if p1.Named? && p2.Named? {
      assert ExactPath(base, p1)[|base|] == p1.segment;
    }
  }

  /** In a well-formed table a path has at most one exact match. */
  lemma StaticHitUnique(t: Table, url: Path, h1: Hit, h2: Hit)
    requires WellFormed(t)
    requires IsStaticHit(t, url, h1) && IsStaticHit(t, url, h2)
    ensures h1 == h2
  {
    if h1.entry == h2.entry && h1.child.Some? && h2.child.Some? {
      var cs := t[h1.entry].children;
      ExactPathInjective(t[h1.entry].path, cs[h1.child.value].pattern, cs[h2.child.value].pattern);
    }
  }

  /** In a well-formed table a path has at most one `*` match. */
  lemma SplatHitUnique(t: Table, url: Path, h1: Hit, h2: Hit)
    requires WellFormed(t)
    requires IsSplatHit(t, url, h1) && IsSplatHit(t, url, h2)
    ensures h1 == h2
  {
  }

  /** In a well-formed table the exact match is the one chosen, whatever the declaration order. */
  lemma StaticHitChosen(t: Table, url: Path, h: Hit)
    requires WellFormed(t) && IsStaticHit(t, url, h)
    ensures MatchRoute(t, url) == Some(h)
  {
    StaticHitUnique(t, url, h, MatchRoute(t, url).value);
  }

  /** Without an exact match, a well-formed table's `*` match is the one chosen. */
  lemma SplatHitChosen(t: Table, url: Path, h: Hit)
    requires WellFormed(t) && IsSplatHit(t, url, h)
    requires forall h' :: !IsStaticHit(t, url, h')
    ensures MatchRoute(t, url) == Some(h)
  {
  }
}
