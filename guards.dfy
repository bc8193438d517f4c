/** The two guard components: each maps the auth status to one of showing a loading
    placeholder, redirecting to a fixed path, or rendering the wrapped children. */
module Guards {
  import opened Session

  /** A URL path as the list of its segments, already split, decoded and lower-cased, with
      empty segments dropped: "/auth" is ["auth"], "/" is []. */
  type Path = seq<string>

  /** Where `ProtectedRoute` sends a visitor without a user: "/auth". */
  const AUTH_PATH: Path := ["auth"]

  /** Where `PublicRoute` sends a signed-in user: "/dashboard". */
  const DASHBOARD_PATH: Path := ["dashboard"]

  /** What a guard component returns. */
  datatype Decision = ShowLoading | NavigateTo(target: Path) | RenderChildren

  /** Which guard component, if any, wraps a route's element. */
  datatype Guard = Unguarded | Protected | Public

  /** `ProtectedRoute`: the loading check comes first, then the user check. */
  function ProtectedRoute(s: Status): (d: Decision)
    ensures d == ShowLoading <==> PhaseOf(s) == Resolving
    ensures d == NavigateTo(AUTH_PATH) <==> PhaseOf(s) == Anonymous
    ensures d == RenderChildren <==> PhaseOf(s) == Authenticated
  {
    if s.isLoading then ShowLoading
    else if s.user.None? then NavigateTo(AUTH_PATH)
    else RenderChildren
  }

  /** `PublicRoute`: the mirror image, sending a signed-in user to the dashboard. */
  function PublicRoute(s: Status): (d: Decision)
    ensures d == ShowLoading <==> PhaseOf(s) == Resolving
    ensures d == NavigateTo(DASHBOARD_PATH) <==> PhaseOf(s) == Authenticated
    ensures d == RenderChildren <==> PhaseOf(s) == Anonymous
  {
    if s.isLoading then ShowLoading
    else if s.user.Some? then NavigateTo(DASHBOARD_PATH)
    else RenderChildren
  }

  /** The decision of the guard that wraps an element; an unwrapped element always renders. */
  function Evaluate(g: Guard, s: Status): Decision {
    match g
    case Unguarded => RenderChildren
    case Protected => ProtectedRoute(s)
    case Public => PublicRoute(s)
  }

  /** Once the status has settled, exactly one of the two guards renders its children
      and the other redirects; no status lets both render. */
  lemma Complementary(s: Status)
    ensures ProtectedRoute(s) != RenderChildren || PublicRoute(s) != RenderChildren
    ensures !s.isLoading ==>
      (ProtectedRoute(s) == RenderChildren <==> PublicRoute(s).NavigateTo?) &&
      (PublicRoute(s) == RenderChildren <==> ProtectedRoute(s).NavigateTo?)
  {
  }

  /** Neither guard keeps state of its own: two statuses with the same phase get the
      same decision, so re-evaluating with an unchanged status changes nothing. */
  lemma DecidedByPhase(g: Guard, s1: Status, s2: Status)
    requires PhaseOf(s1) == PhaseOf(s2)
    ensures Evaluate(g, s1) == Evaluate(g, s2)
  {
  }
}
