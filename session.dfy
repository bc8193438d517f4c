/** The authentication status the guards read from the auth context.
    The context itself resolves asynchronously; here its current value is an input. */
module Session {

  datatype Option<+T> = None | Some(value: T)

  /** A signed-in user. Only whether one is present matters to the routing gate. */
  datatype User = User(id: string)

  /** What `useAuth()` hands to a guard: the current user, if any, and whether the
      context is still resolving it. */
  datatype Status = Status(user: Option<User>, isLoading: bool)

  /** The three-valued view of a status: resolving while loading, whatever the user;
      once settled, authenticated exactly when a user is present. */
  datatype Phase = Resolving | Authenticated | Anonymous

  function PhaseOf(s: Status): Phase {
    match (s.isLoading, s.user)
    case (true, _) => Resolving
    case (false, Some(_)) => Authenticated
    case (false, None) => Anonymous
  }
}
