# Authorization-gated routing of the donation platform's app shell

The application shell (`src/App.tsx`) decides, for every path and every authentication
status, whether to show a loading placeholder, to redirect, or to render a screen. Two guard
components do the gating:

- `ProtectedRoute` shows the placeholder while the auth context is loading. With no user it
  redirects to `/auth`. Otherwise it renders its children.
- `PublicRoute` is its mirror image. It shows the placeholder while loading, redirects a
  signed-in user to `/dashboard`, and otherwise renders its children.

A static route table wraps `/auth` (the auth page) in `PublicRoute`. It wraps the layout root
`/` in `ProtectedRoute`. Under the root sit an index route (home page), eight named child
segments and a `*` catch-all (not-found page).

The model has four modules:

- `Session` (`session.dfy`): the status the guards read (`user`, `isLoading`). It also holds
  its three-valued phase (resolving, authenticated, anonymous).
- `Guards` (`guards.dfy`): the two guards as total functions of the status. Each guard's
  contract ties its three branches to the phase.
- `Routes` (`routes.dfy`): a route table as data, and the lookup that picks the route a path
  renders. The lookup covers only the part of nested routing this table relies on:
  - a childless top-level entry matches exactly its own path;
  - an index child matches its parent's path;
  - a named child matches its parent's path plus that one segment;
  - a `*` child matches anything under its parent;
  - an exact match always beats a `*` match.

  For a well-formed table (siblings distinct, no exact path claimed twice, at most one `*`
  child), the match is unique, so declaration order does not matter.
- `App` (`app.dfy`): the declared table and `Navigate(url, status)`. It proves that every path
  resolves to exactly one route and characterises navigation against a reference description
  of the table (`OutletPage`). It also proves that loading shows the placeholder on every
  path, that the only redirects go to `/auth` and `/dashboard`, and that a redirect lands on
  a route that renders under the very status that caused it, so there is no redirect loop.

A path is modelled as its list of segments, already split, decoded and lower-cased, with empty
segments dropped: `/auth` is `["auth"]` and `/` is `[]`. Every statement about "exactly `/auth`"
is about such normalised paths. A raw `["Auth"]` is a different path in the model, although
react-router would match it to `/auth`.

A user is an opaque value. Only its presence matters, matching the truthiness test `!user` /
`user` in the source. The guards are functions, so evaluating one twice with the same status gives the same
result. The lemmas `DecidedByPhase` and `NavigateDecidedByPhase` state the stronger fact that
only the phase matters.

The table nests only one level deep. So "an exact match beats a `*` match" is all of react-router's
ranking this table uses. `ProtectedRoute` redirects to `/auth` (src/App.tsx:33), and
`PublicRoute` redirects to `/dashboard` (src/App.tsx:47).

## Model

| member | source | states |
|---|---|---|
| Guards.ProtectedRoute | src/App.tsx:25-37 | placeholder exactly while loading, whatever the user; redirect to `/auth` exactly when settled with no user; children exactly when settled with a user |
| Guards.PublicRoute | src/App.tsx:39-51 | placeholder exactly while loading; redirect to `/dashboard` exactly when settled with a user; children exactly when settled with no user |
| Guards.Complementary | src/App.tsx:32-50 | no status lets both guards render their children; once settled, each guard renders exactly when the other redirects |
| Guards.DecidedByPhase | src/App.tsx:25-51 | a guard's decision depends only on the phase of the status: no hidden state, so an unchanged status gives an unchanged decision |
| Routes.FirstExactChild | src/App.tsx:75-83 | returns the first nested index or named route matching the path, and none exactly when no such route exists |
| Routes.FirstCatchAll | src/App.tsx:84 | returns the first `*` child, and none exactly when there is none |
| Routes.FindStatic | src/App.tsx:64-83 | returns an exact match of the path at or after the starting entry, no later than any other exact match; none only when no exact match exists |
| Routes.FindSplat | src/App.tsx:70-85 | returns a `*` match of the path at or after the starting entry, no later than any other; none only when no `*` match exists |
| Routes.MatchRoute | src/App.tsx:63-86 | the chosen route matches the path; an exact match is chosen whenever one exists; some route is chosen whenever any matches |
| Guards.Evaluate | src/App.tsx:64-74 | the guard wrapping an entry's element (`PublicRoute` at src/App.tsx:65-67, `ProtectedRoute` at src/App.tsx:71-73) decides; an unwrapped element renders. No contract of its own: `App.NavigateCharacterised` characterises it |
| Routes.Screens | src/App.tsx:70-85 | the entry's element, then the matched child rendered in the layout's outlet. No contract of its own: `App.NavigateCharacterised` characterises it |
| Routes.Apply | src/App.tsx:25-51 | a guard's decision applied to the screens it wraps: placeholder, redirect, or the screens. No contract of its own: `App.NavigateCharacterised` characterises it |
| Routes.Resolve | src/App.tsx:63-86 | a route table composed with its guards: nothing is rendered exactly when no route matches the path; no redirect is issued while loading; the placeholder appears only while loading |
| App.Navigate | src/App.tsx:63-86 | the application's table composed with its guards: every path has an outcome (never "nothing rendered"); `App.NavigateCharacterised` characterises it fully |
| Routes.ExactPathInjective | src/App.tsx:75-83 | helper of `Routes.StaticHitUnique`: two index or named children whose full paths under the same parent coincide are declared with the same pattern |
| Routes.StaticHitUnique | src/App.tsx:64-83 | in a well-formed table a path has at most one exact match |
| Routes.SplatHitUnique | src/App.tsx:84 | in a well-formed table a path has at most one `*` match |
| Routes.StaticHitChosen | src/App.tsx:63-86 | in a well-formed table the exact match of a path is the route chosen, whatever the declaration order |
| Routes.SplatHitChosen | src/App.tsx:70-85 | in a well-formed table, a path with no exact match renders its `*` match |
| App.TableShape | src/App.tsx:64-84 | `/auth` is the only entry under `PublicRoute`; the root `/` is the one under `ProtectedRoute`; the index child is the home page; `*` is the not-found page |
| App.ChildPatternsDistinct | src/App.tsx:75-84 | the index, the eight named child segments and `*` under the layout root are pairwise distinct |
| App.AuthApartFromLayout | src/App.tsx:64-83 | `/auth` is not also the full path of an index or named child of `/` |
| App.TableWellFormed | src/App.tsx:64-85 | the declared table is well formed: siblings distinct, no exact path claimed by both entries, a single `*` child |
| App.MatchTotal | src/App.tsx:64-85 | every path resolves to exactly one route: `/auth` to the public entry, every other path to a child of the protected layout, the `*` child exactly when no index or named child fits |
| App.NavigateCharacterised | src/App.tsx:25-85 | navigating is `PublicRoute` around the auth page at `/auth`, and `ProtectedRoute` around the layout with the page the nested routes name everywhere else |
| App.LoadingEverywhere | src/App.tsx:28-44 | while loading, every path shows the placeholder: never a redirect or a page |
| App.RedirectTargets | src/App.tsx:32-48 | a redirect to `/auth` happens exactly off `/auth` with no user; a redirect to `/dashboard` happens exactly at `/auth` with a user; there are no other redirects |
| App.RenderMatchesStatus | src/App.tsx:32-50 | a page renders exactly when settled and the status suits the entry's guard; the layout renders only with a user |
| App.RedirectSettlesInOneHop | src/App.tsx:25-76 | the target of any redirect renders under the same status: the auth page without a user, the dashboard in the layout with one |
| App.NavigateDecidedByPhase | src/App.tsx:25-85 | the navigation outcome depends only on the path and the phase of the status |
| App.Scenarios | src/App.tsx:64-85 | `/inventory` without a user goes to `/auth`; `/auth` with a user goes to `/dashboard`; an unknown path with a user is not-found in the layout; `/` with a user is home in the layout |
| App.LoginLogoutRoundTrip | src/App.tsx:25-76 | signing in at `/auth` reaches the dashboard; a logout through loading shows the placeholder, never the dashboard, then returns to `/auth` |

## Left out

- Provider stack (src/App.tsx:55-61, 88-94): the query, theme, location, inventory, analytics, matching and auth providers are external contexts whose source is not part of this model. The one fact the routing needs is that the router sits inside `AuthProvider` (src/App.tsx:61-62). That is what lets the guards read the status, which the model takes as an input.
- `useAuth()` and the asynchronous resolution behind it (src/App.tsx:26, 40): the auth context is not part of this model, so `(user, isLoading)` is an input value.
- `QueryClient` construction (src/App.tsx:23): a library object with no logic here.
- react-router internals are left out: the general matching and ranking algorithm, case-insensitive matching, trailing slashes, URL decoding, splitting a URL into segments, `Navigate`'s effect timing, and push versus replace in browser history. Paths are given as normalised segment lists: split, decoded, lower-cased, no empty segments. Only the lookup this table relies on is modelled.
- Routes.MatchRoute: for tables that are not well formed (two `*` children, a path claimed twice), it picks the first declared match. That choice is the model's, not react-router's ranking. The declared table is well formed, so nothing about it depends on that choice.
- A parent route matched at its own path without an index child, and guards nested below the top level: the table has neither, so the lookup does not cover them.
- Re-render scheduling, effect ordering and teardown: framework concurrency, not code in this file.
- Page and layout components and the literal "Loading..." markup: modelled as opaque screen tags and a `Loading` outcome.
