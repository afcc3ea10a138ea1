# redux-react-router-async-example: reducer factory, session bootstrap and navigation guards

This project models the logic at the heart of the example application and
proves properties about it:

- **The action reducer factory** (`createReducer`). The reducer it returns
  treats an undefined state as the initial state. It leaves the state as it
  is for an action with no handler. Otherwise it shallow-merges the handler's
  patch over the state (module `ReducerFactory`, file `create_reducer.dfy`).
- **The store** the application creates from its initial state. It is a class
  holding the current state and the log of dispatched actions. Each dispatch
  reduces one action into the state (module `ReduxStore`, file `store.dfy`).
- **Session bootstrap** (module `Session`, file `session.dfy`):
  - the initial `application` state built from the persisted `token` and
    `locale`;
  - the message catalog picked for the current locale.
- **The navigation guards** `requireAuth` and `logout` (module `Guards`,
  file `guards.dfy`):
  - a guard's calls to `redirectTo` and its store dispatches are recorded,
    in order, as a trace of effects;
  - the router reads that trace as a small state machine: a transition is
    `Pending`, and then either `Allowed` or `Redirected`, the first redirect
    winning. Within one hook the router keeps the last `redirectTo` call;
    every hook of this table calls it at most once, so first and last agree.
- **The route table** (module `Routes`, file `routes.dfy`):
  - the table is a tree of datatype entries, with a matching function that
    follows the router's rules;
  - the matching function is proved to agree, for every URL, with the table
    written out branch by branch;
  - that result gives the exact set of enter hooks every URL runs;
  - `Navigate` is a method that matches a URL, runs its hooks against the
    store and returns how the transition settles.

JavaScript values (`JsValue`, file `js_value.dfy`) are a datatype. The module
also gives JavaScript truthiness and property reads that throw a `TypeError`
on `undefined` and `null`. A `Result` carries that error through every
operation that can throw.

## Model

| member | source | states |
|---|---|---|
| JsValue.Or | lib/index.js:38 | `a \|\| b` is `a` when `a` is truthy and `b` otherwise, and it is truthy exactly when one operand is |
| JsValue.Member | lib/index.js:91 | `v.key` throws exactly when `v` is undefined or null, and reads an object's field |
| ReducerFactory.CreateReducer | lib/utils/create-reducer.js:1-8 | an undefined state acts as `initialState`. With no truthy handler for `action.type`, the state is returned unchanged. Otherwise the result is the handler's patch (computed from the pre-merge state and the same action) shallow-merged over the state: the keys are the union, the patch overrides, and every other key keeps its value |
| ReducerFactory.ShallowMergeUnique | lib/utils/create-reducer.js:6 | the spread `{ ...state, ...patch }` is determined by its operands: two results satisfying the merge are equal |
| ReducerFactory.EmptyPatchKeepsState | lib/utils/create-reducer.js:6 | a handler returning an empty patch yields a state equal, key for key, to the input |
| ReducerFactory.PatchOverridesExample | lib/utils/create-reducer.js:6 | patch `{a: 1}` over `{a: 0, b: 2}` gives exactly `{a: 1, b: 2}` |
| ReduxStore.Store.constructor | lib/utils/configure-store.js:25-27 | a new store holds the given reducer and state, with the initialisation action reduced into it and logged |
| ReduxStore.Store.Dispatch | lib/index.js:99 | `store.dispatch(action)` appends the action to the log and replaces the state with the reducer applied to the old state and the action. It keeps the invariant that the state is the replay of the log |
| ReduxStore.ReplayKeepsKeys | lib/utils/create-reducer.js:6 | over any sequence of dispatches, a reducer built by createReducer never drops a key of the state |
| ReduxStore.ReplayUnhandledIsIdentity | lib/utils/create-reducer.js:3-4 | dispatching only unhandled actions, in any number, leaves the state as it was |
| ReduxStore.StoreKeepsKeys | lib/utils/create-reducer.js:6 | a live store whose reducer was built by createReducer still holds, after every dispatch so far, each key of the state it was created with |
| ReduxStore.StoreStartsInInitialState | lib/index.js:42 | when the reducer has no handler for the initialisation action, the store starts in exactly the state passed to configureStore |
| Session.InitialState | lib/index.js:35-41 | the initial state has one `application` slice. Its `token` is the persisted token verbatim, absent included. Its `locale` is the persisted locale when truthy and "en" otherwise. Its user's `permissions` is empty |
| Session.InitialLocaleIsTruthy | lib/index.js:38 | whatever is persisted, the initial locale is a truthy value |
| Session.IntlDataFor | lib/index.js:45-48 | the provider gets the current `application.locale`, and the catalog is present exactly when `i18n` exports one under that locale's name and is that catalog. Reading the locale throws when the application slice is missing |
| Session.StartupCatalog | lib/index.js:38-47 | at start-up the catalog is the one named by a persisted non-empty string locale; with no truthy persisted locale it is the "en" catalog |
| Guards.RedirectedIsTerminal | lib/index.js:93-95 | once a transition is redirected, no later effect changes it |
| Guards.RunFromPending | lib/index.js:93-100 | a pending transition is never merely allowed by running effects. It stays pending exactly when no effect redirects, and otherwise it is redirected to the first redirect in the trace |
| Guards.SettleOnRedirect | lib/index.js:93-95 | a single `redirectTo` call settles the transition on that target |
| Guards.RequireAuth | lib/index.js:89-96 | requireAuth throws exactly when reading `application.token` throws. It has no effect exactly when the token is truthy, and otherwise calls `redirectTo` exactly once, with "/login" and the next pathname. It never dispatches |
| Guards.RequireAuthSettles | lib/index.js:89-96 | with a truthy token the transition is allowed; with a falsy one it goes to "/login" carrying the attempted pathname |
| Guards.RequireAuthAtStartup | lib/index.js:89-96 | on a freshly started session, requireAuth never throws and lets the user through exactly when a truthy token was persisted |
| Guards.Logout | lib/index.js:98-101 | logout dispatches exactly one LOG_OUT action to the store and then calls `redirectTo("/login")` with no second argument, in that order, whatever the state |
| Guards.LogoutSettles | lib/index.js:98-101 | a logout transition always ends on "/login" without a next pathname |
| Routes.RemainingAppend | lib/index.js:73-75 | a nested relative path matches when the parent's part matches and the child's part matches what is left |
| Routes.RemainingOne | lib/index.js:77 | a one-segment path pattern consumes exactly one matching segment |
| Routes.MatchLeaf | lib/index.js:82-83 | a childless one-segment route directly under the application route matches exactly that one-segment URL |
| Routes.MatchHome | lib/index.js:71 | the "/" route matches only the empty URL |
| Routes.MatchAccountRedirect | lib/index.js:72 | the redirect from "/account" matches only "/account" |
| Routes.MatchRepo | lib/index.js:74 | under "stargazers", `:username/:repo` matches exactly two further non-empty segments |
| Routes.MatchUser | lib/index.js:75 | under "stargazers", `:username` matches exactly one further non-empty segment |
| Routes.MatchStargazers | lib/index.js:73-76 | the stargazers subtree selects itself, the repo page or the user page, by URL, trying the repo page first |
| Routes.MatchAccount | lib/index.js:78-81 | the account subtree matches "/account", "/account/profile" and "/account/secret-area", with the matching child |
| Routes.FirstMatchWins | lib/index.js:70-84 | sibling routes are tried in declaration order, and the first one that matches decides |
| Routes.MatchRoutesCons | lib/index.js:70-84 | a list of sibling routes matches as its first route does, and falls through to the rest only when that one does not match |
| Routes.NoneMatches | lib/index.js:70-84 | when no sibling matches, the list does not match |
| Routes.MatchChildren | lib/index.js:71-83 | the children of the application route select what the written-out table lists, for every URL |
| Routes.MatchTable | lib/index.js:69-85 | the table's matching agrees with the written-out branch for every URL. "/account" hits the redirect before the guarded account route, and any URL not listed matches nothing |
| Routes.HookAssignment | lib/index.js:72-83 | on every matched URL: "/account" runs only the redirect to "/account/profile", the two account pages run only requireAuth, "/logout" runs only logout, and every other page runs no hook |
| Routes.AccountRedirectIsGuarded | lib/index.js:72-81 | "/account" redirects to "/account/profile", and that target is guarded by requireAuth |
| Routes.AccountProfilePathname | lib/index.js:72 | the redirect target, written back as a pathname, is "/account/profile" |
| Routes.Navigate | lib/index.js:67-101 | navigating to an unknown URL finds no route and changes nothing. "/account" settles on "/account/profile" with that one redirect as its effect. On the account pages the effects are exactly those of requireAuth on the current state: the navigation fails when the token read throws, is allowed with a truthy token, and otherwise goes to "/login" with the attempted pathname. "/logout" dispatches LOG_OUT and settles on "/login". Every other page is allowed with no effect. Only "/logout" dispatches or changes the store |

## Left out

- React rendering (`Root`, the JSX of `getRootChildren`, `Provider`/`connect`, `IntlProvider`, `React.render`) is user interface bound to the framework. Only the locale and catalog selection of `getRootChildren` is modelled.
- The DevTools panel and enhancer gated by `__DEVTOOLS__` are debug tooling loaded at run time.
- The choice between hash and browser history is a library selection driven by an environment flag.
- lib/utils/configure-store.js is left out beyond its result, a store over a reducer and an initial state. Its middleware (thunk, logger), the persistence enhancer, `combineReducers` and the hot-reload `replaceReducer` hook are code this model cannot see or bundler plumbing. The store's reducer is a parameter.
- webpack.config.js (build configuration) and server.js (HTTP I/O of the dev server) are not part of this model.
- The persistence storage module is not part of this model. `storage.get` is a map of persisted values; a key it does not hold reads as undefined. Its failure modes are not modelled.
- The reducers are not part of this model, so what LOG_OUT does to the state (clearing the token) is not modelled. Only that the action is dispatched is modelled.
- The constants module is not part of this model. The LOG_OUT action type is taken to be the string "LOG_OUT".
- Store slices other than `application`, and the store's subscribers, are not modelled.
- ReducerFactory.CreateReducer: states are values, so object identity is not modelled. The claims that the input object is not mutated and that a fresh object is returned hold by construction. That the handler runs exactly once is not stated.
- ReducerFactory.CreateReducer: handlers are a finite map from action type to an optional handler returning a map patch. Inherited prototype keys (such as `toString`) and the spread of a handler result that is not an object are not modelled.
- JsValue.Member: only undefined, null and plain objects are read as JavaScript does. Any other value reads as undefined, which is right for the keys this model reads but does not model built-in properties such as a string's `length`.
- JsValue.Value: numbers are integers; NaN and fractional numbers are not modelled.
- Session.IntlDataFor: when the locale is not a string, JavaScript converts it to a property name (`i18n["undefined"]`). The model gives no catalog in that case.
- Routes.MatchRoute: the router library's matcher is modelled only for the patterns this table uses: literal segments and `:param` segments, each matching one non-empty segment. The search does not enter a subtree whose own prefix does not match, which selects the same branch for this table. URLs are given as their list of segments; splitting a pathname on "/" and decoding it are not modelled. Literal segments are compared exactly, whereas the router compiles each pattern into a case-insensitive regular expression, so "/About" or "/ACCOUNT/profile" also match there; the claim of Routes.MatchTable that an unlisted URL matches nothing holds only up to letter case.
- Routes.Navigate: the model only covers a navigation that enters the matched branch from outside it. The router runs a route's `onEnter` only when the transition newly enters that route, so moving between "/account/profile" and "/account/secret-area" runs no requireAuth, and such a move is let through even with a falsy token; the model instead runs every hook of the branch.
- Routes.Navigate: the router's asynchronous transition handling, query strings and location state beyond `nextPathname` are not modelled. A `<Redirect>` is recorded as a redirect without location state.
