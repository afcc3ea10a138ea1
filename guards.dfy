/**
 * The navigation guards of lib/index.js. A guard receives the pending
 * transition (`nextState`) and the router's `redirectTo` callback; here each
 * call of the callback, and each store dispatch, is recorded in order as an
 * effect, and the router's reading of those effects is the small state
 * machine Pending -> Allowed | Redirected.
 */
module Guards {
  import opened JsValue
  import opened ReducerFactory
  import opened ReduxStore
  import opened Session

  /** `nextState.location`: the location the router is about to enter. */
  datatype Location = Location(pathname: string)
  datatype NextState = NextState(location: Location)

  /** What a guard does, in order: dispatch to the store, or call `redirectTo`. */
  datatype Effect =
    | Dispatched(action: Action)
    | RedirectedTo(path: string, nextPathname: Option<string>)

  /** The LOG_OUT action type; the constants module is not part of this model. */
  const LogOutType: string := "LOG_OUT"
  const LogOutAction: Action := Action(LogOutType, map[])
  const LoginPath: string := "/login"

  /** A transition is pending until a redirect settles it; without one it is allowed. */
  datatype Transition = Pending | Allowed | Redirected(path: string, nextPathname: Option<string>)

  /** One effect applied to the transition: the first redirect settles a pending one. */
  function Step(t: Transition, e: Effect): Transition {
    if t.Pending? && e.RedirectedTo? then Redirected(e.path, e.nextPathname) else t
  }

  /** The transition reached from `t` after `effects`, in order. */
  function Run(t: Transition, effects: seq<Effect>): Transition
    decreases |effects|
  {
    if |effects| == 0 then t else Run(Step(t, effects[0]), effects[1..])
  }

  /** How the router settles a transition after the guards' effects: allowed unless redirected. */
  function Settle(effects: seq<Effect>): Transition {
    var t := Run(Pending, effects);
    if t.Pending? then Allowed else t
  }

  /** A redirected transition is terminal: no later effect changes it. */
  lemma {:induction false} RedirectedIsTerminal(path: string, nextPathname: Option<string>, effects: seq<Effect>)
    ensures Run(Redirected(path, nextPathname), effects) == Redirected(path, nextPathname)
    decreases |effects|
  {
    if |effects| > 0 {
      RedirectedIsTerminal(path, nextPathname, effects[1..]);
    }
  }

  /** A pending transition settles on its first redirect, or stays pending when there is none. */
  lemma {:induction false} RunFromPending(effects: seq<Effect>)
    ensures Run(Pending, effects).Allowed? == false
    ensures Run(Pending, effects).Pending? <==> forall i :: 0 <= i < |effects| ==> !effects[i].RedirectedTo?
    ensures Run(Pending, effects).Redirected? ==>
      exists i :: 0 <= i < |effects| && effects[i] == RedirectedTo(Run(Pending, effects).path, Run(Pending, effects).nextPathname)
        && forall j :: 0 <= j < i ==> !effects[j].RedirectedTo?
    decreases |effects|
  {
    if |effects| > 0 {
      if effects[0].RedirectedTo? {
        RedirectedIsTerminal(effects[0].path, effects[0].nextPathname, effects[1..]);
      } else {
        RunFromPending(effects[1..]);
        var t := Run(Pending, effects);
        if t.Redirected? {
          var i :| 0 <= i < |effects[1..]| && effects[1..][i] == RedirectedTo(t.path, t.nextPathname)
            && forall j :: 0 <= j < i ==> !effects[1..][j].RedirectedTo?;
          assert effects[i + 1] == RedirectedTo(t.path, t.nextPathname);
          assert forall j :: 0 <= j < i + 1 ==> !effects[j].RedirectedTo? by {
            forall j | 0 <= j < i + 1 ensures !effects[j].RedirectedTo? {
              if j > 0 { assert effects[j] == effects[1..][j - 1]; }
            }
          }
        }
        if Run(Pending, effects[1..]).Pending? {
          assert forall i :: 0 <= i < |effects| ==> !effects[i].RedirectedTo? by {
            forall i | 0 <= i < |effects| ensures !effects[i].RedirectedTo? {
              if i > 0 { assert effects[i] == effects[1..][i - 1]; }
            }
          }
        }
      }
    }
  }

  /** A single redirect settles the transition on that redirect. */
  lemma SettleOnRedirect(path: string, nextPathname: Option<string>)
    ensures Settle([RedirectedTo(path, nextPathname)]) == Redirected(path, nextPathname)
  {
    var effects := [RedirectedTo(path, nextPathname)];
    assert effects[1..] == [];
    assert Run(Pending, effects) == Run(Redirected(path, nextPathname), effects[1..]);
  }

  /**
   * requireAuth. It reads `application.token` from the store's current
   * state; when the token is falsy it calls `redirectTo` once, with "/login"
   * and the pathname the user was heading to, and otherwise it does nothing.
   * It never dispatches. Reading the token throws when the application slice
   * is missing.
   */
  function RequireAuth(state: State, nextState: NextState): (r: Result<seq<Effect>>)
    ensures r.TypeError? <==> ApplicationField(state, "token").TypeError?
    ensures r.Ok? ==> (r.value == [] <==> Truthy(ApplicationField(state, "token").value))
    ensures r.Ok? && !Truthy(ApplicationField(state, "token").value) ==>
      r.value == [RedirectedTo(LoginPath, Some(nextState.location.pathname))]
  {
    match ApplicationField(state, "token")
    case TypeError => TypeError
    case Ok(token) =>
      var isLoggedIn := Truthy(token);
      if !isLoggedIn then Ok([RedirectedTo(LoginPath, Some(nextState.location.pathname))]) else Ok([])
  }

  /** requireAuth allows the transition exactly when a token is present, and otherwise sends it to the login page. */
  lemma RequireAuthSettles(state: State, nextState: NextState)
    requires RequireAuth(state, nextState).Ok?
    ensures Truthy(ApplicationField(state, "token").value) ==> Settle(RequireAuth(state, nextState).value) == Allowed
    ensures !Truthy(ApplicationField(state, "token").value) ==>
      Settle(RequireAuth(state, nextState).value) == Redirected(LoginPath, Some(nextState.location.pathname))
  {
    if !Truthy(ApplicationField(state, "token").value) {
      SettleOnRedirect(LoginPath, Some(nextState.location.pathname));
    }
  }

  /** On a freshly started session, requireAuth lets the user through exactly when a truthy token was persisted. */
  lemma RequireAuthAtStartup(persisted: map<string, Value>, nextState: NextState)
    ensures RequireAuth(InitialState(persisted), nextState).Ok?
    ensures Settle(RequireAuth(InitialState(persisted), nextState).value)
      == if Truthy(StorageGet(persisted, "token")) then Allowed
         else Redirected(LoginPath, Some(nextState.location.pathname))
  {
    RequireAuthSettles(InitialState(persisted), nextState);
  }

  /** The effects of logout: one LOG_OUT dispatch, then a redirect to "/login" with no second argument. */
  const LogoutEffects: seq<Effect> := [Dispatched(LogOutAction), RedirectedTo(LoginPath, None)]

  /**
   * logout. Whatever the state, it dispatches one LOG_OUT action to the
   * store and then calls `redirectTo("/login")`.
   */
  method Logout(store: Store, nextState: NextState) returns (effects: seq<Effect>)
    requires store.Valid()
    modifies store
    ensures store.Valid()
    ensures store.dispatched == old(store.dispatched) + [LogOutAction]
    ensures store.state == store.reducer(Some(old(store.state)), LogOutAction)
    ensures effects == LogoutEffects
  {
    store.Dispatch(LogOutAction);
    effects := [Dispatched(LogOutAction)];
    effects := effects + [RedirectedTo(LoginPath, None)];
  }

  /** A logout transition always ends on the login page. */
  lemma LogoutSettles()
    ensures Settle(LogoutEffects) == Redirected(LoginPath, None)
  {
    assert LogoutEffects[1..] == [RedirectedTo(LoginPath, None)];
    SettleOnRedirect(LoginPath, None);
  }
}
