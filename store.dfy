/**
 * The application's single store, created at lib/index.js:42 through
 * configureStore (lib/utils/configure-store.js:25-27). The store holds the
 * current state and applies its reducer to each dispatched action, one
 * dispatch at a time and in call order. Like the state library's
 * createStore, it dispatches an initialisation action when it is created.
 * The middleware and enhancers configureStore composes around it are not
 * part of this model.
 */
module ReduxStore {
  import opened JsValue
  import opened ReducerFactory

  /** The action type the store dispatches once, on creation. */
  const InitType: string := "@@redux/INIT"
  const InitAction: Action := Action(InitType, map[])

  /** The state reached from `s` by reducing `actions` in order. */
  function Replay(reducer: (Option<State>, Action) -> State, s: State, actions: seq<Action>): State
    decreases |actions|
  {
    if |actions| == 0 then s
    else reducer(Some(Replay(reducer, s, actions[..|actions| - 1])), actions[|actions| - 1])
  }

  class Store {
    /** The root reducer the store was created with. */
    const reducer: (Option<State>, Action) -> State
    /** The state passed to configureStore. */
    ghost const preloaded: State
    /** What `getState()` returns. */
    var state: State
    /** Every action dispatched so far, in order. */
    var dispatched: seq<Action>

    /** The current state is the preloaded state with every dispatched action reduced in order. */
    ghost predicate Valid()
      reads this
    {
      state == Replay(reducer, preloaded, dispatched)
    }

    constructor (reducer: (Option<State>, Action) -> State, initialState: State)
      ensures Valid()
      ensures this.reducer == reducer && preloaded == initialState
      ensures dispatched == [InitAction]
      ensures state == reducer(Some(initialState), InitAction)
    {
      this.reducer := reducer;
      preloaded := initialState;
      state := reducer(Some(initialState), InitAction);
      dispatched := [InitAction];
      assert [InitAction][..0] == [];
    }

    /** `store.dispatch(action)`: reduce the action into the state and log it. */
    method Dispatch(action: Action)
      requires Valid()
      modifies this
      ensures Valid()
      ensures dispatched == old(dispatched) + [action]
      ensures state == reducer(Some(old(state)), action)
    {
      state := reducer(Some(state), action);
      dispatched := dispatched + [action];
      assert dispatched[..|dispatched| - 1] == old(dispatched);
    }
  }

  /** A reducer built by CreateReducer never drops a key, over any number of dispatches. */
  lemma {:induction false} ReplayKeepsKeys(initialState: State, handlers: Handlers, s: State, actions: seq<Action>)
    ensures s.Keys <= Replay(CreateReducer(initialState, handlers), s, actions).Keys
    decreases |actions|
  {
    if |actions| > 0 {
      var reducer := CreateReducer(initialState, handlers);
      var before := Replay(reducer, s, actions[..|actions| - 1]);
      ReplayKeepsKeys(initialState, handlers, s, actions[..|actions| - 1]);
      var last := actions[|actions| - 1];
      if Lookup(handlers, last.tag).Some? {
        assert ShallowMerge(reducer(Some(before), last), before, Lookup(handlers, last.tag).value(before, last));
      }
    }
  }

  /** Dispatching only actions without a handler leaves the state as it was. */
  lemma {:induction false} ReplayUnhandledIsIdentity(initialState: State, handlers: Handlers, s: State, actions: seq<Action>)
    requires forall i :: 0 <= i < |actions| ==> Lookup(handlers, actions[i].tag).None?
    ensures Replay(CreateReducer(initialState, handlers), s, actions) == s
    decreases |actions|
  {
    if |actions| > 0 {
      var prefix := actions[..|actions| - 1];
      assert forall i :: 0 <= i < |prefix| ==> prefix[i] == actions[i];
      ReplayUnhandledIsIdentity(initialState, handlers, s, prefix);
    }
  }

  /**
   * A store over a CreateReducer reducer with no handler for the
   * initialisation action starts in exactly the state it was given.
   */
  lemma StoreStartsInInitialState(initialState: State, handlers: Handlers, preloaded: State)
    requires Lookup(handlers, InitType).None?
    ensures Replay(CreateReducer(initialState, handlers), preloaded, [InitAction]) == preloaded
  {
    ReplayUnhandledIsIdentity(initialState, handlers, preloaded, [InitAction]);
  }

  /** A store whose reducer was built by createReducer still holds every key of the state it was created with. */
  lemma StoreKeepsKeys(st: Store, initialState: State, handlers: Handlers)
    requires st.Valid() && st.reducer == CreateReducer(initialState, handlers)
    ensures st.preloaded.Keys <= st.state.Keys
  {
    ReplayKeepsKeys(initialState, handlers, st.preloaded, st.dispatched);
  }
}
