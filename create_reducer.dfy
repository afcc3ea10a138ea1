/**
 * The action reducer factory of lib/utils/create-reducer.js.
 *
 * `createReducer(initialState, actionHandlers)` returns a reducer
 * `(state = initialState, action) => state'`: it looks the handler up by
 * `action.type`, returns `state` itself when there is none, and otherwise
 * returns `{ ...state, ...handler(state, action) }`.
 */
module ReducerFactory {
  import opened JsValue

  /** A state object (a slice of the store) and a handler's partial patch of it. */
  type State = map<string, Value>
  type Patch = map<string, Value>

  /** An action `{ type, ...payload }`. */
  datatype Action = Action(tag: string, payload: map<string, Value>)

  type Handler = (State, Action) -> Patch

  /**
   * The `actionHandlers` object. A key mapped to None is registered with a
   * falsy value (null, undefined, false), which the reducer treats as absent.
   */
  type Handlers = map<string, Option<Handler>>

  /** `actionHandlers[action.type]`, with absent and falsy entries both giving None. */
  function Lookup(handlers: Handlers, tag: string): Option<Handler> {
    if tag in handlers then handlers[tag] else None
  }

  /**
   * `r` is the object spread `{ ...s, ...p }`, stated key by key: its keys are
   * those of `s` and `p`, a key of the patch takes the patch's value, and
   * every other key keeps the value it had in `s`.
   */
  ghost predicate ShallowMerge(r: State, s: State, p: Patch) {
    && r.Keys == s.Keys + p.Keys
    && (forall k :: k in p ==> k in r && r[k] == p[k])
    && (forall k :: k in s && k !in p ==> k in r && r[k] == s[k])
  }

  /**
   * createReducer. The returned reducer treats an absent (undefined) state as
   * `initialState`, is the identity on the state for an action with no
   * handler, and otherwise returns the handler's patch, computed from the
   * pre-merge state and the same action, shallow-merged over the state.
   */
  function CreateReducer(initialState: State, handlers: Handlers): (reducer: (Option<State>, Action) -> State)
    ensures forall action: Action :: reducer(None, action) == reducer(Some(initialState), action)
    ensures forall state: State, action: Action :: Lookup(handlers, action.tag).None? ==> reducer(Some(state), action) == state
    ensures forall state: State, action: Action :: Lookup(handlers, action.tag).Some? ==>
      ShallowMerge(reducer(Some(state), action), state, Lookup(handlers, action.tag).value(state, action))
  {
    (state: Option<State>, action: Action) =>
      var s := if state.Some? then state.value else initialState;
      match Lookup(handlers, action.tag)
      case None => s
      case Some(reduceFn) => s + reduceFn(s, action)
  }

  /** The spread is determined by its two operands: two results that both merge `p` over `s` are equal. */
  lemma ShallowMergeUnique(r1: State, r2: State, s: State, p: Patch)
    requires ShallowMerge(r1, s, p) && ShallowMerge(r2, s, p)
    ensures r1 == r2
  {
    forall k | k in r1
      ensures k in r2 && r1[k] == r2[k]
    {
      assert k in s.Keys + p.Keys;
    }
    assert r1.Keys == r2.Keys;
  }

  /** A handler returning the empty patch leaves a state equal, key for key, to the input. */
  lemma EmptyPatchKeepsState(initialState: State, handlers: Handlers, state: State, action: Action)
    requires Lookup(handlers, action.tag).Some?
    requires Lookup(handlers, action.tag).value(state, action) == map[]
    ensures CreateReducer(initialState, handlers)(Some(state), action) == state
  {
    var r := CreateReducer(initialState, handlers)(Some(state), action);
    assert ShallowMerge(state, state, map[]);
    ShallowMergeUnique(r, state, state, map[]);
  }

  /** The two-key example: patch `{a: 1}` over `{a: 0, b: 2}` gives `{a: 1, b: 2}`. */
  lemma PatchOverridesExample(initialState: State, handlers: Handlers, action: Action)
    requires Lookup(handlers, action.tag).Some?
    requires Lookup(handlers, action.tag).value(map["a" := Num(0), "b" := Num(2)], action) == map["a" := Num(1)]
    ensures CreateReducer(initialState, handlers)(Some(map["a" := Num(0), "b" := Num(2)]), action)
            == map["a" := Num(1), "b" := Num(2)]
  {
    var s := map["a" := Num(0), "b" := Num(2)];
    var p := map["a" := Num(1)];
    var expected := map["a" := Num(1), "b" := Num(2)];
    assert ShallowMerge(expected, s, p) by {
      assert expected.Keys == s.Keys + p.Keys;
    }
    ShallowMergeUnique(CreateReducer(initialState, handlers)(Some(s), action), expected, s, p);
  }
}
