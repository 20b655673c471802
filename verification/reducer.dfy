/**
 * The page state reducer of utils/reducer.ts. The state is a record whose
 * fields are addressed by arbitrary string keys, so it is a `map<string, string>`.
 */
module Reducer {

  type State = map<string, string>

  /** The state a page starts from: detect the source, translate into English, no text. */
  const InitialState: State := map["source" := "auto", "target" := "en", "query" := ""]

  /**
   * The two actions the reducer handles, plus any other action value, which
   * reaches the reducer's default branch.
   */
  datatype Action =
    | SetField(key: string, value: string)
    | SetAll(state: State)
    | Unrecognized

  /**
   * One transition: `SetField` overwrites one field, `SetAll` merges the payload
   * over the state (payload wins), anything else keeps the state.
   */
  function Reduce(state: State, action: Action): (r: State)
    ensures action.SetField? ==>
      && r.Keys == state.Keys + {action.key}
      && r[action.key] == action.value
      && forall k :: k in state && k != action.key ==> r[k] == state[k]
    ensures action.SetAll? ==>
      && r.Keys == state.Keys + action.state.Keys
      && (forall k :: k in action.state ==> r[k] == action.state[k])
      && (forall k :: k in state && k !in action.state ==> r[k] == state[k])
    ensures action.Unrecognized? ==> r == state
  {
    match action
    case SetField(key, value) => state[key := value]
    case SetAll(payload) => state + payload
    case Unrecognized => state
  }

  /** The initial state holds exactly the three documented fields. */
  lemma InitialStateFields()
    ensures InitialState.Keys == {"source", "target", "query"}
    ensures InitialState["source"] == "auto" && InitialState["target"] == "en" && InitialState["query"] == ""
  {
  }

  /** Applying the same action twice is the same as applying it once. */
  lemma ReduceIdempotent(state: State, action: Action)
    ensures Reduce(Reduce(state, action), action) == Reduce(state, action)
  {
  }

  /** `SetField` is `SetAll` with a one-field payload. */
  lemma SetFieldIsSingletonSetAll(state: State, key: string, value: string)
    ensures Reduce(state, SetField(key, value)) == Reduce(state, SetAll(map[key := value]))
  {
  }

  /** Two `SetAll` actions in a row are one `SetAll` of the merged payloads. */
  lemma SetAllComposes(state: State, p: State, q: State)
    ensures Reduce(Reduce(state, SetAll(p)), SetAll(q)) == Reduce(state, SetAll(p + q))
  {
  }

  /**
   * From the initial state, a `SetAll` whose payload covers source, target and
   * query yields exactly that payload.
   */
  lemma SetAllFromInitial(payload: State)
    requires {"source", "target", "query"} <= payload.Keys
    ensures Reduce(InitialState, SetAll(payload)) == payload
  {
  }
}
