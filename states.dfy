/** The root state a Store owns, as a value. A Store is generic over its
    state class; the model closes that over the two state classes that
    exist: the example app's `AppState` and the tests' `TestState`. */
module States {
  import opened Events
  import opened Counter

  /** The runtime type of a state object, which a middleware's conditional
      cast (`state as? StateType`) inspects. */
  datatype StateType = AppStateType | TestStateType

  datatype StateValue = AppValue(app: AppStateValue) | TestValue(value: string)

  function TypeOf(s: StateValue): StateType {
    if s.AppValue? then AppStateType else TestStateType
  }

  /** `TestState.react(to:)`: a `TestStringEvent` replaces the value, every
      other event is ignored. */
  function TestReact(v: string, e: Event): (r: string)
    ensures r != v ==> e.TestStringEvent?
    ensures e.TestStringEvent? ==> r == e.text
  {
    match e
    case TestStringEvent(t) => t
    case _ => v
  }

  /** The reducer of whichever state class the value belongs to. The
      reducer never changes the state's type. */
  function React(s: StateValue, e: Event, lastSnapshot: Option<AppStateValue>): (r: StateValue)
    ensures TypeOf(r) == TypeOf(s)
  {
    match s
    case AppValue(a) => AppValue(AppReact(a, e, lastSnapshot))
    case TestValue(v) => TestValue(TestReact(v, e))
  }

  /** Error-control events reach the reducer too (after the error slot has
      been updated), but neither state class reacts to them. */
  lemma ErrorEventsLeaveState(s: StateValue, e: Event, lastSnapshot: Option<AppStateValue>)
    requires e.IsErrorEvent()
    ensures React(s, e, lastSnapshot) == s
  {
  }
}
