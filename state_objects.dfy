/** The persisted objects: the two state classes, whose `react` changes
    their fields in place, and the persisted store that holds at most one
    object of each persisted class. The store is modelled by plain fields:
    the first `AppState`, the first `TestState` and the first `History`, each
    absent or present. */
module StateObjects {
  import opened Events
  import opened Counter
  import opened States
  import opened HistoryLog

  class AppState {
    var minCounterValue: int
    var maxCounterValue: int
    var counter: int

    /** `AppState()` with its declared defaults. */
    constructor ()
      ensures Value() == DefaultAppState
    {
      minCounterValue, maxCounterValue, counter := DefaultMin, DefaultMax, 0;
    }

    function Value(): AppStateValue
      reads this
    {
      AppStateValue(minCounterValue, maxCounterValue, counter)
    }

    /** `AppState.react(to:)`. On `undo` it reads the last record of the
        persisted history, if a history exists; it never writes the bounds. */
    method React(event: Event, history: History?)
      modifies this
      ensures Value() == AppReact(old(Value()), event, LastSnapshot(if history == null then None else Some(history.records)))
      ensures minCounterValue == old(minCounterValue) && maxCounterValue == old(maxCounterValue)
    {
      match event
      case UpdateCounter(v) => counter := v;
      case CounterEvent(Increase) => counter := counter + 1;
      case CounterEvent(Decrease) => counter := counter - 1;
      case CounterEvent(Reset) => counter := 0;
      case HistoryEvent(Undo) =>
        if history != null && history.records != [] {
          var record := history.records[|history.records| - 1];
          counter := record.state.counter;
        }
      case _ =>
    }
  }

  /** The tests' state class. */
  class TestState {
    var value: string

    constructor ()
      ensures value == ""
    {
      value := "";
    }

    method React(event: Event)
      modifies this
      ensures value == TestReact(old(value), event)
    {
      match event
      case TestStringEvent(t) => value := t;
      case _ =>
    }
  }

  /** The persisted store, reduced to the objects the core looks up in it:
      `objects(AppState.self).first`, `objects(TestState.self).first` and
      `objects(History.self).first`. */
  class Realm {
    var appState: AppState?
    var testState: TestState?
    var history: History?

    /** An empty store. */
    constructor ()
      ensures appState == null && testState == null && history == null
    {
      appState, testState, history := null, null, null;
    }
  }

  /** The record list of the persisted history, if there is one. */
  function HistoryOf(h: History?): (r: Option<seq<HistoryRecord>>)
    reads h
    ensures r.Some? <==> h != null
  {
    if h == null then None else Some(h.records)
  }
}
