/** The example app's state as a value, and how its reducer (`react`)
    changes it. The object that is updated in place is
    `StateObjects.AppState`; this module is the value-level specification its
    `React` method is proved against. */
module Counter {
  import opened Events

  /** The persisted fields of `AppState`. */
  datatype AppStateValue = AppStateValue(minCounterValue: int, maxCounterValue: int, counter: int)

  const DefaultMin: int := 0
  const DefaultMax: int := 10

  /** A freshly created `AppState`. */
  const DefaultAppState: AppStateValue := AppStateValue(DefaultMin, DefaultMax, 0)

  /** The counter lies within the state's own bounds. */
  predicate InBounds(a: AppStateValue) {
    a.minCounterValue <= a.counter <= a.maxCounterValue
  }

  /** `AppState.react(to:)`. `lastSnapshot` is the state snapshot held by the
      last history record, if a history with at least one record exists. The
      reducer checks no bounds, and it never writes the two bounds. */
  function AppReact(a: AppStateValue, e: Event, lastSnapshot: Option<AppStateValue>): (r: AppStateValue)
    ensures r.minCounterValue == a.minCounterValue && r.maxCounterValue == a.maxCounterValue
    ensures r.counter != a.counter ==> e.UpdateCounter? || e.CounterEvent? || e == HistoryEvent(Undo)
  {
    match e
    case UpdateCounter(v) => a.(counter := v)
    case CounterEvent(Increase) => a.(counter := a.counter + 1)
    case CounterEvent(Decrease) => a.(counter := a.counter - 1)
    case CounterEvent(Reset) => a.(counter := 0)
    case HistoryEvent(Undo) =>
      if lastSnapshot.Some? then a.(counter := lastSnapshot.value.counter) else a
    case _ => a
  }

  /** Undo brings back exactly the snapshot it is given, since the bounds of
      a snapshot taken from this state are the state's own; with no snapshot
      it changes nothing. */
  lemma UndoRestoresSnapshot(a: AppStateValue, snapshot: Option<AppStateValue>)
    requires snapshot.Some? ==> snapshot.value.minCounterValue == a.minCounterValue
                                && snapshot.value.maxCounterValue == a.maxCounterValue
    ensures AppReact(a, HistoryEvent(Undo), snapshot) == if snapshot.Some? then snapshot.value else a
  {
  }
}
