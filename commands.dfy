/** Commands: each inspects a state snapshot and issues exactly one
    dispatch, modelled as the event it dispatches. */
module Commands {
  import opened Events
  import opened Counter
  import opened States

  /** The synchronous commands of the example app and of the tests. */
  datatype Command = IncreaseCounter | DecreaseCounter | TestCommand | TestConditionalCommand

  /** The state class a command is written for (its `StateType`). */
  function CommandStateType(c: Command): StateType {
    match c
    case IncreaseCounter => AppStateType
    case DecreaseCounter => AppStateType
    case TestCommand => TestStateType
    case TestConditionalCommand => TestStateType
  }

  /** `IncreaseCounter.execute`: increase while under the maximum,
      otherwise report that the maximum is reached. */
  function IncreaseCounterExecute(a: AppStateValue): (e: Event)
    ensures e == CounterEvent(Increase) <==> a.counter < a.maxCounterValue
    ensures e != CounterEvent(Increase) ==> e == ErrorAdd(MaxReached)
  {
    if a.counter < a.maxCounterValue then CounterEvent(Increase) else ErrorAdd(MaxReached)
  }

  /** `DecreaseCounter.execute`: decrease while above the minimum,
      otherwise report that the minimum is reached. */
  function DecreaseCounterExecute(a: AppStateValue): (e: Event)
    ensures e == CounterEvent(Decrease) <==> a.counter > a.minCounterValue
    ensures e != CounterEvent(Decrease) ==> e == ErrorAdd(MinReached)
  {
    if a.counter > a.minCounterValue then CounterEvent(Decrease) else ErrorAdd(MinReached)
  }

  /** `execute(state:store:)`: the one event the command dispatches. A
      command can only be given to a Store of its own state class. */
  function Execute(c: Command, s: StateValue): (e: Event)
    requires CommandStateType(c) == TypeOf(s)
    ensures c == TestCommand ==> e == TestStringEvent("OK")
    ensures c == TestConditionalCommand ==> e == TestStringEvent(if s.value == "INIT" then "OK" else "NOT OK")
  {
    match c
    case IncreaseCounter => IncreaseCounterExecute(s.app)
    case DecreaseCounter => DecreaseCounterExecute(s.app)
    case TestCommand => TestStringEvent("OK")
    case TestConditionalCommand => TestStringEvent(if s.value == "INIT" then "OK" else "NOT OK")
  }

  /** A guarded command never takes the counter out of its bounds: the
      event it issues, once reduced, keeps a counter that starts within
      `[min, max]` within them, whatever the last history snapshot is. */
  lemma GuardedCommandKeepsBounds(c: Command, a: AppStateValue, lastSnapshot: Option<AppStateValue>)
    requires c == IncreaseCounter || c == DecreaseCounter
    requires InBounds(a)
    ensures InBounds(AppReact(a, Execute(c, AppValue(a)), lastSnapshot))
  {
  }
}
