# RxStateFlow dispatch engine, modelled in Dafny

RxStateFlow is a unidirectional state container for Swift apps. A `Store`
owns one persisted state object and one error slot. `dispatch(event:)` first
updates the error slot, then runs one write transaction. The transaction calls
every registered middleware's `before` hook in registration order, then the
state's reducer `react(to:)`, then every `after` hook in reverse order. If the
write transaction fails, the Store dispatches `ErrorEvent.add` with the
failure. A command is dispatched by executing it once on the current state; it
issues one event.

The example app adds three things. Its `AppState` is a counter with bounds.
`IncreaseCounter` and `DecreaseCounter` are guarded commands. A
`HistoryMiddleware` keeps a bounded, oldest-first log of records, each holding
the state as it was just before a recordable event. `clear` empties the log,
and `undo` restores the counter from the last record and then pops that
record.

The modules follow the source files:

- `Events`: the closed event type. It covers the framework's, the app's and
  the tests' events, plus `OtherEvent` for any further event type, described
  by what reflection reports about it.
- `Counter` and `States`: the state values and the reducers, as
  specifications.
- `Serialization`: `HistoryRecord.serialize`, reflection plus the
  property-list validity check.
- `HistoryLog`: records, the `History` object and the history middleware's
  hooks.
- `StateObjects`: the persisted `AppState` and `TestState` objects, whose
  `React` methods update fields in place, and the persisted store (`Realm`),
  reduced to the first object of each class.
- `Middleware`: the type-matching adapter and the `Middlewares` wrapper.
- `Commands`: the commands, as the event each one dispatches.
- `Store`: the value-level specification of a dispatch (`DispatchSpec` over a
  `World`) and the `Store` class proved against it. The class keeps a log of
  the hook calls it makes (`trace`), so that their order can be stated.
- `StoreProperties`: end-to-end properties of the engine. These cover the
  error slot, failed writes, hook order, undo through the app's middleware
  chain, sequences of commands and a worked example.

A failing write transaction is an input. `failures` is the number of
consecutive write transactions that fail before one succeeds.

## Model

| member | source | states |
|---|---|---|
| Counter.AppReact | Example/AppState.swift:17-35 | the reducer never writes `minCounterValue`/`maxCounterValue`; the counter changes only on `UpdateCounter`, a `CounterEvent` or `undo` |
| Counter.UndoRestoresSnapshot | Example/AppState.swift:27-31 | `undo` given a snapshot with the state's bounds yields exactly that snapshot; with no record it changes nothing |
| States.TestReact | Tests/TestMocks.swift:15-22 | the test state's value changes only on a `TestStringEvent`, and then becomes its value |
| States.React | Sources/State.swift:13-25 | the reducer of either state class never changes the state's class |
| States.ErrorEventsLeaveState | Example/AppState.swift:32-33 | error-control events reach the reducer but change neither state class |
| Serialization.Reflect | Example/HistoryMiddleware.swift:62 | an app-defined event is described by exactly what reflection reports about it |
| Serialization.DictionaryOfEntries | Example/HistoryMiddleware.swift:68-71 | the dictionary has a key exactly for each label; its value is that of the last child with the label |
| Serialization.Serialize | Example/HistoryMiddleware.swift:61-88 | non-struct/enum events fail with `unsupportedType`; a payload the property list cannot hold fails with `unsupportedSubType`; otherwise it succeeds; the tag is the type name, or `Type.case` for an enum |
| Serialization.SerializedPayload | Example/HistoryMiddleware.swift:68-71 | a successful payload's keys are exactly the children's labels, each holding a child's value |
| Serialization.BuildDictionary | Example/HistoryMiddleware.swift:68-71 | the loop over the children builds exactly the dictionary `DictionaryOf` specifies |
| Serialization.SerializeEvent | Example/HistoryMiddleware.swift:61-88 | the style check, loop, validity check and tag computation compute `Serialize` of the reflected event |
| Serialization.DeclaredEventsSerialize | Example/HistoryMiddleware.swift:61-88 | every declared non-error event serializes; `increase` gets the tag `CounterEvent.increase`; `UpdateCounter(v)` gets `{"value": v}` |
| Serialization.ErrorAddIsUnsupported | Example/HistoryMiddleware.swift:73-76 | `ErrorEvent.add` carries a value the property list cannot hold and fails with `unsupportedSubType` |
| HistoryLog.MakeRecord | Example/HistoryMiddleware.swift:46-54 | a record is made exactly when serialization succeeds, and its snapshot is the state passed in |
| HistoryLog.KeepLast | Example/HistoryMiddleware.swift:140-147 | front eviction leaves a suffix of the list: all of it without a limit, else `min(count, max(limit, 0))` records |
| HistoryLog.LastSnapshot | Example/AppState.swift:28-29 | a snapshot is available exactly when a history exists and has a record |
| HistoryLog.History.constructor | Example/HistoryMiddleware.swift:91-92 | a new history has no records |
| HistoryLog.History.HasRecords | Example/HistoryMiddleware.swift:94-96 | `hasRecords` is true exactly when the list is non-empty |
| HistoryLog.NewRecord | Example/HistoryMiddleware.swift:46-54 | building a record yields `MakeRecord` |
| HistoryLog.Before | Example/HistoryMiddleware.swift:122-152 | `before` changes the record list as `HistoryBefore` specifies; after `clear` the history has no records |
| HistoryLog.Evict | Example/HistoryMiddleware.swift:140-147 | the eviction loop leaves exactly `KeepLast` of the list (guarded against the empty list; see Findings) |
| HistoryLog.After | Example/HistoryMiddleware.swift:154-161 | `after` changes the record list as `HistoryAfter` specifies |
| HistoryLog.BeforeControlEvents | Example/HistoryMiddleware.swift:123-131 | `before` leaves the list alone for error events, `undo` and unserializable events, and empties it for `clear` |
| HistoryLog.BeforeRecords | Example/HistoryMiddleware.swift:133-147 | on a recordable event `before` appends one record holding the pre-event state; the survivors are the newest, in order, at most `max(limit, 0)`; nothing is evicted without a limit or under it; with a limit of at least 1 the new record is last |
| HistoryLog.BeforeAppends | Example/HistoryMiddleware.swift:133-147 | on a recordable event, `before` is append-then-evict |
| HistoryLog.KeepLastBounds | Example/HistoryMiddleware.swift:140-147 | eviction keeps a suffix, at most `max(limit, 0)` long; it removes nothing without a limit or when the count is within the limit |
| HistoryLog.AfterPopsOnUndo | Example/HistoryMiddleware.swift:155-158 | `after` on `undo` removes exactly the last record and keeps the prefix; every other event changes nothing |
| HistoryLog.EvictAsWritten | Example/HistoryMiddleware.swift:142-144 | the loop without the guard: when it stops, it leaves a suffix of at most `limit` records |
| HistoryLog.NegativeLimitTraps | Example/HistoryMiddleware.swift:142-144 | with a negative limit the loop without the guard always reaches the empty list and removes from it |
| HistoryLog.AsWrittenAgreesForNonNegative | Example/HistoryMiddleware.swift:142-144 | for a limit of zero or more, the loop without the guard equals the guarded eviction |
| StateObjects.AppState.constructor | Example/AppState.swift:13-15 | a new `AppState` has min 0, max 10, counter 0 |
| StateObjects.AppState.React | Example/AppState.swift:17-35 | the in-place reducer computes `AppReact` with the last record of the persisted history, and never writes the bounds |
| StateObjects.TestState.constructor | Tests/TestMocks.swift:13 | a new `TestState` holds the empty string |
| StateObjects.TestState.React | Tests/TestMocks.swift:15-22 | the in-place reducer computes `TestReact` |
| Middleware.BeforeEffect | Sources/Middleware.swift:39-43 | the adapter's `before` is a no-op when the cast fails, and otherwise is the typed hook's effect |
| Middleware.AfterEffect | Sources/Middleware.swift:45-49 | the adapter's `after` is a no-op when the cast fails, and otherwise is the typed hook's effect |
| Middleware.AnyBefore | Sources/Middleware.swift:39-43 | the adapter's `before` changes the persisted history as `BeforeEffect` specifies |
| Middleware.AnyAfter | Sources/Middleware.swift:45-49 | the adapter's `after` changes the persisted history as `AfterEffect` specifies |
| Middleware.Wrap | Sources/Store.swift:37 | the i-th wrapper holds the i-th middleware given |
| Middleware.Unwrap | Sources/Middleware.swift:52-55 | reading the wrappers gives their middlewares, in order |
| Middleware.UnwrapWrap | Sources/Store.swift:33-37 | the Store's middleware order is the order passed to its constructor |
| Middleware.NewHistoryMiddleware | Example/HistoryMiddleware.swift:109-120 | a history is created only when none exists, so constructing the middleware again keeps the same one |
| Commands.IncreaseCounterExecute | Example/Command.swift:11-19 | dispatches `increase` exactly when `counter < max`, and otherwise `ErrorEvent.add(maxReached)` |
| Commands.DecreaseCounterExecute | Example/Command.swift:21-29 | dispatches `decrease` exactly when `counter > min`, and otherwise `ErrorEvent.add(minReached)` |
| Commands.Execute | Tests/TestMocks.swift:29-47 | `TestCommand` dispatches `TestStringEvent("OK")`; `TestConditionalCommand` dispatches "OK" exactly when the value is "INIT", else "NOT OK" |
| Commands.GuardedCommandKeepsBounds | Example/Command.swift:13-26 | the event a guarded command issues keeps an in-bounds counter in bounds |
| Store.HandleError | Sources/Store.swift:133-142 | `add(e)` sets the slot to `e`, `remove` clears it, and every other event leaves it |
| Store.RunBefores | Sources/Store.swift:93 | the `before` pass keeps whether a history exists |
| Store.RunAfters | Sources/Store.swift:95 | the `after` pass keeps whether a history exists |
| Store.Pipeline | Sources/Store.swift:92-96 | the transaction does not touch the error slot, keeps the state's class, and keeps whether a history exists |
| Store.DispatchSpec | Sources/Store.swift:89-97 | a dispatch keeps the state's class, and a history is present before a hook needs it and after the dispatch |
| Store.Store.constructor | Sources/Store.swift:36-64 | middlewares are kept in the order given; the state object is created with its defaults only when none exists, and the existing one is reused otherwise; the error slot is empty |
| Store.Store.Dispatch | Sources/Store.swift:89-97 | the Store's error slot, state, history and call log become `DispatchSpec` of the old ones |
| Store.Store.DispatchCommand | Sources/Store.swift:108-110 | executes the command once on the current state and dispatches the event it issues, nothing more |
| Store.Store.HandleErrorSlot | Sources/Store.swift:133-142 | the slot becomes `HandleError` of the old slot |
| Store.Store.UpdateState | Sources/Store.swift:121-131 | a successful write runs `Pipeline`; a failed one dispatches `ErrorEvent.add` with the failure |
| Store.Store.Transaction | Sources/Store.swift:92-96 | the write closure's effect is `Pipeline` of the old state |
| Store.Store.BeforeHooks | Sources/Store.swift:93 | calls each `before` in registration order, logged as `BeforeCalls`, and changes the history as `RunBefores` |
| Store.Store.ReactStep | Sources/Store.swift:94 | the persisted state object reacts as `React` with the history left by the `before` hooks |
| Store.Store.AfterHooks | Sources/Store.swift:95 | calls each `after` in reverse order, logged as `AfterCalls`, and changes the history as `RunAfters` |
| StoreProperties.InertChainLeavesHistory | Sources/Middleware.swift:39-49 | middlewares whose cast fails, that only log, or that see an error event leave the history unchanged in both passes |
| StoreProperties.ControlEventsPassThrough | Example/HistoryMiddleware.swift:124-126 | an error-control event passes every hook and the reducer and changes only the call log; it never makes a history record |
| StoreProperties.FailedWriteCommitsNothing | Sources/Store.swift:121-130 | after failed writes, state and history are unchanged, the slot holds the write failure, and the only calls are those of the re-dispatched `ErrorEvent.add` |
| StoreProperties.ErrorSlot | Sources/Store.swift:89-142 | after a dispatch the slot follows `add`/`remove`/other, or holds the write failure if the write failed |
| StoreProperties.PipelineCallOrder | Sources/Store.swift:92-96 | position by position: `before` 0..n-1, then `react`, then `after` n-1..0 |
| StoreProperties.EachHookOnce | Sources/Store.swift:93-95 | each `before`, each `after` and `react` appear exactly once in a transaction's calls, and nothing else does |
| StoreProperties.TwoMiddlewareOrder | Sources/Store.swift:92-96 | with `[A, B]` one dispatch calls `A.before, B.before, react, B.after, A.after` |
| StoreProperties.HistoryChainHooks | Example/Example/AppDelegate.swift:12 | with `[Logging, History]` on an `AppState`, the two passes act exactly as the history middleware's hooks |
| StoreProperties.RecordStep | Example/HistoryMiddleware.swift:133-147 | a recordable event through the app's chain: the reducer's result, and one pre-event record appended then cut to the limit; slot unchanged |
| StoreProperties.UndoStep | Example/AppState.swift:27-31 | `undo` through the app's chain: the counter from the last record and that record popped; with no record, no change |
| StoreProperties.UndoRestores | Example/HistoryMiddleware.swift:130-158 | a recordable event then `undo` restores the prior state and shrinks the history by one; with nothing evicted the history is back as it was |
| StoreProperties.AppUndo | Example/Example/AppDelegate.swift:12 | in the app's configuration (limit 1), an event then `undo` restores the state and empties the history |
| StoreProperties.DispatchAll | Sources/Store.swift:89-97 | successive dispatches keep the state's class and the history's presence |
| StoreProperties.DispatchAllAppend | Sources/Store.swift:89-97 | dispatching `xs` then `ys` equals dispatching `xs + ys` |
| StoreProperties.IncreaseRecorded | Example/AppState.swift:21-22 | `increase` through the unbounded chain adds one and records the old counter |
| StoreProperties.UndoPopped | Example/AppState.swift:27-31 | `undo` through the unbounded chain restores the last recorded counter and drops it |
| StoreProperties.ExampleIncreases | Example/AppState.swift:21-22 | three increases from a fresh state give counter 3 with records of 0, 1, 2 |
| StoreProperties.ExampleUndos | Example/HistoryMiddleware.swift:155-158 | from there, undo gives 2 with records 0, 1; two more give 0 and no records; one more changes nothing |
| StoreProperties.ExampleScenario | Example/HistoryMiddleware.swift:130-158 | three increases and four undos from a fresh state end at counter 0 with an empty history |
| StoreProperties.RunCommands | Sources/Store.swift:108-110 | successive commands keep the state's class |
| StoreProperties.CommandsKeepBounds | Example/Command.swift:13-26 | any sequence of the two guarded commands keeps an in-bounds counter in bounds, whatever middlewares are registered |
| StoreProperties.RepeatedIncrease | Example/Command.swift:11-19 | `n` increases give `min(counter + n, max)`; the slot holds `maxReached` exactly when `counter + n > max` |
| StoreProperties.TestStateDispatch | Tests/EventTests.swift:23-29 | `TestStringEvent(v)` sets the test state to `v` and leaves history and slot; `TestCommand` gives "OK"; `TestConditionalCommand` gives "OK" exactly from "INIT" |

## Left out

- The persistence engine is not modelled. This covers opening a Realm,
  `objects(...)`, notifications and the forced unwraps of `first!`. It is
  reduced to `StateObjects.Realm`, three nullable fields. A failing write is
  the `failures` input. A failed write is modelled as committing nothing,
  with no hooks called.
- The re-dispatch after a failed write recurses without bound if writes keep
  failing. The model covers any finite number of consecutive failures.
- Store.Store.constructor: does not model a failing initial write. The source
  catches and ignores that failure, leaving a state object that was never
  persisted.
- Middleware.NewHistoryMiddleware: does not model a failing initial write.
  The source ignores that failure too.
- Store.Store.Dispatch requires a persisted history whenever a registered
  history middleware would look one up. The source ends the process on its
  forced unwrap otherwise.
- The reactive layer is not modelled: `Variable`, the state notifications and
  observers. Only the current value is.
- `TestAsyncCommand` and asynchronous dispatch are concurrency, so they are
  left out.
- `HistoryRecord.timestamp` is not modelled, because it reads the clock.
- The binary property-list bytes and `HistoryRecord.raw` are not modelled. The
  payload is the dictionary that would be encoded, and the validity check is
  whether every value is an integer or a string.
- Serialization.Reflect: the tag of an enum case uses the case name. The
  source uses the event's description, which also shows any payload of the
  case.
- `LoggingMiddleware` only prints. Its hooks change nothing, and the Store's
  call log records that they were called.
- The view controllers, the history view and app start-up are not modelled.
- Counter.AppReact: does not model the trap of Swift's 64-bit `Int` on
  overflow of `counter += 1` or `-= 1`. Integers are unbounded.
- HistoryLog.HistoryAfter: `removeLast` on an empty record list is modelled
  as doing nothing. That is what the persisted list type does.
- `ErrorEvent.add` can carry any `Error`. The model closes it over the app's
  two counter errors and the write failure.
- The framework's open `Event` and `Command` protocols are closed in the
  model. `Event` covers the declared events plus `OtherEvent`. `Command`
  covers the four declared commands.

## Findings

| source | as written | input that shows it | evidently intended | confidence | as-written member | corrected member |
|---|---|---|---|---|---|---|
| Example/HistoryMiddleware.swift:142-144 | while the record count exceeds the limit, remove the record at index 0, with no check for an empty list | `HistoryMiddleware(limit: .limit(-1))` and any recordable event: the count reaches 0, `0 > -1` still holds, and index 0 of an empty list is removed, which raises | keep at most `max(limit, 0)` records and stop at the empty list | medium; not executed | HistoryLog.EvictAsWritten | HistoryLog.Evict |
