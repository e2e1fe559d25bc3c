/** Middlewares: the registered hook pairs and the adapter that lets a
    Store call a middleware typed for one state class with a state of any
    class. The adapter forwards to the typed hook exactly when the state has
    the middleware's declared state type, and does nothing otherwise. */
module Middleware {
  import opened Events
  import opened Counter
  import opened States
  import opened HistoryLog
  import opened StateObjects

  /** The middlewares that exist: the example app's logging middleware and
      its history middleware (with its `historyLimit`). */
  datatype AnyMiddleware = LoggingMiddleware | HistoryMiddleware(historyLimit: HistoryLimit)

  /** The `Middlewares` wrapper a Store keeps for each registered
      middleware; its field is immutable. */
  datatype Middlewares = Middlewares(middleware: AnyMiddleware)

  /** The `StateType` each middleware declares: both are written for
      `AppState`. */
  function DeclaredStateType(m: AnyMiddleware): StateType {
    match m
    case LoggingMiddleware => AppStateType
    case HistoryMiddleware(_) => AppStateType
  }

  /** `state as? StateType` succeeds. */
  predicate Forwards(m: AnyMiddleware, s: StateValue) {
    DeclaredStateType(m) == TypeOf(s)
  }

  /** The call reaches a history middleware's typed hook, which looks up
      the persisted history with a forced unwrap. */
  predicate TouchesHistory(m: AnyMiddleware, s: StateValue) {
    m.HistoryMiddleware? && Forwards(m, s)
  }

  /** The effect of `before(event:state: Any)` on the persisted history
      (`None`: no history exists). Logging only prints. */
  function BeforeEffect(m: AnyMiddleware, e: Event, s: StateValue, h: Option<seq<HistoryRecord>>): (r: Option<seq<HistoryRecord>>)
    requires TouchesHistory(m, s) ==> h.Some?
    ensures !Forwards(m, s) ==> r == h
    ensures m.LoggingMiddleware? ==> r == h
    ensures TouchesHistory(m, s) ==> r == Some(HistoryBefore(m.historyLimit, e, s.app, h.value))
  {
    if !Forwards(m, s) then h
    else match m
      case LoggingMiddleware => h
      case HistoryMiddleware(limit) => Some(HistoryBefore(limit, e, s.app, h.value))
  }

  /** The effect of `after(event:state: Any)` on the persisted history. */
  function AfterEffect(m: AnyMiddleware, e: Event, s: StateValue, h: Option<seq<HistoryRecord>>): (r: Option<seq<HistoryRecord>>)
    requires TouchesHistory(m, s) ==> h.Some?
    ensures !Forwards(m, s) ==> r == h
    ensures m.LoggingMiddleware? ==> r == h
    ensures TouchesHistory(m, s) ==> r == Some(HistoryAfter(e, h.value))
  {
    if !Forwards(m, s) then h
    else match m
      case LoggingMiddleware => h
      case HistoryMiddleware(_) => Some(HistoryAfter(e, h.value))
  }

  /** `Middleware.before(event:state: Any)`: the conditional cast, then the
      typed hook. The state is passed as a value, so no hook can change it. */
  method AnyBefore(m: AnyMiddleware, event: Event, state: StateValue, history: History?)
    requires TouchesHistory(m, state) ==> history != null
    modifies history
    ensures HistoryOf(history) == BeforeEffect(m, event, state, old(HistoryOf(history)))
  {
    if Forwards(m, state) {
      match m
      case LoggingMiddleware =>
      case HistoryMiddleware(limit) => Before(limit, event, state.app, history);
    }
  }

  /** `Middleware.after(event:state: Any)`. */
  method AnyAfter(m: AnyMiddleware, event: Event, state: StateValue, history: History?)
    requires TouchesHistory(m, state) ==> history != null
    modifies history
    ensures HistoryOf(history) == AfterEffect(m, event, state, old(HistoryOf(history)))
  {
    if Forwards(m, state) {
      match m
      case LoggingMiddleware =>
      case HistoryMiddleware(_) => After(event, history);
    }
  }

  /** `middlewares.map(Middlewares.init)`. */
  function Wrap(ms: seq<AnyMiddleware>): (ws: seq<Middlewares>)
    ensures |ws| == |ms| && forall i :: 0 <= i < |ms| ==> ws[i].middleware == ms[i]
  {
    seq(|ms|, i requires 0 <= i < |ms| => Middlewares(ms[i]))
  }

  function Unwrap(ws: seq<Middlewares>): (ms: seq<AnyMiddleware>)
    ensures |ms| == |ws| && forall i :: 0 <= i < |ws| ==> ms[i] == ws[i].middleware
  {
    seq(|ws|, i requires 0 <= i < |ws| => ws[i].middleware)
  }

  /** Each wrapper holds exactly the middleware it was built with, in the
      order they were given. */
  lemma UnwrapWrap(ms: seq<AnyMiddleware>)
    ensures Unwrap(Wrap(ms)) == ms
  {
  }

  /** `HistoryMiddleware(limit:)`: creates the persisted history only when
      none exists, so constructing it again reuses the same one. */
  method NewHistoryMiddleware(realm: Realm, limit: HistoryLimit) returns (m: AnyMiddleware)
    modifies realm
    ensures m == HistoryMiddleware(limit)
    ensures realm.appState == old(realm.appState) && realm.testState == old(realm.testState)
    ensures old(realm.history) != null ==> realm.history == old(realm.history)
    ensures old(realm.history) == null ==> realm.history != null && fresh(realm.history) && realm.history.records == []
  {
    m := HistoryMiddleware(limit);
    if realm.history == null {
      realm.history := new History();
    }
  }
}
