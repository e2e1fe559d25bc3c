/** The Store: the single owner of the state, its error slot and the
    ordered middleware chain. `dispatch(event:)` first updates the error
    slot, then, inside one write transaction, runs every middleware's
    `before` in registration order, the reducer, and every middleware's
    `after` in reverse order. When the write transaction fails the Store
    dispatches `ErrorEvent.add` with the failure instead.

    The value-level specification (`World`, `DispatchSpec`) is what the
    `Store` class is proved against; the lemmas state the properties of the
    engine on it. The Store keeps a log of the hook calls it makes
    (`trace`), so that their order can be stated. */
module Store {
  import opened Events
  import opened Counter
  import opened States
  import opened HistoryLog
  import opened StateObjects
  import opened Middleware
  import opened Commands

  /** One call the Store makes while dispatching: middleware `index`'s
      `before`, the reducer, or middleware `index`'s `after`. */
  datatype Hook = BeforeCalled(index: nat, event: Event) | Reacted(event: Event) | AfterCalled(index: nat, event: Event)

  /** Everything a dispatch can change: the error slot, the state, the
      persisted history (absent or a record list) and the hook log. */
  datatype World = World(errors: Option<Error>, state: StateValue, history: Option<seq<HistoryRecord>>, trace: seq<Hook>)

  /** A history exists whenever a registered middleware would look it up. */
  predicate HistoryReachable(ms: seq<AnyMiddleware>, s: StateValue, h: Option<seq<HistoryRecord>>) {
    h.Some? || forall i :: 0 <= i < |ms| ==> !TouchesHistory(ms[i], s)
  }

  /** `handleError(_:)`: the single error slot. */
  function HandleError(slot: Option<Error>, e: Event): (r: Option<Error>)
    ensures e.ErrorAdd? ==> r == Some(e.error)
    ensures e.ErrorRemove? ==> r == None
    ensures !e.IsErrorEvent() ==> r == slot
  {
    match e
    case ErrorAdd(err) => Some(err)
    case ErrorRemove => None
    case _ => slot
  }

  /** The `before` hooks of `ms`, first registered first, applied to the
      history. */
  function RunBefores(ms: seq<AnyMiddleware>, e: Event, s: StateValue, h: Option<seq<HistoryRecord>>): (r: Option<seq<HistoryRecord>>)
    requires HistoryReachable(ms, s, h)
    ensures r.Some? <==> h.Some?
    decreases |ms|
  {
    if ms == [] then h
    else BeforeEffect(ms[|ms| - 1], e, s, RunBefores(ms[..|ms| - 1], e, s, h))
  }

  /** The `after` hooks of `ms`, last registered first, applied to the
      history. */
  function RunAfters(ms: seq<AnyMiddleware>, e: Event, s: StateValue, h: Option<seq<HistoryRecord>>): (r: Option<seq<HistoryRecord>>)
    requires HistoryReachable(ms, s, h)
    ensures r.Some? <==> h.Some?
    decreases |ms|
  {
    if ms == [] then h
    else AfterEffect(ms[0], e, s, RunAfters(ms[1..], e, s, h))
  }

  /** The `before` calls of a chain of `n` middlewares, in registration
      order. */
  function BeforeCalls(n: nat, e: Event): seq<Hook> {
    seq(n, i requires 0 <= i < n => BeforeCalled(i, e))
  }

  /** The `after` calls of a chain of `n` middlewares, in reverse order. */
  function AfterCalls(n: nat, e: Event): seq<Hook> {
    seq(n, k requires 0 <= k < n => AfterCalled(n - 1 - k, e))
  }

  /** The hook calls of one transaction over `n` middlewares. */
  function PipelineCalls(n: nat, e: Event): seq<Hook> {
    BeforeCalls(n, e) + [Reacted(e)] + AfterCalls(n, e)
  }

  /** The body of the write transaction: the `before` hooks see the state
      as it was, the reducer sees the history as the `before` hooks left it,
      the `after` hooks see the new state. */
  function Pipeline(ms: seq<AnyMiddleware>, e: Event, w: World): (r: World)
    requires HistoryReachable(ms, w.state, w.history)
    ensures r.errors == w.errors
    ensures TypeOf(r.state) == TypeOf(w.state) && (r.history.Some? <==> w.history.Some?)
  {
    var h1 := RunBefores(ms, e, w.state, w.history);
    var s1 := React(w.state, e, LastSnapshot(h1));
    assert forall i :: 0 <= i < |ms| ==> TouchesHistory(ms[i], s1) == TouchesHistory(ms[i], w.state);
    var h2 := RunAfters(ms, e, s1, h1);
    World(w.errors, s1, h2, w.trace + PipelineCalls(|ms|, e))
  }

  /** `dispatch(event:)` where the first `failures` write transactions fail.
      Each failure dispatches `ErrorEvent.add(WriteFailed)`. */
  function DispatchSpec(ms: seq<AnyMiddleware>, e: Event, w: World, failures: nat): (r: World)
    requires HistoryReachable(ms, w.state, w.history)
    ensures TypeOf(r.state) == TypeOf(w.state) && (r.history.Some? <==> w.history.Some?)
    ensures HistoryReachable(ms, r.state, r.history)
    decreases failures
  {
    var w1 := w.(errors := HandleError(w.errors, e));
    if failures == 0 then Pipeline(ms, e, w1)
    else DispatchSpec(ms, ErrorAdd(WriteFailed), w1, failures - 1)
  }

  lemma BeforeCallsStep(i: nat, e: Event)
    ensures BeforeCalls(i + 1, e) == BeforeCalls(i, e) + [BeforeCalled(i, e)]
  {
  }

  lemma AfterCallsStep(n: nat, k: nat, e: Event)
    requires k < n
    ensures AfterCalls(n, e)[..k + 1] == AfterCalls(n, e)[..k] + [AfterCalled(n - 1 - k, e)]
  {
  }

  /** One more `before` hook. */
  lemma RunBeforesStep(ms: seq<AnyMiddleware>, i: nat, e: Event, s: StateValue, h: Option<seq<HistoryRecord>>)
    requires i < |ms| && HistoryReachable(ms, s, h)
    ensures HistoryReachable(ms[..i], s, h) && HistoryReachable(ms[..i + 1], s, h)
    ensures RunBefores(ms[..i + 1], e, s, h) == BeforeEffect(ms[i], e, s, RunBefores(ms[..i], e, s, h))
  {
    assert ms[..i + 1][..i] == ms[..i];
  }

  /** One more `after` hook, taken from the front. */
  lemma RunAftersStep(ms: seq<AnyMiddleware>, j: nat, e: Event, s: StateValue, h: Option<seq<HistoryRecord>>)
    requires j < |ms| && HistoryReachable(ms, s, h)
    ensures HistoryReachable(ms[j..], s, h) && HistoryReachable(ms[j + 1..], s, h)
    ensures RunAfters(ms[j..], e, s, h) == AfterEffect(ms[j], e, s, RunAfters(ms[j + 1..], e, s, h))
  {
    assert ms[j..][1..] == ms[j + 1..];
  }

  class Store {
    const realm: Realm
    /** The state class the Store is instantiated with. */
    const kind: StateType
    const middlewares: seq<Middlewares>
    /** The error slot (`errors.value`). */
    var errors: Option<Error>
    var trace: seq<Hook>

    function Ms(): seq<AnyMiddleware> {
      Unwrap(middlewares)
    }

    ghost predicate Valid()
      reads this, realm
    {
      && (kind == AppStateType ==> realm.appState != null)
      && (kind == TestStateType ==> realm.testState != null)
      && (realm.history != null ||
          forall i :: 0 <= i < |Ms()| ==> !(Ms()[i].HistoryMiddleware? && DeclaredStateType(Ms()[i]) == kind))
    }

    /** The persisted state object of the Store's state class. */
    function StateObjects(): set<object>
      reads this, realm
    {
      (if kind == AppStateType && realm.appState != null then {realm.appState as object} else {})
      + (if kind == TestStateType && realm.testState != null then {realm.testState as object} else {})
    }

    function Repr(): set<object>
      reads this, realm
    {
      StateObjects() + (if realm.history != null then {realm.history as object} else {})
    }

    function CurrentState(): (s: StateValue)
      requires Valid()
      reads this, realm, StateObjects()
      ensures TypeOf(s) == kind
    {
      if kind == AppStateType then AppValue(realm.appState.Value()) else TestValue(realm.testState.value)
    }

    function Model(): World
      requires Valid()
      reads this, realm, Repr()
    {
      World(errors, CurrentState(), HistoryOf(realm.history), trace)
    }

    /** `init(middlewares:)`: the middlewares are kept in the order given;
        the state object is created with its defaults only when none is
        persisted, otherwise the persisted one is used. */
    constructor (realm: Realm, kind: StateType, ms: seq<AnyMiddleware>)
      requires realm.history != null ||
               forall i :: 0 <= i < |ms| ==> !(ms[i].HistoryMiddleware? && DeclaredStateType(ms[i]) == kind)
      modifies realm
      ensures this.realm == realm && this.kind == kind
      ensures middlewares == Wrap(ms) && Ms() == ms
      ensures errors == None && trace == []
      ensures Valid()
      ensures realm.history == old(realm.history)
      ensures kind == AppStateType ==>
                && realm.testState == old(realm.testState)
                && (old(realm.appState) != null ==> realm.appState == old(realm.appState))
                && (old(realm.appState) == null ==> fresh(realm.appState) && CurrentState() == AppValue(DefaultAppState))
      ensures kind == TestStateType ==>
                && realm.appState == old(realm.appState)
                && (old(realm.testState) != null ==> realm.testState == old(realm.testState))
                && (old(realm.testState) == null ==> fresh(realm.testState) && CurrentState() == TestValue(""))
    {
      this.realm := realm;
      this.kind := kind;
      middlewares := Wrap(ms);
      errors := None;
      trace := [];
      new;
      UnwrapWrap(ms);
      if kind == AppStateType {
        if realm.appState == null {
          var s := new AppState();
          realm.appState := s;
        }
      } else {
        if realm.testState == null {
          var s := new TestState();
          realm.testState := s;
        }
      }
    }

    /** `dispatch(event:)`. `failures` is the number of consecutive write
        transactions that fail, an input standing for the persistence
        engine. */
    method Dispatch(event: Event, failures: nat)
      requires Valid()
      modifies this, Repr()
      ensures Model() == DispatchSpec(Ms(), event, old(Model()), failures)
      decreases failures, 1
    {
      HandleErrorSlot(event);
      UpdateState(event, failures);
    }

    /** `dispatch(command:)`: executes the command once on the current
        state and dispatches the event it issues; nothing else. */
    method DispatchCommand(command: Command, failures: nat)
      requires Valid() && CommandStateType(command) == kind
      modifies this, Repr()
      ensures Model() == DispatchSpec(Ms(), Execute(command, old(CurrentState())), old(Model()), failures)
    {
      var e := Execute(command, CurrentState());
      Dispatch(e, failures);
    }

    /** `handleError(_:)` */
    method HandleErrorSlot(event: Event)
      modifies this`errors
      ensures errors == HandleError(old(errors), event)
    {
      match event
      case ErrorAdd(err) => errors := Some(err);
      case ErrorRemove => errors := None;
      case _ =>
    }

    /** `updateState(_:)`: the write transaction, or, when it fails, the
        dispatch of the failure. */
    method UpdateState(event: Event, failures: nat)
      requires Valid()
      modifies this, Repr()
      ensures failures == 0 ==> Model() == Pipeline(Ms(), event, old(Model()))
      ensures failures > 0 ==> Model() == DispatchSpec(Ms(), ErrorAdd(WriteFailed), old(Model()), failures - 1)
      decreases failures, 0
    {
      if failures > 0 {
        Dispatch(ErrorAdd(WriteFailed), failures - 1);
      } else {
        Transaction(event);
      }
    }

    /** The closure `updateState` runs inside the write transaction. */
    method Transaction(event: Event)
      requires Valid()
      modifies this`trace, Repr()
      ensures Model() == Pipeline(Ms(), event, old(Model()))
    {
      ghost var w := Model();
      var s := CurrentState();
      BeforeHooks(event, s);
      ghost var h1 := HistoryOf(realm.history);
      assert h1 == RunBefores(Ms(), event, w.state, w.history);
      assert CurrentState() == s;
      trace := trace + [Reacted(event)];
      ReactStep(event);
      var s1 := CurrentState();
      assert s1 == React(w.state, event, LastSnapshot(h1));
      assert HistoryOf(realm.history) == h1;
      assert forall i :: 0 <= i < |Ms()| ==> TouchesHistory(Ms()[i], s1) == TouchesHistory(Ms()[i], s);
      AfterHooks(event, s1);
      assert CurrentState() == s1;
      assert trace == w.trace + PipelineCalls(|Ms()|, event);
    }

    function HistoryObjects(): set<object>
      reads this, realm
    {
      if realm.history != null then {realm.history as object} else {}
    }

    /** `middlewares.forEach { $0.middleware.before(event:state:) }` */
    method BeforeHooks(event: Event, s: StateValue)
      requires Valid() && HistoryReachable(Ms(), s, HistoryOf(realm.history))
      modifies this`trace, HistoryObjects()
      ensures trace == old(trace) + BeforeCalls(|Ms()|, event)
      ensures HistoryOf(realm.history) == RunBefores(Ms(), event, s, old(HistoryOf(realm.history)))
    {
      var n := |middlewares|;
      ghost var ms := Ms();
      ghost var h0 := HistoryOf(realm.history);
      var i := 0;
      while i < n
        invariant 0 <= i <= n
        invariant trace == old(trace) + BeforeCalls(i, event)
        invariant HistoryOf(realm.history) == RunBefores(ms[..i], event, s, h0)
      {
        RunBeforesStep(ms, i, event, s, h0);
        BeforeCallsStep(i, event);
        trace := trace + [BeforeCalled(i, event)];
        AnyBefore(middlewares[i].middleware, event, s, realm.history);
        i := i + 1;
      }
      assert ms[..n] == ms;
    }

    /** `state.react(to:)` on the persisted state object. */
    method ReactStep(event: Event)
      requires Valid()
      modifies StateObjects()
      ensures CurrentState() == React(old(CurrentState()), event, LastSnapshot(HistoryOf(realm.history)))
    {
      if kind == AppStateType {
        realm.appState.React(event, realm.history);
      } else {
        realm.testState.React(event);
      }
    }

    /** `middlewares.reversed().forEach { $0.middleware.after(event:state:) }` */
    method AfterHooks(event: Event, s: StateValue)
      requires Valid() && HistoryReachable(Ms(), s, HistoryOf(realm.history))
      modifies this`trace, HistoryObjects()
      ensures trace == old(trace) + AfterCalls(|Ms()|, event)
      ensures HistoryOf(realm.history) == RunAfters(Ms(), event, s, old(HistoryOf(realm.history)))
    {
      var n := |middlewares|;
      ghost var ms := Ms();
      ghost var h1 := HistoryOf(realm.history);
      var j := n;
      assert ms[n..] == [];
      while j > 0
        invariant 0 <= j <= n
        invariant trace == old(trace) + AfterCalls(n, event)[..n - j]
        invariant HistoryOf(realm.history) == RunAfters(ms[j..], event, s, h1)
      {
        j := j - 1;
        RunAftersStep(ms, j, event, s, h1);
        AfterCallsStep(n, n - 1 - j, event);
        trace := trace + [AfterCalled(j, event)];
        AnyAfter(middlewares[j].middleware, event, s, realm.history);
      }
      assert AfterCalls(n, event)[..n] == AfterCalls(n, event);
      assert ms[0..] == ms;
    }
  }
}
