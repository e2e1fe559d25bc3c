/** Properties of the dispatch engine, stated on its value-level
    specification (`Store.DispatchSpec`), which the `Store` class is proved
    to follow. */
module StoreProperties {
  import opened Events
  import opened Counter
  import opened States
  import opened Serialization
  import opened HistoryLog
  import opened Middleware
  import opened Commands
  import opened Store

  /** A middleware whose hooks cannot change the history for this event
      and state: the cast fails, it only logs, or the event is an
      error-control event, which the history middleware skips. */
  predicate Inert(m: AnyMiddleware, e: Event, s: StateValue) {
    !Forwards(m, s) || m.LoggingMiddleware? || e.IsErrorEvent()
  }

  /** A chain of inert middlewares leaves the history as it is, in both
      passes. */
  lemma {:induction false} InertChainLeavesHistory(ms: seq<AnyMiddleware>, e: Event, s: StateValue, h: Option<seq<HistoryRecord>>)
    requires HistoryReachable(ms, s, h)
    requires forall i :: 0 <= i < |ms| ==> Inert(ms[i], e, s)
    ensures RunBefores(ms, e, s, h) == h && RunAfters(ms, e, s, h) == h
    decreases |ms|
  {
    if ms != [] {
      InertChainLeavesHistory(ms[..|ms| - 1], e, s, h);
      InertChainLeavesHistory(ms[1..], e, s, h);
    }
  }

  /** Error-control events still go through every hook and the reducer,
      but they change nothing except the call log: no history record is
      made for them, whatever the retention limit. */
  lemma ControlEventsPassThrough(ms: seq<AnyMiddleware>, e: Event, w: World)
    requires e.IsErrorEvent() && HistoryReachable(ms, w.state, w.history)
    ensures Pipeline(ms, e, w) == w.(trace := w.trace + PipelineCalls(|ms|, e))
  {
    InertChainLeavesHistory(ms, e, w.state, w.history);
    ErrorEventsLeaveState(w.state, e, LastSnapshot(w.history));
  }

  /** When the write transaction fails, nothing the reducer or the hooks
      would have done is committed: the state and the history are as they
      were, the error slot holds the write failure, and the only calls made
      are those of the successful re-dispatch of `ErrorEvent.add`. */
  lemma {:induction false} FailedWriteCommitsNothing(ms: seq<AnyMiddleware>, e: Event, w: World, failures: nat)
    requires failures > 0 && HistoryReachable(ms, w.state, w.history)
    ensures DispatchSpec(ms, e, w, failures)
            == w.(errors := Some(WriteFailed), trace := w.trace + PipelineCalls(|ms|, ErrorAdd(WriteFailed)))
    decreases failures
  {
    var w1 := w.(errors := HandleError(w.errors, e));
    if failures == 1 {
      ControlEventsPassThrough(ms, ErrorAdd(WriteFailed), w1.(errors := Some(WriteFailed)));
    } else {
      FailedWriteCommitsNothing(ms, ErrorAdd(WriteFailed), w1, failures - 1);
    }
  }

  /** The error slot after a dispatch: `add(e)` stores `e`, `remove`
      clears it, every other event leaves it alone; a failed write leaves
      the write failure in it. */
  lemma ErrorSlot(ms: seq<AnyMiddleware>, e: Event, w: World, failures: nat)
    requires HistoryReachable(ms, w.state, w.history)
    ensures DispatchSpec(ms, e, w, failures).errors
            == if failures == 0 then HandleError(w.errors, e) else Some(WriteFailed)
  {
    if failures > 0 {
      FailedWriteCommitsNothing(ms, e, w, failures);
    }
  }

  /** The calls of one transaction over `n` middlewares, position by
      position: the `before` hooks in registration order, then the reducer,
      then the `after` hooks in reverse order. */
  lemma PipelineCallOrder(n: nat, e: Event)
    ensures var c := PipelineCalls(n, e);
            && |c| == 2 * n + 1
            && c[n] == Reacted(e)
            && (forall i :: 0 <= i < n ==> c[i] == BeforeCalled(i, e))
            && (forall k :: n < k < |c| ==> c[k] == AfterCalled(2 * n - k, e))
  {
  }

  /** Each middleware's `before` and `after` and the reducer are called
      exactly once per successful transaction: the log has no repeated
      call and holds exactly these calls. */
  lemma EachHookOnce(n: nat, e: Event)
    ensures var c := PipelineCalls(n, e);
            && (forall i, j :: 0 <= i < j < |c| ==> c[i] != c[j])
            && (forall h :: h in c <==>
                  h == Reacted(e) || ((h.BeforeCalled? || h.AfterCalled?) && h.index < n && h.event == e))
  {
    var c := PipelineCalls(n, e);
    PipelineCallOrder(n, e);
    forall i, j | 0 <= i < j < |c|
      ensures c[i] != c[j]
    {
    }
    forall k | 0 <= k < |c|
      ensures c[k] == Reacted(e) || ((c[k].BeforeCalled? || c[k].AfterCalled?) && c[k].index < n && c[k].event == e)
    {
    }
    forall h: Hook | (h.BeforeCalled? || h.AfterCalled?) && h.index < n && h.event == e
      ensures h in c
    {
      if h.BeforeCalled? {
        assert c[h.index] == h;
      } else {
        assert c[2 * n - h.index] == h;
      }
    }
  }

  /** With middlewares `[A, B]`, one successful dispatch calls
      `A.before, B.before, react, B.after, A.after`. */
  lemma TwoMiddlewareOrder(a: AnyMiddleware, b: AnyMiddleware, e: Event, w: World)
    requires HistoryReachable([a, b], w.state, w.history)
    ensures DispatchSpec([a, b], e, w, 0).trace
            == w.trace + [BeforeCalled(0, e), BeforeCalled(1, e), Reacted(e), AfterCalled(1, e), AfterCalled(0, e)]
  {
    PipelineCallOrder(2, e);
  }

  /** The example app's chain: logging, then history with a limit. */
  function HistoryChain(limit: HistoryLimit): seq<AnyMiddleware> {
    [LoggingMiddleware, HistoryMiddleware(limit)]
  }

  /** The middlewares the example app registers. */
  const AppMiddlewares: seq<AnyMiddleware> := HistoryChain(Limit(1))

  /** On an `AppState`, the history chain acts on the history exactly as
      the history middleware's own hooks do; logging adds nothing. */
  lemma HistoryChainHooks(limit: HistoryLimit, e: Event, s: StateValue, h: Option<seq<HistoryRecord>>)
    requires s.AppValue? && h.Some?
    ensures RunBefores(HistoryChain(limit), e, s, h) == Some(HistoryBefore(limit, e, s.app, h.value))
    ensures RunAfters(HistoryChain(limit), e, s, h) == Some(HistoryAfter(e, h.value))
  {
    var ms := HistoryChain(limit);
    var logging := [LoggingMiddleware];
    assert ms[..1] == logging && logging[..0] == [];
    assert RunBefores(logging, e, s, h) == BeforeEffect(LoggingMiddleware, e, s, RunBefores([], e, s, h)) == h;
    assert RunBefores(ms, e, s, h) == BeforeEffect(HistoryMiddleware(limit), e, s, RunBefores(logging, e, s, h));
    var history := [HistoryMiddleware(limit)];
    assert ms[1..] == history && history[1..] == [];
    assert RunAfters(history, e, s, h) == AfterEffect(HistoryMiddleware(limit), e, s, RunAfters([], e, s, h));
    assert RunAfters(ms, e, s, h) == AfterEffect(LoggingMiddleware, e, s, RunAfters(history, e, s, h));
  }

  /** A recordable event that serializes, dispatched through the history
      chain: the counter reacts as the reducer says, and the history gains
      one record holding the state from before the event, then is cut to the
      limit from the front. */
  lemma RecordStep(limit: HistoryLimit, e: Event, w: World)
    requires w.state.AppValue? && w.history.Some?
    requires e.IsRecordable() && MakeRecord(e, w.state.app).Recorded?
    ensures var r := DispatchSpec(HistoryChain(limit), e, w, 0);
            && r.errors == w.errors
            && r.state == AppValue(AppReact(w.state.app, e, None))
            && r.history == Some(KeepLast(w.history.value + [MakeRecord(e, w.state.app).record], limit))
  {
    var w1 := w.(errors := HandleError(w.errors, e));
    HistoryChainHooks(limit, e, w.state, w.history);
    var h1 := RunBefores(HistoryChain(limit), e, w.state, w.history);
    HistoryChainHooks(limit, e, React(w.state, e, LastSnapshot(h1)), h1);
  }

  /** `undo` through the history chain: with a record, the counter takes
      the last record's snapshot counter and that record is removed; with
      none, nothing changes. */
  lemma UndoStep(limit: HistoryLimit, w: World)
    requires w.state.AppValue? && w.history.Some?
    ensures var r := DispatchSpec(HistoryChain(limit), HistoryEvent(Undo), w, 0);
            var rs := w.history.value;
            && r.errors == w.errors
            && (rs != [] ==> r.state == AppValue(w.state.app.(counter := rs[|rs| - 1].state.counter))
                             && r.history == Some(rs[..|rs| - 1]))
            && (rs == [] ==> r.state == w.state && r.history == w.history)
  {
    HistoryChainHooks(limit, HistoryEvent(Undo), w.state, w.history);
    var s1 := React(w.state, HistoryEvent(Undo), LastSnapshot(w.history));
    HistoryChainHooks(limit, HistoryEvent(Undo), s1, w.history);
  }

  /** A recordable event followed by `undo` restores the state from before
      the event and shrinks the history by one; when nothing was evicted the
      history is back as it was. A limit of zero keeps no record to undo
      with, so it is excluded. */
  lemma UndoRestores(limit: HistoryLimit, e: Event, w: World)
    requires limit.NoLimit? || limit.limit >= 1
    requires w.state.AppValue? && w.history.Some?
    requires e.IsRecordable() && MakeRecord(e, w.state.app).Recorded?
    ensures var w1 := DispatchSpec(HistoryChain(limit), e, w, 0);
            var w2 := DispatchSpec(HistoryChain(limit), HistoryEvent(Undo), w1, 0);
            && w2.state == w.state && w2.errors == w.errors
            && w1.history.Some? && w2.history.Some?
            && |w2.history.value| == |w1.history.value| - 1
            && (limit.NoLimit? || |w.history.value| < limit.limit ==> w2.history == w.history)
  {
    var rs := w.history.value;
    var rec := MakeRecord(e, w.state.app).record;
    RecordStep(limit, e, w);
    BeforeRecords(limit, e, w.state.app, rs);
    var w1 := DispatchSpec(HistoryChain(limit), e, w, 0);
    UndoStep(limit, w1);
    if limit.NoLimit? || |rs| < limit.limit {
      assert (rs + [rec])[..|rs|] == rs;
    }
  }

  /** In the example app's configuration a recordable event followed by
      `undo` restores the state and leaves the history empty. */
  lemma AppUndo(e: Event, w: World)
    requires w.state.AppValue? && w.history.Some?
    requires e.IsRecordable() && MakeRecord(e, w.state.app).Recorded?
    ensures var w1 := DispatchSpec(AppMiddlewares, e, w, 0);
            var w2 := DispatchSpec(AppMiddlewares, HistoryEvent(Undo), w1, 0);
            w2.state == w.state && w2.history == Some([])
  {
    UndoRestores(Limit(1), e, w);
    BeforeRecords(Limit(1), e, w.state.app, w.history.value);
  }

  /** Successive successful dispatches of `es`. */
  function DispatchAll(ms: seq<AnyMiddleware>, es: seq<Event>, w: World): (r: World)
    requires HistoryReachable(ms, w.state, w.history)
    ensures TypeOf(r.state) == TypeOf(w.state) && (r.history.Some? <==> w.history.Some?)
    ensures HistoryReachable(ms, r.state, r.history)
    decreases |es|
  {
    if es == [] then w else DispatchAll(ms, es[1..], DispatchSpec(ms, es[0], w, 0))
  }

  /** The snapshot counters of a record list, oldest first. */
  function Counters(rs: seq<HistoryRecord>): seq<int> {
    seq(|rs|, i requires 0 <= i < |rs| => rs[i].state.counter)
  }

  lemma CountersAppend(rs: seq<HistoryRecord>, rec: HistoryRecord)
    ensures Counters(rs + [rec]) == Counters(rs) + [rec.state.counter]
  {
  }

  /** An increase through the unbounded history chain: the counter goes
      up by one and a record of the old counter is appended. */
  lemma IncreaseRecorded(e: Event, w: World)
    requires e.CounterEvent? && e.op == Increase
    requires w.state.AppValue? && w.history.Some?
    ensures var r := DispatchSpec(HistoryChain(NoLimit), e, w, 0);
            && r.state == AppValue(w.state.app.(counter := w.state.app.counter + 1))
            && r.history.Some?
            && Counters(r.history.value) == Counters(w.history.value) + [w.state.app.counter]
  {
    DeclaredEventsSerialize(e);
    var rec := MakeRecord(e, w.state.app).record;
    RecordStep(NoLimit, e, w);
    CountersAppend(w.history.value, rec);
  }

  /** An undo through the unbounded history chain. */
  lemma UndoPopped(w: World)
    requires w.state.AppValue? && w.history.Some?
    ensures var r := DispatchSpec(HistoryChain(NoLimit), HistoryEvent(Undo), w, 0);
            var cs := Counters(w.history.value);
            && r.history.Some?
            && (cs != [] ==> r.state == AppValue(w.state.app.(counter := cs[|cs| - 1]))
                             && Counters(r.history.value) == cs[..|cs| - 1])
            && (cs == [] ==> r.state == w.state && r.history == w.history)
  {
    UndoStep(NoLimit, w);
  }

  /** The start of the worked example: a fresh state with an empty
      history. */
  const ExampleStart: World := World(None, AppValue(DefaultAppState), Some([]), [])

  /** First half of the worked example: three increases from a fresh state
      give counter 3 and records of the counters 0, 1 and 2. */
  lemma ExampleIncreases(w0: World)
    requires w0.state == AppValue(DefaultAppState) && w0.history == Some([])
    ensures var inc := CounterEvent(Increase);
            var w3 := DispatchAll(HistoryChain(NoLimit), [inc, inc, inc], w0);
            w3.state == AppValue(DefaultAppState.(counter := 3)) && Counters(w3.history.value) == [0, 1, 2]
  {
    var ms := HistoryChain(NoLimit);
    var inc := CounterEvent(Increase);
    var w1 := DispatchSpec(ms, inc, w0, 0);
    IncreaseRecorded(inc, w0);
    assert Counters(w1.history.value) == [0];
    var w2 := DispatchSpec(ms, inc, w1, 0);
    IncreaseRecorded(inc, w1);
    assert Counters(w2.history.value) == [0, 1];
    var w3 := DispatchSpec(ms, inc, w2, 0);
    IncreaseRecorded(inc, w2);
    assert Counters(w3.history.value) == [0, 1, 2];
    assert [inc, inc, inc][1..] == [inc, inc] && [inc, inc][1..] == [inc];
    assert DispatchAll(ms, [inc], w2) == w3;
    assert DispatchAll(ms, [inc, inc], w1) == w3;
  }

  /** Second half of the worked example: from counter 3 with records of 0,
      1 and 2, undo gives 2 with two records, two more undos give 0 and an
      empty history, and a further undo changes nothing. */
  lemma ExampleUndos(w3: World)
    requires w3.state == AppValue(DefaultAppState.(counter := 3)) && w3.history.Some?
    requires Counters(w3.history.value) == [0, 1, 2]
    ensures var ms := HistoryChain(NoLimit);
            var undo := HistoryEvent(Undo);
            var w4 := DispatchAll(ms, [undo], w3);
            var w6 := DispatchAll(ms, [undo, undo], w4);
            var w7 := DispatchAll(ms, [undo], w6);
            && w4.state == AppValue(DefaultAppState.(counter := 2)) && Counters(w4.history.value) == [0, 1]
            && w6.state == AppValue(DefaultAppState) && Counters(w6.history.value) == []
            && w7.state == w6.state && w7.history == w6.history
  {
    var ms := HistoryChain(NoLimit);
    var undo := HistoryEvent(Undo);
    var w4 := DispatchSpec(ms, undo, w3, 0);
    UndoPopped(w3);
    assert DispatchAll(ms, [undo], w3) == w4;
    var w5 := DispatchSpec(ms, undo, w4, 0);
    UndoPopped(w4);
    var w6 := DispatchSpec(ms, undo, w5, 0);
    UndoPopped(w5);
    assert [undo, undo][1..] == [undo];
    assert DispatchAll(ms, [undo], w5) == w6;
    UndoPopped(w6);
  }

  /** The worked example end to end: increase three times, then undo four
      times, the last undo finding the history empty. */
  lemma ExampleScenario(w0: World)
    requires w0 == ExampleStart
    ensures var ms := HistoryChain(NoLimit);
            var inc := CounterEvent(Increase);
            var undo := HistoryEvent(Undo);
            var w := DispatchAll(ms, [inc, inc, inc, undo, undo, undo, undo], w0);
            w.state == AppValue(DefaultAppState) && w.history == Some([])
  {
    var ms := HistoryChain(NoLimit);
    var inc := CounterEvent(Increase);
    var undo := HistoryEvent(Undo);
    ExampleIncreases(w0);
    var w3 := DispatchAll(ms, [inc, inc, inc], w0);
    ExampleUndos(w3);
    DispatchAllAppend(ms, [inc, inc, inc], [undo, undo, undo, undo], w0);
    var w4 := DispatchAll(ms, [undo], w3);
    DispatchAllAppend(ms, [undo], [undo, undo, undo], w3);
    var w6 := DispatchAll(ms, [undo, undo], w4);
    DispatchAllAppend(ms, [undo, undo], [undo], w4);
    assert [inc, inc, inc] + [undo, undo, undo, undo] == [inc, inc, inc, undo, undo, undo, undo];
    assert [undo] + [undo, undo, undo] == [undo, undo, undo, undo];
    assert [undo, undo] + [undo] == [undo, undo, undo];
  }

  /** Dispatching `xs` then `ys` is dispatching `xs + ys`. */
  lemma {:induction false} DispatchAllAppend(ms: seq<AnyMiddleware>, xs: seq<Event>, ys: seq<Event>, w: World)
    requires HistoryReachable(ms, w.state, w.history)
    ensures DispatchAll(ms, xs + ys, w) == DispatchAll(ms, ys, DispatchAll(ms, xs, w))
    decreases |xs|
  {
    if xs != [] {
      assert (xs + ys)[1..] == xs[1..] + ys;
      DispatchAllAppend(ms, xs[1..], ys, DispatchSpec(ms, xs[0], w, 0));
    } else {
      assert xs + ys == ys;
    }
  }

  /** Successive `dispatch(command:)` calls whose writes succeed: each
      command is executed on the state the previous one left. */
  function RunCommands(ms: seq<AnyMiddleware>, cs: seq<Command>, w: World): (r: World)
    requires HistoryReachable(ms, w.state, w.history)
    requires forall i :: 0 <= i < |cs| ==> CommandStateType(cs[i]) == TypeOf(w.state)
    ensures TypeOf(r.state) == TypeOf(w.state) && HistoryReachable(ms, r.state, r.history)
    decreases |cs|
  {
    if cs == [] then w else RunCommands(ms, cs[1..], DispatchSpec(ms, Execute(cs[0], w.state), w, 0))
  }

  /** Any sequence of the two guarded commands keeps a counter that starts
      within its bounds within them, whatever middlewares are registered. */
  lemma {:induction false} CommandsKeepBounds(ms: seq<AnyMiddleware>, cs: seq<Command>, w: World)
    requires HistoryReachable(ms, w.state, w.history)
    requires forall i :: 0 <= i < |cs| ==> cs[i] == IncreaseCounter || cs[i] == DecreaseCounter
    requires w.state.AppValue? && InBounds(w.state.app)
    ensures var r := RunCommands(ms, cs, w); r.state.AppValue? && InBounds(r.state.app)
    decreases |cs|
  {
    if cs != [] {
      var e := Execute(cs[0], w.state);
      GuardedCommandKeepsBounds(cs[0], w.state.app, LastSnapshot(RunBefores(ms, e, w.state, w.history)));
      CommandsKeepBounds(ms, cs[1..], DispatchSpec(ms, e, w, 0));
    }
  }

  function Repeat(c: Command, n: nat): (cs: seq<Command>)
    ensures |cs| == n && forall i :: 0 <= i < n ==> cs[i] == c
  {
    if n == 0 then [] else [c] + Repeat(c, n - 1)
  }

  /** `IncreaseCounter` run `n` times from a counter within bounds leaves
      the counter at `min(counter + n, max)`; the error slot holds
      `maxReached` exactly when some run found the counter at the maximum. */
  lemma {:induction false} RepeatedIncrease(ms: seq<AnyMiddleware>, n: nat, w: World)
    requires HistoryReachable(ms, w.state, w.history)
    requires w.state.AppValue? && InBounds(w.state.app)
    ensures var r := RunCommands(ms, Repeat(IncreaseCounter, n), w);
            var a := w.state.app;
            && r.state.AppValue?
            && r.state.app == a.(counter := if a.counter + n <= a.maxCounterValue then a.counter + n else a.maxCounterValue)
            && r.errors == if a.counter + n > a.maxCounterValue then Some(MaxReached) else w.errors
  {
    if n > 0 {
      var e := Execute(IncreaseCounter, w.state);
      var w1 := DispatchSpec(ms, e, w, 0);
      assert Repeat(IncreaseCounter, n)[1..] == Repeat(IncreaseCounter, n - 1);
      RepeatedIncrease(ms, n - 1, w1);
    }
  }

  /** On a test state: `TestStringEvent(v)` sets the value to `v` and
      touches no history (no registered middleware is written for it); the
      test command makes it "OK"; the conditional command makes it "OK"
      exactly when it was "INIT". */
  lemma TestStateDispatch(ms: seq<AnyMiddleware>, v: string, w: World)
    requires w.state.TestValue? && HistoryReachable(ms, w.state, w.history)
    ensures var r := DispatchSpec(ms, TestStringEvent(v), w, 0);
            r.state == TestValue(v) && r.history == w.history && r.errors == w.errors
    ensures DispatchSpec(ms, Execute(TestCommand, w.state), w, 0).state == TestValue("OK")
    ensures DispatchSpec(ms, Execute(TestConditionalCommand, w.state), w, 0).state
            == TestValue(if w.state.value == "INIT" then "OK" else "NOT OK")
  {
    InertChainLeavesHistory(ms, TestStringEvent(v), w.state, w.history);
    var s1 := TestValue(v);
    InertChainLeavesHistory(ms, TestStringEvent(v), s1, w.history);
  }
}
