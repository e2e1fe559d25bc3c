/** The example app's history middleware: a log of records, each holding
    the state as it was just before a recordable event, kept oldest first,
    optionally bounded by evicting from the front. `clear` empties the log in
    `before`; `undo` pops the last record in `after`, once the reducer has
    restored the state from it. */
module HistoryLog {
  import opened Events
  import opened Counter
  import opened Serialization

  /** A `HistoryRecord`: the event's type tag, its payload and an
      independent copy of the state taken before the event. The timestamp is
      not modelled. */
  datatype HistoryRecord = HistoryRecord(typeTag: string, data: map<string, Value>, state: AppStateValue)

  /** `HistoryLimit`: `.none` (here `NoLimit`) or `.limit(n)`. */
  datatype HistoryLimit = NoLimit | Limit(limit: int)

  datatype RecordResult = Recorded(record: HistoryRecord) | NotRecorded(error: SerializationError)

  /** `HistoryRecord(event:state:)`: serialize the event, then keep the
      state copy; a serialization error is thrown instead. */
  function MakeRecord(e: Event, s: AppStateValue): (r: RecordResult)
    ensures r.Recorded? ==> r.record.state == s
    ensures r.Recorded? <==> Serialize(Reflect(e)).Ok?
  {
    match Serialize(Reflect(e))
    case Ok(x) => Recorded(HistoryRecord(x.typeTag, x.data, s))
    case Err(err) => NotRecorded(err)
  }

  function Max0(n: int): nat {
    if n < 0 then 0 else n
  }

  /** What front eviction leaves: the newest records, in order, at most
      `max(limit, 0)` of them; nothing is removed without a limit. */
  function KeepLast(rs: seq<HistoryRecord>, limit: HistoryLimit): (r: seq<HistoryRecord>)
    ensures |r| <= |rs| && r == rs[|rs| - |r|..]
    ensures limit.NoLimit? ==> r == rs
    ensures limit.Limit? ==> |r| == if |rs| < Max0(limit.limit) then |rs| else Max0(limit.limit)
  {
    match limit
    case NoLimit => rs
    case Limit(l) => if |rs| > Max0(l) then rs[|rs| - Max0(l)..] else rs
  }

  /** The specification of `HistoryMiddleware.before` on the record list. */
  function HistoryBefore(limit: HistoryLimit, e: Event, s: AppStateValue, records: seq<HistoryRecord>): seq<HistoryRecord>
  {
    if e.IsErrorEvent() then records
    else if e == HistoryEvent(Clear) then []
    else if e == HistoryEvent(Undo) then records
    else match MakeRecord(e, s)
      case Recorded(rec) => KeepLast(records + [rec], limit)
      case NotRecorded(_) => records
  }

  /** The specification of `HistoryMiddleware.after` on the record list.
      Removing the last record of an empty list does nothing. */
  function HistoryAfter(e: Event, records: seq<HistoryRecord>): seq<HistoryRecord>
  {
    if e == HistoryEvent(Undo) && records != [] then records[..|records| - 1] else records
  }

  /** The snapshot `AppState.react` restores on `undo`: that of the last
      record of the history, if there is a history and it has a record. */
  function LastSnapshot(h: Option<seq<HistoryRecord>>): (r: Option<AppStateValue>)
    ensures r.Some? <==> h.Some? && h.value != []
  {
    if h.Some? && h.value != [] then Some(h.value[|h.value| - 1].state) else None
  }

  /** The persisted `History` object, whose record list is changed in
      place. */
  class History {
    var records: seq<HistoryRecord>

    constructor ()
      ensures records == []
    {
      records := [];
    }

    /** `hasRecords` */
    function HasRecords(): (b: bool)
      reads this
      ensures b <==> |records| > 0
    {
      records != []
    }
  }

  /** `HistoryRecord(event:state:)` as the source runs it. */
  method NewRecord(e: Event, s: AppStateValue) returns (r: RecordResult)
    ensures r == MakeRecord(e, s)
  {
    var ser := SerializeEvent(e);
    match ser
    case Ok(x) => r := Recorded(HistoryRecord(x.typeTag, x.data, s));
    case Err(err) => r := NotRecorded(err);
  }

  /** `HistoryMiddleware.before(event:state:)`. */
  method Before(limit: HistoryLimit, event: Event, state: AppStateValue, history: History)
    modifies history
    ensures history.records == HistoryBefore(limit, event, state, old(history.records))
    ensures event == HistoryEvent(Clear) ==> !history.HasRecords()
  {
    if event.IsErrorEvent() {
      // error-control events are never recorded
    } else if event == HistoryEvent(Clear) {
      history.records := [];
    } else if event == HistoryEvent(Undo) {
      // the reducer restores, `after` pops
    } else {
      var copy := state;
      var rec := NewRecord(event, copy);
      if rec.Recorded? {
        history.records := history.records + [rec.record];
        if limit.Limit? {
          Evict(limit.limit, history);
        }
      }
      // a serialization error is only reported, never propagated
    }
  }

  /** The front-eviction loop of `before`. It stops on an empty list as
      well; see the findings on a negative limit. */
  method Evict(limit: int, history: History)
    modifies history
    ensures history.records == KeepLast(old(history.records), Limit(limit))
  {
    ghost var full := history.records;
    while |history.records| > limit && history.records != []
      invariant |history.records| <= |full|
      invariant history.records == full[|full| - |history.records|..]
      invariant |history.records| >= if |full| < Max0(limit) then |full| else Max0(limit)
      decreases |history.records|
    {
      history.records := history.records[1..];
    }
  }

  /** `HistoryMiddleware.after(event:state:)`. */
  method After(event: Event, history: History)
    modifies history
    ensures history.records == HistoryAfter(event, old(history.records))
  {
    if event == HistoryEvent(Undo) && history.records != [] {
      history.records := history.records[..|history.records| - 1];
    }
  }

  /** `before` leaves the log alone for every error-control event and for
      `undo`, empties it for `clear`, and leaves it alone when the event
      cannot be serialized. */
  lemma BeforeControlEvents(limit: HistoryLimit, e: Event, s: AppStateValue, records: seq<HistoryRecord>)
    ensures e.IsErrorEvent() || e == HistoryEvent(Undo) ==> HistoryBefore(limit, e, s, records) == records
    ensures e == HistoryEvent(Clear) ==> HistoryBefore(limit, e, s, records) == []
    ensures MakeRecord(e, s).NotRecorded? && e.IsRecordable() ==> HistoryBefore(limit, e, s, records) == records
  {
  }

  /** Front eviction keeps the newest record whenever the limit allows one. */
  lemma KeepLastKeepsNewest(rs: seq<HistoryRecord>, limit: HistoryLimit)
    requires rs != [] && (limit.NoLimit? || limit.limit >= 1)
    ensures var r := KeepLast(rs, limit); r != [] && r[|r| - 1] == rs[|rs| - 1]
  {
    var r := KeepLast(rs, limit);
    assert |r| >= 1;
    assert r[|r| - 1] == rs[|rs| - |r|..][|r| - 1];
  }

  /** `before` on a recordable event that serializes appends one record
      whose snapshot is the state passed in, then evicts from the front: the
      survivors are the newest records in their order, at most
      `max(limit, 0)` of them; without a limit nothing is evicted. */
  lemma BeforeRecords(limit: HistoryLimit, e: Event, s: AppStateValue, records: seq<HistoryRecord>)
    requires e.IsRecordable() && MakeRecord(e, s).Recorded?
    ensures var r := HistoryBefore(limit, e, s, records);
            var rec := MakeRecord(e, s).record;
            && rec.state == s
            && r == (records + [rec])[|records| + 1 - |r|..]
            && (limit.NoLimit? ==> r == records + [rec])
            && (limit.Limit? ==> |r| <= Max0(limit.limit))
            && (limit.Limit? && |records| < limit.limit ==> r == records + [rec])
            && (limit.NoLimit? || limit.limit >= 1 ==> r != [] && r[|r| - 1] == rec && LastSnapshot(Some(r)) == Some(s))
  {
    var rec := MakeRecord(e, s).record;
    var full := records + [rec];
    BeforeAppends(limit, e, s, records);
    KeepLastBounds(full, limit);
    if limit.NoLimit? || limit.limit >= 1 {
      KeepLastKeepsNewest(full, limit);
    }
  }

  lemma BeforeAppends(limit: HistoryLimit, e: Event, s: AppStateValue, records: seq<HistoryRecord>)
    requires e.IsRecordable() && MakeRecord(e, s).Recorded?
    ensures HistoryBefore(limit, e, s, records) == KeepLast(records + [MakeRecord(e, s).record], limit)
  {
  }

  lemma KeepLastBounds(rs: seq<HistoryRecord>, limit: HistoryLimit)
    requires rs != []
    ensures var r := KeepLast(rs, limit);
            && r == rs[|rs| - |r|..]
            && (limit.NoLimit? ==> r == rs)
            && (limit.Limit? ==> |r| <= Max0(limit.limit))
            && (limit.Limit? && |rs| <= limit.limit ==> r == rs)
  {
  }

  /** `after` on `undo` removes exactly the last record and keeps the
      prefix; on every other event it changes nothing. */
  lemma AfterPopsOnUndo(e: Event, records: seq<HistoryRecord>)
    ensures e == HistoryEvent(Undo) && records != [] ==>
              HistoryAfter(e, records) == records[..|records| - 1] && |HistoryAfter(e, records)| == |records| - 1
    ensures e != HistoryEvent(Undo) ==> HistoryAfter(e, records) == records
  {
  }

  /** The eviction loop exactly as written: `while count > limit` removes the
      record at index 0. On an empty list that removal raises (an index out of
      bounds, which ends the process); `None` stands for that. */
  function EvictAsWritten(records: seq<HistoryRecord>, limit: int): (r: Option<seq<HistoryRecord>>)
    ensures r.Some? ==> |r.value| <= limit && |r.value| <= |records| && r.value == records[|records| - |r.value|..]
    decreases |records|
  {
    if |records| > limit then
      if records == [] then None else EvictAsWritten(records[1..], limit)
    else Some(records)
  }

  /** With a negative limit the loop as written always reaches the empty
      list and still finds `0 > limit`, so it always raises: no list is
      short enough to stop it. */
  lemma NegativeLimitTraps(records: seq<HistoryRecord>, limit: int)
    requires limit < 0
    ensures EvictAsWritten(records, limit) == None
  {
  }

  /** For a limit of zero or more the loop as written is the eviction the
      model uses. */
  lemma {:induction false} AsWrittenAgreesForNonNegative(records: seq<HistoryRecord>, limit: int)
    requires limit >= 0
    ensures EvictAsWritten(records, limit) == Some(KeepLast(records, Limit(limit)))
    decreases |records|
  {
    if |records| > limit {
      AsWrittenAgreesForNonNegative(records[1..], limit);
      assert records[1..][|records| - 1 - limit..] == records[|records| - limit..];
    }
  }
}
