/** The events a Store can be sent, as one closed sum type.
    The framework's `Event` protocol is open; the model closes it over the
    events the framework, the example app and its tests declare, plus
    `OtherEvent` for any further event type an app may define (described by
    what runtime reflection would report about it). */
module Events {

  /** The values an `ErrorEvent.add` can carry: the app's `CounterError`
      cases and the error thrown by a failing write transaction. */
  datatype Error = MaxReached | MinReached | WriteFailed

  /** `CounterEvent` of the example app. */
  datatype CounterOp = Increase | Decrease | Reset

  /** `HistoryEvent` of the history middleware. */
  datatype HistoryOp = Clear | Undo

  /** How runtime reflection classifies a value (`Mirror.displayStyle`):
      only structs and enums can be recorded in the history. */
  datatype DisplayStyle = Struct | Enum | OtherStyle

  /** A stored property value as reflection sees it: one the binary property
      list format can hold (an integer or a string) or one it cannot. */
  datatype Value = IntValue(i: int) | StringValue(s: string) | Unencodable

  /** One child reported by reflection: an optional label (`name`) and its value. */
  datatype Child = Child(name: Option<string>, value: Value)

  datatype Option<T> = None | Some(value: T)

  /** What reflection reports about an event: its type name, its display
      style, its children and, for an enum, the name of its case. */
  datatype Mirror = Mirror(subjectType: string, displayStyle: DisplayStyle,
                           children: seq<Child>, caseName: string)

  datatype Event =
    | UpdateCounter(value: int)
    | CounterEvent(op: CounterOp)
    | HistoryEvent(hop: HistoryOp)
    | ErrorAdd(error: Error)
    | ErrorRemove
    | TestStringEvent(text: string)
    | OtherEvent(mirror: Mirror)
  {
    /** `case is ErrorEvent`: the two error-control events. */
    predicate IsErrorEvent() {
      ErrorAdd? || ErrorRemove?
    }

    /** The events the history middleware records a snapshot for: every
        event except the error-control events, `clear` and `undo`. */
    predicate IsRecordable() {
      !IsErrorEvent() && !HistoryEvent?
    }
  }
}
