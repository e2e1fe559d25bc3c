/** `HistoryRecord.serialize`: turning an event into a type tag and a
    payload by reflection. The payload is the dictionary of labelled children
    that the source hands to the binary property-list encoder; the encoding
    into bytes itself is not modelled. */
module Serialization {
  import opened Events

  datatype SerializationError = UnsupportedType | UnsupportedSubType

  /** A successful serialization: the record's `type` and `data`. */
  datatype Serialized = Serialized(typeTag: string, data: map<string, Value>)

  datatype SerializeResult = Ok(serialized: Serialized) | Err(error: SerializationError)

  /** What reflection reports for each event of the closed event type. */
  function Reflect(e: Event): (m: Mirror)
    ensures e.OtherEvent? ==> m == e.mirror
  {
    match e
    case UpdateCounter(v) => Mirror("UpdateCounter", Struct, [Child(Some("value"), IntValue(v))], "")
    case CounterEvent(op) =>
      Mirror("CounterEvent", Enum, [], match op case Increase => "increase" case Decrease => "decrease" case Reset => "reset")
    case HistoryEvent(op) => Mirror("HistoryEvent", Enum, [], match op case Clear => "clear" case Undo => "undo")
    case ErrorAdd(_) => Mirror("ErrorEvent", Enum, [Child(Some("add"), Unencodable)], "add")
    case ErrorRemove => Mirror("ErrorEvent", Enum, [], "remove")
    case TestStringEvent(t) => Mirror("TestStringEvent", Struct, [Child(Some("value"), StringValue(t))], "")
    case OtherEvent(m) => m
  }

  /** The labels of the labelled children. */
  function Labels(children: seq<Child>): set<string> {
    set i | 0 <= i < |children| && children[i].name.Some? :: children[i].name.value
  }

  /** The dictionary `serialize` builds: each labelled child in turn is
      stored under its label, so a later child wins over an earlier one with
      the same label; unlabelled children are skipped. */
  function DictionaryOf(children: seq<Child>): map<string, Value>
    decreases |children|
  {
    if children == [] then map[]
    else
      var d := DictionaryOf(children[..|children| - 1]);
      var c := children[|children| - 1];
      if c.name.Some? then d[c.name.value := c.value] else d
  }

  /** The dictionary has one entry per label, holding the value of the last
      child that carries that label. */
  lemma {:induction false} DictionaryOfEntries(children: seq<Child>, key: string)
    ensures key in DictionaryOf(children) <==> key in Labels(children)
    ensures key in DictionaryOf(children) ==>
              exists i :: 0 <= i < |children| && children[i].name == Some(key)
                          && DictionaryOf(children)[key] == children[i].value
                          && forall j :: i < j < |children| ==> children[j].name != Some(key)
    decreases |children|
  {
    if children != [] {
      var n := |children| - 1;
      var front := children[..n];
      DictionaryOfEntries(front, key);
      assert Labels(children) == Labels(front) + (if children[n].name.Some? then {children[n].name.value} else {}) by {
        forall l | l in Labels(children) ensures l in Labels(front) + (if children[n].name.Some? then {children[n].name.value} else {}) {
          var i :| 0 <= i < |children| && children[i].name.Some? && children[i].name.value == l;
          if i < n { assert front[i] == children[i]; }
        }
        forall l | l in Labels(front) ensures l in Labels(children) {
          var i :| 0 <= i < |front| && front[i].name.Some? && front[i].name.value == l;
          assert children[i] == front[i];
        }
      }
      if key in DictionaryOf(children) && children[n].name != Some(key) {
        var i :| 0 <= i < |front| && front[i].name == Some(key)
                 && DictionaryOf(front)[key] == front[i].value
                 && forall j :: i < j < |front| ==> front[j].name != Some(key);
        assert children[i] == front[i];
      }
    }
  }

  /** Every value in the dictionary can be written as a binary property
      list (`PropertyListSerialization.propertyList(_:isValidFor:)`). */
  predicate ValidPropertyList(d: map<string, Value>) {
    forall l :: l in d ==> !d[l].Unencodable?
  }

  /** The record's type tag: the type name for a struct, `Type.case` for an
      enum. */
  function TypeTag(m: Mirror): string {
    if m.displayStyle == Enum then m.subjectType + "." + m.caseName else m.subjectType
  }

  /** The specification of `serialize`. Only structs and enums are
      accepted; a dictionary holding a value the property-list format cannot
      hold is refused; otherwise the result is the type tag and the
      dictionary of labelled children. */
  function Serialize(m: Mirror): (r: SerializeResult)
    ensures m.displayStyle == OtherStyle ==> r == Err(UnsupportedType)
    ensures m.displayStyle != OtherStyle && ValidPropertyList(DictionaryOf(m.children)) ==> r.Ok?
    ensures m.displayStyle != OtherStyle && !ValidPropertyList(DictionaryOf(m.children)) ==> r == Err(UnsupportedSubType)
    ensures r.Ok? && m.displayStyle == Struct ==> r.serialized.typeTag == m.subjectType
    ensures r.Ok? && m.displayStyle == Enum ==> r.serialized.typeTag == m.subjectType + "." + m.caseName
  {
    if m.displayStyle == OtherStyle then Err(UnsupportedType)
    else
      var d := DictionaryOf(m.children);
      if !ValidPropertyList(d) then Err(UnsupportedSubType)
      else Ok(Serialized(TypeTag(m), d))
  }

  /** A serialized payload holds one entry per labelled child, under its
      label, with the value of the last child carrying that label. */
  lemma SerializedPayload(m: Mirror, key: string)
    requires Serialize(m).Ok?
    ensures var data := Serialize(m).serialized.data;
            && data.Keys == Labels(m.children)
            && (key in data ==> exists i :: 0 <= i < |m.children| && m.children[i].name == Some(key)
                                            && data[key] == m.children[i].value)
  {
    var d := DictionaryOf(m.children);
    forall l ensures l in d <==> l in Labels(m.children) {
      DictionaryOfEntries(m.children, l);
    }
    DictionaryOfEntries(m.children, key);
  }

  /** The `for case let (label?, anyValue) in mirror.children` loop. */
  method BuildDictionary(children: seq<Child>) returns (d: map<string, Value>)
    ensures d == DictionaryOf(children)
  {
    d := map[];
    var i := 0;
    while i < |children|
      invariant 0 <= i <= |children|
      invariant d == DictionaryOf(children[..i])
    {
      assert children[..i + 1][..i] == children[..i];
      var c := children[i];
      if c.name.Some? {
        d := d[c.name.value := c.value];
      }
      i := i + 1;
    }
    assert children[..i] == children;
  }

  /** `serialize(_:)` as the source runs it: the style check, the dictionary
      loop, the validity check, then the type tag. */
  method SerializeEvent(e: Event) returns (r: SerializeResult)
    ensures r == Serialize(Reflect(e))
  {
    var m := Reflect(e);
    if m.displayStyle != Struct && m.displayStyle != Enum {
      return Err(UnsupportedType);
    }
    var d := BuildDictionary(m.children);
    if !ValidPropertyList(d) {
      return Err(UnsupportedSubType);
    }
    var tag := m.subjectType;
    if m.displayStyle == Enum {
      tag := tag + "." + m.caseName;
    }
    r := Ok(Serialized(tag, d));
  }

  /** Every event the example app and the tests declare, other than the
      error-control events, serializes, with the tags the history view shows. */
  lemma DeclaredEventsSerialize(e: Event)
    requires !e.OtherEvent? && !e.IsErrorEvent()
    ensures Serialize(Reflect(e)).Ok?
    ensures e.CounterEvent? && e.op == Increase ==> Serialize(Reflect(e)).serialized.typeTag == "CounterEvent.increase"
    ensures e.UpdateCounter? ==> Serialize(Reflect(e)).serialized == Serialized("UpdateCounter", map["value" := IntValue(e.value)])
  {
    var m := Reflect(e);
    if m.children != [] {
      assert m.children[..0] == [];
      assert DictionaryOf(m.children) == map[m.children[0].name.value := m.children[0].value];
    }
  }

  /** The payload of an `ErrorEvent.add` holds an error, which the
      property-list format cannot hold. */
  lemma ErrorAddIsUnsupported(err: Error)
    ensures Serialize(Reflect(ErrorAdd(err))) == Err(UnsupportedSubType)
  {
    var m := Reflect(ErrorAdd(err));
    assert m.children[..0] == [];
    assert DictionaryOf(m.children)["add"] == Unencodable;
  }
}
