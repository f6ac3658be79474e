/** Conversion of the backend's protobuf tree (internal/parser/pgquery.go). */
module Conversion {
  import opened Common
  import opened Tree

  const PG_QUERY_NODE_NAME := "pg_query.Node"

  datatype EnumEntry = EnumEntry(number: int, name: string)

  /** A singular protobuf value, tagged with the kind its field descriptor declares. */
  datatype Singular =
    | BoolKind(flag: bool)
    | IntKind(signed: int)
    | UintKind(unsigned: nat)
    | FloatKind(bits: nat)
    | StringKind(text: string)
    | BytesKind(bytes: seq<nat>)
    | EnumKind(table: seq<EnumEntry>, number: int)
    | MessageKind(message: Message)
    | OtherKind

  datatype Content = One(value: Singular) | Many(elements: seq<Singular>)

  /** A descriptor field with its content; `None` when `Has` is false. */
  datatype Slot = Slot(name: string, content: Option<Content>)

  /** A message as reflection shows it, fields in descriptor order. A nil pointer is not valid. */
  datatype Message = Message(valid: bool, fullName: string, name: string, slots: seq<Slot>)

  /** The first entry with that number has that name. */
  ghost predicate Names(table: seq<EnumEntry>, number: int, name: string) {
    exists i :: 0 <= i < |table| && table[i] == EnumEntry(number, name) && forall j :: 0 <= j < i ==> table[j].number != number
  }

  /** No entry has that number. */
  predicate Unlisted(table: seq<EnumEntry>, number: int) {
    forall i :: 0 <= i < |table| ==> table[i].number != number
  }

  function EnumName(table: seq<EnumEntry>, number: int): (r: Option<string>)
    ensures forall name :: r == Some(name) <==> Names(table, number, name)
    ensures r == None <==> Unlisted(table, number)
  {
    if table == [] then None
    else if table[0].number == number then
      assert table[0] == EnumEntry(number, table[0].name);
      Some(table[0].name)
    else
      var r := EnumName(table[1..], number);
      assert forall i :: 0 < i < |table| ==> table[i] == table[1..][i - 1];
      assert forall name :: Names(table[1..], number, name) <==> Names(table, number, name) by {
        NamesTail(table, number);
      }
      r
  }

  lemma NamesTail(table: seq<EnumEntry>, number: int)
    requires table != [] && table[0].number != number
    ensures forall name :: Names(table[1..], number, name) <==> Names(table, number, name)
  {
    assert forall i :: 0 <= i < |table| - 1 ==> table[1..][i] == table[i + 1];
    forall name
      ensures Names(table[1..], number, name) <==> Names(table, number, name)
    {
      if Names(table[1..], number, name) {
        var i :| 0 <= i < |table[1..]| && table[1..][i] == EnumEntry(number, name) && forall j :: 0 <= j < i ==> table[1..][j].number != number;
        assert table[i + 1] == EnumEntry(number, name);
      }
      if Names(table, number, name) {
        var i :| 0 <= i < |table| && table[i] == EnumEntry(number, name) && forall j :: 0 <= j < i ==> table[j].number != number;
        assert table[1..][i - 1] == EnumEntry(number, name);
      }
    }
  }

  /** The populated case of a oneof that spans all fields. */
  function WhichOneof(slots: seq<Slot>): (r: Option<Content>)
    ensures r.Some? ==> exists i :: 0 <= i < |slots| && slots[i].content == r
    ensures r.None? <==> forall i :: 0 <= i < |slots| ==> slots[i].content.None?
  {
    if slots == [] then None
    else if slots[0].content.Some? then slots[0].content
    else
      var r := WhichOneof(slots[1..]);
      assert forall i :: 0 < i < |slots| ==> slots[i] == slots[1..][i - 1];
      r
  }

  /** What the conversion of a message is. */
  function Converted(m: Message): Option<Node>
    decreases m
  {
    if !m.valid then None
    else if m.fullName == PG_QUERY_NODE_NAME then
      match WhichOneof(m.slots)
      case Some(One(MessageKind(inner))) => Converted(inner)
      case _ => None
    else Some(Node(m.name, ConvertedSlots(m.slots)))
  }

  function ConvertedSlots(slots: seq<Slot>): seq<Field>
    decreases slots
  {
    if slots == [] then [] else ConvertedSlot(slots[0]) + ConvertedSlots(slots[1..])
  }

  function ConvertedSlot(slot: Slot): seq<Field>
    decreases slot
  {
    match slot.content
    case None => []
    case Some(content) => [Field(slot.name, ConvertedContent(content))]
  }

  function ConvertedContent(content: Content): Value
    decreases content
  {
    match content
    case One(value) => ConvertedSingular(value)
    case Many(elements) => List(ConvertedElements(elements))
  }

  function ConvertedElements(elements: seq<Singular>): (r: seq<Value>)
    ensures |r| == |elements|
    ensures forall i :: 0 <= i < |r| ==> r[i] == ConvertedSingular(elements[i])
    decreases elements
  {
    if elements == [] then [] else [ConvertedSingular(elements[0])] + ConvertedElements(elements[1..])
  }

  function ConvertedSingular(value: Singular): Value
    decreases value
  {
    match value
    case BoolKind(b) => Bool(b)
    case IntKind(i) => Int(i)
    case UintKind(u) => Uint(u)
    case FloatKind(bits) => Float(bits)
    case StringKind(s) => String(s)
    case BytesKind(bytes) => Bytes(bytes)
    case EnumKind(table, number) =>
      (match EnumName(table, number)
       case None => Enum("")
       case Some(name) => Enum(name))
    case MessageKind(m) => NodeValue(Converted(m))
    case OtherKind => Invalid
  }

  /** The field of a populated slot. */
  function AsField(slot: Slot): Option<Field> {
    if slot.content.Some? then Some(Field(slot.name, ConvertedContent(slot.content.value))) else None
  }

  lemma {:induction false} SlotsInOrder(slots: seq<Slot>)
    ensures PickedInOrder(slots, AsField, ConvertedSlots(slots))
  {
    if slots != [] {
      SlotsInOrder(slots[1..]);
      PickedCons(slots, AsField, ConvertedSlots(slots[1..]));
    }
  }

  lemma {:induction false} ConvertedSlotsSnoc(slots: seq<Slot>, slot: Slot)
    ensures ConvertedSlots(slots + [slot]) == ConvertedSlots(slots) + ConvertedSlot(slot)
  {
    if slots == [] {
      assert slots + [slot] == [slot];
    } else {
      ConvertedSlotsSnoc(slots[1..], slot);
      assert (slots + [slot])[1..] == slots[1..] + [slot];
    }
  }

  /* ----- the loops of the source ----- */

  method ConvertMessage(source: Message) returns (node: Option<Node>)
    ensures node == Converted(source)
    ensures source.valid && source.fullName != "pg_query.Node" ==>
              node.Some? && node.value.kind == source.name && PickedInOrder(source.slots, AsField, node.value.fields)
    decreases source
  {
    if !source.valid {
      return None;
    }
    if source.fullName == PG_QUERY_NODE_NAME {
      match WhichOneof(source.slots) {
        case Some(One(MessageKind(inner))) =>
          node := ConvertMessage(inner);
          return;
        case _ =>
          return None;
      }
    }
    var fields := [];
    for i := 0 to |source.slots|
      invariant fields == ConvertedSlots(source.slots[..i])
    {
      var slot := source.slots[i];
      ConvertedSlotsSnoc(source.slots[..i], slot);
      assert source.slots[..i + 1] == source.slots[..i] + [slot];
      match slot.content {
        case None =>
        case Some(content) =>
          assert (slot decreases to content);
          var value := ConvertValue(content);
          fields := fields + [Field(slot.name, value)];
      }
    }
    assert source.slots[..|source.slots|] == source.slots;
    SlotsInOrder(source.slots);
    return Some(Node(source.name, fields));
  }

  method ConvertValue(content: Content) returns (value: Value)
    ensures value == ConvertedContent(content)
    decreases content
  {
    match content {
      case One(single) =>
        value := ConvertSingularValue(single);
      case Many(elements) =>
        var values := [];
        ghost var converted := ConvertedElements(elements);
        for i := 0 to |elements|
          invariant |values| == i && forall k :: 0 <= k < i ==> values[k] == converted[k]
        {
          var element := elements[i];
          assert (elements decreases to element);
          var item := ConvertSingularValue(element);
          assert converted[i] == item;
          values := values + [item];
        }
        assert values == converted;
        value := List(values);
    }
  }

  method ConvertSingularValue(source: Singular) returns (value: Value)
    ensures value == ConvertedSingular(source)
    ensures source.EnumKind? ==>
              && value.Enum?
              && (forall name :: Names(source.table, source.number, name) ==> value.symbol == name)
              && (Unlisted(source.table, source.number) ==> value.symbol == "")
    decreases source
  {
    match source {
      case BoolKind(b) => value := Bool(b);
      case IntKind(i) => value := Int(i);
      case UintKind(u) => value := Uint(u);
      case FloatKind(bits) => value := Float(bits);
      case StringKind(s) => value := String(s);
      case BytesKind(bytes) => value := Bytes(bytes);
      case EnumKind(table, number) =>
        match EnumName(table, number) {
          case None => value := Enum("");
          case Some(name) => value := Enum(name);
        }
      case MessageKind(m) =>
        var node := ConvertMessage(m);
        value := NodeValue(node);
      case OtherKind => value := Invalid;
    }
  }

  /* ----- parsing ----- */

  /** The foreign grammar: a failure, or the statement wrappers of the complete input. */
  type Backend = string -> Option<seq<Option<Message>>>

  function ConvertedRoot(source: Option<Message>): Option<Node> {
    if source.Some? then Converted(source.value) else None
  }

  /** The converted statements; those without a syntax node are omitted. */
  function ConvertedStatements(sources: seq<Option<Message>>): (r: seq<Option<Node>>)
    ensures forall i :: 0 <= i < |r| ==> r[i].Some?
  {
    if sources == [] then []
    else (if ConvertedRoot(sources[0]).Some? then [ConvertedRoot(sources[0])] else []) + ConvertedStatements(sources[1..])
  }

  /** The node of a statement wrapper that has one. */
  function AsRoot(source: Option<Message>): Option<Option<Node>> {
    if ConvertedRoot(source).Some? then Some(ConvertedRoot(source)) else None
  }

  lemma {:induction false} RootsInOrder(sources: seq<Option<Message>>)
    ensures PickedInOrder(sources, AsRoot, ConvertedStatements(sources))
  {
    if sources != [] {
      RootsInOrder(sources[1..]);
      PickedCons(sources, AsRoot, ConvertedStatements(sources[1..]));
    }
  }

  function Parsed(backend: Backend, sql: string): Option<seq<Option<Node>>> {
    if '\0' in sql then None
    else
      match backend(sql)
      case None => None
      case Some(sources) => Some(ConvertedStatements(sources))
  }

  lemma {:induction false} ConvertedStatementsSnoc(sources: seq<Option<Message>>, source: Option<Message>)
    ensures ConvertedStatements(sources + [source]) ==
            ConvertedStatements(sources) + if ConvertedRoot(source).Some? then [ConvertedRoot(source)] else []
  {
    if sources == [] {
      assert sources + [source] == [source];
    } else {
      ConvertedStatementsSnoc(sources[1..], source);
      assert (sources + [source])[1..] == sources[1..] + [source];
    }
  }

  method Parse(backend: Backend, sql: string) returns (result: Option<seq<Option<Node>>>)
    ensures result == Parsed(backend, sql)
    ensures result.Some? <==> '\0' !in sql && backend(sql).Some?
    ensures result.Some? ==> PickedInOrder(backend(sql).value, AsRoot, result.value)
  {
    if '\0' in sql {
      return None;
    }
    var tree := backend(sql);
    if tree.None? {
      return None;
    }
    var sources := tree.value;
    var statements := [];
    for i := 0 to |sources|
      invariant statements == ConvertedStatements(sources[..i])
    {
      ConvertedStatementsSnoc(sources[..i], sources[i]);
      assert sources[..i + 1] == sources[..i] + [sources[i]];
      if sources[i].Some? {
        var statement := ConvertMessage(sources[i].value);
        if statement.Some? {
          statements := statements + [statement];
        }
      }
    }
    assert sources[..|sources|] == sources;
    RootsInOrder(sources);
    return Some(statements);
  }

  /* ----- reading a converted message ----- */

  /** The first populated slot of that name. */
  function SlotContent(slots: seq<Slot>, name: string): (r: Option<Content>)
    ensures r.Some? ==> (slots decreases to r.value)
  {
    if slots == [] then None
    else if slots[0].name == name && slots[0].content.Some? then
      assert (slots decreases to slots[0]);
      assert (slots[0] decreases to slots[0].content);
      slots[0].content
    else SlotContent(slots[1..], name)
  }

  function MapContent(content: Option<Content>): Option<Value> {
    if content.Some? then Some(ConvertedContent(content.value)) else None
  }

  lemma {:induction false} LookupConverted(slots: seq<Slot>, name: string)
    ensures Lookup(ConvertedSlots(slots), name) == MapContent(SlotContent(slots, name))
  {
    if slots != [] {
      LookupConverted(slots[1..], name);
      if slots[0].content.Some? {
        assert ConvertedSlots(slots) == ConvertedSlot(slots[0]) + ConvertedSlots(slots[1..]);
      } else {
        assert ConvertedSlots(slots) == ConvertedSlots(slots[1..]);
      }
    }
  }
}
