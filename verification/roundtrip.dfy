/** Conversion loses nothing but nil-ness of wrappers and unknown enum numbers: a decoder that knows
    only the schema rebuilds the source message. */
module RoundTrip {
  import opened Common
  import opened Tree
  import opened Conversion
  import opened Correspondence

  datatype Type =
    | BoolType | IntType | UintType | FloatType | StringType | BytesType
    | EnumType(table: seq<EnumEntry>)
    | MessageType(fullName: string)
    | OtherType

  datatype FieldDescriptor = FieldDescriptor(name: string, list: bool, typ: Type)

  datatype Descriptor = Descriptor(name: string, fields: seq<FieldDescriptor>)

  type Schema = map<string, Descriptor>

  predicate IsWrapper(fullName: string) {
    fullName == "pg_query.Node"
  }

  ghost predicate DistinctNames(fields: seq<FieldDescriptor>) {
    forall i, j :: 0 <= i < j < |fields| ==> fields[i].name != fields[j].name
  }

  ghost predicate ValidTable(table: seq<EnumEntry>) {
    && (forall i :: 0 <= i < |table| ==> table[i].name != "")
    && forall i, j :: 0 <= i < j < |table| ==> table[i].name != table[j].name
  }

  /** Closed under message types, with distinct field names and enum value names, and whose wrapper
      has one case per concrete message type. */
  ghost predicate ValidSchema(schema: Schema) {
    && PG_QUERY_NODE_NAME in schema
    && (forall t :: t in schema ==> DistinctNames(schema[t].fields))
    && (forall t, i :: t in schema && 0 <= i < |schema[t].fields| ==> ValidType(schema, schema[t].fields[i].typ))
    && ValidCases(schema, schema[PG_QUERY_NODE_NAME].fields)
  }

  ghost predicate ValidType(schema: Schema, typ: Type) {
    match typ
    case EnumType(table) => ValidTable(table)
    case MessageType(t) => t in schema
    case _ => true
  }

  ghost predicate ValidCases(schema: Schema, cases: seq<FieldDescriptor>) {
    && (forall i :: 0 <= i < |cases| ==> !cases[i].list && cases[i].typ.MessageType?
                                         && cases[i].typ.fullName in schema && !IsWrapper(cases[i].typ.fullName))
    && forall i, j :: 0 <= i < j < |cases| ==> schema[cases[i].typ.fullName].name != schema[cases[j].typ.fullName].name
  }

  /* ----- messages of a schema ----- */

  ghost predicate Conforms(schema: Schema, fullName: string, m: Message)
    requires fullName in schema
    decreases m
  {
    && m.fullName == fullName
    && m.name == schema[fullName].name
    && if m.valid
       then SlotsConform(schema, schema[fullName].fields, m.slots) && (IsWrapper(fullName) ==> AtMostOne(m.slots))
       else m.slots == []
  }

  ghost predicate AtMostOne(slots: seq<Slot>) {
    forall i, j :: 0 <= i < j < |slots| ==> slots[i].content.None? || slots[j].content.None?
  }

  ghost predicate SlotsConform(schema: Schema, fields: seq<FieldDescriptor>, slots: seq<Slot>)
    decreases slots
  {
    if slots == [] then fields == []
    else fields != [] && SlotConforms(schema, fields[0], slots[0]) && SlotsConform(schema, fields[1..], slots[1..])
  }

  ghost predicate SlotConforms(schema: Schema, field: FieldDescriptor, slot: Slot)
    decreases slot
  {
    && slot.name == field.name
    && match slot.content
       case None => true
       case Some(One(value)) => !field.list && ValueConforms(schema, field.typ, value)
       case Some(Many(elements)) => field.list && ElementsConform(schema, field.typ, elements)
  }

  ghost predicate ElementsConform(schema: Schema, typ: Type, elements: seq<Singular>)
    decreases elements
  {
    elements == [] || (ValueConforms(schema, typ, elements[0]) && ElementsConform(schema, typ, elements[1..]))
  }

  ghost predicate ValueConforms(schema: Schema, typ: Type, value: Singular)
    decreases value
  {
    match value
    case BoolKind(_) => typ.BoolType?
    case IntKind(_) => typ.IntType?
    case UintKind(_) => typ.UintType?
    case FloatKind(_) => typ.FloatType?
    case StringKind(_) => typ.StringType?
    case BytesKind(_) => typ.BytesType?
    case EnumKind(table, _) => typ == EnumType(table)
    case MessageKind(m) => typ.MessageType? && typ.fullName in schema && Conforms(schema, typ.fullName, m)
    case OtherKind => typ.OtherType?
  }

  /* ----- what may be lost ----- */

  /** A number beyond all of the table's. */
  function UnknownNumber(table: seq<EnumEntry>): (r: int)
    ensures forall i :: 0 <= i < |table| ==> table[i].number < r
  {
    if table == [] then 0
    else
      var rest := UnknownNumber(table[1..]);
      if table[0].number < rest then rest else table[0].number + 1
  }

  /** The message with unknown enum numbers made equal, and with every wrapper around no message
      made the empty wrapper. */
  function Normal(schema: Schema, m: Message): Message
    decreases m
  {
    if IsWrapper(m.fullName) && Unwrapped(m).None? then Message(true, m.fullName, m.name, EmptySlots(schema, m.fullName))
    else m.(slots := NormalSlots(schema, m.slots))
  }

  function EmptySlots(schema: Schema, fullName: string): seq<Slot> {
    if fullName in schema
    then seq(|schema[fullName].fields|, i requires 0 <= i < |schema[fullName].fields| => Slot(schema[fullName].fields[i].name, None))
    else []
  }

  function NormalSlots(schema: Schema, slots: seq<Slot>): (r: seq<Slot>)
    ensures |r| == |slots| && forall i :: 0 <= i < |r| ==> r[i] == NormalSlot(schema, slots[i])
    decreases slots
  {
    if slots == [] then [] else [NormalSlot(schema, slots[0])] + NormalSlots(schema, slots[1..])
  }

  function NormalSlot(schema: Schema, slot: Slot): Slot
    decreases slot
  {
    match slot.content
    case None => slot
    case Some(content) => Slot(slot.name, Some(NormalContent(schema, content)))
  }

  function NormalContent(schema: Schema, content: Content): Content
    decreases content
  {
    match content
    case One(value) => One(NormalValue(schema, value))
    case Many(elements) => Many(NormalElements(schema, elements))
  }

  function NormalElements(schema: Schema, elements: seq<Singular>): seq<Singular>
    decreases elements
  {
    if elements == [] then [] else [NormalValue(schema, elements[0])] + NormalElements(schema, elements[1..])
  }

  function NormalValue(schema: Schema, value: Singular): Singular
    decreases value
  {
    match value
    case EnumKind(table, number) =>
      if Unlisted(table, number) then EnumKind(table, UnknownNumber(table)) else value
    case MessageKind(m) => MessageKind(Normal(schema, m))
    case _ => value
  }

  /* ----- the decoder: schema and neutral tree only ----- */

  function DecodeReference(schema: Schema, fullName: string, node: Option<Node>): Message
    requires fullName in schema
    decreases node
  {
    var name := schema[fullName].name;
    if IsWrapper(fullName) then
      Message(true, fullName, name, DecodeCases(schema, schema[fullName].fields, node))
    else if node.None? then Message(false, fullName, name, [])
    else DecodeNode(schema, fullName, node.value)
  }

  /** The slots of a wrapper: the case whose type has the node's kind is populated. */
  function DecodeCases(schema: Schema, cases: seq<FieldDescriptor>, node: Option<Node>): (r: seq<Slot>)
    ensures |r| == |cases|
    ensures forall i :: 0 <= i < |r| ==> r[i] == DecodeCase(schema, cases[i], node)
    decreases node, |cases|
  {
    if cases == [] then [] else [DecodeCase(schema, cases[0], node)] + DecodeCases(schema, cases[1..], node)
  }

  function DecodeCase(schema: Schema, field: FieldDescriptor, node: Option<Node>): Slot
    decreases node, 0
  {
    if node.Some? && field.typ.MessageType? && field.typ.fullName in schema && schema[field.typ.fullName].name == node.value.kind
    then Slot(field.name, Some(One(MessageKind(DecodeNode(schema, field.typ.fullName, node.value)))))
    else Slot(field.name, None)
  }

  function DecodeNode(schema: Schema, fullName: string, node: Node): Message
    requires fullName in schema
    decreases node, |schema[fullName].fields| + 1
  {
    Message(true, fullName, schema[fullName].name, DecodeFields(schema, schema[fullName].fields, node))
  }

  function DecodeFields(schema: Schema, fields: seq<FieldDescriptor>, node: Node): (r: seq<Slot>)
    ensures |r| == |fields|
    ensures forall i :: 0 <= i < |r| ==> r[i] == DecodeField(schema, fields[i], node)
    decreases node, |fields|
  {
    if fields == [] then [] else [DecodeField(schema, fields[0], node)] + DecodeFields(schema, fields[1..], node)
  }

  function DecodeField(schema: Schema, field: FieldDescriptor, node: Node): Slot
    decreases node, 0
  {
    match Lookup(node.fields, field.name)
    case None => Slot(field.name, None)
    case Some(value) =>
      assert (node decreases to value);
      Slot(field.name, Some(
             match value
             case List(items) => Many(DecodeItems(schema, field.typ, items))
             case _ => One(DecodeValue(schema, field.typ, value))))
  }

  function DecodeItems(schema: Schema, typ: Type, items: seq<Value>): seq<Singular>
    decreases items
  {
    if items == [] then [] else [DecodeValue(schema, typ, items[0])] + DecodeItems(schema, typ, items[1..])
  }

  function DecodeValue(schema: Schema, typ: Type, value: Value): Singular
    decreases value
  {
    match value
    case Bool(b) => BoolKind(b)
    case Int(i) => IntKind(i)
    case Uint(u) => UintKind(u)
    case Float(bits) => FloatKind(bits)
    case String(s) => StringKind(s)
    case Bytes(bytes) => BytesKind(bytes)
    case Enum(symbol) => if typ.EnumType? then EnumKind(typ.table, EnumNumber(typ.table, symbol)) else OtherKind
    case NodeValue(node) =>
      if typ.MessageType? && typ.fullName in schema then MessageKind(DecodeReference(schema, typ.fullName, node)) else OtherKind
    case _ => OtherKind
  }

  function EnumNumber(table: seq<EnumEntry>, symbol: string): int {
    var i := EntryIndex(table, symbol);
    if i < |table| then table[i].number else UnknownNumber(table)
  }

  function EntryIndex(table: seq<EnumEntry>, symbol: string): (r: nat)
    ensures r <= |table|
    ensures r < |table| ==> table[r].name == symbol
    ensures forall i :: 0 <= i < r ==> table[i].name != symbol
  {
    if table == [] || table[0].name == symbol then 0 else 1 + EntryIndex(table[1..], symbol)
  }

  /* ----- the round trip ----- */

  /** Decoding the converted message gives the message back, up to what `Normal` equates. */
  lemma {:induction false} RoundTrip(schema: Schema, fullName: string, m: Message)
    requires ValidSchema(schema) && fullName in schema && Conforms(schema, fullName, m)
    ensures DecodeReference(schema, fullName, Converted(m)) == Normal(schema, m)
    decreases m
  {
    if m.valid {
      ConformsLength(schema, schema[fullName].fields, m.slots);
    }
    if m.valid && !IsWrapper(fullName) {
      forall i | 0 <= i < |m.slots|
        ensures m.slots[i].content.Some? ==> DecodesBack(schema, schema[fullName].fields[i].typ, m.slots[i].content.value)
      {
        ConformsAt(schema, schema[fullName].fields, m.slots, i);
        assert (m.slots decreases to m.slots[i]);
        if m.slots[i].content.Some? {
          ContentRoundTrip(schema, schema[fullName].fields[i], m.slots[i].content.value);
        }
      }
      FieldsRoundTrip(schema, fullName, m);
    } else if m.valid {
      var cases := schema[fullName].fields;
      forall i | 0 <= i < |m.slots| && m.slots[i].content.Some?
        ensures |cases| == |m.slots| && CaseConforms(schema, cases[i], m.slots[i])
        ensures var inner := m.slots[i].content.value.value.message;
                DecodeReference(schema, cases[i].typ.fullName, Converted(inner)) == Normal(schema, inner)
      {
        ConformsAt(schema, cases, m.slots, i);
        assert (m.slots decreases to m.slots[i]);
        RoundTrip(schema, cases[i].typ.fullName, m.slots[i].content.value.value.message);
      }
      WrapperRoundTrip(schema, m);
    } else {
      assert NormalSlots(schema, m.slots) == m.slots;
      if IsWrapper(fullName) {
        assert DecodeReference(schema, fullName, None).slots == EmptySlots(schema, fullName);
      }
    }
  }

  predicate CaseConforms(schema: Schema, field: FieldDescriptor, slot: Slot) {
    && slot.name == field.name
    && field.typ.MessageType? && field.typ.fullName in schema
    && slot.content.Some? && slot.content.value.One? && slot.content.value.value.MessageKind?
    && !IsWrapper(slot.content.value.value.message.fullName)
    && slot.content.value.value.message.name == schema[field.typ.fullName].name
  }

  /** How a field's type reads a converted content again. */
  function DecodedContent(schema: Schema, typ: Type, value: Value): Content {
    match value
    case List(items) => Many(DecodeItems(schema, typ, items))
    case _ => One(DecodeValue(schema, typ, value))
  }

  predicate DecodesBack(schema: Schema, typ: Type, content: Content) {
    DecodedContent(schema, typ, ConvertedContent(content)) == NormalContent(schema, content)
  }

  lemma {:induction false} ConformsAt(schema: Schema, fields: seq<FieldDescriptor>, slots: seq<Slot>, i: nat)
    requires SlotsConform(schema, fields, slots) && i < |slots|
    ensures |fields| == |slots| && SlotConforms(schema, fields[i], slots[i])
    decreases i
  {
    if i > 0 {
      ConformsAt(schema, fields[1..], slots[1..], i - 1);
    } else if |slots| > 1 {
      ConformsLength(schema, fields[1..], slots[1..]);
    }
  }

  lemma {:induction false} ConformsLength(schema: Schema, fields: seq<FieldDescriptor>, slots: seq<Slot>)
    requires SlotsConform(schema, fields, slots)
    ensures |fields| == |slots|
    decreases |slots|
  {
    if slots != [] {
      ConformsLength(schema, fields[1..], slots[1..]);
    }
  }

  lemma {:induction false} ContentRoundTrip(schema: Schema, field: FieldDescriptor, content: Content)
    requires ValidSchema(schema) && ValidType(schema, field.typ)
    requires content.One? ==> ValueConforms(schema, field.typ, content.value)
    requires content.Many? ==> ElementsConform(schema, field.typ, content.elements)
    ensures DecodesBack(schema, field.typ, content)
    decreases content
  {
    match content
    case One(value) => ValueRoundTrip(schema, field.typ, value);
    case Many(elements) => ElementsRoundTrip(schema, field.typ, elements);
  }

  lemma {:induction false} ElementsRoundTrip(schema: Schema, typ: Type, elements: seq<Singular>)
    requires ValidSchema(schema) && ValidType(schema, typ) && ElementsConform(schema, typ, elements)
    ensures DecodeItems(schema, typ, ConvertedElements(elements)) == NormalElements(schema, elements)
    decreases elements
  {
    if elements != [] {
      ValueRoundTrip(schema, typ, elements[0]);
      ElementsRoundTrip(schema, typ, elements[1..]);
      assert ConvertedElements(elements)[1..] == ConvertedElements(elements[1..]);
    }
  }

  lemma {:induction false} ValueRoundTrip(schema: Schema, typ: Type, value: Singular)
    requires ValidSchema(schema) && ValidType(schema, typ) && ValueConforms(schema, typ, value)
    ensures DecodeValue(schema, typ, ConvertedSingular(value)) == NormalValue(schema, value)
    ensures !ConvertedSingular(value).List?
    decreases value
  {
    match value
    case EnumKind(table, number) => EnumRoundTrip(table, number);
    case MessageKind(m) => RoundTrip(schema, typ.fullName, m);
    case _ =>
  }

  lemma {:induction false} EnumRoundTrip(table: seq<EnumEntry>, number: int)
    requires ValidTable(table)
    ensures EnumName(table, number) == None ==> EnumNumber(table, "") == UnknownNumber(table)
    ensures EnumName(table, number) != None ==> EnumNumber(table, EnumName(table, number).value) == number
  {
    if EnumName(table, number) != None {
      assert Names(table, number, EnumName(table, number).value);
    }
  }

  lemma {:induction false} FieldsRoundTrip(schema: Schema, fullName: string, m: Message)
    requires ValidSchema(schema) && fullName in schema && !IsWrapper(fullName) && m.valid && Conforms(schema, fullName, m)
    requires |m.slots| == |schema[fullName].fields| ==>
               forall i :: 0 <= i < |m.slots| && m.slots[i].content.Some? ==>
                             DecodesBack(schema, schema[fullName].fields[i].typ, m.slots[i].content.value)
    ensures DecodeReference(schema, fullName, Converted(m)) == Normal(schema, m)
  {
    var fields := schema[fullName].fields;
    ConformsLength(schema, fields, m.slots);
    var node := Converted(m).value;
    forall i | 0 <= i < |m.slots|
      ensures DecodeField(schema, fields[i], node) == NormalSlot(schema, m.slots[i])
    {
      LookupConverted(m.slots, fields[i].name);
      forall j | 0 <= j < |m.slots|
        ensures m.slots[j].name == fields[j].name
      {
        ConformsAt(schema, fields, m.slots, j);
      }
      UniqueSlot(m.slots, i);
    }
    assert DecodeFields(schema, fields, node) == NormalSlots(schema, m.slots);
  }

  lemma {:induction false} UniqueSlot(slots: seq<Slot>, i: nat)
    requires i < |slots| && forall j, k :: 0 <= j < k < |slots| ==> slots[j].name != slots[k].name
    ensures SlotContent(slots, slots[i].name) == slots[i].content
  {
    if i > 0 {
      UniqueSlot(slots[1..], i - 1);
    } else {
      NoSlot(slots[1..], slots[0].name);
    }
  }

  lemma {:induction false} NoSlot(slots: seq<Slot>, name: string)
    requires forall j :: 0 <= j < |slots| ==> slots[j].name != name
    ensures SlotContent(slots, name) == None
  {
    if slots != [] {
      NoSlot(slots[1..], name);
    }
  }

  lemma {:induction false} OtherCase(schema: Schema, cases: seq<FieldDescriptor>, node: Node, k: nat, i: nat)
    requires ValidCases(schema, cases) && k < |cases| && i < |cases| && i != k
    requires node.kind == schema[cases[k].typ.fullName].name
    ensures DecodeCase(schema, cases[i], Some(node)) == Slot(cases[i].name, None)
  {
    assert schema[cases[i].typ.fullName].name != schema[cases[k].typ.fullName].name;
  }

  lemma {:induction false} PopulatedCase(schema: Schema, field: FieldDescriptor, slot: Slot)
    requires CaseConforms(schema, field, slot) && !IsWrapper(field.typ.fullName)
    requires var inner := slot.content.value.value.message;
             Converted(inner).Some? && DecodeReference(schema, field.typ.fullName, Converted(inner)) == Normal(schema, inner)
    ensures DecodeCase(schema, field, Converted(slot.content.value.value.message)) == NormalSlot(schema, slot)
  {
    var inner := slot.content.value.value.message;
    assert DecodeNode(schema, field.typ.fullName, Converted(inner).value) == Normal(schema, inner);
    assert NormalContent(schema, slot.content.value) == One(MessageKind(Normal(schema, inner)));
  }

  lemma {:induction false} WrapperRoundTrip(schema: Schema, m: Message)
    requires ValidSchema(schema) && m.valid && Conforms(schema, PG_QUERY_NODE_NAME, m)
    requires WrapperDecodes(schema, m)
    ensures DecodeReference(schema, PG_QUERY_NODE_NAME, Converted(m)) == Normal(schema, m)
  {
    var cases := schema[PG_QUERY_NODE_NAME].fields;
    ConformsLength(schema, cases, m.slots);
    if Converted(m).None? {
      assert DecodeCases(schema, cases, Converted(m)) == EmptySlots(schema, PG_QUERY_NODE_NAME);
    } else {
      var k :| 0 <= k < |m.slots| && m.slots[k].content == WhichOneof(m.slots);
      PopulatedWrapper(schema, m, k);
    }
  }

  /** What is in the populated case of a wrapper decodes back. */
  ghost predicate WrapperDecodes(schema: Schema, m: Message)
    requires PG_QUERY_NODE_NAME in schema
  {
    var cases := schema[PG_QUERY_NODE_NAME].fields;
    forall i :: 0 <= i < |m.slots| && m.slots[i].content.Some? ==>
      && |cases| == |m.slots| && CaseConforms(schema, cases[i], m.slots[i])
      && var inner := m.slots[i].content.value.value.message;
         DecodeReference(schema, cases[i].typ.fullName, Converted(inner)) == Normal(schema, inner)
  }

  lemma {:induction false} PopulatedWrapper(schema: Schema, m: Message, k: nat)
    requires ValidSchema(schema) && m.valid && Conforms(schema, PG_QUERY_NODE_NAME, m)
    requires WrapperDecodes(schema, m) && Converted(m).Some?
    requires k < |m.slots| && m.slots[k].content == WhichOneof(m.slots)
    ensures DecodeReference(schema, PG_QUERY_NODE_NAME, Converted(m)) == Normal(schema, m)
  {
    var cases := schema[PG_QUERY_NODE_NAME].fields;
    ConformsLength(schema, cases, m.slots);
    assert Converted(m) == Converted(m.slots[k].content.value.value.message);
    forall i | 0 <= i < |m.slots|
      ensures m.slots[i].name == cases[i].name
    {
      ConformsAt(schema, cases, m.slots, i);
    }
    CasesRoundTrip(schema, cases, m.slots, k);
  }

  lemma {:induction false} CasesRoundTrip(schema: Schema, cases: seq<FieldDescriptor>, slots: seq<Slot>, k: nat)
    requires ValidCases(schema, cases) && |cases| == |slots| && k < |slots|
    requires forall i :: 0 <= i < |slots| ==> slots[i].name == cases[i].name && (i != k ==> slots[i].content == None)
    requires slots[k].content.Some? && CaseConforms(schema, cases[k], slots[k])
    requires var inner := slots[k].content.value.value.message;
             Converted(inner).Some? && DecodeReference(schema, cases[k].typ.fullName, Converted(inner)) == Normal(schema, inner)
    ensures DecodeCases(schema, cases, Converted(slots[k].content.value.value.message)) == NormalSlots(schema, slots)
  {
    var node := Converted(slots[k].content.value.value.message);
    PopulatedCase(schema, cases[k], slots[k]);
    var decoded := DecodeCases(schema, cases, node);
    forall i | 0 <= i < |slots|
      ensures decoded[i] == NormalSlot(schema, slots[i])
    {
      if i != k {
        OtherCase(schema, cases, node.value, k, i);
      }
    }
  }

  /** So two messages of one type have the same neutral tree exactly if they differ only in unknown
      enum numbers and in how an absent node is wrapped. */
  lemma {:induction false} ConversionIsInjective(schema: Schema, fullName: string, m: Message, m': Message)
    requires ValidSchema(schema) && fullName in schema && Conforms(schema, fullName, m) && Conforms(schema, fullName, m')
    ensures Converted(m) == Converted(m') <==> Normal(schema, m) == Normal(schema, m')
  {
    RoundTrip(schema, fullName, m);
    RoundTrip(schema, fullName, m');
    NormalConverts(schema, m);
    NormalConverts(schema, m');
  }

  lemma {:induction false} NormalConverts(schema: Schema, m: Message)
    ensures Converted(Normal(schema, m)) == Converted(m)
    decreases m
  {
    if IsWrapper(m.fullName) && Converted(m).None? {
    } else if IsWrapper(m.fullName) {
      NormalWhich(schema, m.slots);
      WrappedConverts(schema, m);
      var inner := WhichOneof(m.slots).value.value.message;
      NormalConverts(schema, inner);
    } else {
      NormalSlotsConvert(schema, m.slots);
    }
  }

  /** What a wrapper that converts is wrapped around. */
  lemma {:induction false} WrappedConverts(schema: Schema, m: Message)
    requires IsWrapper(m.fullName) && Converted(m).Some?
    ensures var content := WhichOneof(m.slots);
            && content.Some? && content.value.One? && content.value.value.MessageKind?
            && (m decreases to content.value.value.message)
            && Converted(m) == Converted(content.value.value.message)
            && NormalContent(schema, content.value) == One(MessageKind(Normal(schema, content.value.value.message)))
  {
    var k :| 0 <= k < |m.slots| && m.slots[k].content == WhichOneof(m.slots);
    assert (m.slots decreases to m.slots[k]);
  }

  lemma {:induction false} NormalWhich(schema: Schema, slots: seq<Slot>)
    ensures WhichOneof(NormalSlots(schema, slots)) ==
            if WhichOneof(slots).Some? then Some(NormalContent(schema, WhichOneof(slots).value)) else None
  {
    if slots != [] {
      NormalWhich(schema, slots[1..]);
      assert NormalSlots(schema, slots)[1..] == NormalSlots(schema, slots[1..]);
    }
  }

  lemma {:induction false} NormalSlotsConvert(schema: Schema, slots: seq<Slot>)
    ensures ConvertedSlots(NormalSlots(schema, slots)) == ConvertedSlots(slots)
    decreases slots
  {
    if slots != [] {
      var slot := slots[0];
      assert (slots decreases to slot);
      match slot.content {
        case Some(One(value)) =>
          NormalValueConverts(schema, value);
        case Some(Many(elements)) =>
          NormalElementsConvert(schema, elements);
        case None =>
      }
      assert ConvertedSlot(NormalSlot(schema, slot)) == ConvertedSlot(slot);
      NormalSlotsConvert(schema, slots[1..]);
      assert NormalSlots(schema, slots)[1..] == NormalSlots(schema, slots[1..]);
    }
  }

  lemma {:induction false} NormalElementsConvert(schema: Schema, elements: seq<Singular>)
    ensures ConvertedElements(NormalElements(schema, elements)) == ConvertedElements(elements)
    decreases elements
  {
    if elements != [] {
      NormalValueConverts(schema, elements[0]);
      NormalElementsConvert(schema, elements[1..]);
      assert NormalElements(schema, elements)[1..] == NormalElements(schema, elements[1..]);
    }
  }

  lemma {:induction false} NormalValueConverts(schema: Schema, value: Singular)
    ensures ConvertedSingular(NormalValue(schema, value)) == ConvertedSingular(value)
    decreases value
  {
    match value
    case MessageKind(m) => NormalConverts(schema, m);
    case _ =>
  }
}
