/** Traversing the converted tree is traversing the source through its wrappers. */
module Correspondence {
  import opened Common
  import opened Tree
  import opened Conversion
  import Statements
  import Walk

  /** The concrete message behind a wrapper, if there is one. */
  function Unwrapped(m: Message): (r: Option<Message>)
    ensures r.Some? <==> Converted(m).Some?
    ensures r.Some? ==> Converted(m) == Some(Node(r.value.name, ConvertedSlots(r.value.slots)))
    ensures r.Some? ==> Converted(r.value) == Converted(m)
    ensures r.Some? ==> r.value == m || (m decreases to r.value)
    decreases m
  {
    if !m.valid then None
    else if m.fullName == "pg_query.Node" then
      match WhichOneof(m.slots)
      case Some(One(MessageKind(inner))) => Unwrapped(inner)
      case _ => None
    else Some(m)
  }

  /** One entry per message below `m` in field and list order; an empty wrapper, or a nil message,
      is `None`. */
  function SourceOrder(m: Message): seq<Option<Message>>
    decreases m, 1
  {
    var concrete := Unwrapped(m);
    if concrete.None? then [None] else [concrete] + SourceOrderSlots(concrete.value.slots)
  }

  function SourceOrderSlots(slots: seq<Slot>): seq<Option<Message>>
    decreases slots, 0
  {
    if slots == [] then [] else SourceOrderContent(slots[0].content) + SourceOrderSlots(slots[1..])
  }

  function SourceOrderContent(content: Option<Content>): seq<Option<Message>>
    decreases content, 0
  {
    match content
    case Some(One(value)) => SourceOrderValue(value)
    case Some(Many(elements)) => SourceOrderElements(elements)
    case None => []
  }

  function SourceOrderElements(elements: seq<Singular>): seq<Option<Message>>
    decreases elements, 0
  {
    if elements == [] then [] else SourceOrderValue(elements[0]) + SourceOrderElements(elements[1..])
  }

  function SourceOrderValue(value: Singular): seq<Option<Message>>
    decreases value, 0
  {
    match value
    case MessageKind(m) => SourceOrder(m)
    case _ => []
  }

  function ConvertedEntry(entry: Option<Message>): Option<Node> {
    if entry.Some? then Converted(entry.value) else None
  }

  function ConvertAll(entries: seq<Option<Message>>): seq<Option<Node>> {
    seq(|entries|, i requires 0 <= i < |entries| => ConvertedEntry(entries[i]))
  }

  lemma ConvertAllConcat(a: seq<Option<Message>>, b: seq<Option<Message>>)
    ensures ConvertAll(a + b) == ConvertAll(a) + ConvertAll(b)
  {
  }

  /** The walk order of the converted tree is, place by place, the conversion of the source order: a
      node where the source has a message, and nil exactly where it has an empty wrapper or message. */
  lemma {:induction false} OrderCommutes(m: Message)
    ensures Walk.PreOrder(Converted(m)) == ConvertAll(SourceOrder(m))
    ensures forall i :: 0 <= i < |SourceOrder(m)| ==> (Walk.PreOrder(Converted(m))[i].None? <==> SourceOrder(m)[i].None?)
  {
    OrderEquation(m);
    OrderHoldsMessages(m);
  }

  lemma {:induction false} OrderEquation(m: Message)
    ensures Walk.PreOrder(Converted(m)) == ConvertAll(SourceOrder(m))
    decreases m, 1
  {
    var concrete := Unwrapped(m);
    if concrete.Some? {
      SlotsCommute(concrete.value.slots);
      ConvertAllConcat([concrete], SourceOrderSlots(concrete.value.slots));
    }
  }

  lemma {:induction false} SlotsCommute(slots: seq<Slot>)
    ensures Walk.PreOrderFields(ConvertedSlots(slots)) == ConvertAll(SourceOrderSlots(slots))
    decreases slots, 0
  {
    if slots != [] {
      var content := slots[0].content;
      assert (slots decreases to slots[0]);
      if content.Some? {
        ContentCommutes(content.value);
        assert ConvertedSlots(slots) == [Field(slots[0].name, ConvertedContent(content.value))] + ConvertedSlots(slots[1..]);
      } else {
        assert ConvertedSlots(slots) == ConvertedSlots(slots[1..]);
      }
      SlotsCommute(slots[1..]);
      ConvertAllConcat(SourceOrderContent(content), SourceOrderSlots(slots[1..]));
    }
  }

  lemma {:induction false} ContentCommutes(content: Content)
    ensures Walk.PreOrderValue(ConvertedContent(content)) == ConvertAll(SourceOrderContent(Some(content)))
    decreases content, 0
  {
    match content
    case One(MessageKind(m)) => OrderEquation(m);
    case One(_) =>
    case Many(elements) => ElementsCommute(elements);
  }

  lemma {:induction false} ElementsCommute(elements: seq<Singular>)
    ensures Walk.PreOrderItems(ConvertedElements(elements)) == ConvertAll(SourceOrderElements(elements))
    decreases elements, 0
  {
    if elements != [] {
      var first := elements[0];
      assert (elements decreases to first);
      match first {
        case MessageKind(m) => OrderEquation(m);
        case _ =>
      }
      ElementsCommute(elements[1..]);
      assert ConvertedElements(elements)[1..] == ConvertedElements(elements[1..]);
      ConvertAllConcat(SourceOrderValue(first), SourceOrderElements(elements[1..]));
    }
  }

  /** A statement is walked in full by a visitor that always agrees exactly if no wrapper, and no
      message pointer, at or below it is empty. */
  lemma {:induction false} WalkedInFull(m: Message)
    requires Converted(m).Some?
    ensures Walk.Scan(Walk.PreOrder(Converted(m)), Walk.AlwaysAgree, []).1 <==> None !in SourceOrder(m)
  {
    OrderCommutes(m);
    Walk.AgreeingWalkIsComplete(Converted(m).value);
    var order, source := Walk.PreOrder(Converted(m)), SourceOrder(m);
    forall i | 0 <= i < |source|
      ensures order[i] == None <==> source[i] == None
    {
    }
  }

  ghost predicate AllConvert(entries: seq<Option<Message>>) {
    forall i :: 0 <= i < |entries| && entries[i].Some? ==> Converted(entries[i].value).Some?
  }

  lemma {:induction false} OrderHoldsMessages(m: Message)
    ensures AllConvert(SourceOrder(m))
    decreases m, 1
  {
    if Unwrapped(m).Some? {
      SlotsHoldMessages(Unwrapped(m).value.slots);
    }
  }

  lemma {:induction false} SlotsHoldMessages(slots: seq<Slot>)
    ensures AllConvert(SourceOrderSlots(slots))
    decreases slots, 0
  {
    if slots != [] {
      assert (slots decreases to slots[0]);
      if slots[0].content.Some? {
        ContentHoldsMessages(slots[0].content.value);
      }
      SlotsHoldMessages(slots[1..]);
      HoldConcat(SourceOrderContent(slots[0].content), SourceOrderSlots(slots[1..]));
    }
  }

  lemma HoldConcat(a: seq<Option<Message>>, b: seq<Option<Message>>)
    requires AllConvert(a) && AllConvert(b)
    ensures AllConvert(a + b)
  {
  }

  lemma {:induction false} ContentHoldsMessages(content: Content)
    ensures AllConvert(SourceOrderContent(Some(content)))
    decreases content, 0
  {
    match content
    case One(MessageKind(m)) => OrderHoldsMessages(m);
    case One(_) =>
    case Many(elements) => ElementsHoldMessages(elements);
  }

  lemma {:induction false} ElementsHoldMessages(elements: seq<Singular>)
    ensures AllConvert(SourceOrderElements(elements))
    decreases elements, 0
  {
    if elements != [] {
      var first := elements[0];
      assert (elements decreases to first);
      match first {
        case MessageKind(m) => OrderHoldsMessages(m);
        case _ =>
      }
      ElementsHoldMessages(elements[1..]);
      HoldConcat(SourceOrderValue(first), SourceOrderElements(elements[1..]));
    }
  }

  /* ----- flattening ----- */

  /** The message stored under `name`, wrapped or not. */
  function SourceField(m: Message, name: string): (r: Option<Message>)
    ensures r.Some? ==> (m decreases to r.value)
  {
    match SlotContent(m.slots, name)
    case Some(One(MessageKind(child))) =>
      assert (m.slots decreases to One(MessageKind(child)));
      Some(child)
    case _ => None
  }

  /** The message that one entry of a source CTE list contributes. */
  function SourceCteStatement(entry: Singular): (r: Option<Message>)
    ensures r.Some? ==> (entry decreases to r.value)
  {
    match entry
    case MessageKind(cte) =>
      var concrete := Unwrapped(cte);
      if concrete.None? then None
      else
        var query := SourceField(concrete.value, "ctequery");
        assert (entry decreases to cte);
        query
    case _ => None
  }

  function SourceEntries(statement: Message): (r: seq<Singular>)
    ensures forall i :: 0 <= i < |r| ==> (statement decreases to r[i])
  {
    var clause := SourceField(statement, "with_clause");
    if clause.None? || Unwrapped(clause.value).None? then []
    else
      match SlotContent(Unwrapped(clause.value).value.slots, "ctes")
      case Some(Many(elements)) =>
        assert (statement decreases to clause.value);
        assert (statement decreases to elements);
        elements
      case _ => []
  }

  /** The source statements reached through wrappers from `m`, depth first. */
  function SourceStatements(m: Message): seq<Message>
    decreases m
  {
    if Unwrapped(m).None? then []
    else
      var statement := Unwrapped(m).value;
      var entries := SourceEntries(statement);
      [statement] + Concat(seq(|entries|, i requires 0 <= i < |entries| =>
                                 var query := SourceCteStatement(entries[i]);
                                 if query.Some? then
                                   assert (m decreases to query.value) by {
                                     assert (statement decreases to entries[i]);
                                     assert (entries[i] decreases to query.value);
                                   }
                                   SourceStatements(query.value)
                                 else []))
  }

  function SourceRoot(query: Option<Message>): seq<Message> {
    if query.Some? then SourceStatements(query.value) else []
  }

  lemma {:induction false} SourceStatementsUnfold(m: Message)
    requires Unwrapped(m).Some?
    ensures var entries := SourceEntries(Unwrapped(m).value);
            SourceStatements(m) == [Unwrapped(m).value] +
                                   Concat(seq(|entries|, i requires 0 <= i < |entries| => SourceRoot(SourceCteStatement(entries[i]))))
  {
    var entries := SourceEntries(Unwrapped(m).value);
    assert seq(|entries|, i requires 0 <= i < |entries| =>
                 var query := SourceCteStatement(entries[i]);
                 if query.Some? then SourceStatements(query.value) else [])
        == seq(|entries|, i requires 0 <= i < |entries| => SourceRoot(SourceCteStatement(entries[i])));
  }

  function Messages(ms: seq<Message>): seq<Option<Node>> {
    seq(|ms|, i requires 0 <= i < |ms| => Converted(ms[i]))
  }

  lemma {:induction false} FieldCommutes(m: Message, name: string)
    requires Unwrapped(m) == Some(m)
    ensures NodeField(Converted(m).value, name) == ConvertedEntry(SourceField(m, name))
  {
    LookupConverted(m.slots, name);
    assert Converted(m) == Some(Node(m.name, ConvertedSlots(m.slots)));
    match SlotContent(m.slots, name)
    case Some(One(MessageKind(child))) =>
      assert ConvertedContent(One(MessageKind(child))) == ConvertedSingular(MessageKind(child));
      assert ConvertedSingular(MessageKind(child)) == NodeValue(Converted(child));
    case Some(One(value)) =>
      assert !ConvertedSingular(value).NodeValue?;
    case Some(Many(_)) =>
    case None =>
  }

  lemma {:induction false} CteStatementCommutes(entry: Singular)
    ensures Statements.CteStatement(ConvertedSingular(entry)) == ConvertedEntry(SourceCteStatement(entry))
  {
    match entry {
      case MessageKind(cte) =>
        if Unwrapped(cte).Some? {
          UnwrappedIsConcrete(cte);
          FieldCommutes(Unwrapped(cte).value, "ctequery");
        }
      case _ =>
    }
  }

  lemma {:induction false} UnwrappedIsConcrete(m: Message)
    requires Unwrapped(m).Some?
    ensures Unwrapped(Unwrapped(m).value) == Unwrapped(m)
    decreases m
  {
    if m.fullName == PG_QUERY_NODE_NAME {
      match WhichOneof(m.slots)
      case Some(One(MessageKind(inner))) => UnwrappedIsConcrete(inner);
    }
  }

  lemma {:induction false} EntryStatementsCommute(elements: seq<Singular>)
    ensures var branches := Statements.EntryStatements(ConvertedElements(elements));
            |branches| == |elements| &&
            forall i :: 0 <= i < |elements| ==> branches[i] == ConvertedEntry(SourceCteStatement(elements[i]))
  {
    forall i | 0 <= i < |elements| {
      CteStatementCommutes(elements[i]);
    }
  }

  lemma {:induction false} BranchesCommute(statement: Message)
    requires Unwrapped(statement) == Some(statement)
    ensures var entries, branches := SourceEntries(statement), Statements.Branches(Converted(statement).value);
            |branches| == |entries| &&
            forall i :: 0 <= i < |entries| ==> branches[i] == ConvertedEntry(SourceCteStatement(entries[i]))
  {
    FieldCommutes(statement, "with_clause");
    var clause := SourceField(statement, "with_clause");
    if clause.Some? && Unwrapped(clause.value).Some? {
      var concrete := Unwrapped(clause.value).value;
      UnwrappedIsConcrete(clause.value);
      LookupConverted(concrete.slots, "ctes");
      match SlotContent(concrete.slots, "ctes") {
        case Some(Many(elements)) =>
          EntryStatementsCommute(elements);
        case Some(One(value)) =>
          assert !ConvertedSingular(value).List?;
        case None =>
      }
    }
  }

  lemma MessagesConcat(a: seq<Message>, b: seq<Message>)
    ensures Messages(a + b) == Messages(a) + Messages(b)
  {
  }

  /** Flattening the converted statement gives the conversions of the source statements reached
      through wrappers, in the same order. */
  lemma {:induction false} FlattenCommutes(m: Message)
    ensures Walk.Filled(Statements.FlattenRoot(Converted(m))) == Messages(SourceStatements(m))
    decreases m
  {
    if Unwrapped(m).Some? {
      var entries := SourceEntries(Unwrapped(m).value);
      forall i | 0 <= i < |entries|
        ensures EntryCommutes(entries[i])
      {
        var query := SourceCteStatement(entries[i]);
        if query.Some? {
          assert (Unwrapped(m).value decreases to entries[i]);
          assert (entries[i] decreases to query.value);
          FlattenCommutes(query.value);
        }
      }
      StatementCommutes(m);
    }
  }

  ghost predicate EntryCommutes(entry: Singular) {
    var query := SourceCteStatement(entry);
    Walk.Filled(Statements.FlattenRoot(ConvertedEntry(query))) == Messages(SourceRoot(query))
  }

  lemma {:induction false} StatementCommutes(m: Message)
    requires Unwrapped(m).Some?
    requires var entries := SourceEntries(Unwrapped(m).value);
             forall i :: 0 <= i < |entries| ==> EntryCommutes(entries[i])
    ensures Walk.Filled(Statements.FlattenRoot(Converted(m))) == Messages(SourceStatements(m))
  {
    var statement := Unwrapped(m).value;
    UnwrappedIsConcrete(m);
    BranchesCommute(statement);
    var entries, branches := SourceEntries(statement), Statements.Branches(Converted(statement).value);
    var parts := Statements.FlattenRoots(branches);
    var sources := seq(|entries|, i requires 0 <= i < |entries| => SourceRoot(SourceCteStatement(entries[i])));
    forall i | 0 <= i < |entries|
      ensures Walk.Filled(parts[i]) == Messages(sources[i])
    {
      assert EntryCommutes(entries[i]);
    }
    FlattenedPartsCommute(parts, sources);
    Statements.FlattenUnfold(Converted(m).value);
    SourceStatementsUnfold(m);
    Walk.FilledAppend([Converted(m).value], Concat(parts));
    MessagesConcat([statement], Concat(sources));
    assert Walk.Filled([Converted(m).value]) == Messages([statement]);
  }

  lemma {:induction false} FlattenedPartsCommute(parts: seq<seq<Node>>, sources: seq<seq<Message>>)
    requires |parts| == |sources| && forall i :: 0 <= i < |parts| ==> Walk.Filled(parts[i]) == Messages(sources[i])
    ensures Walk.Filled(Concat(parts)) == Messages(Concat(sources))
  {
    if parts != [] {
      FlattenedPartsCommute(parts[1..], sources[1..]);
      Walk.FilledAppend(parts[0], Concat(parts[1..]));
      MessagesConcat(sources[0], Concat(sources[1..]));
    }
  }

  /** All source statements reached in a batch of statement wrappers. */
  function BatchStatements(sources: seq<Option<Message>>): seq<Message> {
    if sources == [] then [] else SourceRoot(sources[0]) + BatchStatements(sources[1..])
  }

  /** The same for a whole parsed batch, whose empty wrappers are dropped. */
  lemma {:induction false} BatchCommutes(sources: seq<Option<Message>>)
    ensures Walk.Filled(Statements.FlattenAll(ConvertedStatements(sources))) == Messages(BatchStatements(sources))
  {
    if sources != [] {
      BatchCommutes(sources[1..]);
      var root := ConvertedRoot(sources[0]);
      if sources[0].Some? {
        FlattenCommutes(sources[0].value);
      }
      DropEmptyRoot(root, ConvertedStatements(sources[1..]));
      Walk.FilledAppend(Statements.FlattenRoot(root), Statements.FlattenAll(ConvertedStatements(sources[1..])));
      MessagesConcat(SourceRoot(sources[0]), BatchStatements(sources[1..]));
    }
  }

  lemma DropEmptyRoot(root: Option<Node>, rest: seq<Option<Node>>)
    ensures Statements.FlattenAll((if root.Some? then [root] else []) + rest) ==
            Statements.FlattenRoot(root) + Statements.FlattenAll(rest)
  {
    if root.Some? {
      Statements.FlattenAllConcat([root], rest);
      Statements.FlattenAllOne(root);
    } else {
      assert [] + rest == rest;
    }
  }
}
