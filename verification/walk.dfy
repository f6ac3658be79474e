/** The early-stopping pre-order walk with a stateful visitor (statement.go). */
module Walk {
  import opened Common
  import opened Tree

  /** A visitor whose answer may depend on everything it saw before. */
  class Visitor {
    const visit: (seq<Node>, Node) -> bool
    var visited: seq<Node>

    constructor (visit: (seq<Node>, Node) -> bool)
      ensures this.visit == visit && visited == []
    {
      this.visit := visit;
      visited := [];
    }

    method Visit(node: Node) returns (more: bool)
      modifies this
      ensures more == visit(old(visited), node)
      ensures visited == old(visited) + [node]
    {
      more := visit(visited, node);
      visited := visited + [node];
    }
  }

  /** Every node value at or below `node` in field and list order; a nil node value is `None`. */
  function PreOrder(node: Option<Node>): seq<Option<Node>>
    decreases node
  {
    match node
    case None => [None]
    case Some(n) => [node] + PreOrderFields(n.fields)
  }

  function PreOrderFields(fields: seq<Field>): seq<Option<Node>>
    decreases fields
  {
    if fields == [] then [] else PreOrderValue(fields[0].value) + PreOrderFields(fields[1..])
  }

  function PreOrderValue(value: Value): seq<Option<Node>>
    decreases value
  {
    match value
    case NodeValue(child) => PreOrder(child)
    case List(items) => PreOrderItems(items)
    case _ => []
  }

  /** A list inside a list is not entered. */
  function PreOrderItems(items: seq<Value>): seq<Option<Node>>
    decreases items
  {
    if items == [] then [] else PreOrderItem(items[0]) + PreOrderItems(items[1..])
  }

  function PreOrderItem(item: Value): seq<Option<Node>>
    decreases item
  {
    match item
    case NodeValue(child) => PreOrder(child)
    case _ => []
  }

  /* ----- the order is every node before the subtrees of the nodes stored in it ----- */

  /** The node values that a node's fields and their lists hold directly; lists in lists are passed over. */
  function DirectNodes(fields: seq<Field>): seq<Option<Node>> {
    if fields == [] then [] else NodesOf(fields[0].value) + DirectNodes(fields[1..])
  }

  function NodesOf(value: Value): seq<Option<Node>> {
    match value
    case NodeValue(node) => [node]
    case List(items) => NodeItems(items)
    case _ => []
  }

  function Subtrees(nodes: seq<Option<Node>>): seq<Option<Node>> {
    Concat(Map(PreOrder, nodes))
  }

  lemma SubtreesConcat(a: seq<Option<Node>>, b: seq<Option<Node>>)
    ensures Subtrees(a + b) == Subtrees(a) + Subtrees(b)
  {
    MapConcat(PreOrder, a, b);
    ConcatAppend(Map(PreOrder, a), Map(PreOrder, b));
  }

  lemma {:induction false} SubtreesOne(node: Option<Node>)
    ensures Subtrees([node]) == PreOrder(node)
  {
    assert Map(PreOrder, [node]) == [PreOrder(node)] + [];
    assert Concat([PreOrder(node)]) == PreOrder(node) + Concat([]);
  }

  lemma {:induction false} ItemsAreSubtrees(items: seq<Value>)
    ensures PreOrderItems(items) == Subtrees(NodeItems(items))
  {
    if items != [] {
      ItemsAreSubtrees(items[1..]);
      if items[0].NodeValue? {
        SubtreesConcat([items[0].node], NodeItems(items[1..]));
        SubtreesOne(items[0].node);
      } else {
        assert [] + NodeItems(items[1..]) == NodeItems(items[1..]);
      }
    }
  }

  lemma {:induction false} ValueIsSubtrees(value: Value)
    ensures PreOrderValue(value) == Subtrees(NodesOf(value))
  {
    match value
    case NodeValue(node) => SubtreesOne(node);
    case List(items) => ItemsAreSubtrees(items);
    case _ =>
  }

  lemma {:induction false} FieldsAreSubtrees(fields: seq<Field>)
    ensures PreOrderFields(fields) == Subtrees(DirectNodes(fields))
  {
    if fields != [] {
      FieldsAreSubtrees(fields[1..]);
      ValueIsSubtrees(fields[0].value);
      SubtreesConcat(NodesOf(fields[0].value), DirectNodes(fields[1..]));
    }
  }

  lemma {:induction false} PreOrderIsNodeThenSubtrees(node: Option<Node>)
    ensures PreOrder(node) == [node] + if node.Some? then Subtrees(DirectNodes(node.value.fields)) else []
  {
    if node.Some? {
      FieldsAreSubtrees(node.value.fields);
    }
  }

  /** What a visitor with the history `seen` does on a flat order: the new history, and whether
      the order was exhausted. */
  function Scan(order: seq<Option<Node>>, visit: (seq<Node>, Node) -> bool, seen: seq<Node>): (seq<Node>, bool) {
    if order == [] then (seen, true)
    else if order[0].None? then (seen, false)
    else
      var node := order[0].value;
      if visit(seen, node) then Scan(order[1..], visit, seen + [node]) else (seen + [node], false)
  }

  lemma {:induction false} ScanConcat(a: seq<Option<Node>>, b: seq<Option<Node>>,
                                      visit: (seq<Node>, Node) -> bool, seen: seq<Node>)
    ensures var (mid, more) := Scan(a, visit, seen);
            Scan(a + b, visit, seen) == if more then Scan(b, visit, mid) else (mid, false)
    decreases |a|
  {
    if a == [] {
      assert a + b == b;
    } else if a[0].Some? {
      assert (a + b)[1..] == a[1..] + b;
      ScanConcat(a[1..], b, visit, seen + [a[0].value]);
    }
  }

  /** What the walk leaves to do after the first `i` fields, or items, is the scan of the rest. */
  lemma {:induction false} FieldStep(fields: seq<Field>, i: nat, visit: (seq<Node>, Node) -> bool, seen: seq<Node>)
    requires i < |fields|
    ensures var (mid, more) := Scan(PreOrderValue(fields[i].value), visit, seen);
            Scan(PreOrderFields(fields[i..]), visit, seen) ==
            if more then Scan(PreOrderFields(fields[i + 1..]), visit, mid) else (mid, false)
  {
    assert fields[i..][1..] == fields[i + 1..];
    ScanConcat(PreOrderValue(fields[i].value), PreOrderFields(fields[i + 1..]), visit, seen);
  }

  lemma {:induction false} ItemStep(items: seq<Value>, i: nat, visit: (seq<Node>, Node) -> bool, seen: seq<Node>)
    requires i < |items|
    ensures var (mid, more) := Scan(PreOrderItem(items[i]), visit, seen);
            Scan(PreOrderItems(items[i..]), visit, seen) ==
            if more then Scan(PreOrderItems(items[i + 1..]), visit, mid) else (mid, false)
  {
    assert items[i..][1..] == items[i + 1..];
    ScanConcat(PreOrderItem(items[i]), PreOrderItems(items[i + 1..]), visit, seen);
  }

  method WalkNode(node: Option<Node>, visitor: Visitor) returns (more: bool)
    modifies visitor
    ensures (visitor.visited, more) == Scan(PreOrder(node), visitor.visit, old(visitor.visited))
    decreases node
  {
    if node.None? {
      return false;
    }
    ghost var seen := visitor.visited;
    var proceed := visitor.Visit(node.value);
    if !proceed {
      return false;
    }
    var fields := node.value.fields;
    ghost var goal := Scan(PreOrderFields(fields), visitor.visit, visitor.visited);
    assert Scan(PreOrder(node), visitor.visit, seen) == goal by {
      assert ([node] + PreOrderFields(fields))[1..] == PreOrderFields(fields);
    }
    assert fields[0..] == fields;
    for f := 0 to |fields|
      invariant Scan(PreOrderFields(fields[f..]), visitor.visit, visitor.visited) == goal
    {
      FieldStep(fields, f, visitor.visit, visitor.visited);
      match fields[f].value {
        case NodeValue(child) =>
          more := WalkNode(child, visitor);
          if !more {
            return false;
          }
        case List(items) =>
          more := WalkItems(items, visitor);
          if !more {
            return false;
          }
        case _ =>
      }
    }
    return true;
  }

  /** The inner loop of the walk, over the items of one list. */
  method WalkItems(items: seq<Value>, visitor: Visitor) returns (more: bool)
    modifies visitor
    ensures (visitor.visited, more) == Scan(PreOrderItems(items), visitor.visit, old(visitor.visited))
    decreases items
  {
    ghost var goal := Scan(PreOrderItems(items), visitor.visit, visitor.visited);
    assert items[0..] == items;
    for i := 0 to |items|
      invariant Scan(PreOrderItems(items[i..]), visitor.visit, visitor.visited) == goal
    {
      ItemStep(items, i, visitor.visit, visitor.visited);
      var item := items[i];
      assert (items decreases to item);
      match item {
        case NodeValue(child) =>
          more := WalkNode(child, visitor);
          if !more {
            return false;
          }
        case _ =>
      }
    }
    return true;
  }

  ghost predicate Agreed(visit: (seq<Node>, Node) -> bool, seen: seq<Node>, steps: seq<Node>, n: nat)
    requires n <= |steps|
  {
    forall i :: 0 <= i < n ==> visit(seen + steps[..i], steps[i])
  }

  /** `steps` is the shortest prefix of the order that ends with a refused node or just before a nil
      one: if every visit agreed it is the whole order or stops at a nil node; otherwise only the
      last visit refused. */
  ghost predicate StopsAt(order: seq<Option<Node>>, visit: (seq<Node>, Node) -> bool, seen: seq<Node>,
                          steps: seq<Node>, more: bool)
  {
    && |steps| <= |order|
    && (forall i :: 0 <= i < |steps| ==> order[i] == Some(steps[i]))
    && if Agreed(visit, seen, steps, |steps|)
       then if more then |steps| == |order| else |steps| < |order| && order[|steps|].None?
       else !more && Agreed(visit, seen, steps, |steps| - 1)
  }

  lemma {:induction false} ScanIsShortestPrefix(order: seq<Option<Node>>, visit: (seq<Node>, Node) -> bool, seen: seq<Node>)
    returns (steps: seq<Node>)
    ensures var (after, more) := Scan(order, visit, seen);
            after == seen + steps && StopsAt(order, visit, seen, steps, more)
    decreases |order|
  {
    if order == [] || order[0].None? {
      steps := [];
    } else {
      var first := order[0].value;
      if !visit(seen, first) {
        steps := [first];
        assert seen + steps[..0] == seen;
        assert !Agreed(visit, seen, steps, 1);
      } else {
        var rest := ScanIsShortestPrefix(order[1..], visit, seen + [first]);
        steps := [first] + rest;
        AppendAssociative(seen, [first], rest);
        StopsAtCons(order, visit, seen, rest, Scan(order, visit, seen).1);
      }
    }
  }

  lemma StopsAtCons(order: seq<Option<Node>>, visit: (seq<Node>, Node) -> bool, seen: seq<Node>,
                    rest: seq<Node>, more: bool)
    requires order != [] && order[0].Some? && visit(seen, order[0].value)
    requires StopsAt(order[1..], visit, seen + [order[0].value], rest, more)
    ensures StopsAt(order, visit, seen, [order[0].value] + rest, more)
  {
    var first := order[0].value;
    var steps := [first] + rest;
    forall i | 0 <= i < |steps|
      ensures order[i] == Some(steps[i])
    {
      assert i > 0 ==> order[i] == order[1..][i - 1];
    }
    AgreedShift(visit, seen, first, rest, |rest|);
    if rest != [] {
      AgreedShift(visit, seen, first, rest, |rest| - 1);
    }
    assert |rest| < |order[1..]| ==> order[1..][|rest|] == order[|steps|];
  }

  lemma AgreedShift(visit: (seq<Node>, Node) -> bool, seen: seq<Node>, first: Node, rest: seq<Node>, n: nat)
    requires visit(seen, first) && n <= |rest|
    ensures Agreed(visit, seen + [first], rest, n) == Agreed(visit, seen, [first] + rest, n + 1)
  {
    var steps := [first] + rest;
    assert seen + steps[..0] == seen;
    assert forall i :: 0 <= i < |rest| ==> (seen + [first]) + rest[..i] == seen + steps[..i + 1];
    assert forall i :: 0 < i < |steps| ==> steps[i] == rest[i - 1] && seen + steps[..i] == (seen + [first]) + rest[..i - 1];
  }

  /** There is only one such prefix and one such answer. */
  lemma ShortestPrefixIsUnique(order: seq<Option<Node>>, visit: (seq<Node>, Node) -> bool, seen: seq<Node>,
                               steps: seq<Node>, more: bool, steps': seq<Node>, more': bool)
    requires StopsAt(order, visit, seen, steps, more) && StopsAt(order, visit, seen, steps', more')
    ensures steps == steps' && more == more'
  {
    if |steps| < |steps'| {
      PrefixNotShorter(order, visit, seen, steps, more, steps', more');
    } else if |steps'| < |steps| {
      PrefixNotShorter(order, visit, seen, steps', more', steps, more);
    }
    assert forall i :: 0 <= i < |steps| ==> Some(steps[i]) == Some(steps'[i]);
    assert steps == steps';
  }

  lemma PrefixNotShorter(order: seq<Option<Node>>, visit: (seq<Node>, Node) -> bool, seen: seq<Node>,
                         steps: seq<Node>, more: bool, steps': seq<Node>, more': bool)
    requires StopsAt(order, visit, seen, steps, more) && StopsAt(order, visit, seen, steps', more')
    ensures |steps'| <= |steps|
  {
    if |steps| < |steps'| {
      assert order[|steps|] == Some(steps'[|steps|]);
      forall i | 0 <= i < |steps|
        ensures steps[..i] == steps'[..i] && steps[i] == steps'[i]
      {
        assert forall j :: 0 <= j < |steps| ==> Some(steps[j]) == Some(steps'[j]);
      }
    }
  }

  /** A visitor that always agrees sees every node, unless a nil node value ends the walk early. */
  lemma {:induction false} AgreeingWalkIsComplete(node: Node)
    ensures var (visited, more) := Scan(PreOrder(Some(node)), AlwaysAgree, []);
            && (more <==> None !in PreOrder(Some(node)))
            && (more ==> Filled(visited) == PreOrder(Some(node)))
  {
    var order := PreOrder(Some(node));
    var steps := ScanIsShortestPrefix(order, AlwaysAgree, []);
    var (visited, more) := Scan(order, AlwaysAgree, []);
    assert visited == steps;
    assert Agreed(AlwaysAgree, [], steps, |steps|);
    if more {
      assert forall i :: 0 <= i < |order| ==> order[i] == Some(steps[i]);
    }
  }

  function AlwaysAgree(seen: seq<Node>, node: Node): bool { true }

  function Filled(nodes: seq<Node>): seq<Option<Node>> {
    seq(|nodes|, i requires 0 <= i < |nodes| => Some(nodes[i]))
  }

  lemma FilledAppend(a: seq<Node>, b: seq<Node>)
    ensures Filled(a + b) == Filled(a) + Filled(b)
  {
  }
}
