/** The parser-neutral tree (internal/parser/node.go) and its typed read access
    (statement.go).  Go strings are byte strings: one `char` stands for one byte.
    A nil `*Node` is `None`. */
module Tree {
  import opened Common

  /** `Float` keeps the number as its bit pattern, which nothing here reads. */
  datatype Value =
    | Invalid
    | Bool(flag: bool)
    | Int(number: int)
    | Uint(count: nat)
    | Float(bits: nat)
    | String(text: string)
    | Bytes(bytes: seq<nat>)
    | Enum(symbol: string)
    | NodeValue(node: Option<Node>)
    | List(items: seq<Value>)

  datatype Field = Field(name: string, value: Value)

  datatype Node = Node(kind: string, fields: seq<Field>)

  /** The first field of that name decides. */
  function Lookup(fields: seq<Field>, name: string): (r: Option<Value>)
    ensures r.Some? ==> exists i :: 0 <= i < |fields| && fields[i] == Field(name, r.value)
                                    && forall j :: 0 <= j < i ==> fields[j].name != name
    ensures r.None? <==> forall i :: 0 <= i < |fields| ==> fields[i].name != name
  {
    if fields == [] then None
    else if fields[0].name == name then
      assert fields[0] == Field(name, fields[0].value);
      Some(fields[0].value)
    else
      var r := Lookup(fields[1..], name);
      assert forall i :: 0 < i < |fields| ==> fields[i] == fields[1..][i - 1];
      r
  }

  /** A child that is stored under `name` as a node; a missing field, another kind of value and a
      nil node are treated alike. */
  function NodeField(node: Node, name: string): (r: Option<Node>)
    ensures r.Some? ==> r.value < node && (node decreases to r)
  {
    match Lookup(node.fields, name)
    case Some(NodeValue(child)) => child
    case _ => None
  }

  /** `Child`: unlike NodeField it tells a stored nil node (`Some(None)`) from no node field. */
  function Child(node: Node, name: string): Option<Option<Node>> {
    match Lookup(node.fields, name)
    case Some(NodeValue(child)) => Some(child)
    case _ => None
  }

  function EnumField(node: Node, name: string): Option<string> {
    match Lookup(node.fields, name)
    case Some(Enum(symbol)) => Some(symbol)
    case _ => None
  }

  /** The node values, nil ones included, among the items of a list. */
  function NodeItems(items: seq<Value>): seq<Option<Node>> {
    if items == [] then []
    else (if items[0].NodeValue? then [items[0].node] else []) + NodeItems(items[1..])
  }

  lemma {:induction false} NodeItemsSnoc(items: seq<Value>, v: Value)
    ensures NodeItems(items + [v]) == NodeItems(items) + (if v.NodeValue? then [v.node] else [])
  {
    if items == [] {
      assert items + [v] == [v];
    } else {
      NodeItemsSnoc(items[1..], v);
      assert (items + [v])[1..] == items[1..] + [v];
    }
  }

  /** A node value's node, `Some(None)` for a stored nil one. */
  function AsNode(v: Value): Option<Option<Node>> {
    if v.NodeValue? then Some(v.node) else None
  }

  lemma {:induction false} NodeItemsInOrder(items: seq<Value>)
    ensures PickedInOrder(items, AsNode, NodeItems(items))
  {
    if items != [] {
      NodeItemsInOrder(items[1..]);
      PickedCons(items, AsNode, NodeItems(items[1..]));
    }
  }

  function ChildrenOf(node: Node, name: string): seq<Option<Node>> {
    match Lookup(node.fields, name)
    case Some(List(items)) => NodeItems(items)
    case _ => []
  }

  /** The list holds a node exactly if some item is a node value. */
  lemma {:induction false} NodeItemsExist(items: seq<Value>)
    ensures NodeItems(items) != [] <==> exists i :: 0 <= i < |items| && items[i].NodeValue?
  {
    if items != [] {
      NodeItemsExist(items[1..]);
      assert forall i :: 0 < i < |items| ==> items[i] == items[1..][i - 1];
      assert forall i :: 0 <= i < |items| - 1 ==> items[1..][i] == items[i + 1];
    }
  }

  method Children(node: Node, name: string) returns (children: seq<Option<Node>>)
    ensures children == ChildrenOf(node, name)
    ensures match Lookup(node.fields, name)
            case Some(List(items)) => PickedInOrder(items, AsNode, children)
            case _ => children == []
  {
    children := [];
    match Lookup(node.fields, name) {
      case Some(List(items)) =>
        for i := 0 to |items|
          invariant children == NodeItems(items[..i])
        {
          NodeItemsSnoc(items[..i], items[i]);
          assert items[..i + 1] == items[..i] + [items[i]];
          if items[i].NodeValue? {
            children := children + [items[i].node];
          }
        }
        assert items[..|items|] == items;
        NodeItemsInOrder(items);
      case _ =>
    }
  }
}
