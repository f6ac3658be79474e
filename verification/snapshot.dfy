/** Snapshot discipline of the accessors (internal/parser/node.go, parser.go, traversal.go) on Dafny's
    own heap: a stored tree holds its slices as arrays, each accessor copies the array it hands out,
    and callers may write whatever they like into the arrays they were handed. */
module Snapshot {
  import opened Common
  import Tree

  /** A `Value` struct; a scalar is held directly. */
  datatype Handle =
    | Scalar(value: Tree.Value)
    | BytesAt(bytes: array<nat>)
    | NodeAt(node: StoredNode?)
    | ListAt(list: array<Handle>)

  datatype StoredField = StoredField(name: string, handle: Handle)

  class StoredNode {
    const kind: string
    const fields: array<StoredField>

    constructor (kind: string, fields: array<StoredField>)
      ensures this.kind == kind && this.fields == fields
    {
      this.kind := kind;
      this.fields := fields;
    }

    /** `Fields` */
    method Fields() returns (copy: array<StoredField>)
      ensures fresh(copy) && copy[..] == fields[..]
    {
      copy := Copied(fields);
    }
  }

  class StoredResult {
    const statements: array<StoredNode?>

    constructor (statements: array<StoredNode?>)
      ensures this.statements == statements
    {
      this.statements := statements;
    }

    /** The stored arrays, all in `library`, hold these statements. */
    ghost predicate Holds(tree: seq<Option<Tree.Node>>, library: set<object>)
      reads library
    {
      && statements in library && statements.Length == |tree|
      && forall i :: 0 <= i < |tree| ==> Represents(NodeAt(statements[i]), Tree.NodeValue(tree[i]), library)
    }

    /** `Statements` */
    method Statements() returns (copy: array<StoredNode?>)
      ensures fresh(copy) && copy[..] == statements[..]
    {
      copy := Copied(statements);
    }
  }

  /** `append([]T(nil), source...)` */
  method Copied<T>(source: array<T>) returns (copy: array<T>)
    ensures fresh(copy) && copy[..] == source[..]
  {
    copy := new T[source.Length](i requires 0 <= i < source.Length reads source => source[i]);
  }

  /** `Bytes` */
  method BytesOf(h: Handle) returns (copy: array?<nat>)
    ensures copy != null <==> h.BytesAt?
    ensures copy != null ==> fresh(copy) && copy[..] == h.bytes[..]
  {
    copy := null;
    if h.BytesAt? {
      copy := Copied(h.bytes);
    }
  }

  /** `List` */
  method ListOf(h: Handle) returns (copy: array?<Handle>)
    ensures copy != null <==> h.ListAt?
    ensures copy != null ==> fresh(copy) && copy[..] == h.list[..]
  {
    copy := null;
    if h.ListAt? {
      copy := Copied(h.list);
    }
  }

  /** What is stored at a handle, in arrays of `library` only, is this value. */
  ghost predicate Represents(h: Handle, v: Tree.Value, library: set<object>)
    reads library
    decreases v
  {
    match h
    case Scalar(value) => v == value && !v.Bytes? && !v.NodeValue? && !v.List?
    case BytesAt(a) => a in library && v == Tree.Bytes(a[..])
    case ListAt(a) =>
      && a in library && v.List? && a.Length == |v.items|
      && forall i :: 0 <= i < |v.items| ==> Represents(a[i], v.items[i], library)
    case NodeAt(node) =>
      && v.NodeValue? && (node == null <==> v.node.None?)
      && (node != null ==>
            && node.fields in library && node.kind == v.node.value.kind
            && node.fields.Length == |v.node.value.fields|
            && forall i :: 0 <= i < |v.node.value.fields| ==>
                 && node.fields[i].name == v.node.value.fields[i].name
                 && Represents(node.fields[i].handle, v.node.value.fields[i].value, library))
  }

  lemma {:induction false} RepresentsInLarger(h: Handle, v: Tree.Value, library: set<object>, larger: set<object>)
    requires Represents(h, v, library) && library <= larger
    ensures Represents(h, v, larger)
    decreases v
  {
    match h
    case ListAt(a) =>
      forall i | 0 <= i < |v.items| ensures Represents(a[i], v.items[i], larger) {
        RepresentsInLarger(a[i], v.items[i], library, larger);
      }
    case NodeAt(node) =>
      if node != null {
        var fields := v.node.value.fields;
        forall i | 0 <= i < |fields| ensures Represents(node.fields[i].handle, fields[i].value, larger) {
          RepresentsInLarger(node.fields[i].handle, fields[i].value, library, larger);
        }
      }
    case _ =>
  }

  /* ----- storing and reading a tree ----- */

  /** The conversion stores every slice in an array of its own (pgquery.go). */
  method Store(v: Tree.Value) returns (h: Handle, ghost library: set<object>)
    ensures fresh(library) && Represents(h, v, library)
    decreases v, 1
  {
    match v {
      case Bytes(content) =>
        var a := new nat[|content|](i requires 0 <= i < |content| => content[i]);
        h, library := BytesAt(a), {a};
        assert a[..] == content;
      case List(items) =>
        var handles;
        handles, library := StoreAll(items, v);
        var a := new Handle[|items|](i requires 0 <= i < |handles| => handles[i]);
        forall i | 0 <= i < |items| ensures Represents(a[i], items[i], library + {a}) {
          RepresentsInLarger(handles[i], items[i], library, library + {a});
        }
        h, library := ListAt(a), library + {a};
      case NodeValue(None) =>
        h, library := NodeAt(null), {};
      case NodeValue(Some(node)) =>
        var handles;
        var values := seq(|node.fields|, i requires 0 <= i < |node.fields| => node.fields[i].value);
        assert forall i :: 0 <= i < |values| ==> values[i] == node.fields[i].value && node.fields[i].value < v;
        handles, library := StoreAll(values, v);
        var a := new StoredField[|handles|](i requires 0 <= i < |handles| => StoredField(node.fields[i].name, handles[i]));
        var stored := new StoredNode(node.kind, a);
        forall i | 0 <= i < |node.fields| ensures Represents(a[i].handle, node.fields[i].value, library + {a}) {
          RepresentsInLarger(handles[i], node.fields[i].value, library, library + {a});
        }
        h, library := NodeAt(stored), library + {a};
      case _ =>
        h, library := Scalar(v), {};
    }
  }

  method StoreAll(values: seq<Tree.Value>, ghost parent: Tree.Value) returns (handles: seq<Handle>, ghost library: set<object>)
    requires forall i :: 0 <= i < |values| ==> values[i] < parent
    ensures fresh(library) && |handles| == |values|
    ensures forall i :: 0 <= i < |values| ==> Represents(handles[i], values[i], library)
    decreases parent, 0
  {
    handles, library := [], {};
    for k := 0 to |values|
      invariant fresh(library) && |handles| == k
      invariant forall i :: 0 <= i < k ==> Represents(handles[i], values[i], library)
    {
      var h, more := Store(values[k]);
      forall i | 0 <= i < k ensures Represents(handles[i], values[i], library + more) {
        RepresentsInLarger(handles[i], values[i], library, library + more);
      }
      RepresentsInLarger(h, values[k], more, library + more);
      handles, library := handles + [h], library + more;
    }
  }

  /** The parsed statements, stored. */
  method StoreResult(tree: seq<Option<Tree.Node>>) returns (result: StoredResult, ghost library: set<object>)
    ensures fresh(library) && result.Holds(tree, library)
  {
    var handles := [];
    library := {};
    for k := 0 to |tree|
      invariant fresh(library) && |handles| == k
      invariant forall i :: 0 <= i < k ==> Represents(NodeAt(handles[i]), Tree.NodeValue(tree[i]), library)
    {
      var h, more := Store(Tree.NodeValue(tree[k]));
      forall i | 0 <= i < k ensures Represents(NodeAt(handles[i]), Tree.NodeValue(tree[i]), library + more) {
        RepresentsInLarger(NodeAt(handles[i]), Tree.NodeValue(tree[i]), library, library + more);
      }
      RepresentsInLarger(h, Tree.NodeValue(tree[k]), more, library + more);
      handles, library := handles + [h.node], library + more;
    }
    var a := new StoredNode?[|tree|](i requires 0 <= i < |handles| => handles[i]);
    forall i | 0 <= i < |tree| ensures Represents(NodeAt(a[i]), Tree.NodeValue(tree[i]), library + {a}) {
      RepresentsInLarger(NodeAt(handles[i]), Tree.NodeValue(tree[i]), library, library + {a});
    }
    result := new StoredResult(a);
    library := library + {a};
  }

  /** Reads a whole value through the accessors. */
  method ReadBack(h: Handle, ghost v: Tree.Value, ghost library: set<object>) returns (r: Tree.Value)
    requires Represents(h, v, library)
    ensures r == v
    decreases v
  {
    match h {
      case Scalar(value) =>
        r := value;
      case BytesAt(_) =>
        var copy := BytesOf(h);
        r := Tree.Bytes(copy[..]);
      case ListAt(_) =>
        var copy := ListOf(h);
        var items := [];
        for k := 0 to copy.Length
          invariant copy[..] == h.list[..] && items == v.items[..k]
        {
          assert copy[k] == copy[..][k];
          var item := ReadBack(copy[k], v.items[k], library);
          items := items + [item];
        }
        assert items == v.items;
        r := Tree.List(items);
      case NodeAt(node) =>
        if node == null {
          r := Tree.NodeValue(None);
        } else {
          var copy := node.Fields();
          var fields := [];
          for k := 0 to copy.Length
            invariant copy[..] == node.fields[..] && fields == v.node.value.fields[..k]
          {
            assert copy[k] == copy[..][k];
            var value := ReadBack(copy[k].handle, v.node.value.fields[k].value, library);
            fields := fields + [Tree.Field(copy[k].name, value)];
          }
          assert fields == v.node.value.fields;
          r := Tree.NodeValue(Some(Tree.Node(node.kind, fields)));
        }
    }
  }

  method ReadResult(result: StoredResult, ghost tree: seq<Option<Tree.Node>>, ghost library: set<object>)
    returns (r: seq<Option<Tree.Node>>)
    requires result.Holds(tree, library)
    ensures r == tree
  {
    var copy := result.Statements();
    r := [];
    for k := 0 to copy.Length
      invariant copy[..] == result.statements[..] && r == tree[..k]
    {
      assert copy[k] == copy[..][k];
      var value := ReadBack(NodeAt(copy[k]), Tree.NodeValue(tree[k]), library);
      r := r + [value.node];
    }
  }

  /* ----- callers ----- */

  /** A caller asks for a snapshot, or overwrites a place of one it was handed. */
  datatype Op =
    | TakeBytes(value: Handle)
    | TakeList(value: Handle)
    | TakeFields(node: StoredNode)
    | TakeStatements(result: StoredResult)
    | TakeSequence(nodes: seq<StoredNode?>) // Children and StatementSequence build a new slice of nodes
    | WriteByte(which: nat, place: nat, byte: nat)
    | WriteItem(which: nat, place: nat, item: Handle)
    | WriteField(which: nat, place: nat, field: StoredField)
    | WriteStatement(which: nat, place: nat, statement: StoredNode?)

  predicate IsRequest(op: Op) {
    op.TakeBytes? || op.TakeList? || op.TakeFields? || op.TakeStatements? || op.TakeSequence?
  }

  /** One more array was handed out, with this content. */
  ghost predicate HandedOut<T>(before: seq<array<T>>, after: seq<array<T>>, content: seq<T>)
    reads after
  {
    |after| == |before| + 1 && after[..|before|] == before && after[|before|][..] == content
  }

  /** Everything callers were handed. */
  class Callers {
    var buffers: seq<array<nat>>
    var lists: seq<array<Handle>>
    var fields: seq<array<StoredField>>
    var statements: seq<array<StoredNode?>>
    ghost var owned: set<object>

    ghost predicate Valid()
      reads this
    {
      && this in owned
      && (forall i :: 0 <= i < |buffers| ==> buffers[i] in owned)
      && (forall i :: 0 <= i < |lists| ==> lists[i] in owned)
      && (forall i :: 0 <= i < |fields| ==> fields[i] in owned)
      && forall i :: 0 <= i < |statements| ==> statements[i] in owned
    }

    constructor ()
      ensures Valid() && fresh(owned)
    {
      buffers, lists, fields, statements := [], [], [], [];
      owned := {this};
    }

    /** The array that a write reaches, if it was handed out. */
    ghost function Target(op: Op): object?
      reads this
    {
      match op
      case WriteByte(which, _, _) => if which < |buffers| then buffers[which] else null
      case WriteItem(which, _, _) => if which < |lists| then lists[which] else null
      case WriteField(which, _, _) => if which < |fields| then fields[which] else null
      case WriteStatement(which, _, _) => if which < |statements| then statements[which] else null
      case _ => null
    }

    /** A request hands out one new array with the stored content. */
    method Take(op: Op)
      requires Valid() && IsRequest(op)
      modifies this
      ensures Valid() && fresh(owned - old(owned))
      ensures if op.TakeBytes? && op.value.BytesAt?
              then HandedOut(old(buffers), buffers, old(op.value.bytes[..])) && fresh(buffers[|old(buffers)|]) else buffers == old(buffers)
      ensures if op.TakeList? && op.value.ListAt?
              then HandedOut(old(lists), lists, old(op.value.list[..])) && fresh(lists[|old(lists)|]) else lists == old(lists)
      ensures if op.TakeFields?
              then HandedOut(old(fields), fields, old(op.node.fields[..])) && fresh(fields[|old(fields)|]) else fields == old(fields)
      ensures if op.TakeStatements? || op.TakeSequence?
              then && HandedOut(old(statements), statements, if op.TakeSequence? then op.nodes else old(op.result.statements[..]))
                   && fresh(statements[|old(statements)|])
              else statements == old(statements)
    {
      match op {
        case TakeBytes(value) =>
          var copy := BytesOf(value);
          if copy != null {
            buffers, owned := buffers + [copy], owned + {copy};
          }
        case TakeList(value) =>
          var copy := ListOf(value);
          if copy != null {
            lists, owned := lists + [copy], owned + {copy};
          }
        case TakeFields(node) =>
          var copy := node.Fields();
          fields, owned := fields + [copy], owned + {copy};
        case TakeStatements(result) =>
          var copy := result.Statements();
          statements, owned := statements + [copy], owned + {copy};
        case TakeSequence(nodes) =>
          var slice := new StoredNode?[|nodes|](i requires 0 <= i < |nodes| => nodes[i]);
          statements, owned := statements + [slice], owned + {slice};
      }
    }

    /** A write changes one place of one array that was handed out. */
    method Overwrite(op: Op)
      requires Valid() && !IsRequest(op)
      modifies owned - {this}
      ensures Valid()
      ensures forall o :: o in old(owned) && o != this && o != old(Target(op)) ==> unchanged(o)
      ensures op.WriteByte? && op.which < |buffers| && op.place < buffers[op.which].Length ==>
                buffers[op.which][..] == old(buffers[op.which][..])[op.place := op.byte]
      ensures op.WriteItem? && op.which < |lists| && op.place < lists[op.which].Length ==>
                lists[op.which][..] == old(lists[op.which][..])[op.place := op.item]
      ensures op.WriteField? && op.which < |fields| && op.place < fields[op.which].Length ==>
                fields[op.which][..] == old(fields[op.which][..])[op.place := op.field]
      ensures op.WriteStatement? && op.which < |statements| && op.place < statements[op.which].Length ==>
                statements[op.which][..] == old(statements[op.which][..])[op.place := op.statement]
    {
      match op {
        case WriteByte(which, place, byte) =>
          if which < |buffers| && place < buffers[which].Length {
            buffers[which][place] := byte;
          }
        case WriteItem(which, place, item) =>
          if which < |lists| && place < lists[which].Length {
            lists[which][place] := item;
          }
        case WriteField(which, place, field) =>
          if which < |fields| && place < fields[which].Length {
            fields[which][place] := field;
          }
        case WriteStatement(which, place, statement) =>
          if which < |statements| && place < statements[which].Length {
            statements[which][place] := statement;
          }
      }
    }

    method Perform(op: Op)
      requires Valid()
      modifies owned
      ensures Valid() && fresh(owned - old(owned))
      ensures if op.TakeBytes? && op.value.BytesAt?
              then HandedOut(old(buffers), buffers, old(op.value.bytes[..])) && fresh(buffers[|old(buffers)|]) else buffers == old(buffers)
      ensures if op.TakeList? && op.value.ListAt?
              then HandedOut(old(lists), lists, old(op.value.list[..])) && fresh(lists[|old(lists)|]) else lists == old(lists)
      ensures if op.TakeFields?
              then HandedOut(old(fields), fields, old(op.node.fields[..])) && fresh(fields[|old(fields)|]) else fields == old(fields)
      ensures if op.TakeStatements? || op.TakeSequence?
              then && HandedOut(old(statements), statements, if op.TakeSequence? then op.nodes else old(op.result.statements[..]))
                   && fresh(statements[|old(statements)|])
              else statements == old(statements)
      ensures forall o :: o in old(owned) && o != this && o != old(Target(op)) ==> unchanged(o)
      ensures op.WriteByte? && op.which < |buffers| && op.place < buffers[op.which].Length ==>
                buffers[op.which][..] == old(buffers[op.which][..])[op.place := op.byte]
      ensures op.WriteItem? && op.which < |lists| && op.place < lists[op.which].Length ==>
                lists[op.which][..] == old(lists[op.which][..])[op.place := op.item]
      ensures op.WriteField? && op.which < |fields| && op.place < fields[op.which].Length ==>
                fields[op.which][..] == old(fields[op.which][..])[op.place := op.field]
      ensures op.WriteStatement? && op.which < |statements| && op.place < statements[op.which].Length ==>
                statements[op.which][..] == old(statements[op.which][..])[op.place := op.statement]
    {
      if IsRequest(op) {
        Take(op);
      } else {
        Overwrite(op);
      }
    }

    method PerformAll(ops: seq<Op>)
      requires Valid()
      modifies owned
      ensures Valid() && fresh(owned - old(owned))
    {
      for k := 0 to |ops|
        invariant Valid() && fresh(owned - old(owned))
      {
        Perform(ops[k]);
      }
    }
  }

  /** No accessor calls and caller writes change what a later read of the stored statements finds. */
  method ReadsAreIsolated(result: StoredResult, callers: Callers, ops: seq<Op>, ghost tree: seq<Option<Tree.Node>>, ghost library: set<object>)
    returns (before: seq<Option<Tree.Node>>, after: seq<Option<Tree.Node>>)
    requires result.Holds(tree, library) && callers.Valid() && callers.owned !! library
    modifies callers.owned
    ensures before == tree && after == tree
    ensures result.Holds(tree, library) && callers.Valid() && callers.owned !! library
  {
    before := ReadResult(result, tree, library);
    callers.PerformAll(ops);
    after := ReadResult(result, tree, library);
  }

  /** From a fresh parse: after any accessor calls and writes, on any handles there are by then, reading
      gives the parse. */
  method ParseIsIsolated(tree: seq<Option<Tree.Node>>) returns (read: seq<Option<Tree.Node>>)
    ensures read == tree
  {
    var result, library := StoreResult(tree);
    var callers := new Callers();
    var ops: seq<Op> := *;
    var before;
    before, read := ReadsAreIsolated(result, callers, ops, tree, library);
  }

  /* ----- handing out a stored array instead ----- */

  /** What is found below a handle by positions in lists and nodes, through arrays of `spine`. */
  ghost function HandleAt(h: Handle, path: seq<nat>, spine: set<object>): Option<Handle>
    reads spine
    decreases |path|
  {
    if path == [] then Some(h)
    else
      match h
      case ListAt(a) =>
        if a in spine && path[0] < a.Length then HandleAt(a[path[0]], path[1..], spine) else None
      case NodeAt(node) =>
        if node != null && node.fields in spine && path[0] < node.fields.Length
        then HandleAt(node.fields[path[0]].handle, path[1..], spine) else None
      case _ => None
  }

  function ValueAt(v: Tree.Value, path: seq<nat>): Option<Tree.Value>
    decreases |path|
  {
    if path == [] then Some(v)
    else
      match v
      case List(items) =>
        if path[0] < |items| then ValueAt(items[path[0]], path[1..]) else None
      case NodeValue(Some(node)) =>
        if path[0] < |node.fields| then ValueAt(node.fields[path[0]].value, path[1..]) else None
      case _ => None
  }

  lemma {:induction false} RepresentsAt(h: Handle, v: Tree.Value, library: set<object>, path: seq<nat>, spine: set<object>)
    requires Represents(h, v, library) && HandleAt(h, path, spine).Some?
    ensures ValueAt(v, path).Some? && Represents(HandleAt(h, path, spine).value, ValueAt(v, path).value, library)
    decreases |path|
  {
    if path != [] {
      match h
      case ListAt(a) => RepresentsAt(a[path[0]], v.items[path[0]], library, path[1..], spine);
      case NodeAt(node) =>
        RepresentsAt(node.fields[path[0]].handle, v.node.value.fields[path[0]].value, library, path[1..], spine);
    }
  }

  /** With a byte array from anywhere in the stored statements handed out itself, any change a caller
      makes there changes the statements. */
  method SharingWouldLeak(result: StoredResult, ghost tree: seq<Option<Tree.Node>>, ghost library: set<object>,
                          ghost which: nat, ghost path: seq<nat>, stored: array<nat>, place: nat, byte: nat)
    requires result.Holds(tree, library) && which < |tree|
    requires HandleAt(NodeAt(result.statements[which]), path, library - {stored}) == Some(BytesAt(stored))
    requires place < stored.Length && byte != stored[place]
    modifies stored
    ensures !result.Holds(tree, library)
  {
    ghost var h, v, spine := NodeAt(result.statements[which]), Tree.NodeValue(tree[which]), library - {stored};
    ghost var was := stored[..];
    RepresentsAt(h, v, library, path, spine);
    stored[place] := byte;
    assert stored[..][place] != was[place];
    assert HandleAt(h, path, spine) == Some(BytesAt(stored));
    if result.Holds(tree, library) {
      assert Represents(h, v, library);
      RepresentsAt(h, v, library, path, spine);
    }
  }
}
