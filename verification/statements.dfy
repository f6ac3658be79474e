/** Flattening of parsed statements and their CTE statements (internal/parser/traversal.go). */
module Statements {
  import opened Common
  import opened Tree
  import Walk

  /** The statement that one entry of a CTE list contributes, if any. */
  function CteStatement(entry: Value): (r: Option<Node>)
    ensures entry.NodeValue? && entry.node.Some? && r.Some? ==> r.value < entry.node.value && (entry decreases to r)
  {
    match entry
    case NodeValue(Some(cte)) => NodeField(cte, "ctequery")
    case _ => None
  }

  function EntryStatements(entries: seq<Value>): seq<Option<Node>> {
    seq(|entries|, i requires 0 <= i < |entries| => CteStatement(entries[i]))
  }

  /** One branch for each entry of the statement's CTE list, in declaration order. */
  function Branches(statement: Node): (r: seq<Option<Node>>)
    ensures forall i :: 0 <= i < |r| && r[i].Some? ==> r[i].value < statement
  {
    match NodeField(statement, "with_clause")
    case None => []
    case Some(clause) =>
      match Lookup(clause.fields, "ctes")
      case Some(List(entries)) =>
        var r := EntryStatements(entries);
        assert forall i :: 0 <= i < |r| && r[i].Some? ==> r[i].value < statement by {
          forall i | 0 <= i < |r| && r[i].Some?
            ensures r[i].value < statement
          {
            assert entries[i].node.value < clause;
          }
        }
        r
      case _ => []
  }

  /** The statements reached from `statement`: itself, then those of its branches, depth first. */
  function Flatten(statement: Node): seq<Node>
    decreases statement
  {
    var branches := Branches(statement);
    [statement] + Concat(seq(|branches|, i requires 0 <= i < |branches| =>
                               if branches[i].Some? then Flatten(branches[i].value) else []))
  }

  function FlattenRoot(root: Option<Node>): seq<Node> {
    if root.Some? then Flatten(root.value) else []
  }

  function FlattenRoots(roots: seq<Option<Node>>): seq<seq<Node>> {
    Map(FlattenRoot, roots)
  }

  /** All statements reached from the top-level ones. */
  function FlattenAll(roots: seq<Option<Node>>): seq<Node> {
    Concat(FlattenRoots(roots))
  }

  lemma {:induction false} FlattenUnfold(statement: Node)
    ensures Flatten(statement) == [statement] + FlattenAll(Branches(statement))
  {
    var branches := Branches(statement);
    assert seq(|branches|, i requires 0 <= i < |branches| =>
                 if branches[i].Some? then Flatten(branches[i].value) else []) == FlattenRoots(branches);
  }

  lemma FlattenAllConcat(a: seq<Option<Node>>, b: seq<Option<Node>>)
    ensures FlattenAll(a + b) == FlattenAll(a) + FlattenAll(b)
  {
    MapConcat(FlattenRoot, a, b);
    ConcatAppend(FlattenRoots(a), FlattenRoots(b));
  }

  lemma FlattenAllOne(root: Option<Node>)
    ensures FlattenAll([root]) == FlattenRoot(root)
  {
    var one := FlattenRoot(root);
    assert Map(FlattenRoot, [root]) == [one];
    assert Concat([one]) == one + Concat([]);
  }

  lemma FlattenAllStep(roots: seq<Option<Node>>, i: nat)
    requires i < |roots|
    ensures FlattenAll(roots[..i + 1]) == FlattenAll(roots[..i]) + FlattenRoot(roots[i])
  {
    assert roots[..i + 1] == roots[..i] + [roots[i]];
    FlattenAllConcat(roots[..i], [roots[i]]);
    FlattenAllOne(roots[i]);
  }

  /* ----- the accumulating traversal computes it ----- */

  method StatementSequence(result: Option<seq<Option<Node>>>) returns (sequence: seq<Node>)
    ensures sequence == if result.Some? then FlattenAll(result.value) else []
  {
    sequence := [];
    if result.Some? {
      var roots := result.value;
      for i := 0 to |roots|
        invariant sequence == FlattenAll(roots[..i])
      {
        FlattenAllStep(roots, i);
        sequence := AppendStatement(sequence, roots[i]);
      }
      assert roots[..|roots|] == roots;
    }
  }

  method AppendStatement(sequence: seq<Node>, statement: Option<Node>) returns (r: seq<Node>)
    ensures r == sequence + FlattenRoot(statement)
    decreases statement.Some?, statement
  {
    if statement.None? {
      return sequence;
    }
    var root := statement.value;
    r := sequence + [root];
    FlattenUnfold(root);
    AppendAssociative(sequence, [root], FlattenAll(Branches(root)));
    assert FlattenAll([]) == [];
    var withClause := NodeField(root, "with_clause");
    if withClause.None? {
      return;
    }
    match Lookup(withClause.value.fields, "ctes") {
      case Some(List(entries)) =>
        assert Branches(root) == EntryStatements(entries);
        r := AppendEntries(r, entries);
      case _ =>
        assert Branches(root) == [];
    }
  }

  /** The loop of the traversal over one CTE list. */
  method AppendEntries(sequence: seq<Node>, entries: seq<Value>) returns (r: seq<Node>)
    ensures r == sequence + FlattenAll(EntryStatements(entries))
    decreases true, entries
  {
    ghost var statements := EntryStatements(entries);
    r := sequence;
    for i := 0 to |entries|
      invariant r == sequence + FlattenAll(statements[..i])
    {
      var entry := entries[i];
      assert (entries decreases to entry);
      ghost var before := r;
      if entry.NodeValue? {
        var query := if entry.node.Some? then NodeField(entry.node.value, "ctequery") else None;
        r := AppendStatement(r, query);
      }
      assert r == before + FlattenRoot(statements[i]);
      FlattenAllStep(statements, i);
      AppendAssociative(sequence, FlattenAll(statements[..i]), FlattenRoot(statements[i]));
    }
    assert statements[..|entries|] == statements;
  }

  /* ----- occurrences are the paths ----- */

  /** The statement reached from `statement` by CTE indices. */
  function Descend(statement: Node, path: seq<nat>): Option<Node>
    decreases |path|, 1
  {
    if path == [] then Some(statement) else At(Branches(statement), path)
  }

  /** The statement at the end of a path: a top-level index, then CTE indices. */
  function At(roots: seq<Option<Node>>, path: seq<nat>): Option<Node>
    decreases |path|, 0
  {
    if path != [] && path[0] < |roots| && roots[path[0]].Some?
    then Descend(roots[path[0]].value, path[1..])
    else None
  }

  function Prefixed(k: nat, paths: seq<seq<nat>>): seq<seq<nat>> {
    seq(|paths|, i requires 0 <= i < |paths| => [k] + paths[i])
  }

  /** The continuations of the path to `statement` that lead to a statement, in visiting order. */
  function Paths(statement: Node): seq<seq<nat>>
    decreases statement
  {
    var branches := Branches(statement);
    [[]] + Concat(seq(|branches|, i requires 0 <= i < |branches| =>
                        if branches[i].Some? then Prefixed(i, Paths(branches[i].value)) else []))
  }

  function RootPaths(roots: seq<Option<Node>>, i: nat): seq<seq<nat>>
    requires i < |roots|
  {
    if roots[i].Some? then Prefixed(i, Paths(roots[i].value)) else []
  }

  function AllRootPaths(roots: seq<Option<Node>>): seq<seq<seq<nat>>> {
    seq(|roots|, i requires 0 <= i < |roots| => RootPaths(roots, i))
  }

  function AllPaths(roots: seq<Option<Node>>): seq<seq<nat>> {
    Concat(AllRootPaths(roots))
  }

  lemma {:induction false} PathsUnfold(statement: Node)
    ensures Paths(statement) == [[]] + AllPaths(Branches(statement))
  {
    var branches := Branches(statement);
    assert seq(|branches|, i requires 0 <= i < |branches| =>
                 if branches[i].Some? then Prefixed(i, Paths(branches[i].value)) else []) == AllRootPaths(branches);
  }

  /** Lexicographic order: a proper prefix comes first. */
  predicate Less(p: seq<nat>, q: seq<nat>) {
    q != [] && (p == [] || p[0] < q[0] || (p[0] == q[0] && Less(p[1..], q[1..])))
  }

  ghost predicate Ascending(paths: seq<seq<nat>>) {
    forall i, j :: 0 <= i < j < |paths| ==> Less(paths[i], paths[j])
  }

  /** The sequence lists exactly the paths that lead to a statement, each once, in lexicographic
      order, with the statement found at the end of each. */
  ghost predicate Enumerates(roots: seq<Option<Node>>, paths: seq<seq<nat>>, sequence: seq<Node>) {
    && |paths| == |sequence|
    && Ascending(paths)
    && (forall path :: path in paths <==> At(roots, path).Some?)
    && forall i :: 0 <= i < |paths| ==> At(roots, paths[i]) == Some(sequence[i])
  }

  lemma SequenceEnumeratesPaths(roots: seq<Option<Node>>)
    ensures Enumerates(roots, AllPaths(roots), FlattenAll(roots))
  {
    forall i | 0 <= i < |roots| && roots[i].Some?
      ensures EnumeratesBelow(roots[i].value)
    {
      StatementEnumerates(roots[i].value);
    }
    ForestEnumerates(roots);
  }

  /** The same for the paths that start below one statement, the empty one first. */
  ghost predicate EnumeratesBelow(statement: Node) {
    ListsBelow(statement, Paths(statement), Flatten(statement))
  }

  ghost predicate ListsBelow(statement: Node, paths: seq<seq<nat>>, sequence: seq<Node>) {
    && |paths| == |sequence|
    && Ascending(paths)
    && (forall path :: path in paths <==> Descend(statement, path).Some?)
    && forall i :: 0 <= i < |paths| ==> Descend(statement, paths[i]) == Some(sequence[i])
  }

  lemma {:induction false} StatementEnumerates(statement: Node)
    ensures EnumeratesBelow(statement)
    decreases statement
  {
    var branches := Branches(statement);
    forall i | 0 <= i < |branches| && branches[i].Some?
      ensures EnumeratesBelow(branches[i].value)
    {
      StatementEnumerates(branches[i].value);
    }
    ForestEnumerates(branches);
    BranchesEnumerated(statement);
  }

  lemma BranchesEnumerated(statement: Node)
    requires Enumerates(Branches(statement), AllPaths(Branches(statement)), FlattenAll(Branches(statement)))
    ensures EnumeratesBelow(statement)
  {
    EmptyPathFirst(statement, AllPaths(Branches(statement)), FlattenAll(Branches(statement)));
    PathsUnfold(statement);
    FlattenUnfold(statement);
  }

  lemma EmptyPathFirst(statement: Node, below: seq<seq<nat>>, found: seq<Node>)
    requires Enumerates(Branches(statement), below, found)
    ensures ListsBelow(statement, [[]] + below, [statement] + found)
  {
    var paths, sequence := [[]] + below, [statement] + found;
    assert forall i :: 0 < i < |paths| ==> paths[i] == below[i - 1] && sequence[i] == found[i - 1];
    forall i | 0 < i < |paths|
      ensures paths[i] != [] && Descend(statement, paths[i]) == Some(sequence[i])
    {
      assert At(Branches(statement), below[i - 1]) == Some(found[i - 1]);
    }
    forall i, j | 0 <= i < j < |paths|
      ensures Less(paths[i], paths[j])
    {
      if i > 0 {
        assert Less(below[i - 1], below[j - 1]);
      }
    }
    forall path
      ensures path in paths <==> Descend(statement, path).Some?
    {
      assert path in paths <==> path == [] || path in below;
    }
  }

  /** Those among the first `n` roots. */
  ghost predicate EnumeratesFirst(roots: seq<Option<Node>>, n: nat, paths: seq<seq<nat>>, sequence: seq<Node>) {
    && |paths| == |sequence|
    && Ascending(paths)
    && (forall path :: path in paths <==> path != [] && path[0] < n && At(roots, path).Some?)
    && forall i :: 0 <= i < |paths| ==> At(roots, paths[i]) == Some(sequence[i])
  }

  lemma ForestEnumerates(roots: seq<Option<Node>>)
    requires forall i :: 0 <= i < |roots| && roots[i].Some? ==> EnumeratesBelow(roots[i].value)
    ensures Enumerates(roots, AllPaths(roots), FlattenAll(roots))
  {
    FirstEnumerated(roots, |roots|);
    assert AllRootPaths(roots)[..|roots|] == AllRootPaths(roots);
    assert FlattenRoots(roots)[..|roots|] == FlattenRoots(roots);
  }

  lemma {:induction false} FirstEnumerated(roots: seq<Option<Node>>, n: nat)
    requires n <= |roots|
    requires forall i :: 0 <= i < n && roots[i].Some? ==> EnumeratesBelow(roots[i].value)
    ensures EnumeratesFirst(roots, n, Concat(AllRootPaths(roots)[..n]), Concat(FlattenRoots(roots)[..n]))
  {
    if n > 0 {
      var k := n - 1;
      FirstEnumerated(roots, k);
      var paths, sequence := Concat(AllRootPaths(roots)[..k]), Concat(FlattenRoots(roots)[..k]);
      ConcatTake(AllRootPaths(roots), k);
      ConcatTake(FlattenRoots(roots), k);
      if roots[k].Some? {
        NextEnumerated(roots, k, paths, sequence);
      }
    }
  }

  lemma NextEnumerated(roots: seq<Option<Node>>, k: nat, paths: seq<seq<nat>>, sequence: seq<Node>)
    requires k < |roots| && roots[k].Some? && EnumeratesBelow(roots[k].value)
    requires EnumeratesFirst(roots, k, paths, sequence)
    ensures EnumeratesFirst(roots, k + 1, paths + Prefixed(k, Paths(roots[k].value)), sequence + Flatten(roots[k].value))
  {
    var below, added := Paths(roots[k].value), Prefixed(k, Paths(roots[k].value));
    FirstIndices(roots, k, paths, sequence);
    NextMembers(roots, k, below);
    assert below == seq(|added|, i requires 0 <= i < |added| => if added[i] == [] then [] else added[i][1..]);
    AscendingConcat(paths, added, k);
    NextValues(roots, k, paths, sequence, below, Flatten(roots[k].value));
  }

  lemma {:induction false} NextValues(roots: seq<Option<Node>>, k: nat, paths: seq<seq<nat>>, sequence: seq<Node>,
                                      below: seq<seq<nat>>, found: seq<Node>)
    requires k < |roots| && roots[k].Some? && |paths| == |sequence| && |below| == |found|
    requires forall i :: 0 <= i < |paths| ==> At(roots, paths[i]) == Some(sequence[i])
    requires forall i :: 0 <= i < |below| ==> Descend(roots[k].value, below[i]) == Some(found[i])
    ensures forall i :: 0 <= i < |paths + Prefixed(k, below)| ==>
                          At(roots, (paths + Prefixed(k, below))[i]) == Some((sequence + found)[i])
  {
    var added := Prefixed(k, below);
    forall i | 0 <= i < |paths + added|
      ensures At(roots, (paths + added)[i]) == Some((sequence + found)[i])
    {
      if i < |paths| {
        assert (paths + added)[i] == paths[i] && (sequence + found)[i] == sequence[i];
      } else {
        var j := i - |paths|;
        assert (paths + added)[i] == [k] + below[j] && (sequence + found)[i] == found[j];
        assert ([k] + below[j])[1..] == below[j];
      }
    }
  }

  lemma FirstIndices(roots: seq<Option<Node>>, k: nat, paths: seq<seq<nat>>, sequence: seq<Node>)
    requires EnumeratesFirst(roots, k, paths, sequence)
    ensures forall i :: 0 <= i < |paths| ==> paths[i] != [] && paths[i][0] < k
  {
    forall i | 0 <= i < |paths|
      ensures paths[i] != [] && paths[i][0] < k
    {
      assert paths[i] in paths;
    }
  }

  lemma {:induction false} NextMembers(roots: seq<Option<Node>>, k: nat, below: seq<seq<nat>>)
    requires k < |roots| && roots[k].Some?
    requires forall path :: path in below <==> Descend(roots[k].value, path).Some?
    ensures forall path :: path in Prefixed(k, below) <==> path != [] && path[0] == k && At(roots, path).Some?
  {
    var added := Prefixed(k, below);
    forall path
      ensures path in added <==> path != [] && path[0] == k && At(roots, path).Some?
    {
      if path in added {
        var i :| 0 <= i < |added| && added[i] == path;
        assert path[1..] == below[i];
      }
      if path != [] && path[0] == k && path[1..] in below {
        var i :| 0 <= i < |below| && below[i] == path[1..];
        assert added[i] == path;
      }
    }
  }

  lemma AscendingConcat(a: seq<seq<nat>>, b: seq<seq<nat>>, k: nat)
    requires Ascending(a) && forall i :: 0 <= i < |a| ==> a[i] != [] && a[i][0] < k
    requires Ascending(seq(|b|, i requires 0 <= i < |b| => if b[i] == [] then [] else b[i][1..]))
    requires forall i :: 0 <= i < |b| ==> b[i] != [] && b[i][0] == k
    ensures Ascending(a + b)
  {
    var tails := seq(|b|, i requires 0 <= i < |b| => if b[i] == [] then [] else b[i][1..]);
    forall i, j | 0 <= i < j < |a + b|
      ensures Less((a + b)[i], (a + b)[j])
    {
      if |a| <= i {
        assert Less(tails[i - |a|], tails[j - |a|]);
      }
    }
  }

  /** So a sequence with those four properties can only be this one. */
  lemma EnumerationIsUnique(roots: seq<Option<Node>>, paths: seq<seq<nat>>, sequence: seq<Node>)
    requires Enumerates(roots, paths, sequence)
    ensures sequence == FlattenAll(roots)
  {
    SequenceEnumeratesPaths(roots);
    AscendingIsUnique(paths, AllPaths(roots));
    assert forall i :: 0 <= i < |sequence| ==> Some(sequence[i]) == Some(FlattenAll(roots)[i]);
  }

  lemma {:induction false} LessIrreflexive(p: seq<nat>)
    ensures !Less(p, p)
  {
    if p != [] {
      LessIrreflexive(p[1..]);
    }
  }

  lemma {:induction false} LessTransitive(p: seq<nat>, q: seq<nat>, r: seq<nat>)
    requires Less(p, q) && Less(q, r)
    ensures Less(p, r)
    decreases |p|
  {
    if p != [] && p[0] == q[0] && q[0] == r[0] {
      LessTransitive(p[1..], q[1..], r[1..]);
    }
  }

  lemma {:induction false} AscendingIsUnique(a: seq<seq<nat>>, b: seq<seq<nat>>)
    requires Ascending(a) && Ascending(b)
    requires forall p :: p in a <==> p in b
    ensures a == b
  {
    assert a != [] ==> a[0] in b;
    assert b != [] ==> b[0] in a;
    if a != [] && b != [] {
      LeastIsFirst(a, b[0]);
      LeastIsFirst(b, a[0]);
      if a[0] != b[0] {
        LessTransitive(a[0], b[0], a[0]);
        LessIrreflexive(a[0]);
      }
      AscendingTail(a);
      AscendingTail(b);
      AscendingIsUnique(a[1..], b[1..]);
      assert a == [a[0]] + a[1..] && b == [b[0]] + b[1..];
    }
  }

  lemma AscendingTail(a: seq<seq<nat>>)
    requires a != [] && Ascending(a)
    ensures Ascending(a[1..])
    ensures forall p :: p in a[1..] <==> p in a && p != a[0]
  {
    forall i, j | 0 <= i < j < |a[1..]|
      ensures Less(a[1..][i], a[1..][j])
    {
      assert Less(a[i + 1], a[j + 1]);
    }
    forall p
      ensures p in a[1..] <==> p in a && p != a[0]
    {
      LessIrreflexive(p);
      assert p in a <==> p == a[0] || p in a[1..];
      assert p in a[1..] ==> Less(a[0], p);
    }
  }

  lemma {:induction false} LeastIsFirst(a: seq<seq<nat>>, p: seq<nat>)
    requires a != [] && Ascending(a) && p in a
    ensures a[0] == p || Less(a[0], p)
  {
  }

  /* ----- agreement with the walk ----- */

  /** The flattened statements of a root are among the walked nodes, in the same order. */
  lemma {:induction false} FlattenIsWalked(statement: Node)
    ensures Sub(Walk.Filled(Flatten(statement)), Walk.PreOrder(Some(statement)))
    decreases statement
  {
    var branches := Branches(statement);
    forall i | 0 <= i < |branches| && branches[i].Some?
      ensures Sub(Walk.Filled(FlattenRoot(branches[i])), Walk.PreOrder(branches[i]))
    {
      FlattenIsWalked(branches[i].value);
    }
    BranchesAreWalked(statement);
    var below := Walk.Filled(FlattenAll(branches));
    SubSelf([Some(statement)]);
    SubConcat([Some(statement)], [Some(statement)], below, Walk.PreOrderFields(statement.fields));
    FlattenUnfold(statement);
    Walk.FilledAppend([statement], FlattenAll(branches));
    assert Walk.Filled([statement]) == [Some(statement)];
  }

  lemma BranchesAreWalked(statement: Node)
    requires forall i :: 0 <= i < |Branches(statement)| && Branches(statement)[i].Some? ==>
                           Sub(Walk.Filled(FlattenRoot(Branches(statement)[i])), Walk.PreOrder(Branches(statement)[i]))
    ensures Sub(Walk.Filled(FlattenAll(Branches(statement))), Walk.PreOrderFields(statement.fields))
  {
    var branches := Branches(statement);
    var below := Walk.Filled(FlattenAll(branches));
    match NodeField(statement, "with_clause") {
      case None =>
        assert below == [];
      case Some(clause) =>
        match Lookup(clause.fields, "ctes") {
          case Some(List(entries)) =>
            forall i | 0 <= i < |entries|
              ensures Sub(Walk.Filled(FlattenRoot(branches[i])), Walk.PreOrderItem(entries[i]))
            {
              assert branches[i] == CteStatement(entries[i]);
              EntryIsWalked(entries[i]);
            }
            EntriesAreWalked(entries, branches);
            FieldIsWalked(clause.fields, "ctes");
            SubTransitive(below, Walk.PreOrderItems(entries), Walk.PreOrderFields(clause.fields));
            SubDropFirst(below, Walk.PreOrderFields(clause.fields), Some(clause));
            FieldIsWalked(statement.fields, "with_clause");
            SubTransitive(below, Walk.PreOrder(Some(clause)), Walk.PreOrderFields(statement.fields));
          case _ =>
            assert below == [];
        }
    }
  }

  lemma {:induction false} EntryIsWalked(entry: Value)
    requires CteStatement(entry).Some? ==>
               Sub(Walk.Filled(FlattenRoot(CteStatement(entry))), Walk.PreOrder(CteStatement(entry)))
    ensures Sub(Walk.Filled(FlattenRoot(CteStatement(entry))), Walk.PreOrderItem(entry))
  {
    var query := CteStatement(entry);
    if query.Some? {
      var cte := entry.node.value;
      var below := Walk.Filled(FlattenRoot(query));
      FieldIsWalked(cte.fields, "ctequery");
      SubTransitive(below, Walk.PreOrder(query), Walk.PreOrderFields(cte.fields));
      SubDropFirst(below, Walk.PreOrderFields(cte.fields), Some(cte));
    }
  }

  lemma {:induction false} FieldIsWalked(fields: seq<Field>, name: string)
    requires Lookup(fields, name).Some?
    ensures Sub(Walk.PreOrderValue(Lookup(fields, name).value), Walk.PreOrderFields(fields))
  {
    var first, rest := Walk.PreOrderValue(fields[0].value), Walk.PreOrderFields(fields[1..]);
    var found := Walk.PreOrderValue(Lookup(fields, name).value);
    if fields[0].name == name {
      SubSelf(first);
      SubConcat(first, first, [], rest);
      assert found + [] == found;
    } else {
      FieldIsWalked(fields[1..], name);
      SubConcat([], first, found, rest);
      assert [] + found == found;
    }
  }

  lemma {:induction false} EntriesAreWalked(entries: seq<Value>, branches: seq<Option<Node>>)
    requires |branches| == |entries|
    requires forall i :: 0 <= i < |entries| ==>
                           Sub(Walk.Filled(FlattenRoot(branches[i])), Walk.PreOrderItem(entries[i]))
    ensures Sub(Walk.Filled(FlattenAll(branches)), Walk.PreOrderItems(entries))
  {
    var filled := seq(|branches|, i requires 0 <= i < |branches| => Walk.Filled(FlattenRoot(branches[i])));
    var orders := seq(|entries|, i requires 0 <= i < |entries| => Walk.PreOrderItem(entries[i]));
    SubConcatAll(filled, orders);
    FilledConcat(FlattenRoots(branches), filled);
    ItemsConcat(entries, orders);
  }

  lemma {:induction false} FilledConcat(parts: seq<seq<Node>>, filled: seq<seq<Option<Node>>>)
    requires |filled| == |parts| && forall i :: 0 <= i < |parts| ==> filled[i] == Walk.Filled(parts[i])
    ensures Walk.Filled(Concat(parts)) == Concat(filled)
  {
    if parts != [] {
      FilledConcat(parts[1..], filled[1..]);
    }
  }

  lemma {:induction false} ItemsConcat(items: seq<Value>, orders: seq<seq<Option<Node>>>)
    requires |orders| == |items| && forall i :: 0 <= i < |items| ==> orders[i] == Walk.PreOrderItem(items[i])
    ensures Walk.PreOrderItems(items) == Concat(orders)
  {
    if items != [] {
      ItemsConcat(items[1..], orders[1..]);
    }
  }

  /** On a tree without nil node values, a walk whose visitor always agrees visits every flattened
      statement, in the flattened order. */
  lemma {:induction false} WalkCoversFlatten(statement: Node)
    requires None !in Walk.PreOrder(Some(statement))
    ensures Sub(Flatten(statement), Walk.Scan(Walk.PreOrder(Some(statement)), Walk.AlwaysAgree, []).0)
  {
    FlattenIsWalked(statement);
    Walk.AgreeingWalkIsComplete(statement);
    SubUnfill(Flatten(statement), Walk.Scan(Walk.PreOrder(Some(statement)), Walk.AlwaysAgree, []).0);
  }

  lemma {:induction false} SubUnfill(a: seq<Node>, b: seq<Node>)
    requires Sub(Walk.Filled(a), Walk.Filled(b))
    ensures Sub(a, b)
    decreases |b|
  {
    if a != [] {
      assert Walk.Filled(a)[1..] == Walk.Filled(a[1..]) && Walk.Filled(b)[1..] == Walk.Filled(b[1..]);
      if Walk.Filled(a)[0] == Walk.Filled(b)[0] && Sub(Walk.Filled(a)[1..], Walk.Filled(b)[1..]) {
        SubUnfill(a[1..], b[1..]);
      } else {
        SubUnfill(a, b[1..]);
      }
    }
  }

  /* ----- which CTE statements are covered ----- */

  /** The number of CTE statements that a node's own WITH clause declares. */
  function Declared(node: Option<Node>): nat {
    if node.Some? then CountSome(Branches(node.value)) else 0
  }

  function CountSome(branches: seq<Option<Node>>): nat {
    if branches == [] then 0 else (if branches[0].Some? then 1 else 0) + CountSome(branches[1..])
  }

  /** The number of CTE statements that some nodes declare. */
  function Declarations(nodes: seq<Option<Node>>): nat {
    if nodes == [] then 0 else Declared(nodes[0]) + Declarations(nodes[1..])
  }

  /** No node declares a CTE statement. */
  predicate Quiet(nodes: seq<Option<Node>>) {
    forall i :: 0 <= i < |nodes| ==> Declared(nodes[i]) == 0
  }

  /** The fields without the first one of that name. */
  function Others(fields: seq<Field>, name: string): seq<Field> {
    if fields == [] then []
    else if fields[0].name == name then fields[1..]
    else [fields[0]] + Others(fields[1..], name)
  }

  /** WITH clauses that declare statements occur nowhere at or below a statement, except as its own
      clause and as those of the statements that clause declares, in the same way. */
  predicate Tidy(statement: Node)
    decreases statement
  {
    match NodeField(statement, "with_clause")
    case None => Quiet(Walk.PreOrderFields(statement.fields))
    case Some(clause) => Quiet(Walk.PreOrderFields(Others(statement.fields, "with_clause"))) && TidyClause(clause)
  }

  predicate TidyClause(clause: Node)
    decreases clause
  {
    && Declared(Some(clause)) == 0
    && match Lookup(clause.fields, "ctes")
       case Some(List(entries)) => Quiet(Walk.PreOrderFields(Others(clause.fields, "ctes"))) && TidyEntries(entries)
       case _ => Quiet(Walk.PreOrderFields(clause.fields))
  }

  predicate TidyEntries(entries: seq<Value>)
    decreases entries
  {
    entries == [] || (TidyEntry(entries[0]) && TidyEntries(entries[1..]))
  }

  predicate TidyEntry(entry: Value)
    decreases entry
  {
    match entry
    case NodeValue(Some(cte)) =>
      && Declared(Some(cte)) == 0
      && (match NodeField(cte, "ctequery")
          case None => Quiet(Walk.PreOrderFields(cte.fields))
          case Some(query) => Quiet(Walk.PreOrderFields(Others(cte.fields, "ctequery"))) && Tidy(query))
    case _ => true
  }

  lemma {:induction false} DeclarationsConcat(a: seq<Option<Node>>, b: seq<Option<Node>>)
    ensures Declarations(a + b) == Declarations(a) + Declarations(b)
  {
    if a == [] {
      assert a + b == b;
    } else {
      DeclarationsConcat(a[1..], b);
      assert (a + b)[1..] == a[1..] + b;
    }
  }

  lemma {:induction false} NoDeclarations(nodes: seq<Option<Node>>)
    ensures Declarations(nodes) == 0 <==> Quiet(nodes)
  {
    if nodes != [] {
      NoDeclarations(nodes[1..]);
      assert forall i :: 0 < i < |nodes| ==> nodes[i] == nodes[1..][i - 1];
      assert forall i :: 0 <= i < |nodes| - 1 ==> nodes[1..][i] == nodes[i + 1];
    }
  }

  lemma {:induction false} DeclarationsOfNode(node: Node)
    ensures Declarations(Walk.PreOrder(Some(node))) == Declared(Some(node)) + Declarations(Walk.PreOrderFields(node.fields))
  {
    DeclarationsConcat([Some(node)], Walk.PreOrderFields(node.fields));
    assert Declarations([Some(node)]) == Declared(Some(node)) + Declarations([]);
  }

  /** The declarations below some fields are those below one of them and those below the others. */
  lemma {:induction false} DeclarationsOfField(fields: seq<Field>, name: string)
    requires Lookup(fields, name).Some?
    ensures Declarations(Walk.PreOrderFields(fields)) ==
            Declarations(Walk.PreOrderValue(Lookup(fields, name).value)) + Declarations(Walk.PreOrderFields(Others(fields, name)))
  {
    var first := Walk.PreOrderValue(fields[0].value);
    DeclarationsConcat(first, Walk.PreOrderFields(fields[1..]));
    if fields[0].name != name {
      DeclarationsOfField(fields[1..], name);
      var others := Others(fields[1..], name);
      assert ([fields[0]] + others)[1..] == others;
      DeclarationsConcat(first, Walk.PreOrderFields(others));
    }
  }

  /** What holds below a statement: no more CTE statements are inspected than declared, and as many
      only if it is tidy. */
  ghost predicate StatementCounted(statement: Node) {
    && |Flatten(statement)| - 1 <= Declarations(Walk.PreOrder(Some(statement)))
    && (|Flatten(statement)| - 1 == Declarations(Walk.PreOrder(Some(statement))) <==> Tidy(statement))
  }

  /** The same for the entries of a CTE list, whose statements the clause's owner declares. */
  ghost predicate EntriesCounted(entries: seq<Value>) {
    var statements := EntryStatements(entries);
    var below := |FlattenAll(statements)| - CountSome(statements);
    && below <= Declarations(Walk.PreOrderItems(entries))
    && (below == Declarations(Walk.PreOrderItems(entries)) <==> TidyEntries(entries))
  }

  ghost predicate EntryCounted(entry: Value) {
    var statement := CteStatement(entry);
    var below := |FlattenRoot(statement)| - (if statement.Some? then 1 else 0);
    && below <= Declarations(Walk.PreOrderItem(entry))
    && (below == Declarations(Walk.PreOrderItem(entry)) <==> TidyEntry(entry))
  }

  lemma {:induction false} CountStatement(statement: Node)
    ensures StatementCounted(statement)
    decreases statement
  {
    FlattenUnfold(statement);
    DeclarationsOfNode(statement);
    match NodeField(statement, "with_clause") {
      case None =>
        assert Branches(statement) == [] && FlattenAll([]) == [];
        NoDeclarations(Walk.PreOrderFields(statement.fields));
      case Some(clause) =>
        DeclarationsOfField(statement.fields, "with_clause");
        NoDeclarations(Walk.PreOrderFields(Others(statement.fields, "with_clause")));
        DeclarationsOfNode(clause);
        match Lookup(clause.fields, "ctes") {
          case Some(List(entries)) =>
            CountEntries(entries);
            DeclarationsOfField(clause.fields, "ctes");
            NoDeclarations(Walk.PreOrderFields(Others(clause.fields, "ctes")));
            assert Branches(statement) == EntryStatements(entries);
          case _ =>
            assert Branches(statement) == [] && FlattenAll([]) == [];
            NoDeclarations(Walk.PreOrderFields(clause.fields));
        }
    }
  }

  lemma {:induction false} CountEntries(entries: seq<Value>)
    ensures EntriesCounted(entries)
    decreases entries
  {
    if entries == [] {
      assert FlattenAll(EntryStatements(entries)) == [];
    } else {
      CountEntry(entries[0]);
      CountEntries(entries[1..]);
      var first, rest := CteStatement(entries[0]), EntryStatements(entries[1..]);
      assert EntryStatements(entries) == [first] + rest;
      assert ([first] + rest)[1..] == rest;
      FlattenAllConcat([first], rest);
      FlattenAllOne(first);
      DeclarationsConcat(Walk.PreOrderItem(entries[0]), Walk.PreOrderItems(entries[1..]));
    }
  }

  lemma {:induction false} CountEntry(entry: Value)
    ensures EntryCounted(entry)
    decreases entry
  {
    match entry
    case NodeValue(Some(cte)) =>
      DeclarationsOfNode(cte);
      match NodeField(cte, "ctequery") {
        case None =>
          NoDeclarations(Walk.PreOrderFields(cte.fields));
        case Some(query) =>
          CountStatement(query);
          DeclarationsOfField(cte.fields, "ctequery");
          NoDeclarations(Walk.PreOrderFields(Others(cte.fields, "ctequery")));
      }
    case NodeValue(None) =>
      assert Declarations([None]) == Declared(None) + Declarations([]);
    case _ =>
  }

  /** The walk order of a whole input. */
  function InputOrder(roots: seq<Option<Node>>): seq<Option<Node>> {
    if roots == [] then [] else (if roots[0].Some? then Walk.PreOrder(roots[0]) else []) + InputOrder(roots[1..])
  }

  ghost predicate AllTidy(roots: seq<Option<Node>>) {
    forall i :: 0 <= i < |roots| && roots[i].Some? ==> Tidy(roots[i].value)
  }

  /** Over a whole input, the CTE statements inspected beside the top-level statements are as many as
      those declared anywhere exactly if every top-level statement is tidy; they are never more. */
  lemma {:induction false} EveryDeclarationIsInspectedIff(roots: seq<Option<Node>>)
    ensures var inspected, declared := |FlattenAll(roots)| - CountSome(roots), Declarations(InputOrder(roots));
            && 0 <= inspected <= declared
            && (inspected == declared <==> AllTidy(roots))
  {
    if roots == [] {
      assert FlattenAll(roots) == [];
    } else {
      EveryDeclarationIsInspectedIff(roots[1..]);
      assert roots == [roots[0]] + roots[1..];
      FlattenAllConcat([roots[0]], roots[1..]);
      RootCounted(roots[0]);
      DeclarationsConcat(if roots[0].Some? then Walk.PreOrder(roots[0]) else [], InputOrder(roots[1..]));
      AllTidySplit(roots);
    }
  }

  lemma {:induction false} RootCounted(root: Option<Node>)
    ensures var inspected := |FlattenAll([root])| - (if root.Some? then 1 else 0);
            var declared := Declarations(if root.Some? then Walk.PreOrder(root) else []);
            0 <= inspected <= declared && (inspected == declared <==> root.Some? ==> Tidy(root.value))
  {
    FlattenAllOne(root);
    if root.Some? {
      CountStatement(root.value);
      FlattenUnfold(root.value);
    }
  }

  lemma AllTidySplit(roots: seq<Option<Node>>)
    requires roots != []
    ensures AllTidy(roots) <==> (roots[0].Some? ==> Tidy(roots[0].value)) && AllTidy(roots[1..])
  {
    assert forall i :: 0 < i < |roots| ==> roots[i] == roots[1..][i - 1];
    assert forall i :: 0 <= i < |roots| - 1 ==> roots[1..][i] == roots[i + 1];
  }

  /** They can be fewer: here the WITH clause belongs to an operand of the statement. */
  lemma OperandDeclarationsAreNotInspected()
    returns (root: Node)
    ensures !Tidy(root) && |FlattenAll([Some(root)])| - 1 < Declarations(InputOrder([Some(root)]))
  {
    var query := Node("DeleteStmt", []);
    var cte := Node("CommonTableExpr", [Field("ctequery", NodeValue(Some(query)))]);
    var clause := Node("WithClause", [Field("ctes", List([NodeValue(Some(cte))]))]);
    var operand := Node("SelectStmt", [Field("with_clause", NodeValue(Some(clause)))]);
    root := Node("SelectStmt", [Field("larg", NodeValue(Some(operand)))]);
    assert NodeField(cte, "ctequery") == Some(query);
    assert Lookup(clause.fields, "ctes") == Some(List([NodeValue(Some(cte))]));
    assert Branches(operand) == [Some(query)];
    assert CountSome([Some(query)]) == 1;
    assert NodeField(root, "with_clause") == None;
    var order := Walk.PreOrderFields(root.fields);
    assert order == Walk.PreOrderValue(root.fields[0].value) + Walk.PreOrderFields(root.fields[1..]);
    assert Walk.PreOrder(Some(operand))[0] == Some(operand);
    assert order[0] == Some(operand);
    assert !Tidy(root);
    EveryDeclarationIsInspectedIff([Some(root)]);
    assert [Some(root)][0].Some?;
    assert CountSome([Some(root)]) == 1;
  }
}
