/** The built-in rules (pkg/rules), alone and composed with the engine. */
module Policies {
  import opened Common
  import opened Tree
  import opened Conversion
  import opened Correspondence
  import opened World
  import opened Engine
  import opened Runs
  import opened Verdicts
  import Statements
  import Walk

  datatype BuiltIn =
    | UpdateRequiresWhere | DeleteRequiresWhere | InsertRequiresColumns
    | DenyTruncate | DenyDropTable | DenyAlterTable

  function ID(rule: BuiltIn): string {
    match rule
    case UpdateRequiresWhere => "update_requires_where"
    case DeleteRequiresWhere => "delete_requires_where"
    case InsertRequiresColumns => "insert_requires_columns"
    case DenyTruncate => "deny_truncate"
    case DenyDropTable => "deny_drop_table"
    case DenyAlterTable => "deny_alter_table"
  }

  /** The identifiers that violations and events carry. */
  lemma BuiltInIdentifiers()
    ensures ID(UpdateRequiresWhere) == "update_requires_where" && ID(DeleteRequiresWhere) == "delete_requires_where"
    ensures ID(InsertRequiresColumns) == "insert_requires_columns"
    ensures ID(DenyTruncate) == "deny_truncate" && ID(DenyDropTable) == "deny_drop_table" && ID(DenyAlterTable) == "deny_alter_table"
  {
  }

  const TABLE := "OBJECT_TABLE"

  /** The decision: true is Allow. */
  predicate Permits(rule: BuiltIn, statement: Node) {
    match rule
    case UpdateRequiresWhere => RequireWhereClause(statement, "UpdateStmt")
    case DeleteRequiresWhere => RequireWhereClause(statement, "DeleteStmt")
    case InsertRequiresColumns => statement.kind != "InsertStmt" || |ChildrenOf(statement, "cols")| > 0
    case DenyTruncate => statement.kind != "TruncateStmt"
    case DenyDropTable => statement.kind != "DropStmt" || NotTable(EnumField(statement, "remove_type"))
    case DenyAlterTable =>
      (statement.kind != "AlterTableStmt" && statement.kind != "AlterTableMoveAllStmt")
      || NotTable(EnumField(statement, "objtype"))
  }

  /** A stored nil node counts as a clause. */
  predicate RequireWhereClause(statement: Node, kind: string) {
    statement.kind != kind || Child(statement, "where_clause").Some?
  }

  /** A missing discriminator is treated as a table. */
  predicate NotTable(objectType: Option<string>) {
    objectType.Some? && objectType.value != TABLE
  }

  /* ----- what a safe source statement is ----- */

  ghost predicate Stores(m: Message, name: string, content: Content) {
    exists i :: 0 <= i < |m.slots| && m.slots[i] == Slot(name, Some(content))
                && forall j :: 0 <= j < i ==> m.slots[j].name != name || m.slots[j].content.None?
  }

  ghost predicate StoresMessage(m: Message, name: string) {
    exists child :: Stores(m, name, One(MessageKind(child)))
  }

  ghost predicate StoresMessageList(m: Message, name: string) {
    exists elements: seq<Singular>, k :: Stores(m, name, Many(elements)) && 0 <= k < |elements| && elements[k].MessageKind?
  }

  /** An enum whose symbol is not the table's; a number the schema does not know has no symbol. */
  ghost predicate StoresOtherThanTable(m: Message, name: string) {
    exists table, number :: Stores(m, name, One(EnumKind(table, number))) && !Names(table, number, "OBJECT_TABLE")
  }

  /** Each policy, stated on the statement the grammar produced. */
  ghost predicate Safe(rule: BuiltIn, m: Message) {
    match rule
    case UpdateRequiresWhere => m.name == "UpdateStmt" ==> StoresMessage(m, "where_clause")
    case DeleteRequiresWhere => m.name == "DeleteStmt" ==> StoresMessage(m, "where_clause")
    case InsertRequiresColumns => m.name == "InsertStmt" ==> StoresMessageList(m, "cols")
    case DenyTruncate => m.name != "TruncateStmt"
    case DenyDropTable => m.name == "DropStmt" ==> StoresOtherThanTable(m, "remove_type")
    case DenyAlterTable =>
      m.name == "AlterTableStmt" || m.name == "AlterTableMoveAllStmt" ==> StoresOtherThanTable(m, "objtype")
  }

  lemma {:induction false} SlotContentStores(m: Message, slots: seq<Slot>, name: string)
    requires slots == m.slots
    ensures forall content :: SlotContent(m.slots, name) == Some(content) <==> Stores(m, name, content)
  {
    FirstSlot(slots, name);
  }

  lemma {:induction false} FirstSlot(slots: seq<Slot>, name: string)
    ensures SlotContent(slots, name).None? ==> forall i :: 0 <= i < |slots| ==> slots[i].name != name || slots[i].content.None?
    ensures SlotContent(slots, name).Some? ==>
              exists i :: 0 <= i < |slots| && slots[i] == Slot(name, SlotContent(slots, name))
                          && forall j :: 0 <= j < i ==> slots[j].name != name || slots[j].content.None?
  {
    if slots != [] {
      if slots[0].name == name && slots[0].content.Some? {
        assert slots[0] == Slot(name, SlotContent(slots, name));
      } else {
        FirstSlot(slots[1..], name);
        assert forall i :: 0 < i < |slots| ==> slots[i] == slots[1..][i - 1];
        if SlotContent(slots, name).Some? {
          var i :| 0 <= i < |slots[1..]| && slots[1..][i] == Slot(name, SlotContent(slots, name))
                   && forall j :: 0 <= j < i ==> slots[1..][j].name != name || slots[1..][j].content.None?;
          assert slots[i + 1] == Slot(name, SlotContent(slots, name));
        }
      }
    }
  }

  /** A rule permits the converted statement exactly if the source statement is safe for it. */
  lemma {:induction false} PermitsIffSafe(rule: BuiltIn, m: Message)
    requires Unwrapped(m) == Some(m)
    ensures Permits(rule, Converted(m).value) <==> Safe(rule, m)
  {
    match rule
    case UpdateRequiresWhere => MessageChild(m, "where_clause");
    case DeleteRequiresWhere => MessageChild(m, "where_clause");
    case InsertRequiresColumns => MessageList(m, "cols");
    case DenyTruncate =>
    case DenyDropTable => EnumChild(m, "remove_type");
    case DenyAlterTable => EnumChild(m, "objtype");
  }

  lemma {:induction false} MessageChild(m: Message, name: string)
    requires Unwrapped(m) == Some(m)
    ensures Child(Converted(m).value, name).Some? <==> StoresMessage(m, name)
  {
    LookupConverted(m.slots, name);
    SlotContentStores(m, m.slots, name);
    match SlotContent(m.slots, name)
    case Some(One(value)) => assert ConvertedContent(One(value)) == ConvertedSingular(value);
    case _ =>
  }

  lemma {:induction false} MessageList(m: Message, name: string)
    requires Unwrapped(m) == Some(m)
    ensures |ChildrenOf(Converted(m).value, name)| > 0 <==> StoresMessageList(m, name)
  {
    LookupConverted(m.slots, name);
    SlotContentStores(m, m.slots, name);
    var node := Converted(m).value;
    match SlotContent(m.slots, name)
    case Some(Many(elements)) =>
      assert ChildrenOf(node, name) == NodeItems(ConvertedElements(elements));
      NodeItemsExist(ConvertedElements(elements));
      ListStored(m, name, elements);
    case Some(One(value)) =>
      assert !ConvertedSingular(value).List?;
    case None =>
  }

  lemma {:induction false} ListStored(m: Message, name: string, elements: seq<Singular>)
    requires forall content :: Stores(m, name, content) <==> content == Many(elements)
    ensures StoresMessageList(m, name) <==> exists k :: 0 <= k < |elements| && ConvertedElements(elements)[k].NodeValue?
  {
    assert Stores(m, name, Many(elements));
    assert forall k :: 0 <= k < |elements| ==> (ConvertedElements(elements)[k].NodeValue? <==> elements[k].MessageKind?);
    if StoresMessageList(m, name) {
      var stored: seq<Singular>, k :| Stores(m, name, Many(stored)) && 0 <= k < |stored| && stored[k].MessageKind?;
      assert ConvertedElements(elements)[k].NodeValue?;
    }
  }

  lemma {:induction false} EnumChild(m: Message, name: string)
    requires Unwrapped(m) == Some(m)
    ensures NotTable(EnumField(Converted(m).value, name)) <==> StoresOtherThanTable(m, name)
  {
    LookupConverted(m.slots, name);
    SlotContentStores(m, m.slots, name);
    match SlotContent(m.slots, name)
    case Some(One(value)) => assert ConvertedContent(One(value)) == ConvertedSingular(value);
    case _ =>
  }

  /* ----- what the policies are documented to require ----- */

  /** A clause, columns and an object type in the documented sense: a WHERE clause with content, a
      column that is there, and a known object type other than a table. */
  ghost predicate Intended(rule: BuiltIn, m: Message) {
    match rule
    case UpdateRequiresWhere => m.name == "UpdateStmt" ==> StoresClause(m, "where_clause")
    case DeleteRequiresWhere => m.name == "DeleteStmt" ==> StoresClause(m, "where_clause")
    case InsertRequiresColumns => m.name == "InsertStmt" ==> StoresColumn(m, "cols")
    case DenyTruncate => m.name != "TruncateStmt"
    case DenyDropTable => m.name == "DropStmt" ==> StoresKnownOther(m, "remove_type")
    case DenyAlterTable =>
      m.name == "AlterTableStmt" || m.name == "AlterTableMoveAllStmt" ==> StoresKnownOther(m, "objtype")
  }

  ghost predicate StoresClause(m: Message, name: string) {
    exists child :: Stores(m, name, One(MessageKind(child))) && Unwrapped(child).Some?
  }

  ghost predicate StoresColumn(m: Message, name: string) {
    exists elements: seq<Singular>, k ::
      Stores(m, name, Many(elements)) && 0 <= k < |elements| && elements[k].MessageKind? && Unwrapped(elements[k].message).Some?
  }

  ghost predicate StoresKnownOther(m: Message, name: string) {
    exists table, number, symbol :: Stores(m, name, One(EnumKind(table, number)))
                                    && Names(table, number, symbol) && symbol != "OBJECT_TABLE"
  }

  /** The slot that a rule reads on statements of its kind holds no empty wrapper and no number
      outside its table. */
  ghost predicate Meaningful(rule: BuiltIn, m: Message) {
    match rule
    case UpdateRequiresWhere => m.name == "UpdateStmt" ==> NoEmptyMessage(m, "where_clause")
    case DeleteRequiresWhere => m.name == "DeleteStmt" ==> NoEmptyMessage(m, "where_clause")
    case InsertRequiresColumns => m.name == "InsertStmt" ==> NotOnlyEmptyMessages(m, "cols")
    case DenyTruncate => true
    case DenyDropTable => m.name == "DropStmt" ==> NoUnknownNumber(m, "remove_type")
    case DenyAlterTable =>
      m.name == "AlterTableStmt" || m.name == "AlterTableMoveAllStmt" ==> NoUnknownNumber(m, "objtype")
  }

  ghost predicate NoEmptyMessage(m: Message, name: string) {
    forall child :: Stores(m, name, One(MessageKind(child))) ==> Unwrapped(child).Some?
  }

  /** If the list holds messages at all, one of them has content. */
  ghost predicate NotOnlyEmptyMessages(m: Message, name: string) {
    forall elements: seq<Singular>, k ::
      Stores(m, name, Many(elements)) && 0 <= k < |elements| && elements[k].MessageKind? ==>
        exists j :: 0 <= j < |elements| && elements[j].MessageKind? && Unwrapped(elements[j].message).Some?
  }

  ghost predicate NoUnknownNumber(m: Message, name: string) {
    forall table, number :: Stores(m, name, One(EnumKind(table, number))) ==> !Unlisted(table, number)
  }

  /** The coded policy is the documented one exactly on the statements whose slot is meaningful. */
  lemma SafeIsIntendedIff(rule: BuiltIn, m: Message)
    ensures (Safe(rule, m) <==> Intended(rule, m)) <==> Meaningful(rule, m)
    ensures Intended(rule, m) <==> Safe(rule, m) && Meaningful(rule, m)
  {
    match rule
    case DenyDropTable => KnownOtherIff(m, "remove_type");
    case DenyAlterTable => KnownOtherIff(m, "objtype");
    case _ =>
  }

  lemma KnownOtherIff(m: Message, name: string)
    ensures StoresKnownOther(m, name) <==> StoresOtherThanTable(m, name) && NoUnknownNumber(m, name)
    ensures !NoUnknownNumber(m, name) ==> StoresOtherThanTable(m, name)
  {
    forall table, number | Stores(m, name, One(EnumKind(table, number)))
      ensures Unlisted(table, number) <==> EnumName(table, number) == None
      ensures forall symbol :: Names(table, number, symbol) <==> EnumName(table, number) == Some(symbol)
    {
    }
  }

  /** What a rule permits after conversion is what is documented exactly on those statements. */
  lemma {:induction false} PermitsIntendedIff(rule: BuiltIn, m: Message)
    requires Unwrapped(m) == Some(m)
    ensures (Permits(rule, Converted(m).value) <==> Intended(rule, m)) <==> Meaningful(rule, m)
    ensures Intended(rule, m) ==> Permits(rule, Converted(m).value)
  {
    PermitsIffSafe(rule, m);
    SafeIsIntendedIff(rule, m);
  }

  /** An UPDATE whose WHERE slot holds an empty wrapper is permitted, with no condition in it. */
  lemma EmptyClauseIsPermitted()
    returns (m: Message)
    ensures Unwrapped(m) == Some(m) && Permits(UpdateRequiresWhere, Converted(m).value)
    ensures !Intended(UpdateRequiresWhere, m)
  {
    var wrapper := Message(true, PG_QUERY_NODE_NAME, "Node", []);
    m := Message(true, "pg_query.UpdateStmt", "UpdateStmt", [Slot("where_clause", Some(One(MessageKind(wrapper))))]);
    assert m.slots[0] == Slot("where_clause", Some(One(MessageKind(wrapper))));
    assert Stores(m, "where_clause", One(MessageKind(wrapper)));
    assert Unwrapped(wrapper) == None;
    PermitsIffSafe(UpdateRequiresWhere, m);
    SafeIsIntendedIff(UpdateRequiresWhere, m);
  }

  /** A DROP whose object type is a number outside its table is permitted, whatever it drops. */
  lemma UnknownObjectTypeIsPermitted()
    returns (m: Message)
    ensures Unwrapped(m) == Some(m) && Permits(DenyDropTable, Converted(m).value)
    ensures !Intended(DenyDropTable, m)
  {
    var number := EnumKind([EnumEntry(1, TABLE)], 7);
    m := Message(true, "pg_query.DropStmt", "DropStmt", [Slot("remove_type", Some(One(number)))]);
    assert m.slots[0] == Slot("remove_type", Some(One(number)));
    assert Stores(m, "remove_type", One(number));
    assert EnumName([EnumEntry(1, TABLE)], 7) == None;
    PermitsIffSafe(DenyDropTable, m);
    SafeIsIntendedIff(DenyDropTable, m);
  }

  /* ----- composed with traversal and the engine ----- */

  function Deciding(builtIn: RuleRef -> BuiltIn): Decision {
    (rule: RuleRef, statement: Node) => Permits(builtIn(rule), statement)
  }

  /** How many leading statements every rule allows. */
  function Leading(decide: Decision, rules: seq<RegisteredRule>, statements: seq<Node>): (n: nat)
    ensures n <= |statements|
    ensures forall i, j :: 0 <= i < n && 0 <= j < |rules| ==> decide(rules[j].rule, statements[i])
    ensures n < |statements| ==> exists j :: 0 <= j < |rules| && !decide(rules[j].rule, statements[n])
  {
    if statements == [] || exists j :: 0 <= j < |rules| && !decide(rules[j].rule, statements[0]) then 0
    else 1 + Leading(decide, rules, statements[1..])
  }

  ghost predicate PairsAllowed(decide: Decision, pairs: seq<Pair>) {
    forall i :: 0 <= i < |pairs| ==> Allows(decide, pairs[i])
  }

  lemma {:induction false} PairsAllowedIff(decide: Decision, rules: seq<RegisteredRule>, statements: seq<Node>)
    ensures PairsAllowed(decide, Pairs(statements, rules)) <==> AllAllowed(decide, rules, statements)
  {
    if statements != [] {
      var row, rest := Row(statements[0], rules), Pairs(statements[1..], rules);
      PairsAllowedIff(decide, rules, statements[1..]);
      ConcatAllowed(decide, row, rest);
      assert forall j :: 0 <= j < |rules| ==> Allows(decide, row[j]) == decide(rules[j].rule, statements[0]);
      SplitFirst(decide, rules, statements);
    }
  }

  lemma SplitFirst(decide: Decision, rules: seq<RegisteredRule>, statements: seq<Node>)
    requires statements != []
    ensures AllAllowed(decide, rules, statements) <==>
            AllAllowed(decide, rules, statements[..1]) && AllAllowed(decide, rules, statements[1..])
  {
    assert forall i :: 0 < i < |statements| ==> statements[i] == statements[1..][i - 1];
  }

  lemma ConcatAllowed(decide: Decision, a: seq<Pair>, b: seq<Pair>)
    ensures PairsAllowed(decide, a + b) <==> PairsAllowed(decide, a) && PairsAllowed(decide, b)
  {
    if PairsAllowed(decide, a + b) {
      assert forall i :: 0 <= i < |a| ==> a[i] == (a + b)[i];
      assert forall i :: 0 <= i < |b| ==> b[i] == (a + b)[|a| + i];
    }
  }

  lemma {:induction false} NoViolationIff(decide: Decision, rules: seq<RegisteredRule>, statements: seq<Node>)
    ensures FirstViolation(decide, Pairs(statements, rules)).None? <==> AllAllowed(decide, rules, statements)
  {
    PairsAllowedIff(decide, rules, statements);
  }

  /** The first rejected pair lies in the row of the first statement that some rule rejects. */
  lemma {:induction false} LeadingPairs(decide: Decision, rules: seq<RegisteredRule>, statements: seq<Node>)
    ensures var n, passed := Leading(decide, rules, statements), Passed(decide, Pairs(statements, rules));
            if n == |statements| then passed == |Pairs(statements, rules)|
            else 0 <= passed - |Pairs(statements[..n], rules)| < |rules| && passed < |Pairs(statements, rules)|
  {
    var n := Leading(decide, rules, statements);
    if n == |statements| {
      PairsAllowedIff(decide, rules, statements);
    } else {
      var front, row, rest := Pairs(statements[..n], rules), Row(statements[n], rules), Pairs(statements[n + 1..], rules);
      PairsAllowedIff(decide, rules, statements[..n]);
      assert statements == statements[..n] + statements[n..];
      PairsConcat(statements[..n], statements[n..], rules);
      assert Pairs(statements[n..], rules) == row + rest by {
        assert statements[n..][1..] == statements[n + 1..];
      }
      PassedConcat(decide, front, row + rest);
      PassedConcat(decide, row, rest);
      var j :| 0 <= j < |rules| && !decide(rules[j].rule, statements[n]);
      assert !Allows(decide, row[j]);
      assert PairsAllowed(decide, front);
    }
  }

  /** A parsed input is accepted iff every source statement reached in it is safe for every rule. */
  lemma PreparedAcceptedIffSafe(adv: Adversary, cfg: Config, t: Trace, ctx: Context, sql: string, builtIn: RuleRef -> BuiltIn)
    requires Stateless(adv, Deciding(builtIn)) && Active(adv, ctx) && Parsed(adv.backend, sql).Some?
    ensures ValidateRun(adv, cfg, t, ctx, Prepared(Parsed(adv.backend, sql))).error.None? <==>
            AllSafe(builtIn, cfg.rules, BatchStatements(adv.backend(sql).value))
  {
    var sources := adv.backend(sql).value;
    var statements := Statements.FlattenAll(ConvertedStatements(sources));
    var _ := StatelessRun(adv, cfg, t, ctx, Prepared(Parsed(adv.backend, sql)), Deciding(builtIn));
    NoViolationIff(Deciding(builtIn), cfg.rules, statements);
    BatchCommutes(sources);
    BatchIsConcrete(sources);
    AllowedIffSafe(builtIn, cfg.rules, statements, BatchStatements(sources));
  }

  /** The complete input is grammatical, and every statement the grammar produced that is reached
      through CTE declarations is safe for every registered rule. */
  ghost predicate SafeSql(adv: Adversary, cfg: Config, builtIn: RuleRef -> BuiltIn, sql: string) {
    '\0' !in sql && adv.backend(sql).Some? && AllSafe(builtIn, cfg.rules, BatchStatements(adv.backend(sql).value))
  }

  /** From SQL text to verdict. */
  lemma SqlAcceptedIffSafe(adv: Adversary, cfg: Config, t: Trace, ctx: Context, sql: string, builtIn: RuleRef -> BuiltIn)
    requires Stateless(adv, Deciding(builtIn)) && Active(adv, ctx)
    ensures DirectRun(adv, cfg, t, ctx, sql).error.None? <==> SafeSql(adv, cfg, builtIn, sql)
  {
    DirectRunUnderActive(adv, cfg, t, ctx, sql);
    if Parsed(adv.backend, sql).Some? {
      PreparedAcceptedIffSafe(adv, cfg, PrepareRun(adv, cfg, t, ctx, sql).0, ctx, sql, builtIn);
    }
  }

  lemma DirectRunUnderActive(adv: Adversary, cfg: Config, t: Trace, ctx: Context, sql: string)
    requires Active(adv, ctx)
    ensures var run, parsed := DirectRun(adv, cfg, t, ctx, sql), Parsed(adv.backend, sql);
            if parsed.None? then run.error == Some(ParseFailed)
            else run == ValidateRun(adv, cfg, PrepareRun(adv, cfg, t, ctx, sql).0, ctx, Prepared(parsed))
  {
  }

  /** The complete input is grammatical and meets every registered policy in the documented sense. */
  ghost predicate IntendedSql(adv: Adversary, cfg: Config, builtIn: RuleRef -> BuiltIn, sql: string) {
    '\0' !in sql && adv.backend(sql).Some? && AllIntended(builtIn, cfg.rules, BatchStatements(adv.backend(sql).value))
  }

  ghost predicate AllIntended(builtIn: RuleRef -> BuiltIn, rules: seq<RegisteredRule>, statements: seq<Message>) {
    forall i, j :: 0 <= i < |statements| && 0 <= j < |rules| ==> Intended(builtIn(rules[j].rule), statements[i])
  }

  ghost predicate AllMeaningful(builtIn: RuleRef -> BuiltIn, rules: seq<RegisteredRule>, statements: seq<Message>) {
    forall i, j :: 0 <= i < |statements| && 0 <= j < |rules| ==> Meaningful(builtIn(rules[j].rule), statements[i])
  }

  lemma AllIntendedIff(builtIn: RuleRef -> BuiltIn, rules: seq<RegisteredRule>, statements: seq<Message>)
    ensures AllIntended(builtIn, rules, statements) <==> AllSafe(builtIn, rules, statements) && AllMeaningful(builtIn, rules, statements)
  {
    forall i, j | 0 <= i < |statements| && 0 <= j < |rules|
      ensures Intended(builtIn(rules[j].rule), statements[i]) <==>
              Safe(builtIn(rules[j].rule), statements[i]) && Meaningful(builtIn(rules[j].rule), statements[i])
    {
      SafeIsIntendedIff(builtIn(rules[j].rule), statements[i]);
    }
  }

  /** What meets the documented policies is always accepted. An accepted input meets them exactly if
      the slots its rules read are meaningful in every reached statement. */
  lemma AcceptedIsIntendedIff(adv: Adversary, cfg: Config, t: Trace, ctx: Context, sql: string, builtIn: RuleRef -> BuiltIn)
    requires Stateless(adv, Deciding(builtIn)) && Active(adv, ctx)
    ensures var accepted := DirectRun(adv, cfg, t, ctx, sql).error.None?;
            && (IntendedSql(adv, cfg, builtIn, sql) ==> accepted)
            && (accepted ==> adv.backend(sql).Some?
                             && (IntendedSql(adv, cfg, builtIn, sql) <==>
                                 AllMeaningful(builtIn, cfg.rules, BatchStatements(adv.backend(sql).value))))
  {
    SqlAcceptedIffSafe(adv, cfg, t, ctx, sql, builtIn);
    if adv.backend(sql).Some? {
      AllIntendedIff(builtIn, cfg.rules, BatchStatements(adv.backend(sql).value));
    }
  }

  ghost predicate AllSafe(builtIn: RuleRef -> BuiltIn, rules: seq<RegisteredRule>, statements: seq<Message>) {
    forall i, j :: 0 <= i < |statements| && 0 <= j < |rules| ==> Safe(builtIn(rules[j].rule), statements[i])
  }

  /** Place by place, a rule permits a reached statement iff its source is safe for it. */
  lemma PermitsIffSafeEverywhere(builtIn: RuleRef -> BuiltIn, nodes: seq<Node>, sources: seq<Message>)
    requires Walk.Filled(nodes) == Messages(sources)
    requires forall i :: 0 <= i < |sources| ==> Unwrapped(sources[i]) == Some(sources[i])
    ensures |nodes| == |sources|
    ensures forall i, rule :: 0 <= i < |nodes| ==> (Deciding(builtIn)(rule, nodes[i]) <==> Safe(builtIn(rule), sources[i]))
  {
    assert |Walk.Filled(nodes)| == |nodes| && |Messages(sources)| == |sources|;
    forall i, rule | 0 <= i < |nodes|
      ensures Deciding(builtIn)(rule, nodes[i]) <==> Safe(builtIn(rule), sources[i])
    {
      assert Walk.Filled(nodes)[i] == Messages(sources)[i];
      PermitsIffSafe(builtIn(rule), sources[i]);
    }
  }

  lemma AllowedIffSafe(builtIn: RuleRef -> BuiltIn, rules: seq<RegisteredRule>, nodes: seq<Node>, sources: seq<Message>)
    requires Walk.Filled(nodes) == Messages(sources)
    requires forall i :: 0 <= i < |sources| ==> Unwrapped(sources[i]) == Some(sources[i])
    ensures AllAllowed(Deciding(builtIn), rules, nodes) <==> AllSafe(builtIn, rules, sources)
  {
    PermitsIffSafeEverywhere(builtIn, nodes, sources);
    forall i, j | 0 <= i < |nodes| && 0 <= j < |rules|
      ensures Deciding(builtIn)(rules[j].rule, nodes[i]) <==> Safe(builtIn(rules[j].rule), sources[i])
    {
    }
  }

  lemma {:induction false} StatementsAreConcrete(m: Message)
    ensures forall i :: 0 <= i < |SourceStatements(m)| ==> Unwrapped(SourceStatements(m)[i]) == Some(SourceStatements(m)[i])
    decreases m
  {
    if Unwrapped(m).Some? {
      UnwrappedIsConcrete(m);
      SourceStatementsUnfold(m);
      var entries := SourceEntries(Unwrapped(m).value);
      var parts := seq(|entries|, i requires 0 <= i < |entries| => SourceRoot(SourceCteStatement(entries[i])));
      forall i, k | 0 <= i < |parts| && 0 <= k < |parts[i]|
        ensures Unwrapped(parts[i][k]) == Some(parts[i][k])
      {
        var query := SourceCteStatement(entries[i]).value;
        assert (Unwrapped(m).value decreases to entries[i]);
        assert (entries[i] decreases to query);
        StatementsAreConcrete(query);
      }
      ConcatIsConcrete(parts);
    }
  }

  lemma {:induction false} ConcatIsConcrete(parts: seq<seq<Message>>)
    requires forall i, k :: 0 <= i < |parts| && 0 <= k < |parts[i]| ==> Unwrapped(parts[i][k]) == Some(parts[i][k])
    ensures forall k :: 0 <= k < |Concat(parts)| ==> Unwrapped(Concat(parts)[k]) == Some(Concat(parts)[k])
  {
    if parts != [] {
      ConcatIsConcrete(parts[1..]);
      assert forall k :: 0 <= k < |parts[0]| ==> Unwrapped(parts[0][k]) == Some(parts[0][k]);
    }
  }

  lemma {:induction false} BatchIsConcrete(sources: seq<Option<Message>>)
    ensures forall i :: 0 <= i < |BatchStatements(sources)| ==> Unwrapped(BatchStatements(sources)[i]) == Some(BatchStatements(sources)[i])
  {
    if sources != [] {
      BatchIsConcrete(sources[1..]);
      if sources[0].Some? {
        StatementsAreConcrete(sources[0].value);
      }
    }
  }

  /* ----- order and number of rules ----- */

  /** The evaluations are the whole rows of the first `n` statements and a part of the next row. */
  predicate StoppedAt(cfg: Config, statements: seq<Node>, steps: Trace, n: nat) {
    n < |statements| && 0 < |Evaluations(steps)| - |Pairs(statements[..n], cfg.rules)| <= |cfg.rules|
  }

  ghost predicate SubsetOfRules(rules: seq<RegisteredRule>, more: seq<RegisteredRule>) {
    forall i :: 0 <= i < |rules| ==> rules[i] in more
  }

  lemma StopsAtLeading(adv: Adversary, cfg: Config, t: Trace, ctx: Context, prepared: Prepared, decide: Decision)
    returns (steps: Trace)
    requires Stateless(adv, decide) && Active(adv, ctx) && prepared.result.Some?
    ensures Stops(cfg, prepared, t, ValidateRun(adv, cfg, t, ctx, prepared), steps,
                  Leading(decide, cfg.rules, Statements.FlattenAll(prepared.result.value)))
  {
    steps := StatelessRun(adv, cfg, t, ctx, prepared, decide);
    LeadingPairs(decide, cfg.rules, Statements.FlattenAll(prepared.result.value));
  }

  /** The run took these steps; it succeeded if all statements lead, and stopped at statement `n` if not. */
  ghost predicate Stops(cfg: Config, prepared: Prepared, t: Trace, run: Run, steps: Trace, n: nat)
    requires prepared.result.Some?
  {
    var statements := Statements.FlattenAll(prepared.result.value);
    && run.trace == t + steps
    && (run.error.None? <==> n == |statements|)
    && (run.error.Some? ==> StoppedAt(cfg, statements, steps, n))
  }

  /** Permuting the rules changes neither whether the validation succeeds nor the statement at which
      it stops. */
  lemma RuleOrderIsImmaterial(adv: Adversary, cfg: Config, cfg': Config, t: Trace, ctx: Context,
                              prepared: Prepared, decide: Decision)
    returns (steps: Trace, steps': Trace, n: nat)
    requires Stateless(adv, decide) && Active(adv, ctx) && prepared.result.Some?
    requires multiset(cfg.rules) == multiset(cfg'.rules)
    ensures Stops(cfg, prepared, t, ValidateRun(adv, cfg, t, ctx, prepared), steps, n)
    ensures Stops(cfg', prepared, t, ValidateRun(adv, cfg', t, ctx, prepared), steps', n)
  {
    steps := StopsAtLeading(adv, cfg, t, ctx, prepared, decide);
    steps' := StopsAtLeading(adv, cfg', t, ctx, prepared, decide);
    var statements := Statements.FlattenAll(prepared.result.value);
    n := Leading(decide, cfg.rules, statements);
    SameLeading(decide, cfg.rules, cfg'.rules, statements);
  }

  lemma {:induction false} SameLeading(decide: Decision, rules: seq<RegisteredRule>, rules': seq<RegisteredRule>, statements: seq<Node>)
    requires multiset(rules) == multiset(rules')
    ensures Leading(decide, rules, statements) == Leading(decide, rules', statements)
  {
    SameMembers(rules, rules');
    SameMembers(rules', rules);
    LeadingShrinks(decide, rules, rules', statements);
    LeadingShrinks(decide, rules', rules, statements);
  }

  lemma SameMembers(rules: seq<RegisteredRule>, rules': seq<RegisteredRule>)
    requires multiset(rules) == multiset(rules')
    ensures SubsetOfRules(rules, rules')
  {
    forall i | 0 <= i < |rules|
      ensures rules[i] in rules'
    {
      assert rules[i] in multiset(rules);
    }
  }

  /** With more rules there are no more leading statements that all rules allow. */
  lemma {:induction false} LeadingShrinks(decide: Decision, rules: seq<RegisteredRule>, more: seq<RegisteredRule>, statements: seq<Node>)
    requires SubsetOfRules(rules, more)
    ensures Leading(decide, more, statements) <= Leading(decide, rules, statements)
  {
    var n := Leading(decide, rules, statements);
    if n < |statements| {
      var j :| 0 <= j < |rules| && !decide(rules[j].rule, statements[n]);
      var k :| 0 <= k < |more| && more[k] == rules[j];
      assert !decide(more[k].rule, statements[n]);
    }
  }

  /** Adding rules never turns a rejection into acceptance, and never lets the validation get further. */
  lemma MoreRulesRejectMore(adv: Adversary, cfg: Config, cfg': Config, t: Trace, ctx: Context,
                            prepared: Prepared, decide: Decision)
    returns (steps: Trace, steps': Trace, n: nat, n': nat)
    requires Stateless(adv, decide) && Active(adv, ctx) && prepared.result.Some?
    requires SubsetOfRules(cfg.rules, cfg'.rules)
    ensures n' <= n
    ensures Stops(cfg, prepared, t, ValidateRun(adv, cfg, t, ctx, prepared), steps, n)
    ensures Stops(cfg', prepared, t, ValidateRun(adv, cfg', t, ctx, prepared), steps', n')
    ensures ValidateRun(adv, cfg, t, ctx, prepared).error.Some? ==> ValidateRun(adv, cfg', t, ctx, prepared).error.Some?
  {
    steps := StopsAtLeading(adv, cfg, t, ctx, prepared, decide);
    steps' := StopsAtLeading(adv, cfg', t, ctx, prepared, decide);
    var statements := Statements.FlattenAll(prepared.result.value);
    n, n' := Leading(decide, cfg.rules, statements), Leading(decide, cfg'.rules, statements);
    LeadingShrinks(decide, cfg.rules, cfg'.rules, statements);
  }
}
