/** From guarded calls to the database. */
module EndToEnd {
  import opened Common
  import opened World
  import opened Engine
  import opened Runs
  import opened Outcomes
  import opened Verdicts
  import opened Policies
  import opened Cache
  import opened Guard
  import opened Recency
  import opened Refinement
  import opened Replacement
  import opened Registration
  import opened Tree
  import Conversion
  import Correspondence
  import Statements

  /** The requests that reached the database, in order. */
  function Forwarded(t: Trace): seq<Request> {
    if t == [] then []
    else (if t[0].Executed? then [Request(t[0].operation, t[0].ctx, t[0].sql, t[0].arguments)] else []) + Forwarded(t[1..])
  }

  lemma {:induction false} ForwardedConcat(a: Trace, b: Trace)
    ensures Forwarded(a + b) == Forwarded(a) + Forwarded(b)
  {
    if a == [] {
      assert a + b == b;
    } else {
      assert (a + b)[1..] == a[1..] + b;
      ForwardedConcat(a[1..], b);
      AppendAssociative(if a[0].Executed? then [Request(a[0].operation, a[0].ctx, a[0].sql, a[0].arguments)] else [],
                        Forwarded(a[1..]), Forwarded(b));
    }
  }

  lemma {:induction false} NothingForwarded(t: Trace)
    requires forall k :: 0 <= k < |t| ==> !t[k].Executed?
    ensures Forwarded(t) == []
  {
    if t != [] {
      NothingForwarded(t[1..]);
    }
  }

  lemma DirectRunSteps(adv: Adversary, cfg: Config, t: Trace, ctx: Context, sql: string)
    returns (steps: Trace)
    ensures DirectRun(adv, cfg, t, ctx, sql).trace == t + steps && Forwarded(steps) == []
    ensures steps != [] && steps[0] == Checked(ctx, adv.contextErr(t, ctx))
    ensures RanGrammar(steps) <==> adv.contextErr(t, ctx).None?
  {
    var (mid, preparation) := PrepareRun(adv, cfg, t, ctx, sql);
    var head := PrepareIsAccounted(adv, cfg, t, ctx, sql);
    NothingForwarded(head);
    steps := head;
    if preparation.Ready? {
      assert head[1].Grammar?;
      var tail := ValidationIsExact(adv, cfg, mid, ctx, preparation.prepared);
      steps := head + tail;
      AppendAssociative(t, head, tail);
      ForwardedConcat(head, tail);
      NothingForwarded(tail);
      assert steps[1] == head[1];
    }
  }

  /** Validating a cache miss or hit never reaches the database; the grammar runs only on a miss, and
      then unless the context has already expired. */
  lemma CachedRunSteps(adv: Adversary, cfg: Config, limits: Limits, t: Trace, entries: Entries, ctx: Context, sql: string)
    returns (steps: Trace)
    ensures var run := CachedRun(adv, cfg, limits, t, entries, ctx, sql).0;
            && run.trace == t + steps && Forwarded(steps) == []
            && steps != [] && steps[0] == Checked(ctx, adv.contextErr(t, ctx))
            && (RanGrammar(steps) <==> Find(entries, sql).None? && adv.contextErr(t, ctx).None?)
  {
    match Find(entries, sql)
    case Some(prepared) =>
      steps := ValidationIsExact(adv, cfg, t, ctx, prepared);
      NothingForwarded(steps);
      assert !RanGrammar(steps);
    case None =>
      MissIsDirect(adv, cfg, limits, t, entries, ctx, sql);
      steps := DirectRunSteps(adv, cfg, t, ctx, sql);
  }

  /** The calls that run the grammar: those without a rewriting argument that miss under a live context. */
  ghost predicate Parses(adv: Adversary, t: Trace, entries: Entries, r: Request) {
    !Rewrites(r.arguments) && Find(entries, r.sql).None? && adv.contextErr(Begun(t, r), r.ctx).None?
  }

  lemma GrammarInMiddle(front: Trace, middle: Trace, last: Trace)
    requires !RanGrammar(front) && !RanGrammar(last)
    ensures RanGrammar((front + middle) + last) <==> RanGrammar(middle)
  {
    var steps := (front + middle) + last;
    assert forall k :: 0 <= k < |front| ==> steps[k] == front[k];
    assert forall k :: 0 <= k < |middle| ==> steps[|front| + k] == middle[k];
    assert forall k :: |front| + |middle| <= k < |steps| ==> steps[k] == last[k - |front| - |middle|];
    if RanGrammar(steps) {
      var k :| 0 <= k < |steps| && steps[k].Grammar?;
      assert |front| <= k < |front| + |middle|;
      assert middle[k - |front|].Grammar?;
    }
  }

  /** A call reaches the database at most once, as its very last step, with exactly its own operation,
      text and arguments, and precisely when it has no rewriting argument and its validation succeeded. */
  lemma CallForwards(adv: Adversary, cfg: Config, limits: Limits, t: Trace, entries: Entries, r: Request)
    returns (steps: Trace)
    ensures var (end, _, reply) := CachedCall(adv, cfg, limits, t, entries, r);
            && end == t + steps
            && Forwarded(steps) == (if reply.Responded? then [r] else [])
            && (reply.Responded? ==> steps != [] && steps[|steps| - 1] == Executed(r.operation, r.ctx, r.sql, r.arguments, reply.response))
            && (reply.Responded? <==> !Rewrites(r.arguments) && CachedRun(adv, cfg, limits, Begun(t, r), entries, r.ctx, r.sql).0.error.None?)
            && (RanGrammar(steps) <==> Parses(adv, t, entries, r))
            && (reply.Refused? <==> Rewrites(r.arguments))
            && (reply.Denied? ==> Some(reply.error) == CachedRun(adv, cfg, limits, Begun(t, r), entries, r.ctx, r.sql).0.error)
  {
    var front := [Began(r.operation, r.ctx, r.sql, r.arguments)];
    NothingForwarded(front);
    if Rewrites(r.arguments) {
      steps := front;
    } else {
      var middle := CachedRunSteps(adv, cfg, limits, Begun(t, r), entries, r.ctx, r.sql);
      var run := CachedRun(adv, cfg, limits, Begun(t, r), entries, r.ctx, r.sql).0;
      var last := if run.error.Some? then []
                  else [Executed(r.operation, r.ctx, r.sql, r.arguments, adv.execute(run.trace, r.operation, r.ctx, r.sql, r.arguments))];
      steps := (front + middle) + last;
      AppendAssociative(t, front, middle);
      AppendAssociative(t, front + middle, last);
      ForwardedConcat(front, middle);
      ForwardedConcat(front + middle, last);
      GrammarInMiddle(front, middle, last);
      if run.error.None? {
        assert last[1..] == [];
        assert Forwarded(last) == [r];
      } else {
        assert steps == front + middle;
      }
    }
  }

  /** The same for the plain guard. */
  lemma PlainCallForwards(adv: Adversary, cfg: Config, t: Trace, r: Request)
    returns (steps: Trace)
    ensures var (end, reply) := PlainCall(adv, cfg, t, r);
            && end == t + steps
            && Forwarded(steps) == (if reply.Responded? then [r] else [])
            && (reply.Responded? ==> steps != [] && steps[|steps| - 1] == Executed(r.operation, r.ctx, r.sql, r.arguments, reply.response))
            && (reply.Responded? <==> !Rewrites(r.arguments) && DirectRun(adv, cfg, Begun(t, r), r.ctx, r.sql).error.None?)
            && (reply.Refused? <==> Rewrites(r.arguments))
            && (reply.Denied? ==> Some(reply.error) == DirectRun(adv, cfg, Begun(t, r), r.ctx, r.sql).error)
  {
    MissIsDirect(adv, cfg, Limits(1, 0), Begun(t, r), [], r.ctx, r.sql);
    steps := CallForwards(adv, cfg, Limits(1, 0), t, [], r);
  }

  /* ----- what a call replies ----- */

  /** A context that has expired when the call begins denies it with its own cause. */
  lemma ExpiredCallIsDenied(adv: Adversary, cfg: Config, limits: Limits, t: Trace, entries: Entries, r: Request)
    requires !Rewrites(r.arguments) && adv.contextErr(Begun(t, r), r.ctx).Some?
    ensures CachedCall(adv, cfg, limits, t, entries, r).2 == Denied(ContextFailed(adv.contextErr(Begun(t, r), r.ctx).value))
    ensures PlainCall(adv, cfg, t, r).1 == Denied(ContextFailed(adv.contextErr(Begun(t, r), r.ctx).value))
  {
    var _ := PrepareIsAccounted(adv, cfg, Begun(t, r), r.ctx, r.sql);
    match Find(entries, r.sql)
    case Some(prepared) => var _ := ValidationIsExact(adv, cfg, Begun(t, r), r.ctx, prepared);
    case None =>
  }

  /** The statements that the grammar finds in a text. */
  function StatementsOf(adv: Adversary, sql: string): seq<Node> {
    match adv.backend(sql)
    case Some(sources) => Statements.FlattenAll(Conversion.ConvertedStatements(sources))
    case None => []
  }

  /** With stateless rules under an active context, in terms of text, statements and registered rules:
      an argument that rewrites refuses the call, ungrammatical text is a parser failure, and otherwise
      the first rule in registration order that rejects the first rejected statement is named. */
  ghost predicate Decides(adv: Adversary, cfg: Config, decide: Decision, r: Request, reply: Reply) {
    var grammatical, statements := '\0' !in r.sql && adv.backend(r.sql).Some?, StatementsOf(adv, r.sql);
    if Rewrites(r.arguments) then reply == Refused
    else if !grammatical then reply == Denied(ParseFailed)
    else
      && (AllAllowed(decide, cfg.rules, statements) <==> reply.Responded?)
      && forall i, j :: FirstRejection(decide, cfg.rules, statements, i, j) ==> reply == Denied(Violation(cfg.rules[j].ruleID))
  }

  lemma PlainReplyIsDecided(adv: Adversary, cfg: Config, t: Trace, r: Request, decide: Decision)
    requires Stateless(adv, decide) && Active(adv, r.ctx)
    ensures Decides(adv, cfg, decide, r, PlainCall(adv, cfg, t, r).1)
  {
    var begun := Begun(t, r);
    var _ := PrepareIsAccounted(adv, cfg, begun, r.ctx, r.sql);
    var (mid, preparation) := PrepareRun(adv, cfg, begun, r.ctx, r.sql);
    if preparation.Ready? {
      StatelessVerdict(adv, cfg, mid, r.ctx, preparation.prepared, decide);
    }
  }

  lemma CachedReplyIsDecided(adv: Adversary, cfg: Config, limits: Limits, t: Trace, entries: Entries, r: Request, decide: Decision)
    requires Stateless(adv, decide) && Active(adv, r.ctx) && Faithful(adv, entries)
    ensures Decides(adv, cfg, decide, r, CachedCall(adv, cfg, limits, t, entries, r).2)
  {
    match Find(entries, r.sql)
    case Some(prepared) =>
      assert Entry(r.sql, prepared) in entries;
      StatelessVerdict(adv, cfg, Begun(t, r), r.ctx, prepared, decide);
    case None =>
      MissIsDirect(adv, cfg, limits, Begun(t, r), entries, r.ctx, r.sql);
      PlainReplyIsDecided(adv, cfg, t, r, decide);
  }

  /** Rule `j` is the first in registration order for which source statement `i` is unsafe, and no
      earlier statement is unsafe for any rule. */
  ghost predicate FirstUnsafe(safe: (RuleRef, Conversion.Message) -> bool, rules: seq<RegisteredRule>,
                              sources: seq<Conversion.Message>, i: nat, j: nat) {
    && i < |sources| && j < |rules|
    && !safe(rules[j].rule, sources[i])
    && (forall l :: 0 <= l < j ==> safe(rules[l].rule, sources[i]))
    && forall k, l :: 0 <= k < i && 0 <= l < |rules| ==> safe(rules[l].rule, sources[k])
  }

  ghost function SafeBy(builtIn: RuleRef -> BuiltIn): (RuleRef, Conversion.Message) -> bool {
    (rule: RuleRef, m: Conversion.Message) => Safe(builtIn(rule), m)
  }

  /** With built-in rules, unsafe text is denied with the identifier of the first rule for which the
      first unsafe source statement is unsafe, by either guard. */
  lemma UnsafeTextIsDenied(adv: Adversary, cfg: Config, limits: Limits, t: Trace, entries: Entries, r: Request,
                           builtIn: RuleRef -> BuiltIn, i: nat, j: nat)
    requires Stateless(adv, Deciding(builtIn)) && Active(adv, r.ctx) && Faithful(adv, entries)
    requires !Rewrites(r.arguments) && '\0' !in r.sql && adv.backend(r.sql).Some?
    requires FirstUnsafe(SafeBy(builtIn), cfg.rules, Correspondence.BatchStatements(adv.backend(r.sql).value), i, j)
    ensures CachedCall(adv, cfg, limits, t, entries, r).2 == Denied(Violation(cfg.rules[j].ruleID))
    ensures PlainCall(adv, cfg, t, r).1 == Denied(Violation(cfg.rules[j].ruleID))
  {
    UnsafeIsRejected(adv, cfg.rules, r.sql, builtIn, i, j);
    CachedReplyIsDecided(adv, cfg, limits, t, entries, r, Deciding(builtIn));
    PlainReplyIsDecided(adv, cfg, t, r, Deciding(builtIn));
  }

  lemma UnsafeIsRejected(adv: Adversary, rules: seq<RegisteredRule>, sql: string, builtIn: RuleRef -> BuiltIn, i: nat, j: nat)
    requires adv.backend(sql).Some? && FirstUnsafe(SafeBy(builtIn), rules, Correspondence.BatchStatements(adv.backend(sql).value), i, j)
    ensures FirstRejection(Deciding(builtIn), rules, StatementsOf(adv, sql), i, j)
  {
    var nodes, sources := StatementsOf(adv, sql), Correspondence.BatchStatements(adv.backend(sql).value);
    SafetyDecides(adv, sql, builtIn);
    Transferred(Deciding(builtIn), SafeBy(builtIn), rules, nodes, sources, i, j);
  }

  lemma SafetyDecides(adv: Adversary, sql: string, builtIn: RuleRef -> BuiltIn)
    requires adv.backend(sql).Some?
    ensures SameDecisions(Deciding(builtIn), SafeBy(builtIn), StatementsOf(adv, sql), Correspondence.BatchStatements(adv.backend(sql).value))
  {
    var sources := adv.backend(sql).value;
    Correspondence.BatchCommutes(sources);
    BatchIsConcrete(sources);
    PermitsIffSafeEverywhere(builtIn, StatementsOf(adv, sql), Correspondence.BatchStatements(sources));
  }

  ghost predicate SameDecisions(decide: Decision, safe: (RuleRef, Conversion.Message) -> bool, nodes: seq<Node>, sources: seq<Conversion.Message>) {
    |nodes| == |sources| && forall i, rule :: 0 <= i < |nodes| ==> decide(rule, nodes[i]) == safe(rule, sources[i])
  }

  lemma Transferred(decide: Decision, safe: (RuleRef, Conversion.Message) -> bool, rules: seq<RegisteredRule>,
                    nodes: seq<Node>, sources: seq<Conversion.Message>, i: nat, j: nat)
    requires SameDecisions(decide, safe, nodes, sources) && FirstUnsafe(safe, rules, sources, i, j)
    ensures FirstRejection(decide, rules, nodes, i, j)
  {
  }

  /** A sole rule for which a sole statement is unsafe. */
  lemma SoleRuleDenies(adv: Adversary, cfg: Config, limits: Limits, t: Trace, entries: Entries, r: Request,
                       builtIn: RuleRef -> BuiltIn, rule: RuleRef, m: Conversion.Message)
    requires Stateless(adv, Deciding(builtIn)) && Active(adv, r.ctx) && Faithful(adv, entries)
    requires !Rewrites(r.arguments) && '\0' !in r.sql && adv.backend(r.sql).Some?
    requires cfg.rules == [RegisteredRule(ID(builtIn(rule)), rule)]
    requires Correspondence.BatchStatements(adv.backend(r.sql).value) == [m] && !Safe(builtIn(rule), m)
    ensures CachedCall(adv, cfg, limits, t, entries, r).2 == Denied(Violation(ID(builtIn(rule))))
    ensures PlainCall(adv, cfg, t, r).1 == Denied(Violation(ID(builtIn(rule))))
  {
    assert SafeBy(builtIn)(rule, m) == Safe(builtIn(rule), m);
    UnsafeTextIsDenied(adv, cfg, limits, t, entries, r, builtIn, 0, 0);
  }

  /** For one, a DROP TABLE: its object type is entry 42 of the schema's table. */
  lemma DropTableIsDenied(adv: Adversary, cfg: Config, limits: Limits, t: Trace, entries: Entries, r: Request,
                          builtIn: RuleRef -> BuiltIn, rule: RuleRef)
    requires Stateless(adv, Deciding(builtIn)) && Active(adv, r.ctx) && Faithful(adv, entries)
    requires builtIn(rule) == DenyDropTable && cfg.rules == [RegisteredRule(ID(DenyDropTable), rule)]
    requires !Rewrites(r.arguments) && '\0' !in r.sql && adv.backend(r.sql) == Some([Some(DropTable())])
    ensures CachedCall(adv, cfg, limits, t, entries, r).2 == Denied(Violation("deny_drop_table"))
    ensures PlainCall(adv, cfg, t, r).1 == Denied(Violation("deny_drop_table"))
  {
    DropTableIsReached();
    TableIsNotSafe();
    SoleRuleDenies(adv, cfg, limits, t, entries, r, builtIn, rule, DropTable());
  }

  function DropTable(): Conversion.Message {
    var objectType := Conversion.EnumKind([Conversion.EnumEntry(42, "OBJECT_TABLE")], 42);
    Conversion.Message(true, "pg_query.DropStmt", "DropStmt", [Conversion.Slot("remove_type", Some(Conversion.One(objectType)))])
  }

  lemma DropTableIsReached()
    ensures Correspondence.BatchStatements([Some(DropTable())]) == [DropTable()]
  {
    var drop, sources := DropTable(), [Some(DropTable())];
    NothingDeclared(drop);
    assert sources[1..] == [] && Correspondence.BatchStatements([]) == [];
    assert Correspondence.SourceRoot(sources[0]) == [drop];
  }

  lemma {:induction false} NothingDeclared(drop: Conversion.Message)
    requires drop == DropTable()
    ensures Correspondence.SourceStatements(drop) == [drop]
  {
    assert Conversion.SlotContent(drop.slots[1..], "with_clause") == None;
    assert Conversion.SlotContent(drop.slots, "with_clause") == None;
    Correspondence.SourceStatementsUnfold(drop);
  }

  lemma TableIsNotSafe()
    ensures !Safe(DenyDropTable, DropTable())
  {
    var table := [Conversion.EnumEntry(42, "OBJECT_TABLE")];
    assert table[0] == Conversion.EnumEntry(42, "OBJECT_TABLE");
    assert Conversion.Names(table, 42, "OBJECT_TABLE");
  }

  /** With built-in rules and an active context, a call reaches the database iff its text is safe and
      it has no rewriting argument, cached or not. */
  lemma ForwardedIffSafe(adv: Adversary, cfg: Config, limits: Limits, t: Trace, entries: Entries, r: Request, builtIn: RuleRef -> BuiltIn)
    requires Stateless(adv, Deciding(builtIn)) && Active(adv, r.ctx) && Faithful(adv, entries)
    ensures var (_, after, reply) := CachedCall(adv, cfg, limits, t, entries, r);
            && (reply.Responded? <==> !Rewrites(r.arguments) && SafeSql(adv, cfg, builtIn, r.sql))
            && Faithful(adv, after)
  {
    FaithfulKept(adv, cfg, limits, Begun(t, r), entries, r.ctx, r.sql);
    var _ := CallForwards(adv, cfg, limits, t, entries, r);
    match Find(entries, r.sql)
    case Some(prepared) =>
      assert Entry(r.sql, prepared) in entries;
      PreparedAcceptedIffSafe(adv, cfg, Begun(t, r), r.ctx, r.sql, builtIn);
    case None =>
      SqlAcceptedIffSafe(adv, cfg, Begun(t, r), r.ctx, r.sql, builtIn);
  }

  ghost function SafeRequests(adv: Adversary, cfg: Config, builtIn: RuleRef -> BuiltIn, rs: seq<Request>): seq<Request> {
    if rs == [] then []
    else (if !Rewrites(rs[0].arguments) && SafeSql(adv, cfg, builtIn, rs[0].sql) then [rs[0]] else [])
         + SafeRequests(adv, cfg, builtIn, rs[1..])
  }

  /** Over any sequence of guarded calls, the database receives exactly the safe requests, in order,
      whatever the cache holds back, evicts or reuses and whatever sinks and database answer. */
  lemma {:induction false} DatabaseReceivesExactlySafeRequests(adv: Adversary, cfg: Config, limits: Limits, t: Trace, entries: Entries,
                                                               rs: seq<Request>, builtIn: RuleRef -> BuiltIn)
    returns (steps: Trace)
    requires Stateless(adv, Deciding(builtIn)) && Faithful(adv, entries)
    requires forall i :: 0 <= i < |rs| ==> Active(adv, rs[i].ctx)
    ensures CachedCalls(adv, cfg, limits, t, entries, rs).0 == t + steps
    ensures Forwarded(steps) == SafeRequests(adv, cfg, builtIn, rs)
    decreases |rs|
  {
    if rs == [] {
      steps := [];
    } else {
      var (mid, after, reply) := CachedCall(adv, cfg, limits, t, entries, rs[0]);
      var head := CallForwards(adv, cfg, limits, t, entries, rs[0]);
      ForwardedIffSafe(adv, cfg, limits, t, entries, rs[0], builtIn);
      var tail := DatabaseReceivesExactlySafeRequests(adv, cfg, limits, mid, after, rs[1..], builtIn);
      steps := head + tail;
      AppendAssociative(t, head, tail);
      ForwardedConcat(head, tail);
    }
  }

  /* ----- the parses a cache saves ----- */

  /** Two guards that differ only in capacity, after the same calls: whenever the next call runs the
      grammar with the larger cache, it does so with the smaller one. */
  lemma LargerCacheNeverParsesMore(adv: Adversary, cfg: Config, c: nat, d: nat, maxSQLBytes: nat,
                                   t: Trace, u: Trace, rs: seq<Request>, r: Request)
    returns (small: Trace, large: Trace)
    requires Steady(adv) && Observable(t) == Observable(u) && 0 < c <= d
    ensures var (t', less, _) := CachedCalls(adv, cfg, Limits(c, maxSQLBytes), t, [], rs);
            CachedCall(adv, cfg, Limits(c, maxSQLBytes), t', less, r).0 == t' + small
    ensures var (u', more, _) := CachedCalls(adv, cfg, Limits(d, maxSQLBytes), u, [], rs);
            CachedCall(adv, cfg, Limits(d, maxSQLBytes), u', more, r).0 == u' + large
    ensures RanGrammar(large) ==> RanGrammar(small)
  {
    var (t', less, _) := CachedCalls(adv, cfg, Limits(c, maxSQLBytes), t, [], rs);
    var (u', more, _) := CachedCalls(adv, cfg, Limits(d, maxSQLBytes), u, [], rs);
    small := CallForwards(adv, cfg, Limits(c, maxSQLBytes), t', less, r);
    large := CallForwards(adv, cfg, Limits(d, maxSQLBytes), u', more, r);
    GuardListsAreNested(adv, cfg, c, d, maxSQLBytes, t, u, rs);
    if r.sql in Keys(less) {
      SubMember(Keys(less), Keys(more), r.sql);
    }
    CachedGuardRefinesPlain(adv, cfg, Limits(c, maxSQLBytes), t, u, [], rs);
    CachedGuardRefinesPlain(adv, cfg, Limits(d, maxSQLBytes), u, u, [], rs);
    SameContext(adv, t', u', r);
  }

  lemma {:induction false} SameContext(adv: Adversary, t: Trace, u: Trace, r: Request)
    requires Steady(adv) && Observable(t) == Observable(u)
    ensures adv.contextErr(Begun(t, r), r.ctx) == adv.contextErr(Begun(u, r), r.ctx)
  {
    ObservableSnoc(t, Began(r.operation, r.ctx, r.sql, r.arguments));
    ObservableSnoc(u, Began(r.operation, r.ctx, r.sql, r.arguments));
    assert SameAnswers(adv, Begun(t, r), Begun(u, r));
  }

  /** After a call that hit or inserted a text, and any calls with other texts, the next call with it
      runs the grammar iff those calls hit or inserted at least `capacity` distinct keys and its
      context is live. */
  lemma NextCallParsesIff(adv: Adversary, cfg: Config, limits: Limits, t: Trace, entries: Entries,
                          rs: seq<Request>, r: Request)
    returns (steps: Trace)
    requires Wf(limits.capacity, Keys(entries)) && entries != [] && entries[0].key == r.sql && !Rewrites(r.arguments)
    requires forall i :: 0 <= i < |rs| ==> rs[i].sql != r.sql
    ensures var (t', after, replies) := CachedCalls(adv, cfg, limits, t, entries, rs);
            && CachedCall(adv, cfg, limits, t', after, r).0 == t' + steps
            && |replies| == |rs|
            && (RanGrammar(steps) <==>
                |Touched(limits.capacity, Keys(entries), OpsOf(limits.maxSQLBytes, rs, replies))| >= limits.capacity
                && adv.contextErr(Begun(t', r), r.ctx).None?)
  {
    var (t', after, _) := CachedCalls(adv, cfg, limits, t, entries, rs);
    steps := CallForwards(adv, cfg, limits, t', after, r);
    StillCachedIff(adv, cfg, limits, t, entries, r.sql, rs);
  }

  /** With at most `capacity` texts short enough to be kept, a text once cached is never parsed again. */
  lemma WorkingSetIsParsedOnce(adv: Adversary, cfg: Config, limits: Limits, t: Trace, entries: Entries,
                               eligible: set<string>, rs: seq<Request>, r: Request)
    returns (steps: Trace)
    requires Wf(limits.capacity, Keys(entries)) && |eligible| <= limits.capacity
    requires forall k :: k in Keys(entries) ==> k in eligible
    requires forall i :: 0 <= i < |rs| && |rs[i].sql| <= limits.maxSQLBytes ==> rs[i].sql in eligible
    requires Find(entries, r.sql).Some?
    ensures var (t', after, _) := CachedCalls(adv, cfg, limits, t, entries, rs);
            CachedCall(adv, cfg, limits, t', after, r).0 == t' + steps && !RanGrammar(steps)
  {
    var (t', after, _) := CachedCalls(adv, cfg, limits, t, entries, rs);
    steps := CallForwards(adv, cfg, limits, t', after, r);
    WorkingSetStaysCached(adv, cfg, limits, t, entries, eligible, r.sql, rs);
  }

  /* ----- the built-in rules can be registered ----- */

  ghost predicate BuiltIns(rules: seq<RuleValue>, chosen: seq<BuiltIn>) {
    |rules| == |chosen| && forall i :: 0 <= i < |rules| ==> rules[i].RuleValue? && rules[i].id == ID(chosen[i])
  }

  /** Any choice of built-in rules without repetition, in any order, is acceptable; a repeated one is not. */
  lemma BuiltInsAreAcceptable(rules: seq<RuleValue>, chosen: seq<BuiltIn>)
    requires BuiltIns(rules, chosen)
    ensures Acceptable(rules) <==> Distinct(chosen)
  {
    forall i | 0 <= i < |rules|
      ensures WellFormed(rules[i].id)
    {
      IdentifierIsWellFormed(chosen[i]);
    }
    forall i, j | 0 <= i < j < |rules|
      ensures rules[i].id != rules[j].id <==> chosen[i] != chosen[j]
    {
      IdentifiersDiffer(chosen[i], chosen[j]);
    }
  }

  lemma IdentifierIsWellFormed(rule: BuiltIn)
    ensures WellFormed(ID(rule))
  {
    if rule.UpdateRequiresWhere? || rule.DeleteRequiresWhere? || rule.InsertRequiresColumns? {
      RequirementIsWellFormed(rule);
    }
  }

  lemma RequirementIsWellFormed(rule: BuiltIn)
    requires rule.UpdateRequiresWhere? || rule.DeleteRequiresWhere? || rule.InsertRequiresColumns?
    ensures WellFormed(ID(rule))
  {
  }

  lemma IdentifiersDiffer(a: BuiltIn, b: BuiltIn)
    ensures ID(a) == ID(b) <==> a == b
  {
    assert a != b ==> |ID(a)| != |ID(b)| || ID(a)[0] != ID(b)[0];
  }
}
