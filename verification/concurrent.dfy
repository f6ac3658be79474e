/** The concurrent protocol with the engine as validator and the built-in rules registered. */
module Concurrent {
  import opened Common
  import opened Cache
  import opened Engine
  import opened Protocol
  import opened Verdicts
  import opened Policies
  import Conversion
  import Correspondence
  import Guard
  import Statements
  import World

  /** A preparation that succeeds returns the parse of the call's own text, and a verdict is what the
      engine answers for the value held, at some moment under some context. Preparations may fail and
      contexts may expire at any time. */
  ghost predicate EngineAnswers(adv: World.Adversary, cfg: Config, s: System, l: Label)
    requires Enabled(s, l)
  {
    match l
    case Prepare(c, outcome) =>
      outcome.Some? ==> IsParse(adv, s.calls[c].sql, outcome.value)
    case Validate(c, verdict) =>
      exists t, ctx :: verdict == VerdictOf(ValidateRun(adv, cfg, t, ctx, s.calls[c].prepared).error)
    case _ => true
  }

  predicate IsParse(adv: World.Adversary, sql: string, prepared: Prepared) {
    Conversion.Parsed(adv.backend, sql).Some? && prepared == Prepared(Conversion.Parsed(adv.backend, sql))
  }

  ghost predicate EngineLegal(adv: World.Adversary, cfg: Config, s: System, labels: seq<Label>)
    decreases |labels|
  {
    labels == [] || (Enabled(s, labels[0]) && EngineAnswers(adv, cfg, s, labels[0]) && EngineLegal(adv, cfg, Apply(s, labels[0]), labels[1..]))
  }

  lemma {:induction false} EngineLegalIsLegal(adv: World.Adversary, cfg: Config, s: System, labels: seq<Label>)
    requires EngineLegal(adv, cfg, s, labels)
    ensures Legal(s, labels)
    decreases |labels|
  {
    if labels != [] {
      EngineLegalIsLegal(adv, cfg, Apply(s, labels[0]), labels[1..]);
    }
  }

  /** What the engine's answers add to the history. */
  ghost predicate EngineEvent(adv: World.Adversary, cfg: Config, e: Event) {
    match e
    case PreparedAs(_, sql, prepared) => IsParse(adv, sql, prepared)
    case Validated(_, _, prepared, verdict) =>
      exists t, ctx :: verdict == VerdictOf(ValidateRun(adv, cfg, t, ctx, prepared).error)
    case Executed(_, _) => true
  }

  ghost predicate EngineHistory(adv: World.Adversary, cfg: Config, h: seq<Event>) {
    forall i :: 0 <= i < |h| ==> EngineEvent(adv, cfg, h[i])
  }

  lemma StepKeepsEngineHistory(adv: World.Adversary, cfg: Config, s: System, l: Label)
    requires Enabled(s, l) && EngineAnswers(adv, cfg, s, l) && EngineHistory(adv, cfg, s.history)
    ensures EngineHistory(adv, cfg, Apply(s, l).history)
  {
    var h, h' := s.history, Apply(s, l).history;
    assert forall i :: 0 <= i < |h| ==> h'[i] == h[i];
  }

  lemma {:induction false} RunKeepsEngineHistory(adv: World.Adversary, cfg: Config, s: System, labels: seq<Label>)
    requires EngineLegal(adv, cfg, s, labels) && Legal(s, labels) && EngineHistory(adv, cfg, s.history)
    ensures EngineHistory(adv, cfg, After(s, labels).history)
    decreases |labels|
  {
    if labels != [] {
      StepKeepsEngineHistory(adv, cfg, s, labels[0]);
      RunKeepsEngineHistory(adv, cfg, Apply(s, labels[0]), labels[1..]);
    }
  }

  /** Whatever the context does, stateless rules let a run succeed only if they allow every pair. */
  lemma {:induction false} SuccessAllowsAll(adv: World.Adversary, cfg: Config, t: World.Trace, ctx: World.Context,
                                            pairs: seq<Pair>, decide: Decision)
    requires Stateless(adv, decide) && RulesRun(adv, cfg, t, ctx, pairs).error.None?
    ensures PairsAllowed(decide, pairs)
    decreases |pairs|
  {
    if pairs != [] {
      var checked := t + [World.Checked(ctx, None)];
      var step := World.Evaluated(ctx, pairs[0].registration.rule, pairs[0].statement, true);
      assert adv.contextErr(t, ctx) == None;
      assert Allows(decide, pairs[0]);
      SuccessAllowsAll(adv, cfg, checked + [step], ctx, pairs[1..], decide);
      assert forall i :: 0 < i < |pairs| ==> pairs[i] == pairs[1..][i - 1];
    }
  }

  lemma AcceptedParseIsSafe(adv: World.Adversary, cfg: Config, t: World.Trace, ctx: World.Context,
                            sql: string, prepared: Prepared, builtIn: World.RuleRef -> BuiltIn)
    requires Stateless(adv, Deciding(builtIn)) && IsParse(adv, sql, prepared)
    requires ValidateRun(adv, cfg, t, ctx, prepared).error.None?
    ensures SafeSql(adv, cfg, builtIn, sql)
  {
    var sources := adv.backend(sql).value;
    var statements := Statements.FlattenAll(Conversion.ConvertedStatements(sources));
    SuccessAllowsAll(adv, cfg, t + [World.Checked(ctx, None)], ctx, Pairs(statements, cfg.rules), Deciding(builtIn));
    PairsAllowedIff(Deciding(builtIn), cfg.rules, statements);
    Correspondence.BatchCommutes(sources);
    BatchIsConcrete(sources);
    AllowedIffSafe(builtIn, cfg.rules, statements, Correspondence.BatchStatements(sources));
  }

  /** In every interleaving of any number of calls on one cache, under contexts that may expire at any
      time, every text that reaches the database is safe for every registered rule. */
  lemma {:induction false} EveryInterleavingForwardsSafeSql(adv: World.Adversary, cfg: Config, limits: Guard.Limits,
                                                            labels: seq<Label>, builtIn: World.RuleRef -> BuiltIn)
    requires Stateless(adv, Deciding(builtIn)) && 0 < limits.capacity
    requires EngineLegal(adv, cfg, Initial(limits), labels)
    ensures Legal(Initial(limits), labels)
    ensures var h := After(Initial(limits), labels).history;
            forall i :: 0 <= i < |h| && h[i].Executed? ==> SafeSql(adv, cfg, builtIn, h[i].sql)
  {
    EngineLegalIsLegal(adv, cfg, Initial(limits), labels);
    EveryInterleavingIsSafe(limits, labels);
    RunKeepsEngineHistory(adv, cfg, Initial(limits), labels);
    var h := After(Initial(limits), labels).history;
    forall i | 0 <= i < |h| && h[i].Executed?
      ensures SafeSql(adv, cfg, builtIn, h[i].sql)
    {
      ClearedIsSafe(adv, cfg, h, i, h[i].call, h[i].sql, builtIn);
    }
  }

  lemma ClearedIsSafe(adv: World.Adversary, cfg: Config, h: seq<Event>, n: nat, c: CallId, sql: string,
                      builtIn: World.RuleRef -> BuiltIn)
    requires n <= |h| && Stateless(adv, Deciding(builtIn)) && EngineHistory(adv, cfg, h) && Cleared(h, n, c, sql)
    ensures SafeSql(adv, cfg, builtIn, sql)
  {
    var v, p :| 0 <= v < n && h[v] == Validated(c, sql, p, Accepted) && PreparedBefore(h, v, sql, p);
    var q, d :| 0 <= q < v && h[q] == PreparedAs(d, sql, p);
    assert EngineEvent(adv, cfg, h[q]) && EngineEvent(adv, cfg, h[v]);
    var t, ctx :| Accepted == VerdictOf(ValidateRun(adv, cfg, t, ctx, p).error);
    AcceptedParseIsSafe(adv, cfg, t, ctx, sql, p, builtIn);
  }

  /* ----- contexts that stay live ----- */

  /** The cache holds parses only, whatever contexts do. */
  lemma EntriesAreParses(adv: World.Adversary, cfg: Config, s: System)
    requires CacheSafe(s) && EngineHistory(adv, cfg, s.history)
    ensures forall e :: e in s.cache ==> IsParse(adv, e.key, e.prepared)
  {
    forall e | e in s.cache
      ensures IsParse(adv, e.key, e.prepared)
    {
      assert Earned(s.history, e);
      var c, verdict :| Cacheable(verdict) && JudgedAs(s.history, c, e.key, e.prepared, verdict);
      var q, v :| 0 <= q < v < |s.history| && s.history[q] == PreparedAs(c, e.key, e.prepared)
                  && s.history[v] == Validated(c, e.key, e.prepared, verdict);
      assert EngineEvent(adv, cfg, s.history[q]);
    }
  }

  lemma {:induction false} EveryEntryIsAParse(adv: World.Adversary, cfg: Config, limits: Guard.Limits, labels: seq<Label>)
    requires 0 < limits.capacity && EngineLegal(adv, cfg, Initial(limits), labels)
    ensures Legal(Initial(limits), labels)
    ensures forall e :: e in After(Initial(limits), labels).cache ==> IsParse(adv, e.key, e.prepared)
  {
    EngineLegalIsLegal(adv, cfg, Initial(limits), labels);
    EveryInterleavingIsSafe(limits, labels);
    RunKeepsEngineHistory(adv, cfg, Initial(limits), labels);
    EntriesAreParses(adv, cfg, After(Initial(limits), labels));
  }

  /** The same answers under contexts that stay live: a preparation fails only on text that is not
      grammatical. */
  ghost predicate LiveAnswers(adv: World.Adversary, cfg: Config, s: System, l: Label)
    requires Enabled(s, l)
  {
    match l
    case Prepare(c, outcome) =>
      if outcome.Some? then IsParse(adv, s.calls[c].sql, outcome.value) else Conversion.Parsed(adv.backend, s.calls[c].sql).None?
    case Validate(c, verdict) =>
      exists t, ctx :: Active(adv, ctx) && verdict == VerdictOf(ValidateRun(adv, cfg, t, ctx, s.calls[c].prepared).error)
    case _ => true
  }

  ghost predicate LiveLegal(adv: World.Adversary, cfg: Config, s: System, labels: seq<Label>)
    decreases |labels|
  {
    labels == [] || (Enabled(s, labels[0]) && LiveAnswers(adv, cfg, s, labels[0]) && LiveLegal(adv, cfg, Apply(s, labels[0]), labels[1..]))
  }

  lemma {:induction false} LiveLegalIsEngineLegal(adv: World.Adversary, cfg: Config, s: System, labels: seq<Label>)
    requires LiveLegal(adv, cfg, s, labels)
    ensures EngineLegal(adv, cfg, s, labels)
    decreases |labels|
  {
    if labels != [] {
      LiveLegalIsEngineLegal(adv, cfg, Apply(s, labels[0]), labels[1..]);
    }
  }

  /** How far a call has got decides what is known of its text. */
  ghost predicate OnCourse(adv: World.Adversary, cfg: Config, builtIn: World.RuleRef -> BuiltIn, h: seq<Event>, c: CallId, phase: Phase) {
    match phase
    case Holding(sql, prepared, _) => IsParse(adv, sql, prepared)
    case Judged(sql, _, verdict) => verdict == Accepted <==> SafeSql(adv, cfg, builtIn, sql)
    case Passed(sql) => SafeSql(adv, cfg, builtIn, sql)
    case Over(sql) => Executed(c, sql) in h <==> SafeSql(adv, cfg, builtIn, sql)
    case _ => true
  }

  ghost predicate AllOnCourse(adv: World.Adversary, cfg: Config, builtIn: World.RuleRef -> BuiltIn, s: System) {
    forall c :: c in s.calls ==> OnCourse(adv, cfg, builtIn, s.history, c, s.calls[c])
  }

  /** A step of one call leaves what is known of the others. */
  lemma OthersStayOnCourse(adv: World.Adversary, cfg: Config, builtIn: World.RuleRef -> BuiltIn, s: System, l: Label)
    requires Enabled(s, l) && AllOnCourse(adv, cfg, builtIn, s)
    requires OnCourse(adv, cfg, builtIn, Apply(s, l).history, l.call, Apply(s, l).calls[l.call])
    ensures AllOnCourse(adv, cfg, builtIn, Apply(s, l))
  {
    var s' := Apply(s, l);
    forall c | c in s'.calls && c != l.call
      ensures OnCourse(adv, cfg, builtIn, s'.history, c, s'.calls[c])
    {
      assert OnCourse(adv, cfg, builtIn, s.history, c, s.calls[c]);
      if s.calls[c].Over? {
        assert Executed(c, s.calls[c].sql) in s'.history <==> Executed(c, s.calls[c].sql) in s.history;
      }
    }
  }

  lemma StepStaysOnCourse(adv: World.Adversary, cfg: Config, builtIn: World.RuleRef -> BuiltIn, s: System, l: Label)
    requires Stateless(adv, Deciding(builtIn)) && Inv(s) && EngineHistory(adv, cfg, s.history)
    requires AllOnCourse(adv, cfg, builtIn, s) && Enabled(s, l) && LiveAnswers(adv, cfg, s, l)
    ensures AllOnCourse(adv, cfg, builtIn, Apply(s, l))
  {
    var c := l.call;
    assert c in s.calls ==> OnCourse(adv, cfg, builtIn, s.history, c, s.calls[c]) && PhaseSafe(s.history, c, s.calls[c]);
    match l {
      case Lookup(_) =>
        EntriesAreParses(adv, cfg, s);
        if Find(s.cache, s.calls[c].sql).Some? {
          assert Entry(s.calls[c].sql, Find(s.cache, s.calls[c].sql).value) in s.cache;
        }
      case Prepare(_, outcome) =>
        if outcome.None? {
          UngrammaticalIsNotSafe(adv, cfg, builtIn, s.calls[c].sql);
        }
      case Validate(_, verdict) =>
        var t, ctx :| Active(adv, ctx) && verdict == VerdictOf(ValidateRun(adv, cfg, t, ctx, s.calls[c].prepared).error);
        PreparedAcceptedIffSafe(adv, cfg, t, ctx, s.calls[c].sql, builtIn);
      case _ =>
    }
    OthersStayOnCourse(adv, cfg, builtIn, s, l);
  }

  lemma UngrammaticalIsNotSafe(adv: World.Adversary, cfg: Config, builtIn: World.RuleRef -> BuiltIn, sql: string)
    requires Conversion.Parsed(adv.backend, sql).None?
    ensures !SafeSql(adv, cfg, builtIn, sql)
  {
  }

  lemma {:induction false} RunStaysOnCourse(adv: World.Adversary, cfg: Config, builtIn: World.RuleRef -> BuiltIn, s: System, labels: seq<Label>)
    requires Stateless(adv, Deciding(builtIn)) && Inv(s) && EngineHistory(adv, cfg, s.history)
    requires AllOnCourse(adv, cfg, builtIn, s) && LiveLegal(adv, cfg, s, labels) && Legal(s, labels)
    ensures AllOnCourse(adv, cfg, builtIn, After(s, labels))
    decreases |labels|
  {
    if labels != [] {
      assert EngineAnswers(adv, cfg, s, labels[0]);
      StepKeepsInv(s, labels[0]);
      StepKeepsEngineHistory(adv, cfg, s, labels[0]);
      StepStaysOnCourse(adv, cfg, builtIn, s, labels[0]);
      RunStaysOnCourse(adv, cfg, builtIn, Apply(s, labels[0]), labels[1..]);
    }
  }

  /** In every interleaving under contexts that stay live, a finished call has reached the database
      with its text iff that text is safe for every registered rule. */
  lemma {:induction false} FinishedCallsForwardIffSafe(adv: World.Adversary, cfg: Config, limits: Guard.Limits, labels: seq<Label>,
                                                       builtIn: World.RuleRef -> BuiltIn)
    requires Stateless(adv, Deciding(builtIn)) && 0 < limits.capacity
    requires LiveLegal(adv, cfg, Initial(limits), labels)
    ensures Legal(Initial(limits), labels)
    ensures var s := After(Initial(limits), labels);
            forall c :: c in s.calls && s.calls[c].Over? ==>
                          (Executed(c, s.calls[c].sql) in s.history <==> SafeSql(adv, cfg, builtIn, s.calls[c].sql))
  {
    LiveLegalIsEngineLegal(adv, cfg, Initial(limits), labels);
    EngineLegalIsLegal(adv, cfg, Initial(limits), labels);
    assert Inv(Initial(limits));
    RunStaysOnCourse(adv, cfg, builtIn, Initial(limits), labels);
    var s := After(Initial(limits), labels);
    assert forall c :: c in s.calls ==> OnCourse(adv, cfg, builtIn, s.history, c, s.calls[c]);
  }
}
