/** When the cached guard can be told from the plain one: exactly when a context answers differently
    once the parse is at hand. */
module Refinement {
  import opened Common
  import opened World
  import opened Engine
  import opened Cache
  import opened Guard
  import opened Outcomes
  import opened Runs
  import Conversion
  import Statements
  import Tree

  /** What the two guards must agree on: every step except context checks and runs of the grammar. */
  function Observable(t: Trace): Trace {
    if t == [] then [] else (if Hidden(t[0]) then [] else [t[0]]) + Observable(t[1..])
  }

  predicate Hidden(step: Step) {
    step.Checked? || step.Grammar?
  }

  /** Rules, sinks and the database answer alike. */
  ghost predicate SameServices(adv: Adversary, t: Trace, u: Trace) {
    && (forall rule, ctx, statement :: adv.evaluate(t, rule, ctx, statement) == adv.evaluate(u, rule, ctx, statement))
    && (forall sink, event :: adv.record(t, sink, event) == adv.record(u, sink, event))
    && forall operation, ctx, sql, arguments ::
         adv.execute(t, operation, ctx, sql, arguments) == adv.execute(u, operation, ctx, sql, arguments)
  }

  /** Contexts that answered alike still do after this step. */
  ghost predicate MovesAlike(adv: Adversary, t: Trace, u: Trace, step: Step) {
    forall ctx :: adv.contextErr(t, ctx) == adv.contextErr(u, ctx) ==> adv.contextErr(t + [step], ctx) == adv.contextErr(u + [step], ctx)
  }

  /** Rules, sinks and the database do not count checks and parses; a check moves no context; and a
      visible step moves a context alike wherever it answered alike. Otherwise everything may keep any
      state, and while the grammar runs contexts may do anything. */
  ghost predicate Paced(adv: Adversary) {
    && (forall t, u :: Observable(t) == Observable(u) ==> SameServices(adv, t, u))
    && (forall t, c, failure, ctx :: adv.contextErr(t + [Checked(c, failure)], ctx) == adv.contextErr(t, ctx))
    && forall t, u, step :: Observable(t) == Observable(u) && !Hidden(step) ==> MovesAlike(adv, t, u, step)
  }

  lemma {:induction false} ObservableConcat(a: Trace, b: Trace)
    ensures Observable(a + b) == Observable(a) + Observable(b)
  {
    if a == [] {
      assert a + b == b;
    } else {
      assert (a + b)[1..] == a[1..] + b;
      ObservableConcat(a[1..], b);
      AppendAssociative(if Hidden(a[0]) then [] else [a[0]], Observable(a[1..]), Observable(b));
    }
  }

  lemma {:induction false} ObservableSnoc(t: Trace, step: Step)
    ensures Observable(t + [step]) == Observable(t) + if Hidden(step) then [] else [step]
  {
    ObservableConcat(t, [step]);
    assert [step][1..] == [];
  }

  datatype Watched = Nobody | Only(ctx: Context) | Everyone

  predicate Watches(watched: Watched, ctx: Context) {
    watched.Everyone? || watched == Only(ctx)
  }

  /** Traces that look alike, after which the watched contexts answer alike. */
  ghost predicate Matched(adv: Adversary, watched: Watched, t: Trace, u: Trace) {
    Observable(t) == Observable(u) && forall ctx :: Watches(watched, ctx) ==> adv.contextErr(t, ctx) == adv.contextErr(u, ctx)
  }

  lemma {:induction false} CheckMovesNothing(adv: Adversary, t: Trace, c: Context, failure: Option<ContextError>)
    requires Paced(adv)
    ensures Observable(t + [Checked(c, failure)]) == Observable(t)
    ensures forall ctx :: adv.contextErr(t + [Checked(c, failure)], ctx) == adv.contextErr(t, ctx)
  {
    ObservableSnoc(t, Checked(c, failure));
  }

  lemma CheckedBoth(adv: Adversary, watched: Watched, t: Trace, u: Trace, c: Context, failure: Option<ContextError>)
    requires Paced(adv) && Matched(adv, watched, t, u)
    ensures Matched(adv, watched, t + [Checked(c, failure)], u + [Checked(c, failure)])
  {
    CheckMovesNothing(adv, t, c, failure);
    CheckMovesNothing(adv, u, c, failure);
  }

  lemma VisibleBoth(adv: Adversary, watched: Watched, t: Trace, u: Trace, step: Step)
    requires Paced(adv) && Matched(adv, watched, t, u) && !Hidden(step)
    ensures Matched(adv, watched, t + [step], u + [step])
  {
    ObservableSnoc(t, step);
    ObservableSnoc(u, step);
    assert MovesAlike(adv, t, u, step);
  }

  /* ----- runs from matched traces ----- */

  /** Runs that look alike. */
  predicate Alike(a: Run, b: Run) {
    a.error == b.error && Observable(a.trace) == Observable(b.trace)
  }

  ghost predicate MatchedRuns(adv: Adversary, watched: Watched, a: Run, b: Run) {
    a.error == b.error && Matched(adv, watched, a.trace, b.trace)
  }

  lemma ToldBoth(adv: Adversary, watched: Watched, enabled: bool, sink: Sink, t: Trace, u: Trace, event: Event)
    requires Paced(adv) && Matched(adv, watched, t, u)
    ensures Matched(adv, watched, Told(adv, enabled, sink, t, event), Told(adv, enabled, sink, u, event))
  {
    assert SameServices(adv, t, u);
    VisibleBoth(adv, watched, t, u, Emitted(sink, event, adv.record(t, sink, event)));
  }

  lemma FinishBoth(adv: Adversary, cfg: Config, watched: Watched, t: Trace, u: Trace, outcome: Outcome, ruleID: string, error: Option<Error>)
    requires Paced(adv) && Matched(adv, watched, t, u)
    ensures MatchedRuns(adv, watched, Finish(adv, cfg, t, outcome, ruleID, error), Finish(adv, cfg, u, outcome, ruleID, error))
  {
    var event := NewEvent(outcome, ruleID);
    ToldBoth(adv, watched, cfg.metrics, Metrics, t, u, event);
    ToldBoth(adv, watched, cfg.logger, Logger, Told(adv, cfg.metrics, Metrics, t, event), Told(adv, cfg.metrics, Metrics, u, event), event);
  }

  lemma EvaluatedBoth(adv: Adversary, watched: Watched, t: Trace, u: Trace, rule: RuleRef, ctx: Context, statement: Tree.Node)
    requires Paced(adv) && Matched(adv, watched, t, u)
    ensures adv.evaluate(t, rule, ctx, statement) == adv.evaluate(u, rule, ctx, statement)
    ensures var step := Evaluated(ctx, rule, statement, adv.evaluate(t, rule, ctx, statement));
            Matched(adv, watched, t + [step], u + [step])
  {
    assert SameServices(adv, t, u);
    VisibleBoth(adv, watched, t, u, Evaluated(ctx, rule, statement, adv.evaluate(t, rule, ctx, statement)));
  }

  lemma {:induction false} RulesBoth(adv: Adversary, cfg: Config, watched: Watched, t: Trace, u: Trace, ctx: Context, pairs: seq<Pair>)
    requires Paced(adv) && Matched(adv, watched, t, u) && Watches(watched, ctx)
    ensures MatchedRuns(adv, watched, RulesRun(adv, cfg, t, ctx, pairs), RulesRun(adv, cfg, u, ctx, pairs))
    decreases |pairs|
  {
    if pairs == [] {
      FinishBoth(adv, cfg, watched, t, u, Allowed, "", None);
    } else {
      var failure := adv.contextErr(t, ctx);
      var t', u' := t + [Checked(ctx, failure)], u + [Checked(ctx, failure)];
      CheckedBoth(adv, watched, t, u, ctx, failure);
      if failure.Some? {
        FinishBoth(adv, cfg, watched, t', u', CanceledOutcome, "", Some(ContextFailed(failure.value)));
      } else {
        var Pair(statement, registration) := pairs[0];
        EvaluatedBoth(adv, watched, t', u', registration.rule, ctx, statement);
        var allowed := adv.evaluate(t', registration.rule, ctx, statement);
        var step := Evaluated(ctx, registration.rule, statement, allowed);
        if allowed {
          RulesBoth(adv, cfg, watched, t' + [step], u' + [step], ctx, pairs[1..]);
        } else {
          FinishBoth(adv, cfg, watched, t' + [step], u' + [step], PolicyViolation, registration.ruleID, Some(Violation(registration.ruleID)));
        }
      }
    }
  }

  lemma ValidateBoth(adv: Adversary, cfg: Config, watched: Watched, t: Trace, u: Trace, ctx: Context, prepared: Prepared)
    requires Paced(adv) && Matched(adv, watched, t, u) && Watches(watched, ctx)
    ensures MatchedRuns(adv, watched, ValidateRun(adv, cfg, t, ctx, prepared), ValidateRun(adv, cfg, u, ctx, prepared))
  {
    var failure := adv.contextErr(t, ctx);
    var t', u' := t + [Checked(ctx, failure)], u + [Checked(ctx, failure)];
    CheckedBoth(adv, watched, t, u, ctx, failure);
    if failure.Some? {
      FinishBoth(adv, cfg, watched, t', u', CanceledOutcome, "", Some(ContextFailed(failure.value)));
    } else if prepared.result.None? {
      FinishBoth(adv, cfg, watched, t', u', InvalidPreparedOutcome, "", Some(InvalidPrepared));
    } else {
      RulesBoth(adv, cfg, watched, t', u', ctx, PreparedPairs(cfg, prepared));
    }
  }

  /* ----- one validation, with or without a remembered parse ----- */

  /** Validating a text: on a hit its remembered parse, otherwise the text itself. */
  function Attempt(adv: Adversary, cfg: Config, t: Trace, ctx: Context, sql: string, hit: bool): Run {
    if hit then ValidateRun(adv, cfg, t, ctx, Prepared(Conversion.Parsed(adv.backend, sql))) else DirectRun(adv, cfg, t, ctx, sql)
  }

  function AfterGrammar(t: Trace, ctx: Context, sql: string): Trace {
    t + [Checked(ctx, None)] + [Grammar(sql)]
  }

  /** The trace at which the parse is at hand, or will not be needed. */
  function AtHand(adv: Adversary, t: Trace, ctx: Context, sql: string, hit: bool): Trace {
    if hit || adv.contextErr(t, ctx).Some? then t else AfterGrammar(t, ctx, sql)
  }

  /** The context's answer then: it decides whether anything is validated. */
  function AnswerAtHand(adv: Adversary, t: Trace, ctx: Context, sql: string, hit: bool): Option<ContextError> {
    adv.contextErr(AtHand(adv, t, ctx, sql, hit), ctx)
  }

  lemma {:induction false} AtHandLooksAlike(adv: Adversary, t: Trace, ctx: Context, sql: string, hit: bool)
    ensures Observable(AtHand(adv, t, ctx, sql, hit)) == Observable(t)
  {
    ObservableSnoc(t, Checked(ctx, None));
    ObservableSnoc(t + [Checked(ctx, None)], Grammar(sql));
  }

  function Stopped(adv: Adversary, cfg: Config, t: Trace, ctx: Context, failure: ContextError): Run {
    Finish(adv, cfg, t + [Checked(ctx, Some(failure))], CanceledOutcome, "", Some(ContextFailed(failure)))
  }

  /** From there on, hit or miss, a validation does the same, up to one more check. */
  lemma AttemptFromAtHand(adv: Adversary, cfg: Config, t: Trace, ctx: Context, sql: string, hit: bool)
    returns (start: Trace)
    requires hit ==> Conversion.Parsed(adv.backend, sql).Some?
    ensures var p, answer, result := AtHand(adv, t, ctx, sql, hit), AnswerAtHand(adv, t, ctx, sql, hit), Conversion.Parsed(adv.backend, sql);
            && (start == p || start == p + [Checked(ctx, None)])
            && Attempt(adv, cfg, t, ctx, sql, hit) ==
               if answer.Some? then Stopped(adv, cfg, p, ctx, answer.value)
               else if result.None? then Finish(adv, cfg, p + [Checked(ctx, None)], ParserFailure, "", Some(ParseFailed))
               else ValidateRun(adv, cfg, start, ctx, Prepared(result))
  {
    var p := AtHand(adv, t, ctx, sql, hit);
    start := if hit then p else p + [Checked(ctx, None)];
  }

  lemma AttemptsMatch(adv: Adversary, cfg: Config, watched: Watched, t: Trace, u: Trace, ctx: Context, sql: string, a: bool, b: bool)
    requires Paced(adv) && Watches(watched, ctx) && (a || b ==> Conversion.Parsed(adv.backend, sql).Some?)
    requires Matched(adv, watched, AtHand(adv, t, ctx, sql, a), AtHand(adv, u, ctx, sql, b))
    ensures MatchedRuns(adv, watched, Attempt(adv, cfg, t, ctx, sql, a), Attempt(adv, cfg, u, ctx, sql, b))
  {
    var p, q := AtHand(adv, t, ctx, sql, a), AtHand(adv, u, ctx, sql, b);
    var start := AttemptFromAtHand(adv, cfg, t, ctx, sql, a);
    var start' := AttemptFromAtHand(adv, cfg, u, ctx, sql, b);
    var answer := AnswerAtHand(adv, t, ctx, sql, a);
    CheckedBoth(adv, watched, p, q, ctx, answer);
    if answer.Some? {
      FinishBoth(adv, cfg, watched, p + [Checked(ctx, answer)], q + [Checked(ctx, answer)], CanceledOutcome, "", Some(ContextFailed(answer.value)));
    } else if Conversion.Parsed(adv.backend, sql).None? {
      FinishBoth(adv, cfg, watched, p + [Checked(ctx, None)], q + [Checked(ctx, None)], ParserFailure, "", Some(ParseFailed));
    } else {
      CheckMovesNothing(adv, p, ctx, None);
      CheckMovesNothing(adv, q, ctx, None);
      ValidateBoth(adv, cfg, watched, start, start', ctx, Prepared(Conversion.Parsed(adv.backend, sql)));
    }
  }

  /* ----- runs that cannot be confused any more ----- */

  /** The `n`-th visible step is the evaluation of a rule. */
  predicate EvaluatesAt(n: nat, t: Trace) {
    n < |Observable(t)| && Observable(t)[n].Evaluated?
  }

  /** What may follow without passing for an evaluation. */
  predicate NoEvaluationFirst(steps: Trace) {
    steps == [] || (!Hidden(steps[0]) && !steps[0].Evaluated?)
  }

  lemma {:induction false} EvaluatesAtStays(n: nat, t: Trace, steps: Trace)
    requires n <= |Observable(t)| && NoEvaluationFirst(steps)
    ensures EvaluatesAt(n, t + steps) == EvaluatesAt(n, t) && n <= |Observable(t + steps)|
  {
    ObservableConcat(t, steps);
  }

  lemma {:induction false} EvaluatesFrom(t: Trace, step: Step, steps: Trace)
    requires step.Evaluated?
    ensures EvaluatesAt(|Observable(t)|, (t + [step]) + steps) && |Observable(t)| <= |Observable((t + [step]) + steps)|
  {
    ObservableSnoc(t, step);
    ObservableConcat(t + [step], steps);
  }

  /** One of two traces evaluates a rule where the other does something else or ends. */
  ghost predicate Parted(n: nat, t: Trace, u: Trace) {
    n <= |Observable(t)| && n <= |Observable(u)| && EvaluatesAt(n, t) != EvaluatesAt(n, u)
  }

  /** A validation whose context has failed by then evaluates nothing. */
  lemma {:induction false} StoppedEvaluatesNothing(adv: Adversary, cfg: Config, t: Trace, ctx: Context, failure: ContextError)
    ensures var n, run := |Observable(t)|, Stopped(adv, cfg, t, ctx, failure);
            n <= |Observable(run.trace)| && !EvaluatesAt(n, run.trace)
  {
    var checked := t + [Checked(ctx, Some(failure))];
    ObservableSnoc(t, Checked(ctx, Some(failure)));
    var steps := FinishReports(adv, cfg, checked, CanceledOutcome, "", Some(ContextFailed(failure)));
    EvaluatesAtStays(|Observable(t)|, checked, steps);
  }

  /** With a live context a validation does not fail by it before it has evaluated a rule. */
  lemma {:induction false} LiveEvaluatesFirst(adv: Adversary, cfg: Config, t: Trace, ctx: Context, prepared: Prepared)
    requires Paced(adv) && adv.contextErr(t, ctx).None? && prepared.result.Some?
    ensures var n, run := |Observable(t)|, ValidateRun(adv, cfg, t, ctx, prepared);
            run.error.None? || (n <= |Observable(run.trace)| && EvaluatesAt(n, run.trace))
  {
    var pairs := PreparedPairs(cfg, prepared);
    if pairs != [] {
      var checked := t + [Checked(ctx, None)];
      var again := checked + [Checked(ctx, None)];
      CheckMovesNothing(adv, t, ctx, None);
      CheckMovesNothing(adv, checked, ctx, None);
      var Pair(statement, registration) := pairs[0];
      var allowed := adv.evaluate(again, registration.rule, ctx, statement);
      var step := Evaluated(ctx, registration.rule, statement, allowed);
      var steps;
      if allowed {
        steps := RulesRunIsExact(adv, cfg, again + [step], ctx, pairs[1..]);
      } else {
        steps := FinishReports(adv, cfg, again + [step], PolicyViolation, registration.ruleID, Some(Violation(registration.ruleID)));
      }
      assert ValidateRun(adv, cfg, t, ctx, prepared).trace == (again + [step]) + steps;
      EvaluatesFrom(again, step, steps);
    }
  }

  /** When the context's answers differ, the runs do, in their results or in what they evaluate. */
  lemma {:induction false} AttemptsPart(adv: Adversary, cfg: Config, t: Trace, u: Trace, ctx: Context, sql: string, a: bool, b: bool)
    requires Paced(adv) && Observable(t) == Observable(u) && (a || b ==> Conversion.Parsed(adv.backend, sql).Some?)
    requires AnswerAtHand(adv, t, ctx, sql, a) != AnswerAtHand(adv, u, ctx, sql, b)
    ensures var x, y := Attempt(adv, cfg, t, ctx, sql, a), Attempt(adv, cfg, u, ctx, sql, b);
            x.error != y.error || Parted(|Observable(t)|, x.trace, y.trace)
  {
    if AnswerAtHand(adv, t, ctx, sql, a).Some? {
      StoppedOrLive(adv, cfg, t, u, ctx, sql, a, b);
    } else {
      StoppedOrLive(adv, cfg, u, t, ctx, sql, b, a);
    }
  }

  lemma {:induction false} StoppedOrLive(adv: Adversary, cfg: Config, t: Trace, u: Trace, ctx: Context, sql: string, a: bool, b: bool)
    requires Paced(adv) && Observable(t) == Observable(u) && (a || b ==> Conversion.Parsed(adv.backend, sql).Some?)
    requires AnswerAtHand(adv, t, ctx, sql, a).Some? && AnswerAtHand(adv, t, ctx, sql, a) != AnswerAtHand(adv, u, ctx, sql, b)
    ensures var x, y := Attempt(adv, cfg, t, ctx, sql, a), Attempt(adv, cfg, u, ctx, sql, b);
            x.error != y.error || Parted(|Observable(t)|, x.trace, y.trace)
  {
    var _ := AttemptFromAtHand(adv, cfg, t, ctx, sql, a);
    var start := AttemptFromAtHand(adv, cfg, u, ctx, sql, b);
    var p, q := AtHand(adv, t, ctx, sql, a), AtHand(adv, u, ctx, sql, b);
    AtHandLooksAlike(adv, t, ctx, sql, a);
    AtHandLooksAlike(adv, u, ctx, sql, b);
    var answer := AnswerAtHand(adv, t, ctx, sql, a);
    StoppedEvaluatesNothing(adv, cfg, p, ctx, answer.value);
    if AnswerAtHand(adv, u, ctx, sql, b).None? && Conversion.Parsed(adv.backend, sql).Some? {
      CheckMovesNothing(adv, q, ctx, None);
      LiveEvaluatesFirst(adv, cfg, start, ctx, Prepared(Conversion.Parsed(adv.backend, sql)));
    }
  }

  /** Two validations of a text from traces that look alike, with or without a remembered parse, look
      alike iff the context gives both the same answer once the parse is at hand. */
  lemma {:induction false} AttemptsAlikeIff(adv: Adversary, cfg: Config, t: Trace, u: Trace, ctx: Context, sql: string, a: bool, b: bool)
    requires Paced(adv) && Observable(t) == Observable(u) && (a || b ==> Conversion.Parsed(adv.backend, sql).Some?)
    ensures Alike(Attempt(adv, cfg, t, ctx, sql, a), Attempt(adv, cfg, u, ctx, sql, b)) <==>
            AnswerAtHand(adv, t, ctx, sql, a) == AnswerAtHand(adv, u, ctx, sql, b)
  {
    if AnswerAtHand(adv, t, ctx, sql, a) == AnswerAtHand(adv, u, ctx, sql, b) {
      AtHandLooksAlike(adv, t, ctx, sql, a);
      AtHandLooksAlike(adv, u, ctx, sql, b);
      AttemptsMatch(adv, cfg, Only(ctx), t, u, ctx, sql, a, b);
    } else {
      AttemptsPart(adv, cfg, t, u, ctx, sql, a, b);
    }
  }

  /** The context is live when parsing begins and not when it ends. */
  predicate ExpiresInParse(adv: Adversary, t: Trace, ctx: Context, sql: string) {
    adv.contextErr(t, ctx).None? && adv.contextErr(AfterGrammar(t, ctx, sql), ctx).Some?
  }

  /** Validating a remembered parse looks like preparing and validating its text iff the context does
      not expire in that preparation's parse. */
  lemma HitAlikeIff(adv: Adversary, cfg: Config, t: Trace, u: Trace, ctx: Context, sql: string)
    requires Paced(adv) && Matched(adv, Only(ctx), t, u) && Conversion.Parsed(adv.backend, sql).Some?
    ensures Alike(ValidateRun(adv, cfg, t, ctx, Prepared(Conversion.Parsed(adv.backend, sql))), DirectRun(adv, cfg, u, ctx, sql)) <==>
            !ExpiresInParse(adv, u, ctx, sql)
  {
    AttemptsAlikeIff(adv, cfg, t, u, ctx, sql, true, false);
    assert Watches(Only(ctx), ctx);
  }

  /* ----- one call ----- */

  /** Every entry is what preparing its key gives. */
  ghost predicate Faithful(adv: Adversary, entries: Entries) {
    forall e :: e in entries ==> Conversion.Parsed(adv.backend, e.key).Some? && e.prepared == Prepared(Conversion.Parsed(adv.backend, e.key))
  }

  predicate Hits(entries: Entries, sql: string) {
    Find(entries, sql).Some?
  }

  lemma CheckIsAttempt(adv: Adversary, cfg: Config, limits: Limits, t: Trace, entries: Entries, ctx: Context, sql: string)
    requires Faithful(adv, entries)
    ensures CachedRun(adv, cfg, limits, t, entries, ctx, sql).0 == Attempt(adv, cfg, t, ctx, sql, Hits(entries, sql))
    ensures Hits(entries, sql) ==> Conversion.Parsed(adv.backend, sql).Some?
  {
    if Hits(entries, sql) {
      assert Entry(sql, Find(entries, sql).value) in entries;
    }
  }

  lemma FaithfulKept(adv: Adversary, cfg: Config, limits: Limits, t: Trace, entries: Entries, ctx: Context, sql: string)
    requires Faithful(adv, entries)
    ensures Faithful(adv, CachedRun(adv, cfg, limits, t, entries, ctx, sql).1)
  {
    if Find(entries, sql).None? {
      var _ := PrepareIsAccounted(adv, cfg, t, ctx, sql);
    }
  }

  /** The context's answers that decide a call, in the cached and in the plain guard. */
  predicate AnswersAgree(adv: Adversary, t: Trace, u: Trace, entries: Entries, r: Request) {
    AnswerAtHand(adv, Begun(t, r), r.ctx, r.sql, Hits(entries, r.sql)) == AnswerAtHand(adv, Begun(u, r), r.ctx, r.sql, false)
  }

  /** Hit or miss, a check through the cache looks like the plain one iff the answers agree. */
  lemma {:induction false} CheckAlikeIff(adv: Adversary, cfg: Config, limits: Limits, t: Trace, u: Trace, entries: Entries, ctx: Context, sql: string)
    requires Paced(adv) && Observable(t) == Observable(u) && Faithful(adv, entries)
    ensures var (run, after) := CachedRun(adv, cfg, limits, t, entries, ctx, sql);
            && (Alike(run, DirectRun(adv, cfg, u, ctx, sql)) <==>
                AnswerAtHand(adv, t, ctx, sql, Hits(entries, sql)) == AnswerAtHand(adv, u, ctx, sql, false))
            && Faithful(adv, after)
  {
    CheckIsAttempt(adv, cfg, limits, t, entries, ctx, sql);
    AttemptsAlikeIff(adv, cfg, t, u, ctx, sql, Hits(entries, sql), false);
    FaithfulKept(adv, cfg, limits, t, entries, ctx, sql);
  }

  lemma {:induction false} BegunLooksAlike(t: Trace, u: Trace, r: Request)
    requires Observable(t) == Observable(u)
    ensures Observable(Begun(t, r)) == Observable(Begun(u, r))
  {
    ObservableSnoc(t, Began(r.operation, r.ctx, r.sql, r.arguments));
    ObservableSnoc(u, Began(r.operation, r.ctx, r.sql, r.arguments));
  }

  lemma DelegatedBoth(adv: Adversary, watched: Watched, a: Run, b: Run, r: Request)
    requires Paced(adv) && MatchedRuns(adv, watched, a, b)
    ensures Delegated(adv, a, r).1 == Delegated(adv, b, r).1
    ensures Matched(adv, watched, Delegated(adv, a, r).0, Delegated(adv, b, r).0)
  {
    assert SameServices(adv, a.trace, b.trace);
    VisibleBoth(adv, watched, a.trace, b.trace,
                Executed(r.operation, r.ctx, r.sql, r.arguments, adv.execute(a.trace, r.operation, r.ctx, r.sql, r.arguments)));
  }

  lemma DelegatedParted(adv: Adversary, n: nat, a: Run, b: Run, r: Request)
    requires a.error != b.error || Parted(n, a.trace, b.trace)
    ensures Delegated(adv, a, r).1 != Delegated(adv, b, r).1 || Parted(n, Delegated(adv, a, r).0, Delegated(adv, b, r).0)
  {
    if a.error == b.error {
      EvaluatesAtStays(n, a.trace, [Executed(r.operation, r.ctx, r.sql, r.arguments, adv.execute(a.trace, r.operation, r.ctx, r.sql, r.arguments))]);
      EvaluatesAtStays(n, b.trace, [Executed(r.operation, r.ctx, r.sql, r.arguments, adv.execute(b.trace, r.operation, r.ctx, r.sql, r.arguments))]);
    }
  }

  /** A call that the answers of its context do not tell apart. */
  lemma {:induction false} CallAlike(adv: Adversary, cfg: Config, limits: Limits, t: Trace, u: Trace, entries: Entries, r: Request)
    requires Paced(adv) && Observable(t) == Observable(u) && Faithful(adv, entries)
    requires Rewrites(r.arguments) || AnswersAgree(adv, t, u, entries, r)
    ensures var (t', after, reply) := CachedCall(adv, cfg, limits, t, entries, r);
            var (u', plain) := PlainCall(adv, cfg, u, r);
            reply == plain && Observable(t') == Observable(u') && Faithful(adv, after)
  {
    BegunLooksAlike(t, u, r);
    if !Rewrites(r.arguments) {
      CheckAlikeIff(adv, cfg, limits, Begun(t, r), Begun(u, r), entries, r.ctx, r.sql);
      DelegatedBoth(adv, Nobody, CachedRun(adv, cfg, limits, Begun(t, r), entries, r.ctx, r.sql).0,
                    DirectRun(adv, cfg, Begun(u, r), r.ctx, r.sql), r);
    }
  }

  /** A call that they do tell apart, for good. */
  lemma {:induction false} CallParts(adv: Adversary, cfg: Config, limits: Limits, t: Trace, u: Trace, entries: Entries, r: Request)
    requires Paced(adv) && Observable(t) == Observable(u) && Faithful(adv, entries)
    requires !Rewrites(r.arguments) && !AnswersAgree(adv, t, u, entries, r)
    ensures var (t', _, reply) := CachedCall(adv, cfg, limits, t, entries, r);
            var (u', plain) := PlainCall(adv, cfg, u, r);
            reply != plain || Parted(|Observable(Begun(t, r))|, t', u')
  {
    BegunLooksAlike(t, u, r);
    CheckIsAttempt(adv, cfg, limits, Begun(t, r), entries, r.ctx, r.sql);
    AttemptsPart(adv, cfg, Begun(t, r), Begun(u, r), r.ctx, r.sql, Hits(entries, r.sql), false);
    DelegatedParted(adv, |Observable(Begun(t, r))|, CachedRun(adv, cfg, limits, Begun(t, r), entries, r.ctx, r.sql).0,
                    DirectRun(adv, cfg, Begun(u, r), r.ctx, r.sql), r);
  }

  /* ----- sequences of calls ----- */

  ghost function PlainCalls(adv: Adversary, cfg: Config, t: Trace, rs: seq<Request>): (Trace, seq<Reply>)
    decreases |rs|
  {
    if rs == [] then (t, [])
    else
      var (mid, reply) := PlainCall(adv, cfg, t, rs[0]);
      var (end, rest) := PlainCalls(adv, cfg, mid, rs[1..]);
      (end, [reply] + rest)
  }

  ghost function CachedCalls(adv: Adversary, cfg: Config, limits: Limits, t: Trace, entries: Entries, rs: seq<Request>): (Trace, Entries, seq<Reply>)
    decreases |rs|
  {
    if rs == [] then (t, entries, [])
    else
      var (mid, after, reply) := CachedCall(adv, cfg, limits, t, entries, rs[0]);
      var (end, last, rest) := CachedCalls(adv, cfg, limits, mid, after, rs[1..]);
      (end, last, [reply] + rest)
  }

  /** Whatever calls do, they only add steps, and the first is the beginning of a call. */
  predicate BeginsCalls(steps: Trace) {
    steps == [] || steps[0].Began?
  }

  lemma DirectRunExtends(adv: Adversary, cfg: Config, t: Trace, ctx: Context, sql: string)
    returns (steps: Trace)
    ensures DirectRun(adv, cfg, t, ctx, sql).trace == t + steps
  {
    var (mid, preparation) := PrepareRun(adv, cfg, t, ctx, sql);
    steps := PrepareIsAccounted(adv, cfg, t, ctx, sql);
    if preparation.Ready? {
      var tail := ValidationIsExact(adv, cfg, mid, ctx, preparation.prepared);
      AppendAssociative(t, steps, tail);
      steps := steps + tail;
    }
  }

  /** On a miss the cached guard prepares and validates, as the plain one does. */
  lemma MissIsDirect(adv: Adversary, cfg: Config, limits: Limits, t: Trace, entries: Entries, ctx: Context, sql: string)
    requires !Hits(entries, sql)
    ensures CachedRun(adv, cfg, limits, t, entries, ctx, sql).0 == DirectRun(adv, cfg, t, ctx, sql)
  {
  }

  lemma CachedRunExtends(adv: Adversary, cfg: Config, limits: Limits, t: Trace, entries: Entries, ctx: Context, sql: string)
    returns (steps: Trace)
    ensures CachedRun(adv, cfg, limits, t, entries, ctx, sql).0.trace == t + steps
  {
    match Find(entries, sql)
    case Some(prepared) =>
      steps := ValidationIsExact(adv, cfg, t, ctx, prepared);
    case None =>
      MissIsDirect(adv, cfg, limits, t, entries, ctx, sql);
      steps := DirectRunExtends(adv, cfg, t, ctx, sql);
  }

  lemma DelegatedExtends(adv: Adversary, t: Trace, run: Run, steps: Trace, r: Request)
    returns (all: Trace)
    requires run.trace == Begun(t, r) + steps
    ensures Delegated(adv, run, r).0 == t + all && BeginsCalls(all)
  {
    var start := [Began(r.operation, r.ctx, r.sql, r.arguments)];
    var last := if run.error.Some? then []
                else [Executed(r.operation, r.ctx, r.sql, r.arguments, adv.execute(run.trace, r.operation, r.ctx, r.sql, r.arguments))];
    all := start + (steps + last);
    assert run.trace + last == t + all;
    assert run.trace + [] == run.trace;
  }

  lemma {:induction false} PlainCallsExtend(adv: Adversary, cfg: Config, t: Trace, rs: seq<Request>)
    returns (steps: Trace)
    ensures PlainCalls(adv, cfg, t, rs).0 == t + steps && BeginsCalls(steps)
    decreases |rs|
  {
    steps := [];
    if rs != [] {
      var r := rs[0];
      var head := [Began(r.operation, r.ctx, r.sql, r.arguments)];
      if !Rewrites(r.arguments) {
        var check := DirectRunExtends(adv, cfg, Begun(t, r), r.ctx, r.sql);
        head := DelegatedExtends(adv, t, DirectRun(adv, cfg, Begun(t, r), r.ctx, r.sql), check, r);
      }
      var tail := PlainCallsExtend(adv, cfg, t + head, rs[1..]);
      AppendAssociative(t, head, tail);
      steps := head + tail;
      StartsWith(head, tail);
    }
  }

  lemma StartsWith(head: Trace, tail: Trace)
    requires BeginsCalls(head) && BeginsCalls(tail)
    ensures BeginsCalls(head + tail)
  {
  }

  lemma {:induction false} CachedCallsExtend(adv: Adversary, cfg: Config, limits: Limits, t: Trace, entries: Entries, rs: seq<Request>)
    returns (steps: Trace)
    ensures CachedCalls(adv, cfg, limits, t, entries, rs).0 == t + steps && BeginsCalls(steps)
    decreases |rs|
  {
    steps := [];
    if rs != [] {
      var r := rs[0];
      var head := [Began(r.operation, r.ctx, r.sql, r.arguments)];
      if !Rewrites(r.arguments) {
        var check := CachedRunExtends(adv, cfg, limits, Begun(t, r), entries, r.ctx, r.sql);
        head := DelegatedExtends(adv, t, CachedRun(adv, cfg, limits, Begun(t, r), entries, r.ctx, r.sql).0, check, r);
      }
      var tail := CachedCallsExtend(adv, cfg, limits, t + head, CachedCall(adv, cfg, limits, t, entries, r).1, rs[1..]);
      AppendAssociative(t, head, tail);
      steps := head + tail;
      StartsWith(head, tail);
    }
  }

  /** The same replies, and in the same order the same rule evaluations, sink events and database calls. */
  ghost predicate Indistinguishable(adv: Adversary, cfg: Config, limits: Limits, t: Trace, u: Trace, entries: Entries, rs: seq<Request>) {
    && CachedCalls(adv, cfg, limits, t, entries, rs).2 == PlainCalls(adv, cfg, u, rs).1
    && Observable(CachedCalls(adv, cfg, limits, t, entries, rs).0) == Observable(PlainCalls(adv, cfg, u, rs).0)
  }

  /** In every call the answers that decide it agree. */
  ghost predicate AllAnswersAgree(adv: Adversary, cfg: Config, limits: Limits, t: Trace, u: Trace, entries: Entries, rs: seq<Request>)
    decreases |rs|
  {
    rs == [] ||
    (&& (Rewrites(rs[0].arguments) || AnswersAgree(adv, t, u, entries, rs[0]))
     && var (t', after, _) := CachedCall(adv, cfg, limits, t, entries, rs[0]);
        AllAnswersAgree(adv, cfg, limits, t', PlainCall(adv, cfg, u, rs[0]).0, after, rs[1..]))
  }

  /** Traces that have parted stay apart, whatever calls follow. */
  lemma {:induction false} PartedStays(adv: Adversary, cfg: Config, limits: Limits, n: nat, t: Trace, u: Trace, entries: Entries, rs: seq<Request>)
    requires Parted(n, t, u)
    ensures Observable(CachedCalls(adv, cfg, limits, t, entries, rs).0) != Observable(PlainCalls(adv, cfg, u, rs).0)
  {
    var steps := CachedCallsExtend(adv, cfg, limits, t, entries, rs);
    var steps' := PlainCallsExtend(adv, cfg, u, rs);
    EvaluatesAtStays(n, t, steps);
    EvaluatesAtStays(n, u, steps');
  }

  /** Over any sequence of calls nobody can tell the two guards apart iff in every call its context
      gives both the same answer once the parse is at hand. */
  lemma {:induction false} GuardsAlikeIff(adv: Adversary, cfg: Config, limits: Limits, t: Trace, u: Trace, entries: Entries, rs: seq<Request>)
    requires Paced(adv) && Observable(t) == Observable(u) && Faithful(adv, entries)
    ensures Indistinguishable(adv, cfg, limits, t, u, entries, rs) <==> AllAnswersAgree(adv, cfg, limits, t, u, entries, rs)
    decreases |rs|
  {
    if rs != [] {
      var (t', after, reply) := CachedCall(adv, cfg, limits, t, entries, rs[0]);
      var (u', plain) := PlainCall(adv, cfg, u, rs[0]);
      FirstReply(adv, cfg, limits, t, u, entries, rs);
      if Rewrites(rs[0].arguments) || AnswersAgree(adv, t, u, entries, rs[0]) {
        CallAlike(adv, cfg, limits, t, u, entries, rs[0]);
        GuardsAlikeIff(adv, cfg, limits, t', u', after, rs[1..]);
      } else {
        CallParts(adv, cfg, limits, t, u, entries, rs[0]);
        if reply == plain {
          PartedStays(adv, cfg, limits, |Observable(Begun(t, rs[0]))|, t', u', after, rs[1..]);
        }
      }
    }
  }

  lemma FirstReply(adv: Adversary, cfg: Config, limits: Limits, t: Trace, u: Trace, entries: Entries, rs: seq<Request>)
    requires rs != []
    ensures var (t', after, reply) := CachedCall(adv, cfg, limits, t, entries, rs[0]);
            var (u', plain) := PlainCall(adv, cfg, u, rs[0]);
            Indistinguishable(adv, cfg, limits, t, u, entries, rs) <==>
            reply == plain && Indistinguishable(adv, cfg, limits, t', u', after, rs[1..])
  {
    var (t', after, reply) := CachedCall(adv, cfg, limits, t, entries, rs[0]);
    var (u', plain) := PlainCall(adv, cfg, u, rs[0]);
    var rest, rest' := CachedCalls(adv, cfg, limits, t', after, rs[1..]).2, PlainCalls(adv, cfg, u', rs[1..]).1;
    assert ([reply] + rest)[1..] == rest && ([plain] + rest')[1..] == rest';
    assert ([reply] + rest)[0] == reply && ([plain] + rest')[0] == plain;
  }

  /* ----- hits whose context expires in the plain guard's parse ----- */

  /** A parse ends at most the context of its own call, and does so alike. */
  ghost predicate PrivateParses(adv: Adversary) {
    && (forall t, c, sql, ctx :: ctx != c ==> adv.contextErr(AfterGrammar(t, c, sql), ctx) == adv.contextErr(t, ctx))
    && forall t, u, sql, ctx :: Observable(t) == Observable(u) && adv.contextErr(t, ctx) == adv.contextErr(u, ctx) ==>
         adv.contextErr(AfterGrammar(t, ctx, sql), ctx) == adv.contextErr(AfterGrammar(u, ctx, sql), ctx)
  }

  /** Whether the reply shows that a miss was inserted. */
  predicate Admitted(maxSQLBytes: nat, r: Request, reply: Reply) {
    |r.sql| <= maxSQLBytes && (reply.Responded? || (reply.Denied? && reply.error.Violation?))
  }

  /** What the plain guard's reply leaves in a cache. */
  function Kept(adv: Adversary, limits: Limits, entries: Entries, r: Request, reply: Reply): Entries {
    if reply.Refused? then entries
    else if Hits(entries, r.sql) then Looked(entries, r.sql)
    else if Admitted(limits.maxSQLBytes, r, reply) then Inserted(entries, r.sql, Prepared(Conversion.Parsed(adv.backend, r.sql)), limits.capacity)
    else entries
  }

  /** In the plain guard's run, no call expires in its parse whose text a cache would hold. */
  ghost predicate NoHitExpires(adv: Adversary, cfg: Config, limits: Limits, u: Trace, entries: Entries, rs: seq<Request>)
    decreases |rs|
  {
    rs == [] ||
    (&& (Hits(entries, rs[0].sql) && !Rewrites(rs[0].arguments) ==> !ExpiresInParse(adv, Begun(u, rs[0]), rs[0].ctx, rs[0].sql))
     && var (u', reply) := PlainCall(adv, cfg, u, rs[0]);
        NoHitExpires(adv, cfg, limits, u', Kept(adv, limits, entries, rs[0], reply), rs[1..]))
  }

  lemma CallKeeps(adv: Adversary, cfg: Config, limits: Limits, t: Trace, entries: Entries, r: Request)
    ensures var (_, after, reply) := CachedCall(adv, cfg, limits, t, entries, r);
            after == Kept(adv, limits, entries, r, reply)
  {
    if !Rewrites(r.arguments) && Find(entries, r.sql).None? {
      var _ := PrepareIsAccounted(adv, cfg, Begun(t, r), r.ctx, r.sql);
    }
  }

  /** If all contexts answer alike before a call, the answers that decide it agree unless it is a hit
      that expires in the plain guard's parse, and then all contexts answer alike with the parse at hand. */
  lemma HitsDecide(adv: Adversary, t: Trace, u: Trace, ctx: Context, sql: string, hit: bool)
    requires PrivateParses(adv) && Matched(adv, Everyone, t, u)
    ensures AnswerAtHand(adv, t, ctx, sql, hit) == AnswerAtHand(adv, u, ctx, sql, false) <==> !(hit && ExpiresInParse(adv, u, ctx, sql))
    ensures !(hit && ExpiresInParse(adv, u, ctx, sql)) ==>
              Matched(adv, Everyone, AtHand(adv, t, ctx, sql, hit), AtHand(adv, u, ctx, sql, false))
  {
    AtHandLooksAlike(adv, t, ctx, sql, hit);
    AtHandLooksAlike(adv, u, ctx, sql, false);
    assert Watches(Everyone, ctx);
    assert adv.contextErr(t, ctx) == adv.contextErr(u, ctx);
    forall c | Watches(Everyone, c) && !(hit && ExpiresInParse(adv, u, ctx, sql))
      ensures adv.contextErr(AtHand(adv, t, ctx, sql, hit), c) == adv.contextErr(AtHand(adv, u, ctx, sql, false), c)
    {
      assert adv.contextErr(t, c) == adv.contextErr(u, c);
    }
  }

  lemma CallMatches(adv: Adversary, cfg: Config, limits: Limits, t: Trace, u: Trace, entries: Entries, r: Request)
    requires Paced(adv) && PrivateParses(adv) && Matched(adv, Everyone, t, u) && Faithful(adv, entries)
    ensures Rewrites(r.arguments) || (AnswersAgree(adv, t, u, entries, r) <==>
                                      !(Hits(entries, r.sql) && ExpiresInParse(adv, Begun(u, r), r.ctx, r.sql)))
    ensures Rewrites(r.arguments) || AnswersAgree(adv, t, u, entries, r) ==>
              Matched(adv, Everyone, CachedCall(adv, cfg, limits, t, entries, r).0, PlainCall(adv, cfg, u, r).0)
  {
    VisibleBoth(adv, Everyone, t, u, Began(r.operation, r.ctx, r.sql, r.arguments));
    if !Rewrites(r.arguments) {
      var hit := Hits(entries, r.sql);
      HitsDecide(adv, Begun(t, r), Begun(u, r), r.ctx, r.sql, hit);
      if AnswersAgree(adv, t, u, entries, r) {
        CheckIsAttempt(adv, cfg, limits, Begun(t, r), entries, r.ctx, r.sql);
        AttemptsMatch(adv, cfg, Everyone, Begun(t, r), Begun(u, r), r.ctx, r.sql, hit, false);
        DelegatedBoth(adv, Everyone, CachedRun(adv, cfg, limits, Begun(t, r), entries, r.ctx, r.sql).0,
                      DirectRun(adv, cfg, Begun(u, r), r.ctx, r.sql), r);
      }
    }
  }

  lemma {:induction false} AnswersAgreeIff(adv: Adversary, cfg: Config, limits: Limits, t: Trace, u: Trace, entries: Entries, rs: seq<Request>)
    requires Paced(adv) && PrivateParses(adv) && Matched(adv, Everyone, t, u) && Faithful(adv, entries)
    ensures AllAnswersAgree(adv, cfg, limits, t, u, entries, rs) <==> NoHitExpires(adv, cfg, limits, u, entries, rs)
    decreases |rs|
  {
    if rs != [] {
      CallMatches(adv, cfg, limits, t, u, entries, rs[0]);
      if Rewrites(rs[0].arguments) || AnswersAgree(adv, t, u, entries, rs[0]) {
        CallAlike(adv, cfg, limits, t, u, entries, rs[0]);
        CallKeeps(adv, cfg, limits, t, entries, rs[0]);
        var (t', after, _) := CachedCall(adv, cfg, limits, t, entries, rs[0]);
        AnswersAgreeIff(adv, cfg, limits, t', PlainCall(adv, cfg, u, rs[0]).0, after, rs[1..]);
      }
    }
  }

  /** If parses end at most their own call's context, nobody can tell the two guards apart iff no call
      whose text is cached expires in the plain guard's parse. */
  lemma {:induction false} GuardsAlikeIffNoHitExpires(adv: Adversary, cfg: Config, limits: Limits, t: Trace, u: Trace, entries: Entries, rs: seq<Request>)
    requires Paced(adv) && PrivateParses(adv) && Matched(adv, Everyone, t, u) && Faithful(adv, entries)
    ensures Indistinguishable(adv, cfg, limits, t, u, entries, rs) <==> NoHitExpires(adv, cfg, limits, u, entries, rs)
  {
    GuardsAlikeIff(adv, cfg, limits, t, u, entries, rs);
    AnswersAgreeIff(adv, cfg, limits, t, u, entries, rs);
  }

  /* ----- contexts that parses do not end ----- */

  /** Contexts, too, count neither checks nor parses: they change only while a rule, a sink or the
      database runs, or between calls. */
  ghost predicate Steady(adv: Adversary) {
    forall t, u :: Observable(t) == Observable(u) ==> SameAnswers(adv, t, u)
  }

  ghost predicate SameAnswers(adv: Adversary, t: Trace, u: Trace) {
    SameServices(adv, t, u) && forall ctx :: adv.contextErr(t, ctx) == adv.contextErr(u, ctx)
  }

  lemma SteadyIsPaced(adv: Adversary)
    requires Steady(adv)
    ensures Paced(adv)
  {
    forall t, u | Observable(t) == Observable(u)
      ensures SameServices(adv, t, u)
    {
      assert SameAnswers(adv, t, u);
    }
    forall t, c, failure
      ensures SameAnswers(adv, t + [Checked(c, failure)], t)
    {
      ObservableSnoc(t, Checked(c, failure));
    }
    forall t, u, step | Observable(t) == Observable(u) && !Hidden(step)
      ensures MovesAlike(adv, t, u, step)
    {
      ObservableSnoc(t, step);
      ObservableSnoc(u, step);
      assert SameAnswers(adv, t + [step], u + [step]);
    }
  }

  lemma SteadyParses(adv: Adversary, t: Trace, ctx: Context, sql: string)
    requires Steady(adv)
    ensures SameAnswers(adv, AfterGrammar(t, ctx, sql), t)
  {
    ObservableSnoc(t, Checked(ctx, None));
    ObservableSnoc(t + [Checked(ctx, None)], Grammar(sql));
  }

  lemma SteadyParsesArePrivate(adv: Adversary)
    requires Steady(adv)
    ensures PrivateParses(adv)
  {
    forall t, sql, ctx
      ensures SameAnswers(adv, AfterGrammar(t, ctx, sql), t)
    {
      SteadyParses(adv, t, ctx, sql);
    }
  }

  lemma {:induction false} SteadyHitsDoNotExpire(adv: Adversary, cfg: Config, limits: Limits, u: Trace, entries: Entries, rs: seq<Request>)
    requires Steady(adv)
    ensures NoHitExpires(adv, cfg, limits, u, entries, rs)
    decreases |rs|
  {
    if rs != [] {
      SteadyParses(adv, Begun(u, rs[0]), rs[0].ctx, rs[0].sql);
      var (u', reply) := PlainCall(adv, cfg, u, rs[0]);
      SteadyHitsDoNotExpire(adv, cfg, limits, u', Kept(adv, limits, entries, rs[0], reply), rs[1..]);
    }
  }

  lemma {:induction false} CallsKeepFaithful(adv: Adversary, cfg: Config, limits: Limits, t: Trace, entries: Entries, rs: seq<Request>)
    requires Faithful(adv, entries)
    ensures Faithful(adv, CachedCalls(adv, cfg, limits, t, entries, rs).1)
    decreases |rs|
  {
    if rs != [] {
      FaithfulKept(adv, cfg, limits, Begun(t, rs[0]), entries, rs[0].ctx, rs[0].sql);
      var (mid, after, _) := CachedCall(adv, cfg, limits, t, entries, rs[0]);
      CallsKeepFaithful(adv, cfg, limits, mid, after, rs[1..]);
    }
  }

  /** So over any sequence of calls the two guards give the same replies and, in the same order, the
      same rule evaluations, sink events and database calls. */
  lemma {:induction false} CachedGuardRefinesPlain(adv: Adversary, cfg: Config, limits: Limits, t: Trace, u: Trace, entries: Entries, rs: seq<Request>)
    requires Steady(adv) && Observable(t) == Observable(u) && Faithful(adv, entries)
    ensures CachedCalls(adv, cfg, limits, t, entries, rs).2 == PlainCalls(adv, cfg, u, rs).1
    ensures Observable(CachedCalls(adv, cfg, limits, t, entries, rs).0) == Observable(PlainCalls(adv, cfg, u, rs).0)
    ensures Faithful(adv, CachedCalls(adv, cfg, limits, t, entries, rs).1)
  {
    SteadyIsPaced(adv);
    SteadyParsesArePrivate(adv);
    SteadyHitsDoNotExpire(adv, cfg, limits, u, entries, rs);
    assert SameAnswers(adv, t, u);
    GuardsAlikeIffNoHitExpires(adv, cfg, limits, t, u, entries, rs);
    CallsKeepFaithful(adv, cfg, limits, t, entries, rs);
  }

  /* ----- the guards do differ ----- */

  /** The context's own check was followed by a parse. */
  predicate ParsedUnder(ctx: Context, t: Trace) {
    exists k :: 0 <= k < |t| - 1 && t[k] == Checked(ctx, None) && t[k + 1].Grammar?
  }

  /** Everything is accepted, and one context expires in its own parse, for good. */
  function Expiring(brief: Context): Adversary {
    Adversary((t: Trace, ctx: Context) => if ctx == brief && ParsedUnder(brief, t) then Some(DeadlineExceeded) else None,
              (sql: string) => Some([]),
              (t: Trace, rule: RuleRef, ctx: Context, statement: Tree.Node) => true,
              (t: Trace, sink: Sink, event: Event) => Accepted,
              (t: Trace, operation: Operation, ctx: Context, sql: string, arguments: seq<Argument>) => 0)
  }

  lemma ParsedUnderSnoc(ctx: Context, t: Trace, step: Step)
    ensures ParsedUnder(ctx, t + [step]) <==>
            ParsedUnder(ctx, t) || (t != [] && t[|t| - 1] == Checked(ctx, None) && step.Grammar?)
  {
    var u := t + [step];
    assert forall k :: 0 <= k < |t| ==> u[k] == t[k];
    if ParsedUnder(ctx, t) {
      var k :| 0 <= k < |t| - 1 && t[k] == Checked(ctx, None) && t[k + 1].Grammar?;
      assert u[k] == Checked(ctx, None) && u[k + 1].Grammar?;
    }
    if t != [] {
      assert u[|t| - 1] == t[|t| - 1] && u[|t| - 1 + 1] == step;
    }
  }

  lemma ExpiringIsPaced(brief: Context)
    ensures Paced(Expiring(brief)) && PrivateParses(Expiring(brief))
    ensures forall t, step, ctx :: Expiring(brief).contextErr(t, ctx).Some? ==>
              Expiring(brief).contextErr(t + [step], ctx) == Expiring(brief).contextErr(t, ctx)
  {
    var adv := Expiring(brief);
    forall t: Trace, step
      ensures ParsedUnder(brief, t) ==> ParsedUnder(brief, t + [step])
      ensures !step.Grammar? ==> (ParsedUnder(brief, t + [step]) <==> ParsedUnder(brief, t))
    {
      ParsedUnderSnoc(brief, t, step);
    }
    forall t, u, step | !Hidden(step)
      ensures MovesAlike(adv, t, u, step)
    {
    }
    forall t, c, sql
      ensures ParsedUnder(brief, AfterGrammar(t, c, sql)) <==> ParsedUnder(brief, t) || c == brief
    {
      ParsedUnderSnoc(brief, t, Checked(c, None));
      ParsedUnderSnoc(brief, t + [Checked(c, None)], Grammar(sql));
    }
  }

  /** Validating the empty parse under a context that is live now. */
  lemma NothingToValidate(brief: Context, t: Trace, ctx: Context)
    requires Expiring(brief).contextErr(t, ctx).None?
    ensures ValidateRun(Expiring(brief), Config([], false, false), t, ctx, Prepared(Some([]))) == Run(t + [Checked(ctx, None)], None)
  {
    assert Statements.FlattenRoots([]) == [];
    assert Statements.FlattenAll([]) == [];
  }

  /** From an empty cache, two calls with one text: the first stays live and has it cached, the second
      expires in its own parse. The plain guard denies it, the cached one lets it pass. */
  lemma ExpiryInParseIsVisible(live: Context, brief: Context, sql: string)
    returns (cfg: Config, rs: seq<Request>)
    requires live != brief && '\0' !in sql
    ensures Paced(Expiring(brief)) && PrivateParses(Expiring(brief))
    ensures rs == [Request(Exec, live, sql, []), Request(Exec, brief, sql, [])]
    ensures CachedCalls(Expiring(brief), cfg, Limits(1, |sql| + 1), [], [], rs).2 == [Responded(0), Responded(0)]
    ensures PlainCalls(Expiring(brief), cfg, [], rs).1 == [Responded(0), Denied(ContextFailed(DeadlineExceeded))]
  {
    var adv, limits := Expiring(brief), Limits(1, |sql| + 1);
    cfg := Config([], false, false);
    var first, second := Request(Exec, live, sql, []), Request(Exec, brief, sql, []);
    rs := [first, second];
    var mid := FirstCall(live, brief, sql, cfg, first, limits);
    SecondCall(brief, sql, cfg, second, limits, mid);
    PlainPair(adv, cfg, [], first, second);
    CachedPair(adv, cfg, limits, [], [], first, second);
    ExpiringIsPaced(brief);
  }

  lemma {:induction false} PlainPair(adv: Adversary, cfg: Config, t: Trace, a: Request, b: Request)
    ensures var (mid, reply) := PlainCall(adv, cfg, t, a);
            PlainCalls(adv, cfg, t, [a, b]).1 == [reply, PlainCall(adv, cfg, mid, b).1]
  {
    var (mid, reply) := PlainCall(adv, cfg, t, a);
    var (end, next) := PlainCall(adv, cfg, mid, b);
    assert [a, b][1..] == [b] && [b][1..] == [];
    assert PlainCalls(adv, cfg, end, []).1 == [];
    assert PlainCalls(adv, cfg, mid, [b]).1 == [next] + [];
    assert PlainCalls(adv, cfg, t, [a, b]).1 == [reply] + PlainCalls(adv, cfg, mid, [b]).1;
  }

  lemma {:induction false} CachedPair(adv: Adversary, cfg: Config, limits: Limits, t: Trace, entries: Entries, a: Request, b: Request)
    ensures var (mid, after, reply) := CachedCall(adv, cfg, limits, t, entries, a);
            CachedCalls(adv, cfg, limits, t, entries, [a, b]).2 == [reply, CachedCall(adv, cfg, limits, mid, after, b).2]
  {
    var (mid, after, reply) := CachedCall(adv, cfg, limits, t, entries, a);
    var (end, last, next) := CachedCall(adv, cfg, limits, mid, after, b);
    assert [a, b][1..] == [b] && [b][1..] == [];
    assert CachedCalls(adv, cfg, limits, end, last, []).2 == [];
    assert CachedCalls(adv, cfg, limits, mid, after, [b]).2 == [next] + [];
    assert CachedCalls(adv, cfg, limits, t, entries, [a, b]).2 == [reply] + CachedCalls(adv, cfg, limits, mid, after, [b]).2;
  }

  lemma SecondCall(brief: Context, sql: string, cfg: Config, second: Request, limits: Limits, mid: Trace)
    requires '\0' !in sql && cfg == Config([], false, false)
    requires second == Request(Exec, brief, sql, []) && forall k :: 0 <= k < |mid| ==> mid[k] != Checked(brief, None)
    ensures PlainCall(Expiring(brief), cfg, mid, second).1 == Denied(ContextFailed(DeadlineExceeded))
    ensures CachedCall(Expiring(brief), cfg, limits, mid, [Entry(sql, Prepared(Some([])))], second).2 == Responded(0)
  {
    var t := Begun(mid, second);
    assert !ParsedUnder(brief, t);
    NothingToValidate(brief, t, brief);
    assert Find([Entry(sql, Prepared(Some([])))], sql) == Some(Prepared(Some([])));
    ParsedUnderSnoc(brief, t, Checked(brief, None));
    ParsedUnderSnoc(brief, t + [Checked(brief, None)], Grammar(sql));
  }

  lemma FirstCall(live: Context, brief: Context, sql: string, cfg: Config, first: Request, limits: Limits)
    returns (mid: Trace)
    requires live != brief && '\0' !in sql && cfg == Config([], false, false) && limits == Limits(1, |sql| + 1)
    requires first == Request(Exec, live, sql, [])
    ensures forall k :: 0 <= k < |mid| ==> mid[k] != Checked(brief, None)
    ensures PlainCall(Expiring(brief), cfg, [], first) == (mid, Responded(0))
    ensures CachedCall(Expiring(brief), cfg, limits, [], [], first) == (mid, [Entry(sql, Prepared(Some([])))], Responded(0))
  {
    var adv := Expiring(brief);
    var begun := Begun([], first);
    var parsed := AfterGrammar(begun, live, sql) + [Checked(live, None)];
    assert Conversion.Parsed(adv.backend, sql) == Some([]);
    assert PrepareRun(adv, cfg, begun, live, sql) == (parsed, Ready(Prepared(Some([]))));
    NothingToValidate(brief, parsed, live);
    mid := parsed + [Checked(live, None)] + [Executed(Exec, live, sql, [], 0)];
    assert Find([], sql) == None && Without([], sql) == [];
    assert Inserted([], sql, Prepared(Some([])), 1) == [Entry(sql, Prepared(Some([])))];
  }
}
