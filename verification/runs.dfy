/** What every run of the engine does, whatever contexts, rules and sinks answer. */
module Runs {
  import opened Common
  import opened World
  import opened Engine
  import opened Tree
  import Statements

  /* ----- reading a trace ----- */

  function Evaluations(t: Trace): Trace {
    if t == [] then [] else (if t[0].Evaluated? then [t[0]] else []) + Evaluations(t[1..])
  }

  function Emissions(sink: Sink, t: Trace): seq<Event> {
    if t == [] then []
    else (if t[0].Emitted? && t[0].sink == sink then [t[0].event] else []) + Emissions(sink, t[1..])
  }

  lemma {:induction false} EvaluationsConcat(a: Trace, b: Trace)
    ensures Evaluations(a + b) == Evaluations(a) + Evaluations(b)
  {
    if a == [] {
      assert a + b == b;
    } else {
      EvaluationsConcat(a[1..], b);
      assert (a + b)[1..] == a[1..] + b;
      AppendAssociative(if a[0].Evaluated? then [a[0]] else [], Evaluations(a[1..]), Evaluations(b));
    }
  }

  lemma {:induction false} EmissionsConcat(sink: Sink, a: Trace, b: Trace)
    ensures Emissions(sink, a + b) == Emissions(sink, a) + Emissions(sink, b)
  {
    if a == [] {
      assert a + b == b;
    } else {
      EmissionsConcat(sink, a[1..], b);
      assert (a + b)[1..] == a[1..] + b;
      AppendAssociative(if a[0].Emitted? && a[0].sink == sink then [a[0].event] else [], Emissions(sink, a[1..]), Emissions(sink, b));
    }
  }

  predicate Enabled(cfg: Config, sink: Sink) {
    match sink
    case Metrics => cfg.metrics
    case Logger => cfg.logger
  }

  /** The event that belongs to a returned result. */
  function EventOf(error: Option<Error>): Event {
    match error
    case None => Event(Allowed, "")
    case Some(ContextFailed(_)) => Event(CanceledOutcome, "")
    case Some(ParseFailed) => Event(ParserFailure, "")
    case Some(InvalidPrepared) => Event(InvalidPreparedOutcome, "")
    case Some(Violation(ruleID)) => Event(PolicyViolation, ruleID)
  }

  /* ----- one validation ----- */

  /** A validation checks its own context, evaluates rules and tells sinks, and does nothing else. */
  predicate ValidationStep(ctx: Context, step: Step) {
    (step.Checked? && step.ctx == ctx) || step.Evaluated? || step.Emitted?
  }

  /** The answers given during one validation: the step before each evaluation is a passed check of the
      same context, and the evaluated pairs are the first ones of the product, all allowed except
      perhaps the last. */
  ghost predicate Orderly(ctx: Context, pairs: seq<Pair>, steps: Trace) {
    && |Evaluations(steps)| <= |pairs|
    && (forall i :: 0 <= i < |Evaluations(steps)| ==>
          var e := Evaluations(steps)[i];
          && e.Evaluated? && e.ctx == ctx && e.rule == pairs[i].registration.rule && e.statement == pairs[i].statement
          && (i < |Evaluations(steps)| - 1 ==> e.allowed))
    && InOrder(ctx, steps)
    && EventsLast(steps)
  }

  /** Right before an evaluation its context passes a check. */
  ghost predicate InOrder(ctx: Context, steps: Trace) {
    && (forall k :: 0 <= k < |steps| && steps[k].Evaluated? ==> 0 < k && steps[k - 1] == Checked(ctx, None))
    && forall k :: 0 <= k < |steps| ==> ValidationStep(ctx, steps[k])
  }

  /** Sinks are told at the very end, metrics before the logger. */
  ghost predicate EventsLast(steps: Trace) {
    forall i, j :: 0 <= i < j < |steps| ==> EventOrder(steps[i], steps[j])
  }

  predicate EventOrder(earlier: Step, later: Step) {
    earlier.Emitted? ==> earlier.sink == Metrics && later.Emitted? && later.sink == Logger
  }

  predicate LastRejected(steps: Trace) {
    var evaluations := Evaluations(steps);
    evaluations != [] && evaluations[|evaluations| - 1].Evaluated? && !evaluations[|evaluations| - 1].allowed
  }

  predicate SomeCheckFailed(steps: Trace) {
    exists k :: 0 <= k < |steps| && steps[k].Checked? && steps[k].failure.Some?
  }

  /** How the steps decide the result. */
  ghost predicate Decided(pairs: seq<Pair>, steps: Trace, error: Option<Error>) {
    && (error.None? <==> |Evaluations(steps)| == |pairs| && !LastRejected(steps) && !SomeCheckFailed(steps))
    && (LastRejected(steps) <==> error.Some? && error.value.Violation?)
    && (LastRejected(steps) && |Evaluations(steps)| <= |pairs| ==>
          error == Some(Violation(pairs[|Evaluations(steps)| - 1].registration.ruleID)))
    && (SomeCheckFailed(steps) <==> error.Some? && error.value.ContextFailed?)
    && CauseReturned(steps, error)
  }

  /** A failed check returns its own cause. */
  ghost predicate CauseReturned(steps: Trace, error: Option<Error>) {
    forall k :: 0 <= k < |steps| && steps[k].Checked? && steps[k].failure.Some? ==> error == Some(ContextFailed(steps[k].failure.value))
  }

  lemma CauseStays(front: Trace, tail: Trace, error: Option<Error>)
    requires CauseReturned(front, error) && (CauseReturned(tail, error) || OnlyEmissions(tail))
    ensures CauseReturned(front + tail, error)
  {
    var steps := front + tail;
    assert forall k :: |front| <= k < |steps| ==> steps[k] == tail[k - |front|];
  }

  /** Exactly one terminal event for each enabled sink, and it is the one of the result. */
  ghost predicate Reported(cfg: Config, steps: Trace, error: Option<Error>) {
    forall sink :: Emissions(sink, steps) == if Enabled(cfg, sink) then [EventOf(error)] else []
  }

  ghost predicate OnlyEmissions(steps: Trace) {
    forall k :: 0 <= k < |steps| ==> steps[k].Emitted?
  }

  lemma FinishReports(adv: Adversary, cfg: Config, t: Trace, outcome: Outcome, ruleID: string, error: Option<Error>)
    returns (steps: Trace)
    requires NewEvent(outcome, ruleID) == EventOf(error)
    ensures Finish(adv, cfg, t, outcome, ruleID, error).trace == t + steps
    ensures OnlyEmissions(steps) && EventsLast(steps) && Evaluations(steps) == [] && Reported(cfg, steps, error)
  {
    var event := NewEvent(outcome, ruleID);
    var told := Told(adv, cfg.metrics, Metrics, t, event);
    var first := if cfg.metrics then [Emitted(Metrics, event, adv.record(t, Metrics, event))] else [];
    var second := if cfg.logger then [Emitted(Logger, event, adv.record(told, Logger, event))] else [];
    steps := first + second;
    assert told == t + first;
    assert t + steps == told + second;
    EvaluationsConcat(first, second);
    forall sink: Sink {
      EmissionsConcat(sink, first, second);
    }
  }

  /** A run over some pairs, whatever came before. */
  ghost predicate Exact(cfg: Config, ctx: Context, pairs: seq<Pair>, steps: Trace, error: Option<Error>) {
    Orderly(ctx, pairs, steps) && Decided(pairs, steps, error) && Reported(cfg, steps, error)
  }

  lemma {:induction false} RulesRunIsExact(adv: Adversary, cfg: Config, t: Trace, ctx: Context, pairs: seq<Pair>)
    returns (steps: Trace)
    ensures var run := RulesRun(adv, cfg, t, ctx, pairs);
            run.trace == t + steps && Exact(cfg, ctx, pairs, steps, run.error)
    ensures var error := RulesRun(adv, cfg, t, ctx, pairs).error; error.None? || error.value.Violation? || error.value.ContextFailed?
    decreases |pairs|
  {
    if pairs == [] {
      steps := FinishReports(adv, cfg, t, Allowed, "", None);
    } else {
      var failure := adv.contextErr(t, ctx);
      var checked := t + [Checked(ctx, failure)];
      if failure.Some? {
        var error := Some(ContextFailed(failure.value));
        var tail := FinishReports(adv, cfg, checked, CanceledOutcome, "", error);
        steps := [Checked(ctx, failure)] + tail;
        assert t + steps == checked + tail;
        PrependCheck(cfg, ctx, pairs, failure, tail, error);
      } else {
        var Pair(statement, registration) := pairs[0];
        var allowed := adv.evaluate(checked, registration.rule, ctx, statement);
        var evaluated := checked + [Evaluated(ctx, registration.rule, statement, allowed)];
        var front := [Checked(ctx, None), Evaluated(ctx, registration.rule, statement, allowed)];
        assert evaluated == t + front;
        var tail;
        if allowed {
          tail := RulesRunIsExact(adv, cfg, evaluated, ctx, pairs[1..]);
        } else {
          tail := FinishReports(adv, cfg, evaluated, PolicyViolation, registration.ruleID, Some(Violation(registration.ruleID)));
        }
        steps := front + tail;
        AppendAssociative(t, front, tail);
        PrependEvaluation(cfg, ctx, pairs, allowed, tail, RulesRun(adv, cfg, t, ctx, pairs).error);
      }
    }
  }

  lemma {:induction false} PrependCheck(cfg: Config, ctx: Context, pairs: seq<Pair>, failure: Option<ContextError>,
                                        tail: Trace, error: Option<Error>)
    requires OnlyEmissions(tail) && EventsLast(tail) && Evaluations(tail) == [] && Reported(cfg, tail, error)
    requires failure.Some? && error == Some(ContextFailed(failure.value))
    ensures Exact(cfg, ctx, pairs, [Checked(ctx, failure)] + tail, error)
  {
    var front := [Checked(ctx, failure)];
    CheckedFront(ctx, failure, tail);
    EventsStayLast(front, tail);
    StepsStayInOrder(ctx, front, tail);
    CauseStays(front, tail, error);
    forall sink {
      EmissionsConcat(sink, front, tail);
    }
    assert (front + tail)[0].failure.Some?;
  }

  lemma {:induction false} CheckedFront(ctx: Context, failure: Option<ContextError>, tail: Trace)
    ensures Evaluations([Checked(ctx, failure)] + tail) == Evaluations(tail)
    ensures forall sink :: Emissions(sink, [Checked(ctx, failure)]) == []
    ensures failure.None? ==> (SomeCheckFailed([Checked(ctx, failure)] + tail) <==> SomeCheckFailed(tail))
  {
    var front := [Checked(ctx, failure)];
    EvaluationsConcat(front, tail);
    assert front[1..] == [] && Evaluations(front) == [];
    assert forall k :: 0 < k < |front + tail| ==> (front + tail)[k] == tail[k - 1];
    if SomeCheckFailed(tail) {
      var k :| 0 <= k < |tail| && tail[k].Checked? && tail[k].failure.Some?;
      assert (front + tail)[k + 1] == tail[k];
    }
  }

  lemma {:induction false} PrependEvaluation(cfg: Config, ctx: Context, pairs: seq<Pair>, allowed: bool,
                                             tail: Trace, error: Option<Error>)
    requires pairs != []
    requires allowed ==> Exact(cfg, ctx, pairs[1..], tail, error)
    requires !allowed ==> OnlyEmissions(tail) && EventsLast(tail) && Evaluations(tail) == [] && Reported(cfg, tail, error)
                          && error == Some(Violation(pairs[0].registration.ruleID))
    ensures Exact(cfg, ctx, pairs, [Checked(ctx, None), Evaluated(ctx, pairs[0].registration.rule, pairs[0].statement, allowed)] + tail, error)
  {
    var front := [Checked(ctx, None), Evaluated(ctx, pairs[0].registration.rule, pairs[0].statement, allowed)];
    EvaluatedFront(front, tail);
    PrependOrder(ctx, pairs, front, tail);
    PrependDecision(pairs, front, tail, error);
    forall sink {
      EmissionsConcat(sink, front, tail);
    }
  }

  predicate IsEvaluation(front: Trace) {
    |front| == 2 && front[0].Checked? && front[0].failure.None? && front[1].Evaluated? && front[1].ctx == front[0].ctx
  }

  lemma {:induction false} EvaluatedFront(front: Trace, tail: Trace)
    requires IsEvaluation(front)
    ensures Evaluations(front + tail) == [front[1]] + Evaluations(tail)
    ensures forall sink :: Emissions(sink, front) == []
    ensures SomeCheckFailed(front + tail) <==> SomeCheckFailed(tail)
  {
    EvaluationsConcat(front, tail);
    assert front[1..] == [front[1]];
    assert Evaluations(front) == [front[1]];
    forall sink
      ensures Emissions(sink, front) == []
    {
      assert Emissions(sink, [front[1]]) == [];
    }
    var steps := front + tail;
    assert forall k :: 2 <= k < |steps| ==> steps[k] == tail[k - 2];
    if SomeCheckFailed(tail) {
      var k :| 0 <= k < |tail| && tail[k].Checked? && tail[k].failure.Some?;
      assert steps[k + 2] == tail[k];
    }
  }

  lemma {:induction false} PrependOrder(ctx: Context, pairs: seq<Pair>, front: Trace, tail: Trace)
    requires IsEvaluation(front) && front[0].ctx == ctx && Evaluations(front + tail) == [front[1]] + Evaluations(tail)
    requires pairs != [] && front[1].rule == pairs[0].registration.rule && front[1].statement == pairs[0].statement
    requires front[1].allowed ==> Orderly(ctx, pairs[1..], tail)
    requires !front[1].allowed ==> OnlyEmissions(tail) && EventsLast(tail) && Evaluations(tail) == []
    ensures Orderly(ctx, pairs, front + tail)
  {
    EventsStayLast(front, tail);
    StepsStayInOrder(ctx, front, tail);
    var evaluations := Evaluations(front + tail);
    forall i | 0 < i < |evaluations|
      ensures evaluations[i] == Evaluations(tail)[i - 1] && pairs[i] == pairs[1..][i - 1]
    {
    }
  }

  lemma EventsStayLast(front: Trace, tail: Trace)
    requires EventsLast(tail) && forall k :: 0 <= k < |front| ==> !front[k].Emitted?
    ensures EventsLast(front + tail)
  {
    var steps := front + tail;
    forall i, j | 0 <= i < j < |steps|
      ensures EventOrder(steps[i], steps[j])
    {
      if |front| <= i {
        assert EventOrder(tail[i - |front|], tail[j - |front|]);
      } else {
        assert steps[i] == front[i];
      }
    }
  }

  lemma StepsStayInOrder(ctx: Context, front: Trace, tail: Trace)
    requires InOrder(ctx, front) && (InOrder(ctx, tail) || OnlyEmissions(tail))
    ensures InOrder(ctx, front + tail)
  {
    var steps := front + tail;
    forall k | 0 <= k < |steps|
      ensures ValidationStep(ctx, steps[k])
      ensures steps[k].Evaluated? ==> 0 < k && steps[k - 1] == Checked(ctx, None)
    {
      if |front| <= k {
        assert steps[k] == tail[k - |front|];
        assert |front| < k ==> steps[k - 1] == tail[k - |front| - 1];
      } else {
        assert steps[k] == front[k];
        assert 0 < k ==> steps[k - 1] == front[k - 1];
      }
    }
  }

  lemma {:induction false} PrependDecision(pairs: seq<Pair>, front: Trace, tail: Trace, error: Option<Error>)
    requires IsEvaluation(front) && Evaluations(front + tail) == [front[1]] + Evaluations(tail)
    requires SomeCheckFailed(front + tail) <==> SomeCheckFailed(tail)
    requires pairs != []
    requires front[1].allowed ==> Decided(pairs[1..], tail, error)
    requires !front[1].allowed ==> OnlyEmissions(tail) && Evaluations(tail) == []
                                   && error == Some(Violation(pairs[0].registration.ruleID))
    ensures Decided(pairs, front + tail, error)
  {
    CauseStays(front, tail, error);
    if front[1].allowed && LastRejected(tail) && |Evaluations(tail)| <= |pairs[1..]| {
      assert pairs[1..][|Evaluations(tail)| - 1] == pairs[|Evaluations(front + tail)| - 1];
    }
  }

  /** One validation of a prepared value, whole: its context is checked first, the evaluated pairs are
      a prefix of the statement-major product, and the steps decide the result and its only event. */
  lemma ValidationIsExact(adv: Adversary, cfg: Config, t: Trace, ctx: Context, prepared: Prepared)
    returns (steps: Trace)
    ensures var run := ValidateRun(adv, cfg, t, ctx, prepared);
            run.trace == t + steps && WholeValidation(cfg, ctx, prepared, steps, run.error)
    ensures steps[0] == Checked(ctx, adv.contextErr(t, ctx))
  {
    var failure := adv.contextErr(t, ctx);
    var checked := t + [Checked(ctx, failure)];
    var tail;
    if failure.Some? {
      tail := FinishReports(adv, cfg, checked, CanceledOutcome, "", Some(ContextFailed(failure.value)));
    } else if prepared.result.None? {
      tail := FinishReports(adv, cfg, checked, InvalidPreparedOutcome, "", Some(InvalidPrepared));
    } else {
      tail := RulesRunIsExact(adv, cfg, checked, ctx, PreparedPairs(cfg, prepared));
    }
    steps := [Checked(ctx, failure)] + tail;
    AppendAssociative(t, [Checked(ctx, failure)], tail);
    AfterFirstCheck(cfg, ctx, prepared, failure, tail, ValidateRun(adv, cfg, t, ctx, prepared).error);
  }

  lemma {:induction false} AfterFirstCheck(cfg: Config, ctx: Context, prepared: Prepared, failure: Option<ContextError>,
                                           tail: Trace, error: Option<Error>)
    requires failure.Some? || prepared.result.None? ==> OnlyEmissions(tail) && EventsLast(tail) && Evaluations(tail) == [] && Reported(cfg, tail, error)
    requires failure.Some? ==> error == Some(ContextFailed(failure.value))
    requires failure.None? && prepared.result.None? ==> error == Some(InvalidPrepared)
    requires failure.None? && prepared.result.Some? ==> Exact(cfg, ctx, PreparedPairs(cfg, prepared), tail, error)
    ensures WholeValidation(cfg, ctx, prepared, [Checked(ctx, failure)] + tail, error)
  {
    if failure.Some? {
      PrependCheck(cfg, ctx, PreparedPairs(cfg, prepared), failure, tail, error);
    } else {
      PrependPassedCheck(cfg, ctx, PreparedPairs(cfg, prepared), tail, error);
    }
  }

  ghost predicate WholeValidation(cfg: Config, ctx: Context, prepared: Prepared, steps: Trace, error: Option<Error>) {
    var pairs := PreparedPairs(cfg, prepared);
    && steps != [] && steps[0].Checked? && steps[0].ctx == ctx
    && Orderly(ctx, pairs, steps)
    && Reported(cfg, steps, error)
    && (steps[0].failure.Some? ==> error == Some(ContextFailed(steps[0].failure.value)))
    && if prepared.result.None? && steps[0].failure.None?
       then error == Some(InvalidPrepared) && !SomeCheckFailed(steps)
       else Decided(pairs, steps, error)
  }

  lemma {:induction false} PrependPassedCheck(cfg: Config, ctx: Context, pairs: seq<Pair>, tail: Trace, error: Option<Error>)
    requires Reported(cfg, tail, error)
    ensures var steps := [Checked(ctx, None)] + tail;
            && Reported(cfg, steps, error)
            && Evaluations(steps) == Evaluations(tail) && (SomeCheckFailed(steps) <==> SomeCheckFailed(tail))
            && (Orderly(ctx, pairs, tail) ==> Orderly(ctx, pairs, steps))
            && (OnlyEmissions(tail) && EventsLast(tail) && Evaluations(tail) == [] ==> Orderly(ctx, pairs, steps) && !SomeCheckFailed(steps))
            && (CauseReturned(tail, error) ==> CauseReturned(steps, error))
  {
    var front := [Checked(ctx, None)];
    if CauseReturned(tail, error) {
      CauseStays(front, tail, error);
    }
    CheckedFront(ctx, None, tail);
    forall sink {
      EmissionsConcat(sink, front, tail);
    }
    if EventsLast(tail) && (InOrder(ctx, tail) || OnlyEmissions(tail)) {
      EventsStayLast(front, tail);
      StepsStayInOrder(ctx, front, tail);
    }
  }

  /* ----- the order of statements and rules ----- */

  lemma DivideAfter(k: nat, n: nat)
    requires 0 < n <= k
    ensures (k - n) / n == k / n - 1 && (k - n) % n == k % n
  {
    var q, r, d, e := (k - n) / n, (k - n) % n, k / n, k % n;
    assert k == q * n + n + r && k == d * n + e;
    var difference := q + 1 - d;
    assert difference * n == e - r by {
      assert difference * n == q * n + n - d * n;
    }
    if difference > 0 {
      TimesAtLeast(difference, n);
    } else if difference < 0 {
      TimesAtLeast(-difference, n);
    }
  }

  lemma TimesAtLeast(a: int, n: int)
    requires 0 < a && 0 < n
    ensures n <= a * n
  {
  }

  /** Every rule in registration order for one statement before the next statement. */
  predicate PlacedAt(statements: seq<Node>, rules: seq<RegisteredRule>, k: nat, pair: Pair) {
    && |rules| > 0 && 0 <= k / |rules| < |statements|
    && pair.statement == statements[k / |rules|]
    && pair.registration == rules[k % |rules|]
  }

  lemma {:induction false} PairAt(statements: seq<Node>, rules: seq<RegisteredRule>, k: nat)
    requires k < |Pairs(statements, rules)|
    ensures PlacedAt(statements, rules, k, Pairs(statements, rules)[k])
  {
    if k >= |rules| {
      var rest := Pairs(statements[1..], rules);
      assert Pairs(statements, rules)[k] == rest[k - |rules|];
      PairAt(statements[1..], rules, k - |rules|);
      DivideAfter(k, |rules|);
    }
  }

  lemma {:induction false} PairCount(statements: seq<Node>, rules: seq<RegisteredRule>)
    ensures |Pairs(statements, rules)| == |statements| * |rules|
  {
    if statements != [] {
      PairCount(statements[1..], rules);
    }
  }

  /** The evaluations of one validation: the `k`-th is of statement `k / n` by rule `k % n` of the `n`
      registered ones, and only the last may reject. */
  ghost predicate InRegistrationOrder(cfg: Config, statements: seq<Node>, evaluations: Trace) {
    && |evaluations| <= |statements| * |cfg.rules|
    && forall k :: 0 <= k < |evaluations| ==>
         && evaluations[k].Evaluated?
         && (exists id :: PlacedAt(statements, cfg.rules, k, Pair(evaluations[k].statement, RegisteredRule(id, evaluations[k].rule))))
         && (k < |evaluations| - 1 ==> evaluations[k].allowed)
  }

  /** Whatever contexts, rules and sinks answer: a violation carries the identifier under which the rule
      that rejected is registered, and success means that every rule allowed every statement. */
  lemma ValidationFollowsRegistration(adv: Adversary, cfg: Config, t: Trace, ctx: Context, prepared: Prepared)
    returns (steps: Trace)
    requires prepared.result.Some?
    ensures var run, statements := ValidateRun(adv, cfg, t, ctx, prepared), Statements.FlattenAll(prepared.result.value);
            var evaluations := Evaluations(steps);
            && run.trace == t + steps
            && InRegistrationOrder(cfg, statements, evaluations)
            && (run.error.Some? && run.error.value.Violation? <==> evaluations != [] && !evaluations[|evaluations| - 1].allowed)
            && (run.error.Some? && run.error.value.Violation? ==>
                  var last := evaluations[|evaluations| - 1];
                  PlacedAt(statements, cfg.rules, |evaluations| - 1, Pair(last.statement, RegisteredRule(run.error.value.ruleID, last.rule))))
            && (run.error.None? ==> |evaluations| == |statements| * |cfg.rules|)
  {
    steps := ValidationIsExact(adv, cfg, t, ctx, prepared);
    var statements, evaluations, pairs := Statements.FlattenAll(prepared.result.value), Evaluations(steps), PreparedPairs(cfg, prepared);
    PairCount(statements, cfg.rules);
    forall k | 0 <= k < |evaluations|
      ensures PlacedAt(statements, cfg.rules, k, pairs[k])
      ensures pairs[k] == Pair(evaluations[k].statement, RegisteredRule(pairs[k].registration.ruleID, evaluations[k].rule))
    {
      PairAt(statements, cfg.rules, k);
    }
  }
}
