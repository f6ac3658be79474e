/** The validation engine (engine.go, observability.go, prepared.go). */
module Engine {
  import opened Common
  import opened Tree
  import opened World
  import Conversion
  import Statements

  datatype RegisteredRule = RegisteredRule(ruleID: string, rule: RuleRef)

  datatype Config = Config(rules: seq<RegisteredRule>, metrics: bool, logger: bool)

  /** `None` is the zero value, which validation refuses. */
  datatype Prepared = Prepared(result: Option<seq<Option<Node>>>)

  datatype Preparation = Ready(prepared: Prepared) | Unprepared(error: Error)

  datatype Run = Run(trace: Trace, error: Option<Error>)

  datatype Pair = Pair(statement: Node, registration: RegisteredRule)

  /* ----- the behaviour, with the nested loops flattened ----- */

  function NewEvent(outcome: Outcome, ruleID: string): Event {
    Event(outcome, if outcome == PolicyViolation then ruleID else "")
  }

  function Told(adv: Adversary, enabled: bool, sink: Sink, t: Trace, event: Event): Trace {
    if enabled then t + [Emitted(sink, event, adv.record(t, sink, event))] else t
  }

  function Finish(adv: Adversary, cfg: Config, t: Trace, outcome: Outcome, ruleID: string, error: Option<Error>): Run {
    var event := NewEvent(outcome, ruleID);
    Run(Told(adv, cfg.logger, Logger, Told(adv, cfg.metrics, Metrics, t, event), event), error)
  }

  /** Statement-major, rule-minor order. */
  function Pairs(statements: seq<Node>, rules: seq<RegisteredRule>): seq<Pair> {
    if statements == [] then [] else Row(statements[0], rules) + Pairs(statements[1..], rules)
  }

  function Row(statement: Node, rules: seq<RegisteredRule>): seq<Pair> {
    seq(|rules|, i requires 0 <= i < |rules| => Pair(statement, rules[i]))
  }

  function RulesRun(adv: Adversary, cfg: Config, t: Trace, ctx: Context, pairs: seq<Pair>): Run
    decreases |pairs|
  {
    if pairs == [] then Finish(adv, cfg, t, Allowed, "", None)
    else
      var failure := adv.contextErr(t, ctx);
      var checked := t + [Checked(ctx, failure)];
      if failure.Some? then Finish(adv, cfg, checked, CanceledOutcome, "", Some(ContextFailed(failure.value)))
      else
        var Pair(statement, registration) := pairs[0];
        var allowed := adv.evaluate(checked, registration.rule, ctx, statement);
        var evaluated := checked + [Evaluated(ctx, registration.rule, statement, allowed)];
        if allowed then RulesRun(adv, cfg, evaluated, ctx, pairs[1..])
        else Finish(adv, cfg, evaluated, PolicyViolation, registration.ruleID, Some(Violation(registration.ruleID)))
  }

  function PreparedPairs(cfg: Config, prepared: Prepared): seq<Pair> {
    if prepared.result.None? then [] else Pairs(Statements.FlattenAll(prepared.result.value), cfg.rules)
  }

  function ValidateRun(adv: Adversary, cfg: Config, t: Trace, ctx: Context, prepared: Prepared): Run {
    var failure := adv.contextErr(t, ctx);
    var checked := t + [Checked(ctx, failure)];
    if failure.Some? then Finish(adv, cfg, checked, CanceledOutcome, "", Some(ContextFailed(failure.value)))
    else if prepared.result.None? then Finish(adv, cfg, checked, InvalidPreparedOutcome, "", Some(InvalidPrepared))
    else RulesRun(adv, cfg, checked, ctx, PreparedPairs(cfg, prepared))
  }

  /** The trace and the prepared value, or the error. */
  function PrepareRun(adv: Adversary, cfg: Config, t: Trace, ctx: Context, sql: string): (Trace, Preparation) {
    var before := adv.contextErr(t, ctx);
    var checked := t + [Checked(ctx, before)];
    if before.Some? then
      (Finish(adv, cfg, checked, CanceledOutcome, "", None).trace, Unprepared(ContextFailed(before.value)))
    else
      var result := Conversion.Parsed(adv.backend, sql);
      var parsed := checked + [Grammar(sql)];
      var after := adv.contextErr(parsed, ctx);
      var rechecked := parsed + [Checked(ctx, after)];
      if after.Some? then
        (Finish(adv, cfg, rechecked, CanceledOutcome, "", None).trace, Unprepared(ContextFailed(after.value)))
      else if result.None? then
        (Finish(adv, cfg, rechecked, ParserFailure, "", None).trace, Unprepared(ParseFailed))
      else (rechecked, Ready(Prepared(result)))
  }

  function DirectRun(adv: Adversary, cfg: Config, t: Trace, ctx: Context, sql: string): Run {
    var (prepared, preparation) := PrepareRun(adv, cfg, t, ctx, sql);
    match preparation
    case Unprepared(error) => Run(prepared, Some(error))
    case Ready(value) => ValidateRun(adv, cfg, prepared, ctx, value)
  }

  lemma {:induction false} StatementStep(statements: seq<Node>, rules: seq<RegisteredRule>, i: nat)
    requires i < |statements|
    ensures Pairs(statements[i..], rules) == Row(statements[i], rules) + Pairs(statements[i + 1..], rules)
  {
    assert statements[i..][1..] == statements[i + 1..];
  }

  lemma PairStep(row: seq<Pair>, rest: seq<Pair>, j: nat)
    requires j < |row|
    ensures row[j..] + rest != [] && (row[j..] + rest)[0] == row[j] && (row[j..] + rest)[1..] == row[j + 1..] + rest
  {
  }

  /* ----- the engine itself ----- */

  class Validator {
    const config: Config

    constructor (config: Config)
      ensures this.config == config
    {
      this.config := config;
    }

    method Validate(world: Environment, ctx: Context, sql: string) returns (error: Option<Error>)
      modifies world
      ensures Run(world.trace, error) == DirectRun(world.adversary, config, old(world.trace), ctx, sql)
    {
      var preparation := Prepare(world, ctx, sql);
      match preparation {
        case Unprepared(failure) =>
          error := Some(failure);
        case Ready(prepared) =>
          error := ValidatePrepared(world, ctx, prepared);
      }
    }

    method Prepare(world: Environment, ctx: Context, sql: string) returns (preparation: Preparation)
      modifies world
      ensures (world.trace, preparation) == PrepareRun(world.adversary, config, old(world.trace), ctx, sql)
    {
      var failure := world.Err(ctx);
      if failure.Some? {
        FinishValidation(world, CanceledOutcome, "");
        return Unprepared(ContextFailed(failure.value));
      }
      var result := world.Parse(sql);
      failure := world.Err(ctx);
      if failure.Some? {
        FinishValidation(world, CanceledOutcome, "");
        return Unprepared(ContextFailed(failure.value));
      }
      if result.None? {
        FinishValidation(world, ParserFailure, "");
        return Unprepared(ParseFailed);
      }
      return Ready(Prepared(result));
    }

    method ValidatePrepared(world: Environment, ctx: Context, prepared: Prepared) returns (error: Option<Error>)
      modifies world
      ensures Run(world.trace, error) == ValidateRun(world.adversary, config, old(world.trace), ctx, prepared)
    {
      var adv := world.adversary;
      var failure := world.Err(ctx);
      if failure.Some? {
        FinishValidation(world, CanceledOutcome, "");
        return Some(ContextFailed(failure.value));
      }
      if prepared.result.None? {
        FinishValidation(world, InvalidPreparedOutcome, "");
        return Some(InvalidPrepared);
      }
      var statements := Statements.StatementSequence(prepared.result);
      var rules := config.rules;
      ghost var goal := RulesRun(adv, config, world.trace, ctx, Pairs(statements, rules));
      assert statements[0..] == statements;
      for i := 0 to |statements|
        invariant RulesRun(adv, config, world.trace, ctx, Pairs(statements[i..], rules)) == goal
      {
        var statement := statements[i];
        ghost var row, rest := Row(statement, rules), Pairs(statements[i + 1..], rules);
        StatementStep(statements, rules, i);
        assert row[0..] == row;
        for j := 0 to |rules|
          invariant RulesRun(adv, config, world.trace, ctx, row[j..] + rest) == goal
        {
          PairStep(row, rest, j);
          var registration := rules[j];
          failure := world.Err(ctx);
          if failure.Some? {
            FinishValidation(world, CanceledOutcome, "");
            return Some(ContextFailed(failure.value));
          }
          var allowed := world.Evaluate(registration.rule, ctx, statement);
          if !allowed {
            FinishValidation(world, PolicyViolation, registration.ruleID);
            return Some(Violation(registration.ruleID));
          }
        }
        assert row[|rules|..] + rest == rest;
      }
      FinishValidation(world, Allowed, "");
      return None;
    }

    /** Errors and panics of a sink are dropped; the other sink is told all the same. */
    method FinishValidation(world: Environment, outcome: Outcome, ruleID: string)
      modifies world
      ensures world.trace == Finish(world.adversary, config, old(world.trace), outcome, ruleID, None).trace
    {
      var event := NewEvent(outcome, ruleID);
      if config.metrics {
        var _ := world.Record(Metrics, event);
      }
      if config.logger {
        var _ := world.Record(Logger, event);
      }
    }
  }
}
