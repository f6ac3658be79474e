/** Validations of one shared prepared value, by any number of engines, interleaved step by step
    (engine.go, prepared.go). One environment answers all calls from the common trace; that rule, sink
    and context state is not shared is a hypothesis about it. */
module Interleaving {
  import opened Common
  import opened Tree
  import opened World
  import opened Engine

  /** A validation by an engine under a context. */
  datatype Call = Call(cfg: Config, ctx: Context)

  datatype Phase =
    | Entering
    | Checking(pairs: seq<Pair>)
    | Evaluating(pairs: seq<Pair>)
    | Telling(sinks: seq<Sink>, event: Event, error: Option<Error>)
    | Finished(error: Option<Error>)

  datatype Tagged = Tagged(call: nat, step: Step)

  datatype System = System(trace: seq<Tagged>, phases: seq<Phase>)

  /** The environment of all calls: it knows the whole trace and which call asks. */
  datatype Surroundings = Surroundings(
    contextErr: (seq<Tagged>, nat, Context) -> Option<ContextError>,
    evaluate: (seq<Tagged>, nat, RuleRef, Context, Node) -> bool,
    record: (seq<Tagged>, nat, Sink, Event) -> SinkReply)

  /** What an environment answers at one moment. */
  datatype Moment = Moment(
    contextErr: Context -> Option<ContextError>,
    evaluate: (RuleRef, Context, Node) -> bool,
    record: (Sink, Event) -> SinkReply)

  function Now(env: Surroundings, trace: seq<Tagged>, c: nat): Moment {
    Moment((ctx: Context) => env.contextErr(trace, c, ctx),
           (rule: RuleRef, ctx: Context, statement: Node) => env.evaluate(trace, c, rule, ctx, statement),
           (sink: Sink, event: Event) => env.record(trace, c, sink, event))
  }

  function NowAlone(adv: Adversary, own: Trace): Moment {
    Moment((ctx: Context) => adv.contextErr(own, ctx),
           (rule: RuleRef, ctx: Context, statement: Node) => adv.evaluate(own, rule, ctx, statement),
           (sink: Sink, event: Event) => adv.record(own, sink, event))
  }

  ghost predicate SameMoment(a: Moment, b: Moment) {
    && (forall ctx :: a.contextErr(ctx) == b.contextErr(ctx))
    && (forall rule, ctx, statement :: a.evaluate(rule, ctx, statement) == b.evaluate(rule, ctx, statement))
    && forall sink, event :: a.record(sink, event) == b.record(sink, event)
  }

  /** Nothing is shared: what a call is answered depends only on its own part of the trace. */
  ghost predicate NotShared(env: Surroundings) {
    forall c, t, u :: Project(t, c) == Project(u, c) ==> SameMoment(Now(env, t, c), Now(env, u, c))
  }

  /** The environment as it answers a call that is alone. */
  function Alone(env: Surroundings, c: nat): Adversary {
    Adversary((own: Trace, ctx: Context) => env.contextErr(Tag(c, own), c, ctx),
              (sql: string) => None,
              (own: Trace, rule: RuleRef, ctx: Context, statement: Node) => env.evaluate(Tag(c, own), c, rule, ctx, statement),
              (own: Trace, sink: Sink, event: Event) => env.record(Tag(c, own), c, sink, event),
              (own: Trace, operation: Operation, ctx: Context, sql: string, arguments: seq<Argument>) => 0)
  }

  function Sinks(cfg: Config): seq<Sink> {
    (if cfg.metrics then [Metrics] else []) + (if cfg.logger then [Logger] else [])
  }

  function Ending(cfg: Config, outcome: Outcome, ruleID: string, error: Option<Error>): Phase {
    Telling(Sinks(cfg), NewEvent(outcome, ruleID), error)
  }

  function NextPair(cfg: Config, pairs: seq<Pair>): Phase {
    if pairs == [] then Ending(cfg, Allowed, "", None) else Checking(pairs)
  }

  /** One atomic step of a call: what it adds to the trace, and its next phase. */
  function Move(call: Call, prepared: Prepared, phase: Phase, now: Moment): (Trace, Phase) {
    var Call(cfg, ctx) := call;
    match phase
    case Entering =>
      var failure := now.contextErr(ctx);
      ([Checked(ctx, failure)],
       if failure.Some? then Ending(cfg, CanceledOutcome, "", Some(ContextFailed(failure.value)))
       else if prepared.result.None? then Ending(cfg, InvalidPreparedOutcome, "", Some(InvalidPrepared))
       else NextPair(cfg, PreparedPairs(cfg, prepared)))
    case Checking(pairs) =>
      var failure := now.contextErr(ctx);
      ([Checked(ctx, failure)],
       if failure.Some? then Ending(cfg, CanceledOutcome, "", Some(ContextFailed(failure.value))) else Evaluating(pairs))
    case Evaluating(pairs) =>
      if pairs == [] then ([], phase)
      else
        var Pair(statement, registration) := pairs[0];
        var allowed := now.evaluate(registration.rule, ctx, statement);
        ([Evaluated(ctx, registration.rule, statement, allowed)],
         if allowed then NextPair(cfg, pairs[1..])
         else Ending(cfg, PolicyViolation, registration.ruleID, Some(Violation(registration.ruleID))))
    case Telling(sinks, event, error) =>
      if sinks == [] then ([], Finished(error))
      else ([Emitted(sinks[0], event, now.record(sinks[0], event))], Telling(sinks[1..], event, error))
    case Finished(_) => ([], phase)
  }

  function Project(trace: seq<Tagged>, c: nat): Trace {
    if trace == [] then [] else (if trace[0].call == c then [trace[0].step] else []) + Project(trace[1..], c)
  }

  function Tag(c: nat, steps: Trace): seq<Tagged> {
    seq(|steps|, i requires 0 <= i < |steps| => Tagged(c, steps[i]))
  }

  function Advance(env: Surroundings, calls: seq<Call>, prepared: Prepared, s: System, c: nat): System
    requires |s.phases| == |calls|
  {
    if c < |calls| then
      var (steps, phase) := Move(calls[c], prepared, s.phases[c], Now(env, s.trace, c));
      System(s.trace + Tag(c, steps), s.phases[c := phase])
    else s
  }

  /** Any order in which the calls may be scheduled. */
  function Scheduled(env: Surroundings, calls: seq<Call>, prepared: Prepared, s: System, schedule: seq<nat>): (r: System)
    requires |s.phases| == |calls|
    ensures |r.phases| == |calls|
    decreases |schedule|
  {
    if schedule == [] then s
    else Scheduled(env, calls, prepared, Advance(env, calls, prepared, s, schedule[0]), schedule[1..])
  }

  function Initial(calls: seq<Call>): (s: System)
    ensures |s.phases| == |calls|
  {
    System([], seq(|calls|, i => Entering))
  }

  function Turns(schedule: seq<nat>, c: nat): nat {
    if schedule == [] then 0 else (if schedule[0] == c then 1 else 0) + Turns(schedule[1..], c)
  }

  /** A call on its own for `n` steps. */
  function Solo(adv: Adversary, call: Call, prepared: Prepared, own: Trace, phase: Phase, n: nat): (Trace, Phase)
    decreases n
  {
    if n == 0 then (own, phase)
    else
      var (steps, next) := Move(call, prepared, phase, NowAlone(adv, own));
      Solo(adv, call, prepared, own + steps, next, n - 1)
  }

  lemma {:induction false} ProjectConcat(a: seq<Tagged>, b: seq<Tagged>, c: nat)
    ensures Project(a + b, c) == Project(a, c) + Project(b, c)
  {
    if a == [] {
      assert a + b == b;
    } else {
      assert (a + b)[1..] == a[1..] + b;
      ProjectConcat(a[1..], b, c);
      AppendAssociative(if a[0].call == c then [a[0].step] else [], Project(a[1..], c), Project(b, c));
    }
  }

  lemma {:induction false} ProjectTag(c: nat, steps: Trace, d: nat)
    ensures Project(Tag(c, steps), d) == if c == d then steps else []
  {
    if steps != [] {
      assert Tag(c, steps)[1..] == Tag(c, steps[1..]);
      ProjectTag(c, steps[1..], d);
    }
  }

  lemma MoveDependsOnMoment(call: Call, prepared: Prepared, phase: Phase, a: Moment, b: Moment)
    requires SameMoment(a, b)
    ensures Move(call, prepared, phase, a) == Move(call, prepared, phase, b)
  {
    assert a.contextErr(call.ctx) == b.contextErr(call.ctx);
    match phase
    case Evaluating(pairs) =>
      if pairs != [] {
        var Pair(statement, registration) := pairs[0];
        assert a.evaluate(registration.rule, call.ctx, statement) == b.evaluate(registration.rule, call.ctx, statement);
      }
    case Telling(sinks, event, _) =>
      if sinks != [] {
        assert a.record(sinks[0], event) == b.record(sinks[0], event);
      }
    case _ =>
  }

  /** If nothing is shared, a call cannot tell the common trace from its own part of it. */
  lemma {:induction false} AnsweredAsAlone(env: Surroundings, trace: seq<Tagged>, c: nat)
    requires NotShared(env)
    ensures SameMoment(Now(env, trace, c), NowAlone(Alone(env, c), Project(trace, c)))
  {
    var own := Project(trace, c);
    ProjectTag(c, own, c);
    assert SameMoment(Now(env, trace, c), Now(env, Tag(c, own), c));
    SameAlone(env, c, own);
  }

  lemma SameAlone(env: Surroundings, c: nat, own: Trace)
    ensures SameMoment(Now(env, Tag(c, own), c), NowAlone(Alone(env, c), own))
  {
  }

  /** What one call sees and where it stands is its solo run for as many steps as it had turns. */
  lemma {:induction false} ProjectionIsSolo(env: Surroundings, calls: seq<Call>, prepared: Prepared, s: System, schedule: seq<nat>, c: nat)
    requires NotShared(env) && |s.phases| == |calls| && c < |calls|
    ensures var end := Scheduled(env, calls, prepared, s, schedule);
            (Project(end.trace, c), end.phases[c]) ==
            Solo(Alone(env, c), calls[c], prepared, Project(s.trace, c), s.phases[c], Turns(schedule, c))
    decreases |schedule|
  {
    if schedule != [] {
      var next := Advance(env, calls, prepared, s, schedule[0]);
      assert Scheduled(env, calls, prepared, s, schedule) == Scheduled(env, calls, prepared, next, schedule[1..]);
      ProjectionIsSolo(env, calls, prepared, next, schedule[1..], c);
      TurnIsSoloStep(env, calls, prepared, s, schedule[0], c, Turns(schedule[1..], c));
    }
  }

  lemma {:induction false} TurnIsSoloStep(env: Surroundings, calls: seq<Call>, prepared: Prepared, s: System, d: nat, c: nat, n: nat)
    requires NotShared(env) && |s.phases| == |calls| && c < |calls|
    ensures var next := Advance(env, calls, prepared, s, d);
            Solo(Alone(env, c), calls[c], prepared, Project(next.trace, c), next.phases[c], n) ==
            Solo(Alone(env, c), calls[c], prepared, Project(s.trace, c), s.phases[c], (if d == c then 1 else 0) + n)
  {
    AdvanceProjects(env, calls, prepared, s, d, c);
  }

  /** A step of another call changes nothing for `c`; its own step is its own move. */
  lemma {:induction false} AdvanceProjects(env: Surroundings, calls: seq<Call>, prepared: Prepared, s: System, d: nat, c: nat)
    requires NotShared(env) && |s.phases| == |calls| && c < |calls|
    ensures var next, own := Advance(env, calls, prepared, s, d), Project(s.trace, c);
            var (steps, phase) := Move(calls[c], prepared, s.phases[c], NowAlone(Alone(env, c), own));
            if d == c then Project(next.trace, c) == own + steps && next.phases[c] == phase
            else Project(next.trace, c) == own && next.phases[c] == s.phases[c]
  {
    if d < |calls| {
      var steps := Move(calls[d], prepared, s.phases[d], Now(env, s.trace, d)).0;
      ProjectConcat(s.trace, Tag(d, steps), c);
      ProjectTag(d, steps, c);
      if d == c {
        AnsweredAsAlone(env, s.trace, c);
        MoveDependsOnMoment(calls[c], prepared, s.phases[c], Now(env, s.trace, c), NowAlone(Alone(env, c), Project(s.trace, c)));
      } else {
        assert Project(s.trace, c) + [] == Project(s.trace, c);
      }
    }
  }

  /* ----- the solo run is the engine's validation ----- */

  function TellAll(adv: Adversary, own: Trace, sinks: seq<Sink>, event: Event): Trace
    decreases |sinks|
  {
    if sinks == [] then own
    else TellAll(adv, own + [Emitted(sinks[0], event, adv.record(own, sinks[0], event))], sinks[1..], event)
  }

  /** What a call in a phase is still going to do, in one go. */
  function Rest(adv: Adversary, call: Call, prepared: Prepared, phase: Phase, own: Trace): Run {
    var Call(cfg, ctx) := call;
    match phase
    case Entering => ValidateRun(adv, cfg, own, ctx, prepared)
    case Checking(pairs) => RulesRun(adv, cfg, own, ctx, pairs)
    case Evaluating(pairs) =>
      if pairs == [] then Run(own, None)
      else
        var Pair(statement, registration) := pairs[0];
        var allowed := adv.evaluate(own, registration.rule, ctx, statement);
        var evaluated := own + [Evaluated(ctx, registration.rule, statement, allowed)];
        if allowed then RulesRun(adv, cfg, evaluated, ctx, pairs[1..])
        else Finish(adv, cfg, evaluated, PolicyViolation, registration.ruleID, Some(Violation(registration.ruleID)))
    case Telling(sinks, event, error) => Run(TellAll(adv, own, sinks, event), error)
    case Finished(error) => Run(own, error)
  }

  /** A bound on the steps a call in a phase still takes. */
  function Left(call: Call, prepared: Prepared, phase: Phase): nat {
    var ending := |Sinks(call.cfg)| + 1;
    match phase
    case Entering => 2 * |PreparedPairs(call.cfg, prepared)| + ending + 1
    case Checking(pairs) => 2 * |pairs| + ending
    case Evaluating(pairs) => if pairs == [] then 0 else 2 * |pairs| + ending - 1
    case Telling(sinks, _, _) => |sinks| + 1
    case Finished(_) => 0
  }

  predicate Sensible(phase: Phase) {
    (phase.Checking? || phase.Evaluating?) ==> phase.pairs != []
  }

  lemma {:induction false} FinishTellsAll(adv: Adversary, cfg: Config, own: Trace, event: Event)
    ensures Told(adv, cfg.logger, Logger, Told(adv, cfg.metrics, Metrics, own, event), event) == TellAll(adv, own, Sinks(cfg), event)
  {
    var told := Told(adv, cfg.metrics, Metrics, own, event);
    assert TellAll(adv, told, [], event) == told;
    assert [Metrics][1..] == [] && [Logger][1..] == [] && [Metrics, Logger][1..] == [Logger];
    assert TellAll(adv, told, [Logger], event) == told + [Emitted(Logger, event, adv.record(told, Logger, event))];
    if cfg.metrics && cfg.logger {
      assert Sinks(cfg) == [Metrics, Logger];
    }
  }

  lemma MoveKeepsRest(adv: Adversary, call: Call, prepared: Prepared, phase: Phase, own: Trace)
    requires Sensible(phase)
    ensures var (steps, next) := Move(call, prepared, phase, NowAlone(adv, own));
            && Sensible(next)
            && Rest(adv, call, prepared, next, own + steps) == Rest(adv, call, prepared, phase, own)
            && (phase.Finished? || Left(call, prepared, next) < Left(call, prepared, phase))
  {
    var (steps, next) := Move(call, prepared, phase, NowAlone(adv, own));
    if next.Telling? && !phase.Telling? {
      FinishTellsAll(adv, call.cfg, own + steps, next.event);
    }
    if steps == [] {
      assert own + [] == own;
    }
  }

  lemma {:induction false} SoloCompletes(adv: Adversary, call: Call, prepared: Prepared, phase: Phase, own: Trace, n: nat)
    requires Sensible(phase) && Left(call, prepared, phase) <= n
    ensures var (end, last) := Solo(adv, call, prepared, own, phase, n);
            end == Rest(adv, call, prepared, phase, own).trace && last == Finished(Rest(adv, call, prepared, phase, own).error)
    decreases n
  {
    if n == 0 {
      assert phase.Finished?;
    } else {
      var (steps, next) := Move(call, prepared, phase, NowAlone(adv, own));
      MoveKeepsRest(adv, call, prepared, phase, own);
      SoloCompletes(adv, call, prepared, next, own + steps, n - 1);
    }
  }

  /** However the calls interleave, a call that gets enough turns ends with exactly the trace and the
      result of its own undisturbed validation. */
  lemma {:induction false} InterleavedValidationsDoNotInterfere(env: Surroundings, calls: seq<Call>, prepared: Prepared, schedule: seq<nat>, c: nat)
    requires NotShared(env) && c < |calls| && Left(calls[c], prepared, Entering) <= Turns(schedule, c)
    ensures var end := Scheduled(env, calls, prepared, Initial(calls), schedule);
            var run := ValidateRun(Alone(env, c), calls[c].cfg, [], calls[c].ctx, prepared);
            Project(end.trace, c) == run.trace && end.phases[c] == Finished(run.error)
  {
    ProjectionIsSolo(env, calls, prepared, Initial(calls), schedule, c);
    SoloCompletes(Alone(env, c), calls[c], prepared, Entering, [], Turns(schedule, c));
  }
}
