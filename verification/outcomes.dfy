/** Conservation of terminal events over any sequence of engine calls. */
module Outcomes {
  import opened Common
  import opened World
  import opened Engine
  import opened Runs
  import Conversion
  import Statements
  import Tree

  datatype ApiCall =
    | ValidateCall(ctx: Context, sql: string)
    | ValidatePreparedCall(ctx: Context, prepared: Prepared)
    | PrepareCall(ctx: Context, sql: string)

  /** A call returns a verdict, except that a preparation that succeeds hands out its value. */
  datatype Returned = Verdict(error: Option<Error>) | Handed(prepared: Prepared)

  function CallRun(adv: Adversary, cfg: Config, t: Trace, call: ApiCall): (Trace, Returned) {
    match call
    case ValidateCall(ctx, sql) =>
      var run := DirectRun(adv, cfg, t, ctx, sql);
      (run.trace, Verdict(run.error))
    case ValidatePreparedCall(ctx, prepared) =>
      var run := ValidateRun(adv, cfg, t, ctx, prepared);
      (run.trace, Verdict(run.error))
    case PrepareCall(ctx, sql) =>
      var (trace, preparation) := PrepareRun(adv, cfg, t, ctx, sql);
      (trace, match preparation
              case Ready(prepared) => Handed(prepared)
              case Unprepared(error) => Verdict(Some(error)))
  }

  function CallsRun(adv: Adversary, cfg: Config, t: Trace, calls: seq<ApiCall>): (Trace, seq<Returned>)
    decreases |calls|
  {
    if calls == [] then (t, [])
    else
      var (mid, first) := CallRun(adv, cfg, t, calls[0]);
      var (end, rest) := CallsRun(adv, cfg, mid, calls[1..]);
      (end, [first] + rest)
  }

  /** The events the returned values account for, in order. */
  function Due(returned: seq<Returned>): seq<Event> {
    if returned == [] then [] else DueFor(returned[0]) + Due(returned[1..])
  }

  function DueFor(returned: Returned): seq<Event> {
    match returned
    case Verdict(error) => [EventOf(error)]
    case Handed(_) => []
  }

  predicate Registered(cfg: Config, ruleID: string) {
    exists i :: 0 <= i < |cfg.rules| && cfg.rules[i].ruleID == ruleID
  }

  /** A violation names a registered rule. */
  predicate Attributed(cfg: Config, returned: Returned) {
    returned.Verdict? && returned.error.Some? && returned.error.value.Violation? ==>
      Registered(cfg, returned.error.value.ruleID)
  }

  ghost predicate Accounted(cfg: Config, steps: Trace, due: seq<Event>) {
    forall sink :: Emissions(sink, steps) == if Enabled(cfg, sink) then due else []
  }

  lemma AccountedConcat(cfg: Config, a: Trace, dueA: seq<Event>, b: Trace, dueB: seq<Event>)
    requires Accounted(cfg, a, dueA) && Accounted(cfg, b, dueB)
    ensures Accounted(cfg, a + b, dueA + dueB)
  {
    forall sink {
      EmissionsConcat(sink, a, b);
    }
  }

  /** Every enabled sink receives, in order, exactly one event for each call that returns a verdict,
      and that event is the verdict's, whatever errors or panics the sinks produce. */
  lemma {:induction false} EventsAreConserved(adv: Adversary, cfg: Config, t: Trace, calls: seq<ApiCall>)
    returns (steps: Trace)
    ensures var (end, returned) := CallsRun(adv, cfg, t, calls);
            && end == t + steps
            && |returned| == |calls|
            && (forall i :: 0 <= i < |calls| ==> (returned[i].Handed? ==> calls[i].PrepareCall?) && Attributed(cfg, returned[i]))
            && Accounted(cfg, steps, Due(returned))
    decreases |calls|
  {
    if calls == [] {
      steps := [];
    } else {
      var (mid, first) := CallRun(adv, cfg, t, calls[0]);
      var head := CallIsAccounted(adv, cfg, t, calls[0]);
      var tail := EventsAreConserved(adv, cfg, mid, calls[1..]);
      steps := head + tail;
      AppendAssociative(t, head, tail);
      AccountedConcat(cfg, head, DueFor(first), tail, Due(CallsRun(adv, cfg, mid, calls[1..]).1));
      var returned := CallsRun(adv, cfg, t, calls).1;
      assert forall i :: 1 <= i < |calls| ==> returned[i] == returned[1..][i - 1] && calls[i] == calls[1..][i - 1];
    }
  }

  predicate Named(cfg: Config, event: Event) {
    if event.outcome == PolicyViolation then Registered(cfg, event.ruleID) else event.ruleID == ""
  }

  /** Every event that a sink receives carries the identifier of a registered rule if it reports a
      violation, and none otherwise; so with identifiers that are not empty it carries one exactly if
      it reports a violation. */
  lemma EventsNameRegisteredRules(adv: Adversary, cfg: Config, t: Trace, calls: seq<ApiCall>)
    returns (steps: Trace)
    ensures CallsRun(adv, cfg, t, calls).0 == t + steps
    ensures forall sink, event :: event in Emissions(sink, steps) ==> Named(cfg, event)
    ensures !Registered(cfg, "") ==>
              forall sink, event :: event in Emissions(sink, steps) ==> (event.ruleID != "" <==> event.outcome == PolicyViolation)
  {
    steps := EventsAreConserved(adv, cfg, t, calls);
    DueIsAttributed(cfg, CallsRun(adv, cfg, t, calls).1);
  }

  lemma {:induction false} DueIsAttributed(cfg: Config, returned: seq<Returned>)
    requires forall i :: 0 <= i < |returned| ==> Attributed(cfg, returned[i])
    ensures forall event :: event in Due(returned) ==> Named(cfg, event)
  {
    if returned != [] {
      DueIsAttributed(cfg, returned[1..]);
    }
  }

  lemma CallIsAccounted(adv: Adversary, cfg: Config, t: Trace, call: ApiCall)
    returns (steps: Trace)
    ensures var (end, returned) := CallRun(adv, cfg, t, call);
            end == t + steps && Accounted(cfg, steps, DueFor(returned)) && Attributed(cfg, returned)
  {
    match call {
      case ValidateCall(ctx, sql) =>
        var head := PrepareIsAccounted(adv, cfg, t, ctx, sql);
        var (mid, preparation) := PrepareRun(adv, cfg, t, ctx, sql);
        if preparation.Ready? {
          var tail := ValidateIsAccounted(adv, cfg, mid, ctx, preparation.prepared);
          steps := head + tail;
          AppendAssociative(t, head, tail);
          var due := [EventOf(ValidateRun(adv, cfg, mid, ctx, preparation.prepared).error)];
          AccountedConcat(cfg, head, [], tail, due);
          assert [] + due == due;
        } else {
          steps := head;
        }
      case ValidatePreparedCall(ctx, prepared) =>
        steps := ValidateIsAccounted(adv, cfg, t, ctx, prepared);
      case PrepareCall(ctx, sql) =>
        steps := PrepareIsAccounted(adv, cfg, t, ctx, sql);
    }
  }

  lemma ValidateIsAccounted(adv: Adversary, cfg: Config, t: Trace, ctx: Context, prepared: Prepared)
    returns (steps: Trace)
    ensures var run := ValidateRun(adv, cfg, t, ctx, prepared);
            && run.trace == t + steps && Accounted(cfg, steps, [EventOf(run.error)])
            && Attributed(cfg, Verdict(run.error))
  {
    steps := ValidationIsExact(adv, cfg, t, ctx, prepared);
    var run, pairs := ValidateRun(adv, cfg, t, ctx, prepared), PreparedPairs(cfg, prepared);
    if run.error.Some? && run.error.value.Violation? {
      if prepared.result.Some? {
        PairsAreRegistered(cfg, Statements.FlattenAll(prepared.result.value));
      }
    }
  }

  lemma {:induction false} PairsAreRegistered(cfg: Config, statements: seq<Tree.Node>)
    ensures forall pair :: pair in Pairs(statements, cfg.rules) ==> Registered(cfg, pair.registration.ruleID)
  {
    if statements != [] {
      PairsAreRegistered(cfg, statements[1..]);
    }
  }

  /** How the steps of a preparation relate to what it returns: the context is checked before the
      grammar runs and again after it, and a failed check wins over a syntax failure. */
  ghost predicate WholePreparation(adv: Adversary, ctx: Context, sql: string, steps: Trace, preparation: Preparation) {
    && steps != [] && steps[0].Checked?
    && (forall k :: 0 <= k < |steps| ==> (steps[k].Checked? && steps[k].ctx == ctx) || steps[k] == Grammar(sql) || steps[k].Emitted?)
    && (RanGrammar(steps) <==> steps[0].failure.None?)
    && (RanGrammar(steps) ==> |steps| >= 3 && steps[1] == Grammar(sql) && steps[2].Checked?)
    && (SomeCheckFailed(steps) <==> preparation.Unprepared? && preparation.error.ContextFailed?)
    && CauseReturned(steps, if preparation.Unprepared? then Some(preparation.error) else None)
    && (preparation == Unprepared(ParseFailed) <==> !SomeCheckFailed(steps) && Conversion.Parsed(adv.backend, sql).None?)
    && (preparation.Ready? <==> steps == [Checked(ctx, None), Grammar(sql), Checked(ctx, None)]
                                && preparation == Ready(Prepared(Conversion.Parsed(adv.backend, sql)))
                                && preparation.prepared.result.Some?)
  }

  lemma PrepareIsAccounted(adv: Adversary, cfg: Config, t: Trace, ctx: Context, sql: string)
    returns (steps: Trace)
    ensures var (end, preparation) := PrepareRun(adv, cfg, t, ctx, sql);
            && end == t + steps
            && Accounted(cfg, steps, match preparation case Ready(_) => [] case Unprepared(error) => [EventOf(Some(error))])
            && (preparation.Unprepared? ==> !preparation.error.Violation?)
            && WholePreparation(adv, ctx, sql, steps, preparation)
            && steps[0] == Checked(ctx, adv.contextErr(t, ctx))
  {
    var before, after, tail := PreparationTail(adv, cfg, t, ctx, sql);
    var front, preparation := PreparationFront(ctx, sql, before, after), PrepareRun(adv, cfg, t, ctx, sql).1;
    steps := front + tail;
    AppendAssociative(t, front, tail);
    QuietFront(cfg, front);
    var due := match preparation case Ready(_) => [] case Unprepared(error) => [EventOf(Some(error))];
    AccountedConcat(cfg, front, [], tail, due);
    assert [] + due == due;
    PreparationShape(adv, ctx, sql, before, after, tail, preparation);
  }

  function PreparationFront(ctx: Context, sql: string, before: Option<ContextError>, after: Option<ContextError>): Trace {
    if before.Some? then [Checked(ctx, before)] else [Checked(ctx, before), Grammar(sql), Checked(ctx, after)]
  }

  predicate PreparationResult(adv: Adversary, sql: string, before: Option<ContextError>, after: Option<ContextError>, preparation: Preparation) {
    var result := Conversion.Parsed(adv.backend, sql);
    preparation == if before.Some? then Unprepared(ContextFailed(before.value))
                   else if after.Some? then Unprepared(ContextFailed(after.value))
                   else if result.None? then Unprepared(ParseFailed) else Ready(Prepared(result))
  }

  lemma PreparationTail(adv: Adversary, cfg: Config, t: Trace, ctx: Context, sql: string)
    returns (before: Option<ContextError>, after: Option<ContextError>, tail: Trace)
    ensures var (end, preparation) := PrepareRun(adv, cfg, t, ctx, sql);
            && end == (t + PreparationFront(ctx, sql, before, after)) + tail
            && before == adv.contextErr(t, ctx)
            && PreparationResult(adv, sql, before, after, preparation)
            && OnlyEmissions(tail)
            && (if preparation.Ready? then tail == [] else Reported(cfg, tail, Some(preparation.error)))
  {
    before := adv.contextErr(t, ctx);
    var parsed := t + [Checked(ctx, before)] + [Grammar(sql)];
    after := adv.contextErr(parsed, ctx);
    var front, preparation := PreparationFront(ctx, sql, before, after), PrepareRun(adv, cfg, t, ctx, sql).1;
    assert parsed + [Checked(ctx, after)] == t + [Checked(ctx, before), Grammar(sql), Checked(ctx, after)];
    tail := [];
    if preparation.Unprepared? {
      var outcome := if preparation.error == ParseFailed then ParserFailure else CanceledOutcome;
      tail := FinishReports(adv, cfg, t + front, outcome, "", Some(preparation.error));
      FinishTraceOnly(adv, cfg, t + front, outcome, "", Some(preparation.error));
    }
  }

  lemma PreparationShape(adv: Adversary, ctx: Context, sql: string, before: Option<ContextError>,
                         after: Option<ContextError>, tail: Trace, preparation: Preparation)
    requires OnlyEmissions(tail) && (preparation.Ready? ==> tail == [])
    requires PreparationResult(adv, sql, before, after, preparation)
    ensures WholePreparation(adv, ctx, sql, PreparationFront(ctx, sql, before, after) + tail, preparation)
  {
    var front := PreparationFront(ctx, sql, before, after);
    ChecksInFront(front, tail);
    if before.Some? {
      assert front[0].failure.Some?;
    } else {
      assert front[1].Grammar?;
      assert after.Some? ==> front[2].Checked? && front[2].failure.Some?;
    }
  }

  lemma ChecksInFront(front: Trace, tail: Trace)
    requires OnlyEmissions(tail)
    ensures SomeCheckFailed(front + tail) <==> SomeCheckFailed(front)
    ensures RanGrammar(front + tail) <==> RanGrammar(front)
    ensures forall k :: |front| <= k < |front + tail| ==> (front + tail)[k].Emitted?
  {
    var steps := front + tail;
    assert forall k :: |front| <= k < |steps| ==> steps[k] == tail[k - |front|];
    assert forall k :: 0 <= k < |front| ==> steps[k] == front[k];
  }

  lemma FinishTraceOnly(adv: Adversary, cfg: Config, t: Trace, outcome: Outcome, ruleID: string, error: Option<Error>)
    ensures Finish(adv, cfg, t, outcome, ruleID, error).trace == Finish(adv, cfg, t, outcome, ruleID, None).trace
  {
  }

  lemma QuietFront(cfg: Config, front: Trace)
    requires forall k :: 0 <= k < |front| ==> !front[k].Emitted?
    ensures Accounted(cfg, front, [])
  {
    forall sink {
      NoEmissions(sink, front);
    }
  }

  lemma {:induction false} NoEmissions(sink: Sink, front: Trace)
    requires forall k :: 0 <= k < |front| ==> !front[k].Emitted?
    ensures Emissions(sink, front) == []
  {
    if front != [] {
      NoEmissions(sink, front[1..]);
    }
  }
}
