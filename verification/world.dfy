/** Everything outside the library: caller contexts, rules, sinks, the grammar and the database.
    Each answer is an arbitrary function of the whole interaction so far, so a context may expire
    at any moment, a rule may keep state and a sink may fail or panic. */
module World {
  import opened Common
  import opened Tree
  import Conversion

  type Context = nat
  type RuleRef = nat

  datatype ContextError = Canceled | DeadlineExceeded

  /** The errors a validation returns; a parser failure is always of the syntax category. */
  datatype Error = ContextFailed(cause: ContextError) | ParseFailed | InvalidPrepared | Violation(ruleID: string)

  datatype Outcome = Allowed | PolicyViolation | ParserFailure | CanceledOutcome | InvalidPreparedOutcome

  /** The terminal event of an enforced validation. */
  datatype Event = Event(outcome: Outcome, ruleID: string)

  datatype Sink = Metrics | Logger

  datatype SinkReply = Accepted | Failed | Panicked

  datatype Operation = Exec | Query | QueryRow

  datatype Argument = Argument(value: nat, rewritesQuery: bool)

  datatype Step =
    | Began(operation: Operation, ctx: Context, sql: string, arguments: seq<Argument>)
    | Checked(ctx: Context, failure: Option<ContextError>)
    | Grammar(sql: string)
    | Evaluated(ctx: Context, rule: RuleRef, statement: Node, allowed: bool)
    | Emitted(sink: Sink, event: Event, reply: SinkReply)
    | Executed(operation: Operation, ctx: Context, sql: string, arguments: seq<Argument>, response: nat)

  type Trace = seq<Step>

  predicate RanGrammar(steps: Trace) {
    exists k :: 0 <= k < |steps| && steps[k].Grammar?
  }

  datatype Adversary = Adversary(
    contextErr: (Trace, Context) -> Option<ContextError>,
    backend: Conversion.Backend,
    evaluate: (Trace, RuleRef, Context, Node) -> bool,
    record: (Trace, Sink, Event) -> SinkReply,
    execute: (Trace, Operation, Context, string, seq<Argument>) -> nat)

  class Environment {
    const adversary: Adversary
    var trace: Trace

    constructor (adversary: Adversary)
      ensures this.adversary == adversary && trace == []
    {
      this.adversary := adversary;
      trace := [];
    }

    method Err(ctx: Context) returns (failure: Option<ContextError>)
      modifies this
      ensures failure == adversary.contextErr(old(trace), ctx)
      ensures trace == old(trace) + [Checked(ctx, failure)]
    {
      failure := adversary.contextErr(trace, ctx);
      trace := trace + [Checked(ctx, failure)];
    }

    method Parse(sql: string) returns (result: Option<seq<Option<Node>>>)
      modifies this
      ensures result == Conversion.Parsed(adversary.backend, sql)
      ensures trace == old(trace) + [Grammar(sql)]
    {
      result := Conversion.Parse(adversary.backend, sql);
      trace := trace + [Grammar(sql)];
    }

    method Evaluate(rule: RuleRef, ctx: Context, statement: Node) returns (allowed: bool)
      modifies this
      ensures allowed == adversary.evaluate(old(trace), rule, ctx, statement)
      ensures trace == old(trace) + [Evaluated(ctx, rule, statement, allowed)]
    {
      allowed := adversary.evaluate(trace, rule, ctx, statement);
      trace := trace + [Evaluated(ctx, rule, statement, allowed)];
    }

    method Record(sink: Sink, event: Event) returns (reply: SinkReply)
      modifies this
      ensures reply == adversary.record(old(trace), sink, event)
      ensures trace == old(trace) + [Emitted(sink, event, reply)]
    {
      reply := adversary.record(trace, sink, event);
      trace := trace + [Emitted(sink, event, reply)];
    }

    method Begin(operation: Operation, ctx: Context, sql: string, arguments: seq<Argument>)
      modifies this
      ensures trace == old(trace) + [Began(operation, ctx, sql, arguments)]
    {
      trace := trace + [Began(operation, ctx, sql, arguments)];
    }

    method Execute(operation: Operation, ctx: Context, sql: string, arguments: seq<Argument>) returns (response: nat)
      modifies this
      ensures response == adversary.execute(old(trace), operation, ctx, sql, arguments)
      ensures trace == old(trace) + [Executed(operation, ctx, sql, arguments, response)]
    {
      response := adversary.execute(trace, operation, ctx, sql, arguments);
      trace := trace + [Executed(operation, ctx, sql, arguments, response)];
    }
  }
}
