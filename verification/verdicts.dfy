/** Rules without state under an active context: the verdict of a batch. */
module Verdicts {
  import opened Common
  import opened Tree
  import opened World
  import opened Engine
  import opened Runs
  import Statements

  type Decision = (RuleRef, Node) -> bool

  /** The rules' answers depend on the statement alone. */
  ghost predicate Stateless(adv: Adversary, decide: Decision) {
    forall t, rule, ctx, statement :: adv.evaluate(t, rule, ctx, statement) == decide(rule, statement)
  }

  ghost predicate Active(adv: Adversary, ctx: Context) {
    forall t :: adv.contextErr(t, ctx) == None
  }

  predicate Allows(decide: Decision, pair: Pair) {
    decide(pair.registration.rule, pair.statement)
  }

  /** How many pairs are allowed before the first rejected one. */
  function Passed(decide: Decision, pairs: seq<Pair>): (n: nat)
    ensures n <= |pairs|
    ensures forall i :: 0 <= i < n ==> Allows(decide, pairs[i])
    ensures n < |pairs| ==> !Allows(decide, pairs[n])
  {
    if pairs == [] || !Allows(decide, pairs[0]) then 0 else 1 + Passed(decide, pairs[1..])
  }

  /** The violation of the first rejected pair. */
  function FirstViolation(decide: Decision, pairs: seq<Pair>): Option<Error> {
    var n := Passed(decide, pairs);
    if n == |pairs| then None else Some(Violation(pairs[n].registration.ruleID))
  }

  /** A validation evaluates the pairs up to and including the first rejected one. */
  lemma StatelessRun(adv: Adversary, cfg: Config, t: Trace, ctx: Context, prepared: Prepared, decide: Decision)
    returns (steps: Trace)
    requires Stateless(adv, decide) && Active(adv, ctx) && prepared.result.Some?
    ensures var run, pairs := ValidateRun(adv, cfg, t, ctx, prepared), PreparedPairs(cfg, prepared);
            && run.trace == t + steps
            && run.error == FirstViolation(decide, pairs)
            && |Evaluations(steps)| == if run.error.None? then |pairs| else Passed(decide, pairs) + 1
  {
    steps := ValidationIsExact(adv, cfg, t, ctx, prepared);
    var checked := t + [Checked(ctx, adv.contextErr(t, ctx))];
    var pairs := PreparedPairs(cfg, prepared);
    var tail := StatelessRules(adv, cfg, checked, ctx, pairs, decide);
    AppendAssociative(t, [Checked(ctx, adv.contextErr(t, ctx))], tail);
    assert t + steps == t + ([Checked(ctx, adv.contextErr(t, ctx))] + tail);
    SameSuffix(t, steps, [Checked(ctx, adv.contextErr(t, ctx))] + tail);
    EvaluationsConcat([Checked(ctx, adv.contextErr(t, ctx))], tail);
  }

  lemma SameSuffix(t: Trace, a: Trace, b: Trace)
    requires t + a == t + b
    ensures a == b
  {
    assert a == (t + a)[|t|..] && b == (t + b)[|t|..];
  }

  lemma {:induction false} StatelessRules(adv: Adversary, cfg: Config, t: Trace, ctx: Context, pairs: seq<Pair>, decide: Decision)
    returns (steps: Trace)
    requires Stateless(adv, decide) && Active(adv, ctx)
    ensures var run := RulesRun(adv, cfg, t, ctx, pairs);
            && run.trace == t + steps
            && run.error == FirstViolation(decide, pairs)
            && |Evaluations(steps)| == if run.error.None? then |pairs| else Passed(decide, pairs) + 1
    decreases |pairs|
  {
    if pairs == [] {
      steps := FinishReports(adv, cfg, t, Allowed, "", None);
    } else {
      var Pair(statement, registration) := pairs[0];
      var checked := t + [Checked(ctx, None)];
      var allowed := adv.evaluate(checked, registration.rule, ctx, statement);
      var front := [Checked(ctx, None), Evaluated(ctx, registration.rule, statement, allowed)];
      var evaluated := checked + [Evaluated(ctx, registration.rule, statement, allowed)];
      assert evaluated == t + front;
      var tail;
      if allowed {
        tail := StatelessRules(adv, cfg, evaluated, ctx, pairs[1..], decide);
      } else {
        tail := FinishReports(adv, cfg, evaluated, PolicyViolation, registration.ruleID, Some(Violation(registration.ruleID)));
      }
      steps := front + tail;
      AppendAssociative(t, front, tail);
      EvaluatedFront(front, tail);
    }
  }

  lemma {:induction false} PassedConcat(decide: Decision, a: seq<Pair>, b: seq<Pair>)
    ensures Passed(decide, a + b) == if Passed(decide, a) < |a| then Passed(decide, a) else |a| + Passed(decide, b)
    ensures FirstViolation(decide, a + b) == if FirstViolation(decide, a).Some? then FirstViolation(decide, a) else FirstViolation(decide, b)
    decreases |a|
  {
    if a == [] {
      assert a + b == b;
    } else {
      assert (a + b)[1..] == a[1..] + b;
      PassedConcat(decide, a[1..], b);
    }
  }

  lemma {:induction false} PairsConcat(a: seq<Node>, b: seq<Node>, rules: seq<RegisteredRule>)
    ensures Pairs(a + b, rules) == Pairs(a, rules) + Pairs(b, rules)
  {
    if a == [] {
      assert a + b == b;
    } else {
      assert (a + b)[1..] == a[1..] + b;
      PairsConcat(a[1..], b, rules);
      AppendAssociative(Row(a[0], rules), Pairs(a[1..], rules), Pairs(b, rules));
    }
  }

  function RootsViolation(decide: Decision, cfg: Config, roots: seq<Option<Node>>): Option<Error> {
    FirstViolation(decide, Pairs(Statements.FlattenAll(roots), cfg.rules))
  }

  /** The first error of a list of results. */
  function FirstError(results: seq<Option<Error>>): (r: Option<Error>)
    ensures r.None? <==> forall i :: 0 <= i < |results| ==> results[i].None?
    ensures r.Some? ==> exists i :: 0 <= i < |results| && results[i] == r && forall j :: 0 <= j < i ==> results[j].None?
  {
    if results == [] then None
    else if results[0].Some? then results[0]
    else
      var r := FirstError(results[1..]);
      assert forall i :: 0 < i < |results| ==> results[i] == results[1..][i - 1];
      assert r.Some? ==> exists i :: 0 <= i < |results[1..]| && results[1..][i] == r && forall j :: 0 <= j < i ==> results[1..][j].None?;
      r
  }

  function AloneRuns(adv: Adversary, cfg: Config, u: Trace, ctx: Context, roots: seq<Option<Node>>): seq<Option<Error>> {
    Map(root => ValidateRun(adv, cfg, u, ctx, Prepared(Some([root]))).error, roots)
  }

  function AloneViolations(decide: Decision, cfg: Config, roots: seq<Option<Node>>): seq<Option<Error>> {
    Map(root => RootsViolation(decide, cfg, [root]), roots)
  }

  /** A batch is accepted iff every top-level statement is accepted alone; otherwise it returns what
      its first rejected statement returns alone. The lone validations may start from any trace. */
  lemma BatchHomomorphism(adv: Adversary, cfg: Config, t: Trace, u: Trace, ctx: Context,
                          roots: seq<Option<Node>>, decide: Decision)
    requires Stateless(adv, decide) && Active(adv, ctx)
    ensures ValidateRun(adv, cfg, t, ctx, Prepared(Some(roots))).error == FirstError(AloneRuns(adv, cfg, u, ctx, roots))
  {
    var _ := StatelessRun(adv, cfg, t, ctx, Prepared(Some(roots)), decide);
    forall i | 0 <= i < |roots|
      ensures AloneRuns(adv, cfg, u, ctx, roots)[i] == AloneViolations(decide, cfg, roots)[i]
    {
      var _ := StatelessRun(adv, cfg, u, ctx, Prepared(Some([roots[i]])), decide);
    }
    assert AloneRuns(adv, cfg, u, ctx, roots) == AloneViolations(decide, cfg, roots);
    FirstRejectedRoot(decide, cfg, roots);
  }

  lemma RootsViolationCons(decide: Decision, cfg: Config, root: Option<Node>, rest: seq<Option<Node>>)
    ensures RootsViolation(decide, cfg, [root] + rest) ==
            if RootsViolation(decide, cfg, [root]).Some? then RootsViolation(decide, cfg, [root]) else RootsViolation(decide, cfg, rest)
  {
    var first, others := Statements.FlattenAll([root]), Statements.FlattenAll(rest);
    Statements.FlattenAllConcat([root], rest);
    PairsConcat(first, others, cfg.rules);
    PassedConcat(decide, Pairs(first, cfg.rules), Pairs(others, cfg.rules));
  }

  lemma {:induction false} FirstRejectedRoot(decide: Decision, cfg: Config, roots: seq<Option<Node>>)
    ensures RootsViolation(decide, cfg, roots) == FirstError(AloneViolations(decide, cfg, roots))
  {
    if roots != [] {
      FirstRejectedRoot(decide, cfg, roots[1..]);
      RootsViolationCons(decide, cfg, roots[0], roots[1..]);
      assert roots == [roots[0]] + roots[1..];
      MapTail(root => RootsViolation(decide, cfg, [root]), roots);
    } else {
      assert Statements.FlattenRoots(roots) == [];
    }
  }

  /* ----- the rule that decides ----- */

  /** Rule `j` is the first in registration order to reject statement `i`, and no rule rejects an
      earlier statement. */
  ghost predicate FirstRejection(decide: Decision, rules: seq<RegisteredRule>, statements: seq<Node>, i: int, j: int) {
    && 0 <= i < |statements| && 0 <= j < |rules|
    && !decide(rules[j].rule, statements[i])
    && (forall l :: 0 <= l < j ==> decide(rules[l].rule, statements[i]))
    && forall k, l :: 0 <= k < i && 0 <= l < |rules| ==> decide(rules[l].rule, statements[k])
  }

  ghost predicate AllAllowed(decide: Decision, rules: seq<RegisteredRule>, statements: seq<Node>) {
    forall i, j :: 0 <= i < |statements| && 0 <= j < |rules| ==> decide(rules[j].rule, statements[i])
  }

  lemma RowDecides(decide: Decision, rules: seq<RegisteredRule>, statement: Node)
    ensures var row := Row(statement, rules);
            var n := Passed(decide, row);
            && |row| == |rules|
            && (forall l :: 0 <= l < n ==> decide(rules[l].rule, statement))
            && (n < |rules| ==> !decide(rules[n].rule, statement)
                                && FirstViolation(decide, row) == Some(Violation(rules[n].ruleID)))
  {
    var row := Row(statement, rules);
    assert forall l :: 0 <= l < |rules| ==> row[l] == Pair(statement, rules[l]);
    assert forall l :: 0 <= l < Passed(decide, row) ==> Allows(decide, row[l]);
  }

  lemma {:induction false} DecidingRule(decide: Decision, rules: seq<RegisteredRule>, statements: seq<Node>)
    returns (i: int, j: int)
    ensures var violation := FirstViolation(decide, Pairs(statements, rules));
            if violation.None? then AllAllowed(decide, rules, statements)
            else FirstRejection(decide, rules, statements, i, j) && violation == Some(Violation(rules[j].ruleID))
  {
    i, j := 0, 0;
    if statements != [] {
      var row := Row(statements[0], rules);
      RowDecides(decide, rules, statements[0]);
      PassedConcat(decide, row, Pairs(statements[1..], rules));
      if Passed(decide, row) < |rules| {
        j := Passed(decide, row);
      } else {
        i, j := DecidingRule(decide, rules, statements[1..]);
        assert forall k :: 0 < k < |statements| ==> statements[k] == statements[1..][k - 1];
        i := i + 1;
      }
    }
  }

  lemma FirstRejectionIsUnique(decide: Decision, rules: seq<RegisteredRule>, statements: seq<Node>, i: int, j: int, i': int, j': int)
    requires FirstRejection(decide, rules, statements, i, j) && FirstRejection(decide, rules, statements, i', j')
    ensures i == i' && j == j'
  {
  }

  /** With stateless rules and an active context: success iff no rule rejects any statement, and
      otherwise the identifier of the first rule in registration order that rejects the first rejected
      statement. */
  lemma StatelessVerdict(adv: Adversary, cfg: Config, t: Trace, ctx: Context, prepared: Prepared, decide: Decision)
    requires Stateless(adv, decide) && Active(adv, ctx) && prepared.result.Some?
    ensures var error, statements := ValidateRun(adv, cfg, t, ctx, prepared).error, Statements.FlattenAll(prepared.result.value);
            && (error.None? <==> AllAllowed(decide, cfg.rules, statements))
            && (error.Some? ==> exists i, j :: FirstRejection(decide, cfg.rules, statements, i, j))
            && forall i, j :: FirstRejection(decide, cfg.rules, statements, i, j) ==> error == Some(Violation(cfg.rules[j].ruleID))
  {
    var statements := Statements.FlattenAll(prepared.result.value);
    var _ := StatelessRun(adv, cfg, t, ctx, prepared, decide);
    var i, j := DecidingRule(decide, cfg.rules, statements);
    if !AllAllowed(decide, cfg.rules, statements) {
      forall i', j' | FirstRejection(decide, cfg.rules, statements, i', j')
        ensures j' == j
      {
        FirstRejectionIsUnique(decide, cfg.rules, statements, i, j, i', j');
      }
    }
  }
}
