/** Construction of an engine from options and rules (engine.go, rule.go). */
module Registration {
  import opened Common
  import opened World
  import opened Engine
  import Outcomes

  /** A rule as the caller passes it; a nil interface and a typed nil are both `NilRule`. */
  datatype RuleValue = NilRule | RuleValue(id: string, rule: RuleRef)

  datatype SinkOption = Absent | TypedNil | Present

  datatype Failure = NilMetrics | NilLogger | RuleIsNil | InvalidRuleID | DuplicateRuleID(id: string)

  const MAX_RULE_ID_LENGTH := 64

  predicate AlphaNumeric(c: char) {
    'a' <= c <= 'z' || 'A' <= c <= 'Z' || '0' <= c <= '9'
  }

  predicate Separator(c: char) {
    c == '.' || c == '-' || c == '_'
  }

  /** The identifier grammar. */
  predicate WellFormed(id: string) {
    && 1 <= |id| <= MAX_RULE_ID_LENGTH
    && AlphaNumeric(id[0])
    && forall i :: 1 <= i < |id| ==> AlphaNumeric(id[i]) || Separator(id[i])
  }

  method ValidRuleID(id: string) returns (valid: bool)
    ensures valid <==> WellFormed(id)
    ensures valid <==>
            && 1 <= |id| <= 64
            && ('a' <= id[0] <= 'z' || 'A' <= id[0] <= 'Z' || '0' <= id[0] <= '9')
            && forall i :: 1 <= i < |id| ==> 'a' <= id[i] <= 'z' || 'A' <= id[i] <= 'Z' || '0' <= id[i] <= '9' || id[i] in ".-_"
  {
    if |id| == 0 || |id| > MAX_RULE_ID_LENGTH {
      return false;
    }
    for index := 0 to |id|
      invariant index > 0 ==> AlphaNumeric(id[0])
      invariant forall i :: 1 <= i < index ==> AlphaNumeric(id[i]) || Separator(id[i])
    {
      if AlphaNumeric(id[index]) {
        continue;
      }
      if index > 0 && Separator(id[index]) {
        continue;
      }
      return false;
    }
    return true;
  }

  /** What is wrong with the rule at `i`, given those before it. */
  function Offence(rules: seq<RuleValue>, i: nat): Option<Failure>
    requires i < |rules|
  {
    if rules[i].NilRule? then Some(RuleIsNil)
    else if !WellFormed(rules[i].id) then Some(InvalidRuleID)
    else if exists j :: 0 <= j < i && rules[j].RuleValue? && rules[j].id == rules[i].id then Some(DuplicateRuleID(rules[i].id))
    else None
  }

  ghost predicate Clean(rules: seq<RuleValue>, n: nat)
    requires n <= |rules|
  {
    forall i :: 0 <= i < n ==> Offence(rules, i).None?
  }

  /** Every rule is there, its identifier is well formed, and no two identifiers are equal. */
  ghost predicate Acceptable(rules: seq<RuleValue>) {
    && (forall i :: 0 <= i < |rules| ==> rules[i].RuleValue? && WellFormed(rules[i].id))
    && forall i, j :: 0 <= i < j < |rules| ==> rules[i].id != rules[j].id
  }

  lemma CleanIffAcceptable(rules: seq<RuleValue>)
    ensures Clean(rules, |rules|) <==> Acceptable(rules)
  {
    if Clean(rules, |rules|) {
      forall i | 0 <= i < |rules|
        ensures rules[i].RuleValue? && WellFormed(rules[i].id)
      {
        assert Offence(rules, i).None?;
      }
      forall i, j | 0 <= i < j < |rules|
        ensures rules[i].id != rules[j].id
      {
        assert Offence(rules, j).None?;
      }
    }
  }

  /** The failure is that of the rule at `i`, and the rules before it are acceptable. */
  ghost predicate FirstOffence(rules: seq<RuleValue>, i: nat, failure: Failure)
    requires i < |rules|
  {
    && Acceptable(rules[..i])
    && match failure
       case RuleIsNil => rules[i].NilRule?
       case InvalidRuleID => rules[i].RuleValue? && !WellFormed(rules[i].id)
       case DuplicateRuleID(id) =>
         && rules[i].RuleValue? && WellFormed(rules[i].id) && rules[i].id == id
         && exists j :: 0 <= j < i && rules[j] == RuleValue(id, rules[j].rule)
       case _ => false
  }

  lemma OffenceIsFirst(rules: seq<RuleValue>, i: nat)
    requires i < |rules| && Offence(rules, i).Some? && Clean(rules, i)
    ensures FirstOffence(rules, i, Offence(rules, i).value)
  {
    forall j | 0 <= j < i
      ensures Offence(rules[..i], j) == Offence(rules, j)
    {
      assert forall k :: 0 <= k < j ==> rules[..i][k] == rules[k];
    }
    CleanIffAcceptable(rules[..i]);
  }

  /** The identifiers read, or the failure of the first offending rule. */
  method ValidateRules(rules: array<RuleValue>) returns (ids: seq<string>, failure: Option<Failure>)
    ensures failure.None? <==> Acceptable(rules[..])
    ensures failure.None? ==> |ids| == rules.Length && forall i :: 0 <= i < rules.Length ==> rules[i].RuleValue? && ids[i] == rules[i].id
    ensures failure.Some? ==> exists i :: 0 <= i < rules.Length && FirstOffence(rules[..], i, failure.value)
  {
    CleanIffAcceptable(rules[..]);
    ids := [];
    var seen: set<string> := {};
    for index := 0 to rules.Length
      invariant Clean(rules[..], index)
      invariant |ids| == index
      invariant forall i :: 0 <= i < index ==> rules[i].RuleValue? && ids[i] == rules[i].id
      invariant forall id :: id in seen <==> exists j :: 0 <= j < index && rules[j].RuleValue? && rules[j].id == id
    {
      var rule := rules[index];
      assert rules[..][index] == rule;
      if rule.NilRule? {
        assert Offence(rules[..], index) == Some(RuleIsNil);
        OffenceIsFirst(rules[..], index);
        return [], Some(RuleIsNil);
      }
      var valid := ValidRuleID(rule.id);
      if !valid {
        assert Offence(rules[..], index) == Some(InvalidRuleID);
        OffenceIsFirst(rules[..], index);
        return [], Some(InvalidRuleID);
      }
      if rule.id in seen {
        var j :| 0 <= j < index && rules[j].RuleValue? && rules[j].id == rule.id;
        assert rules[..][j] == rules[j];
        assert Offence(rules[..], index) == Some(DuplicateRuleID(rule.id));
        OffenceIsFirst(rules[..], index);
        return [], Some(DuplicateRuleID(rule.id));
      }
      assert forall j :: 0 <= j < index ==> rules[..][j] == rules[j];
      assert Offence(rules[..], index) == None;
      seen := seen + {rule.id};
      ids := ids + [rule.id];
    }
    return ids, None;
  }

  /** An engine exactly if both sinks are usable and the rules are acceptable; it keeps the order and
      the identifiers read, as a copy that the caller's slice does not share. Otherwise the failure
      is that of the metrics, the logger, or the first offending rule, in this order. */
  method NewEngine(metrics: SinkOption, logger: SinkOption, rules: array<RuleValue>) returns (engine: Validator?, failure: Option<Failure>)
    ensures engine != null <==> metrics != TypedNil && logger != TypedNil && Acceptable(rules[..])
    ensures failure.None? <==> engine != null
    ensures engine != null ==>
              && engine.config.metrics == (metrics == Present) && engine.config.logger == (logger == Present)
              && |engine.config.rules| == rules.Length
              && (forall i :: 0 <= i < rules.Length ==>
                    rules[i].RuleValue? && engine.config.rules[i].ruleID == rules[i].id && engine.config.rules[i].rule == rules[i].rule)
              && !Outcomes.Registered(engine.config, "")
    ensures failure.Some? ==>
              if metrics == TypedNil then failure.value == NilMetrics
              else if logger == TypedNil then failure.value == NilLogger
              else exists i :: 0 <= i < rules.Length && FirstOffence(rules[..], i, failure.value)
    ensures engine != null ==> fresh(engine)
  {
    if metrics == TypedNil {
      return null, Some(NilMetrics);
    }
    if logger == TypedNil {
      return null, Some(NilLogger);
    }
    var ids;
    ids, failure := ValidateRules(rules);
    if failure.Some? {
      return null, failure;
    }
    assert Acceptable(rules[..]);
    var registrations := [];
    for index := 0 to rules.Length
      invariant forall i :: 0 <= i < rules.Length ==> rules[i].RuleValue?
      invariant |registrations| == index
      invariant forall i :: 0 <= i < index ==> registrations[i] == RegisteredRule(rules[i].id, rules[i].rule)
    {
      registrations := registrations + [RegisteredRule(ids[index], rules[index].rule)];
    }
    engine := new Validator(Config(registrations, metrics == Present, logger == Present));
    failure := None;
    forall i | 0 <= i < |registrations|
      ensures registrations[i].ruleID != ""
    {
      assert WellFormed(rules[..][i].id);
    }
  }
}
