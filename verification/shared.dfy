/** The cache that concurrent calls share (example/pgx-prepared/guarded.go): what each step does to it
    in any state, and what is in it after any interleaving. */
module SharedCache {
  import opened Common
  import opened Engine
  import opened Cache
  import opened Protocol
  import opened Recency
  import Guard

  /** Only lookups and stores touch the cache. A hit moves its entry to the front. A store puts the
      call's own text and value first, whoever may have inserted that text meanwhile; nothing else
      changes its place among the others, and only the back leaves. */
  lemma StepOnCache(s: System, l: Label)
    requires Enabled(s, l) && Wf(s.limits.capacity, Keys(s.cache))
    ensures var before, after := s.cache, Apply(s, l).cache;
            match l
            case Lookup(c) =>
              && (forall p :: 0 <= p < |before| && before[p].key == s.calls[c].sql ==>
                    && PutFirst(before, before[p], s.limits.capacity, after)
                    && Apply(s, l).calls[c] == Holding(s.calls[c].sql, before[p].prepared, false))
              && (Absent(before, s.calls[c].sql) ==> after == before && Apply(s, l).calls[c] == Missed(s.calls[c].sql))
            case Store(c) =>
              if |s.calls[c].sql| <= s.limits.maxSQLBytes && s.calls[c].verdict != Unavailable
              then PutFirst(before, Entry(s.calls[c].sql, s.calls[c].prepared), s.limits.capacity, after)
              else after == before
            case _ => after == before
  {
    match l
    case Lookup(c) => LookedPutsFirst(s.cache, s.calls[c].sql, s.limits.capacity);
    case Store(c) => InsertedPutsFirst(s.cache, s.calls[c].sql, s.calls[c].prepared, s.limits.capacity);
    case _ =>
  }

  /** A step leaves the limits and all other calls as they are, and adds at most one event, its own. */
  lemma StepIsOwn(s: System, l: Label)
    requires Enabled(s, l)
    ensures var s' := Apply(s, l);
            && s'.limits == s.limits
            && (forall c :: c != l.call ==> (c in s'.calls <==> c in s.calls))
            && (forall c :: c != l.call && c in s.calls ==> s'.calls[c] == s.calls[c])
            && (s'.history == s.history || exists e: Event :: e.call == l.call && s'.history == s.history + [e])
  {
    match l
    case Prepare(c, Some(prepared)) => assert Apply(s, l).history == s.history + [PreparedAs(c, s.calls[c].sql, prepared)];
    case Validate(c, verdict) => assert Apply(s, l).history == s.history + [Validated(c, s.calls[c].sql, s.calls[c].prepared, verdict)];
    case Execute(c) => assert Apply(s, l).history == s.history + [Executed(c, s.calls[c].sql)];
    case _ =>
  }

  /* ----- reading the labels ----- */

  /** The text with which a call last began. */
  function TextOf(labels: seq<Label>, c: CallId): Option<string> {
    if labels == [] then None
    else
      var last := labels[|labels| - 1];
      if last.Begin? && last.call == c then Some(last.sql) else TextOf(labels[..|labels| - 1], c)
  }

  function VerdictIn(labels: seq<Label>, c: CallId): Option<Verdict> {
    if labels == [] then None
    else
      var last := labels[|labels| - 1];
      if last.Validate? && last.call == c then Some(last.verdict) else VerdictIn(labels[..|labels| - 1], c)
  }

  /** What the replacement rule is asked after `past` by the next label: a lookup refreshes the call's
      text, and a store inserts it if it is short enough and the call's verdict allows. */
  function OpOf(maxSQLBytes: nat, past: seq<Label>, l: Label): Option<Op> {
    var text := TextOf(past, l.call);
    if text.None? then None
    else if l.Lookup? then Some(Op(text.value, false))
    else if l.Store? && |text.value| <= maxSQLBytes && VerdictIn(past, l.call) in {Some(Accepted), Some(Violating)} then Some(Op(text.value, true))
    else None
  }

  function OpsIn(maxSQLBytes: nat, labels: seq<Label>): seq<Op> {
    if labels == [] then []
    else
      var past := labels[..|labels| - 1];
      var op := OpOf(maxSQLBytes, past, labels[|labels| - 1]);
      OpsIn(maxSQLBytes, past) + if op.Some? then [op.value] else []
  }

  /* ----- any interleaving ----- */

  lemma {:induction false} LegalSnoc(s: System, labels: seq<Label>, n: nat)
    requires Legal(s, labels) && n < |labels|
    ensures Legal(s, labels[..n]) && Enabled(After(s, labels[..n]), labels[n])
    ensures Legal(s, labels[..n + 1]) && After(s, labels[..n + 1]) == Apply(After(s, labels[..n]), labels[n])
    decreases |labels|
  {
    if n > 0 {
      LegalSnoc(Apply(s, labels[0]), labels[1..], n - 1);
      assert labels[..n][1..] == labels[1..][..n - 1] && labels[..n + 1][1..] == labels[1..][..n];
    } else {
      assert labels[..1][1..] == [];
    }
  }

  /** Phases and history repeat what the labels said of each call. */
  ghost predicate Recorded(labels: seq<Label>, s: System) {
    && (forall c :: c in s.calls ==> TextOf(labels, c) == Some(s.calls[c].sql))
    && (forall c :: c in s.calls && s.calls[c].Judged? ==> VerdictIn(labels, c) == Some(s.calls[c].verdict))
    && (forall i :: 0 <= i < |s.history| ==> s.history[i].call in s.calls)
    && forall i :: 0 <= i < |s.history| ==> TextOf(labels, s.history[i].call) == Some(s.history[i].sql)
  }

  lemma {:induction false} SnocText(labels: seq<Label>, l: Label, c: CallId)
    ensures TextOf(labels + [l], c) == if l.Begin? && l.call == c then Some(l.sql) else TextOf(labels, c)
    ensures VerdictIn(labels + [l], c) == if l.Validate? && l.call == c then Some(l.verdict) else VerdictIn(labels, c)
  {
    assert (labels + [l])[..|labels + [l]| - 1] == labels;
  }

  lemma StepIsRecorded(labels: seq<Label>, s: System, l: Label)
    requires Recorded(labels, s) && Enabled(s, l)
    ensures Recorded(labels + [l], Apply(s, l))
  {
    var s' := Apply(s, l);
    forall c | c in s'.calls
      ensures TextOf(labels + [l], c) == Some(s'.calls[c].sql)
      ensures s'.calls[c].Judged? ==> VerdictIn(labels + [l], c) == Some(s'.calls[c].verdict)
    {
      SnocText(labels, l, c);
    }
    forall i | 0 <= i < |s'.history|
      ensures s'.history[i].call in s'.calls && TextOf(labels + [l], s'.history[i].call) == Some(s'.history[i].sql)
    {
      SnocText(labels, l, s'.history[i].call);
      if i < |s.history| {
        assert s'.history[i] == s.history[i];
      }
    }
  }

  lemma StepServes(labels: seq<Label>, s: System, l: Label)
    requires Recorded(labels, s) && Enabled(s, l) && Wf(s.limits.capacity, Keys(s.cache))
    ensures var op, keys, keys' := OpOf(s.limits.maxSQLBytes, labels, l), Keys(s.cache), Keys(Apply(s, l).cache);
            keys' == (if op.Some? then Served(s.limits.capacity, keys, op.value) else keys) && Wf(s.limits.capacity, keys')
  {
    match l
    case Lookup(c) =>
      KeysAfterLookup(s.cache, s.calls[c].sql, s.limits.capacity);
      UseKeepsShape(s.limits.capacity, Keys(s.cache), s.calls[c].sql);
    case Store(c) =>
      KeysAfterInsertion(s.cache, s.calls[c].sql, s.calls[c].prepared, s.limits.capacity);
      UseKeepsShape(s.limits.capacity, Keys(s.cache), s.calls[c].sql);
    case _ =>
  }

  /** The state agrees with the labels that led to it. */
  ghost predicate InStep(limits: Guard.Limits, labels: seq<Label>, s: System) {
    && Recorded(labels, s) && s.limits == limits && Wf(limits.capacity, Keys(s.cache))
    && Keys(s.cache) == ServedAll(limits.capacity, [], OpsIn(limits.maxSQLBytes, labels))
  }

  lemma StepStaysInStep(limits: Guard.Limits, past: seq<Label>, s: System, l: Label)
    requires InStep(limits, past, s) && Enabled(s, l)
    ensures InStep(limits, past + [l], Apply(s, l))
  {
    StepIsRecorded(past, s, l);
    StepServes(past, s, l);
    OpsSnoc(limits.maxSQLBytes, past, l);
    var op := OpOf(limits.maxSQLBytes, past, l);
    if op.Some? {
      ServedAllSnoc(limits.capacity, [], OpsIn(limits.maxSQLBytes, past), op.value);
    }
  }

  lemma {:induction false} OpsSnoc(maxSQLBytes: nat, past: seq<Label>, l: Label)
    ensures var op := OpOf(maxSQLBytes, past, l);
            OpsIn(maxSQLBytes, past + [l]) == if op.Some? then OpsIn(maxSQLBytes, past) + [op.value] else OpsIn(maxSQLBytes, past)
  {
    assert (past + [l])[..|past + [l]| - 1] == past;
    assert OpsIn(maxSQLBytes, past) + [] == OpsIn(maxSQLBytes, past);
  }

  lemma {:induction false} PrefixServes(limits: Guard.Limits, labels: seq<Label>, n: nat)
    requires 0 < limits.capacity && Legal(Initial(limits), labels) && n <= |labels|
    ensures Legal(Initial(limits), labels[..n]) && InStep(limits, labels[..n], After(Initial(limits), labels[..n]))
  {
    if n > 0 {
      PrefixServes(limits, labels, n - 1);
      LegalSnoc(Initial(limits), labels, n - 1);
      assert labels[..n] == labels[..n - 1] + [labels[n - 1]];
      StepStaysInStep(limits, labels[..n - 1], After(Initial(limits), labels[..n - 1]), labels[n - 1]);
    } else {
      assert Keys([]) == [];
    }
  }

  /** After any interleaving the keys are what the replacement rule gives for the lookups and stores in
      the order of the labels. */
  lemma {:induction false} KeysFollowLabels(limits: Guard.Limits, labels: seq<Label>)
    requires 0 < limits.capacity && Legal(Initial(limits), labels)
    ensures Keys(After(Initial(limits), labels).cache) == ServedAll(limits.capacity, [], OpsIn(limits.maxSQLBytes, labels))
  {
    PrefixServes(limits, labels, |labels|);
    assert labels[..|labels|] == labels;
  }

  /** Every preparation, validation and database call of a call is of the text it began with. */
  lemma {:induction false} CallsKeepTheirText(limits: Guard.Limits, labels: seq<Label>)
    requires 0 < limits.capacity && Legal(Initial(limits), labels)
    ensures var s := After(Initial(limits), labels);
            && (forall i :: 0 <= i < |s.history| ==> TextOf(labels, s.history[i].call) == Some(s.history[i].sql))
            && forall c :: c in s.calls ==> TextOf(labels, c) == Some(s.calls[c].sql)
  {
    PrefixServes(limits, labels, |labels|);
    assert labels[..|labels|] == labels;
  }
}
