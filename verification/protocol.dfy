/** Any number of guarded calls on one cache, interleaved (example/pgx-prepared/guarded.go). A call
    takes no lock between its lookup, preparation, validation, insertion and database call; each of
    these is one atomic step, and the validator may answer anything. */
module Protocol {
  import opened Common
  import opened Engine
  import opened Cache
  import Guard
  import Recency
  import World

  type CallId = nat

  datatype Verdict = Accepted | Violating | Unavailable

  predicate Cacheable(verdict: Verdict) {
    verdict != Unavailable
  }

  datatype Phase =
    | Looking(sql: string)
    | Missed(sql: string)
    | Holding(sql: string, prepared: Prepared, parsedHere: bool)
    | Judged(sql: string, prepared: Prepared, verdict: Verdict)
    | Passed(sql: string)
    | Over(sql: string)

  datatype Event =
    | PreparedAs(call: CallId, sql: string, prepared: Prepared)
    | Validated(call: CallId, sql: string, prepared: Prepared, verdict: Verdict)
    | Executed(call: CallId, sql: string)

  datatype System = System(limits: Guard.Limits, cache: Entries, calls: map<CallId, Phase>, history: seq<Event>)

  datatype Label =
    | Begin(call: CallId, sql: string)
    | Lookup(call: CallId)
    | Prepare(call: CallId, outcome: Option<Prepared>)
    | Validate(call: CallId, verdict: Verdict)
    | Store(call: CallId)
    | Execute(call: CallId)

  function Initial(limits: Guard.Limits): System {
    System(limits, [], map[], [])
  }

  predicate Enabled(s: System, l: Label) {
    match l
    case Begin(c, _) => c !in s.calls
    case Lookup(c) => c in s.calls && s.calls[c].Looking?
    case Prepare(c, _) => c in s.calls && s.calls[c].Missed?
    case Validate(c, _) => c in s.calls && s.calls[c].Holding?
    case Store(c) => c in s.calls && s.calls[c].Judged?
    case Execute(c) => c in s.calls && s.calls[c].Passed?
  }

  function Afterwards(sql: string, verdict: Verdict): Phase {
    if verdict == Accepted then Passed(sql) else Over(sql)
  }

  function Apply(s: System, l: Label): System
    requires Enabled(s, l)
  {
    var c := l.call;
    match l
    case Begin(_, sql) => s.(calls := s.calls[c := Looking(sql)])
    case Lookup(_) =>
      var sql := s.calls[c].sql;
      (match Find(s.cache, sql)
       case None => s.(calls := s.calls[c := Missed(sql)])
       case Some(prepared) => s.(cache := Looked(s.cache, sql), calls := s.calls[c := Holding(sql, prepared, false)]))
    case Prepare(_, outcome) =>
      var sql := s.calls[c].sql;
      (match outcome
       case None => s.(calls := s.calls[c := Over(sql)])
       case Some(prepared) =>
         s.(calls := s.calls[c := Holding(sql, prepared, true)], history := s.history + [PreparedAs(c, sql, prepared)]))
    case Validate(_, verdict) =>
      var Holding(sql, prepared, parsedHere) := s.calls[c];
      s.(calls := s.calls[c := if parsedHere then Judged(sql, prepared, verdict) else Afterwards(sql, verdict)],
         history := s.history + [Validated(c, sql, prepared, verdict)])
    case Store(_) =>
      var Judged(sql, prepared, verdict) := s.calls[c];
      s.(cache := if |sql| <= s.limits.maxSQLBytes && Cacheable(verdict)
                  then Inserted(s.cache, sql, prepared, s.limits.capacity) else s.cache,
         calls := s.calls[c := Afterwards(sql, verdict)])
    case Execute(_) =>
      s.(calls := s.calls[c := Over(s.calls[c].sql)], history := s.history + [Executed(c, s.calls[c].sql)])
  }

  predicate Legal(s: System, labels: seq<Label>)
    decreases |labels|
  {
    labels == [] || (Enabled(s, labels[0]) && Legal(Apply(s, labels[0]), labels[1..]))
  }

  function After(s: System, labels: seq<Label>): System
    requires Legal(s, labels)
    decreases |labels|
  {
    if labels == [] then s else After(Apply(s, labels[0]), labels[1..])
  }

  /* ----- what holds in every reachable state ----- */

  ghost predicate PreparedBefore(h: seq<Event>, n: nat, sql: string, prepared: Prepared)
    requires n <= |h|
  {
    exists q, c :: 0 <= q < n && h[q] == PreparedAs(c, sql, prepared)
  }

  /** The call's own validation accepted a value that a preparation of this text had returned. */
  ghost predicate Cleared(h: seq<Event>, n: nat, c: CallId, sql: string)
    requires n <= |h|
  {
    exists v, p :: 0 <= v < n && h[v] == Validated(c, sql, p, Accepted) && PreparedBefore(h, v, sql, p)
  }

  /** A call prepared the text and next got this verdict on the result. */
  ghost predicate JudgedAs(h: seq<Event>, c: CallId, sql: string, prepared: Prepared, verdict: Verdict) {
    exists q, v :: 0 <= q < v < |h| && h[q] == PreparedAs(c, sql, prepared) && h[v] == Validated(c, sql, prepared, verdict)
  }

  ghost predicate Earned(h: seq<Event>, e: Entry) {
    exists c, verdict :: Cacheable(verdict) && JudgedAs(h, c, e.key, e.prepared, verdict)
  }

  ghost predicate NeverValidated(h: seq<Event>, c: CallId) {
    forall i :: 0 <= i < |h| && h[i].Validated? ==> h[i].call != c
  }

  ghost predicate NeverExecuted(h: seq<Event>, c: CallId) {
    forall i :: 0 <= i < |h| && h[i].Executed? ==> h[i].call != c
  }

  /** Every database call follows its own call's accepting validation of a value prepared from exactly
      the forwarded text; no call validates or reaches the database twice. */
  ghost predicate HistorySafe(h: seq<Event>) {
    && (forall i :: 0 <= i < |h| && h[i].Executed? ==> Cleared(h, i, h[i].call, h[i].sql))
    && (forall i, j :: 0 <= i < j < |h| && h[i].Validated? && h[j].Validated? ==> h[i].call != h[j].call)
    && forall i, j :: 0 <= i < j < |h| && h[i].Executed? && h[j].Executed? ==> h[i].call != h[j].call
  }

  /** The cache stays within its limits, and holds only values that a preparation of the key returned
      and whose first validation ended in acceptance or a violation. */
  ghost predicate CacheSafe(s: System) {
    && Recency.Wf(s.limits.capacity, Keys(s.cache))
    && (forall e :: e in s.cache ==> |e.key| <= s.limits.maxSQLBytes && Earned(s.history, e))
  }

  ghost predicate PhaseSafe(h: seq<Event>, c: CallId, phase: Phase) {
    match phase
    case Looking(_) => NeverValidated(h, c) && NeverExecuted(h, c)
    case Missed(_) => NeverValidated(h, c) && NeverExecuted(h, c)
    case Holding(sql, prepared, parsedHere) =>
      && NeverValidated(h, c) && NeverExecuted(h, c)
      && PreparedBefore(h, |h|, sql, prepared)
      && (parsedHere ==> exists q :: 0 <= q < |h| && h[q] == PreparedAs(c, sql, prepared))
    case Judged(sql, prepared, verdict) =>
      && NeverExecuted(h, c) && JudgedAs(h, c, sql, prepared, verdict)
      && (verdict == Accepted ==> Cleared(h, |h|, c, sql))
    case Passed(sql) => NeverExecuted(h, c) && Cleared(h, |h|, c, sql)
    case Over(_) => true
  }

  ghost predicate Inv(s: System) {
    && HistorySafe(s.history)
    && CacheSafe(s)
    && (forall c :: c in s.calls ==> PhaseSafe(s.history, c, s.calls[c]))
    && forall i :: 0 <= i < |s.history| ==> s.history[i].call in s.calls
  }

  /* ----- facts that survive a longer history ----- */

  lemma PreparedStays(h: seq<Event>, e: Event, n: nat, sql: string, prepared: Prepared)
    requires n <= |h| && PreparedBefore(h, n, sql, prepared)
    ensures PreparedBefore(h + [e], n, sql, prepared)
  {
    var q, c :| 0 <= q < n && h[q] == PreparedAs(c, sql, prepared);
    assert (h + [e])[q] == PreparedAs(c, sql, prepared);
  }

  lemma PreparedWidens(h: seq<Event>, n: nat, m: nat, sql: string, prepared: Prepared)
    requires n <= m <= |h| && PreparedBefore(h, n, sql, prepared)
    ensures PreparedBefore(h, m, sql, prepared)
  {
  }

  lemma ClearedStays(h: seq<Event>, e: Event, n: nat, c: CallId, sql: string)
    requires n <= |h| && Cleared(h, n, c, sql)
    ensures Cleared(h + [e], n, c, sql) && Cleared(h + [e], |h| + 1, c, sql)
  {
    var v, p :| 0 <= v < n && h[v] == Validated(c, sql, p, Accepted) && PreparedBefore(h, v, sql, p);
    PreparedStays(h, e, v, sql, p);
    assert (h + [e])[v] == Validated(c, sql, p, Accepted);
  }

  lemma JudgedStays(h: seq<Event>, e: Event, c: CallId, sql: string, prepared: Prepared, verdict: Verdict)
    requires JudgedAs(h, c, sql, prepared, verdict)
    ensures JudgedAs(h + [e], c, sql, prepared, verdict)
  {
    var q, v :| 0 <= q < v < |h| && h[q] == PreparedAs(c, sql, prepared) && h[v] == Validated(c, sql, prepared, verdict);
    assert (h + [e])[q] == h[q] && (h + [e])[v] == h[v];
  }

  lemma EarnedStays(h: seq<Event>, e: Event, entry: Entry)
    requires Earned(h, entry)
    ensures Earned(h + [e], entry)
  {
    var c, verdict :| Cacheable(verdict) && JudgedAs(h, c, entry.key, entry.prepared, verdict);
    JudgedStays(h, e, c, entry.key, entry.prepared, verdict);
  }

  /** An event of one call keeps every other call's phase safe. */
  lemma PhaseStays(h: seq<Event>, e: Event, c: CallId, phase: Phase)
    requires PhaseSafe(h, c, phase) && e.call != c
    ensures PhaseSafe(h + [e], c, phase)
  {
    var h' := h + [e];
    match phase {
      case Holding(sql, prepared, parsedHere) =>
        PreparedStays(h, e, |h|, sql, prepared);
        PreparedWidens(h', |h|, |h'|, sql, prepared);
        if parsedHere {
          var q :| 0 <= q < |h| && h[q] == PreparedAs(c, sql, prepared);
          assert h'[q] == PreparedAs(c, sql, prepared);
        }
      case Judged(sql, prepared, verdict) =>
        JudgedStays(h, e, c, sql, prepared, verdict);
        if verdict == Accepted {
          ClearedStays(h, e, |h|, c, sql);
        }
      case Passed(sql) =>
        ClearedStays(h, e, |h|, c, sql);
      case _ =>
    }
  }

  lemma HistoryStays(h: seq<Event>, e: Event)
    requires HistorySafe(h)
    requires e.Validated? ==> NeverValidated(h, e.call)
    requires e.Executed? ==> NeverExecuted(h, e.call) && Cleared(h, |h|, e.call, e.sql)
    ensures HistorySafe(h + [e])
  {
    var h' := h + [e];
    forall i | 0 <= i < |h'| && h'[i].Executed?
      ensures Cleared(h', i, h'[i].call, h'[i].sql)
    {
      ClearedStays(h, e, i, h'[i].call, h'[i].sql);
    }
  }

  /** Adding one event of call `c`, with its new phase safe, keeps the invariant. */
  lemma EventKeepsInv(s: System, e: Event, phase: Phase)
    requires Inv(s) && e.call in s.calls
    requires e.Validated? ==> NeverValidated(s.history, e.call)
    requires e.Executed? ==> NeverExecuted(s.history, e.call) && Cleared(s.history, |s.history|, e.call, e.sql)
    requires PhaseSafe(s.history + [e], e.call, phase)
    ensures Inv(s.(calls := s.calls[e.call := phase], history := s.history + [e]))
  {
    HistoryStays(s.history, e);
    forall entry | entry in s.cache
      ensures Earned(s.history + [e], entry)
    {
      EarnedStays(s.history, e, entry);
    }
    forall c | c in s.calls && c != e.call
      ensures PhaseSafe(s.history + [e], c, s.calls[c])
    {
      PhaseStays(s.history, e, c, s.calls[c]);
    }
  }

  lemma LookupKeepsCache(s: System, sql: string)
    requires CacheSafe(s)
    ensures CacheSafe(s.(cache := Looked(s.cache, sql)))
  {
    KeysAfterLookup(s.cache, sql, s.limits.capacity);
    UseKeepsShape(s.limits.capacity, Keys(s.cache), sql);
  }

  lemma InsertionKeepsCache(s: System, sql: string, prepared: Prepared)
    requires CacheSafe(s) && |sql| <= s.limits.maxSQLBytes && Earned(s.history, Entry(sql, prepared))
    ensures CacheSafe(s.(cache := Inserted(s.cache, sql, prepared, s.limits.capacity)))
  {
    KeysAfterInsertion(s.cache, sql, prepared, s.limits.capacity);
    UseKeepsShape(s.limits.capacity, Keys(s.cache), sql);
    var after := Inserted(s.cache, sql, prepared, s.limits.capacity);
    assert forall e :: e in after ==> e == Entry(sql, prepared) || e in s.cache;
  }

  lemma StepKeepsInv(s: System, l: Label)
    requires Inv(s) && Enabled(s, l)
    ensures Inv(Apply(s, l))
  {
    var h, c := s.history, l.call;
    match l {
      case Begin(_, sql) =>
        assert NeverValidated(h, c) && NeverExecuted(h, c);
      case Lookup(_) =>
        LookupKeepsInv(s, c);
      case Prepare(_, outcome) =>
        var sql := s.calls[c].sql;
        assert PhaseSafe(h, c, s.calls[c]);
        if outcome.Some? {
          var e := PreparedAs(c, sql, outcome.value);
          assert (h + [e])[|h|] == e;
          EventKeepsInv(s, e, Holding(sql, outcome.value, true));
        }
      case Validate(_, verdict) =>
        ValidateKeepsInv(s, c, verdict);
      case Store(_) =>
        StoreKeepsInv(s, c);
      case Execute(_) =>
        assert PhaseSafe(h, c, s.calls[c]);
        EventKeepsInv(s, Executed(c, s.calls[c].sql), Over(s.calls[c].sql));
    }
  }

  lemma LookupKeepsInv(s: System, c: CallId)
    requires Inv(s) && Enabled(s, Lookup(c))
    ensures Inv(Apply(s, Lookup(c)))
  {
    var sql := s.calls[c].sql;
    assert PhaseSafe(s.history, c, s.calls[c]);
    if Find(s.cache, sql).Some? {
      HitIsPrepared(s, sql);
      LookupKeepsCache(s, sql);
    }
  }

  lemma StoreKeepsInv(s: System, c: CallId)
    requires Inv(s) && Enabled(s, Store(c))
    ensures Inv(Apply(s, Store(c)))
  {
    var Judged(sql, prepared, verdict) := s.calls[c];
    assert PhaseSafe(s.history, c, s.calls[c]);
    if |sql| <= s.limits.maxSQLBytes && Cacheable(verdict) {
      assert Earned(s.history, Entry(sql, prepared));
      InsertionKeepsCache(s, sql, prepared);
    }
  }

  lemma {:induction false} HitIsPrepared(s: System, sql: string)
    requires CacheSafe(s) && Find(s.cache, sql).Some?
    ensures PreparedBefore(s.history, |s.history|, sql, Find(s.cache, sql).value)
  {
    var entry := Entry(sql, Find(s.cache, sql).value);
    assert Earned(s.history, entry);
  }

  lemma ValidateKeepsInv(s: System, c: CallId, verdict: Verdict)
    requires Inv(s) && Enabled(s, Validate(c, verdict))
    ensures Inv(Apply(s, Validate(c, verdict)))
  {
    var h := s.history;
    var Holding(sql, prepared, parsedHere) := s.calls[c];
    assert PhaseSafe(h, c, s.calls[c]);
    var e := Validated(c, sql, prepared, verdict);
    var h' := h + [e];
    assert h'[|h|] == e;
    PreparedStays(h, e, |h|, sql, prepared);
    if verdict == Accepted {
      assert Cleared(h', |h'|, c, sql);
    }
    if parsedHere {
      var q :| 0 <= q < |h| && h[q] == PreparedAs(c, sql, prepared);
      assert h'[q] == PreparedAs(c, sql, prepared);
      EventKeepsInv(s, e, Judged(sql, prepared, verdict));
    } else {
      EventKeepsInv(s, e, Afterwards(sql, verdict));
    }
  }

  lemma {:induction false} RunKeepsInv(s: System, labels: seq<Label>)
    requires Inv(s) && Legal(s, labels)
    ensures Inv(After(s, labels)) && After(s, labels).limits == s.limits
    decreases |labels|
  {
    if labels != [] {
      StepKeepsInv(s, labels[0]);
      RunKeepsInv(Apply(s, labels[0]), labels[1..]);
    }
  }

  /** In every state that any interleaving of any calls reaches. */
  lemma {:induction false} EveryInterleavingIsSafe(limits: Guard.Limits, labels: seq<Label>)
    requires 0 < limits.capacity && Legal(Initial(limits), labels)
    ensures var s := After(Initial(limits), labels); s.limits == limits && HistorySafe(s.history) && CacheSafe(s)
  {
    assert Inv(Initial(limits));
    RunKeepsInv(Initial(limits), labels);
  }

  /* ----- one call at a time is the sequential guard ----- */

  function VerdictOf(error: Option<World.Error>): Verdict {
    if error.None? then Accepted else if error.value.Violation? then Violating else Unavailable
  }

  /** The steps one call takes when nobody interferes and the engine is the validator. */
  function SoloLabels(adv: World.Adversary, cfg: Config, limits: Guard.Limits, t: World.Trace, entries: Entries,
                      c: CallId, ctx: World.Context, sql: string): seq<Label> {
    [Begin(c, sql)] + LabelsAfterBegin(adv, cfg, limits, t, entries, c, ctx, sql)
  }

  function LabelsAfterBegin(adv: World.Adversary, cfg: Config, limits: Guard.Limits, t: World.Trace, entries: Entries,
                            c: CallId, ctx: World.Context, sql: string): seq<Label> {
    var (run, _) := Guard.CachedRun(adv, cfg, limits, t, entries, ctx, sql);
    var last := if run.error.None? then [Execute(c)] else [];
    [Lookup(c)] +
    if Find(entries, sql).Some? then [Validate(c, VerdictOf(run.error))] + last
    else
      match PrepareRun(adv, cfg, t, ctx, sql).1
      case Unprepared(_) => [Prepare(c, None)]
      case Ready(prepared) => [Prepare(c, Some(prepared))] + ([Validate(c, VerdictOf(run.error))] + ([Store(c)] + last))
  }

  lemma {:induction false} LegalCons(s: System, l: Label, rest: seq<Label>)
    requires Enabled(s, l) && Legal(Apply(s, l), rest)
    ensures Legal(s, [l] + rest) && After(s, [l] + rest) == After(Apply(s, l), rest)
  {
    assert ([l] + rest)[1..] == rest;
  }

  /** The last steps of a call that has got its verdict. */
  lemma LastSteps(s: System, c: CallId, sql: string, verdict: Verdict)
    requires c in s.calls && s.calls[c] == Afterwards(sql, verdict)
    ensures var last := if verdict == Accepted then [Execute(c)] else [];
            && Legal(s, last)
            && After(s, last).cache == s.cache
            && After(s, last).history == s.history + if verdict == Accepted then [Executed(c, sql)] else []
  {
    if verdict == Accepted {
      assert [] + [Execute(c)] == [Execute(c)];
      assert [Execute(c)] + [] == [Execute(c)];
      LegalCons(s, Execute(c), []);
    }
  }

  lemma HitSteps(s: System, c: CallId, sql: string, verdict: Verdict)
    requires c in s.calls && s.calls[c] == Looking(sql) && Find(s.cache, sql).Some?
    ensures var last := if verdict == Accepted then [Execute(c)] else [];
            var labels := [Lookup(c)] + ([Validate(c, verdict)] + last);
            && Legal(s, labels) && After(s, labels).cache == Looked(s.cache, sql)
            && After(s, labels).history == s.history + [Validated(c, sql, Find(s.cache, sql).value, verdict)]
                                           + if verdict == Accepted then [Executed(c, sql)] else []
  {
    var last := if verdict == Accepted then [Execute(c)] else [];
    var s2 := Apply(s, Lookup(c));
    LastSteps(Apply(s2, Validate(c, verdict)), c, sql, verdict);
    LegalCons(s2, Validate(c, verdict), last);
    LegalCons(s, Lookup(c), [Validate(c, verdict)] + last);
  }

  lemma MissSteps(s: System, c: CallId, sql: string, prepared: Prepared, verdict: Verdict)
    requires c in s.calls && s.calls[c] == Looking(sql) && Find(s.cache, sql).None?
    ensures var last := if verdict == Accepted then [Execute(c)] else [];
            var labels := [Lookup(c)] + ([Prepare(c, Some(prepared))] + ([Validate(c, verdict)] + ([Store(c)] + last)));
            && Legal(s, labels)
            && After(s, labels).cache == (if |sql| <= s.limits.maxSQLBytes && Cacheable(verdict)
                                          then Inserted(s.cache, sql, prepared, s.limits.capacity) else s.cache)
            && After(s, labels).history == s.history + [PreparedAs(c, sql, prepared)] + [Validated(c, sql, prepared, verdict)]
                                           + if verdict == Accepted then [Executed(c, sql)] else []
  {
    var last := if verdict == Accepted then [Execute(c)] else [];
    var s2 := Apply(s, Lookup(c));
    var s3 := Apply(s2, Prepare(c, Some(prepared)));
    var s4 := Apply(s3, Validate(c, verdict));
    LastSteps(Apply(s4, Store(c)), c, sql, verdict);
    LegalCons(s4, Store(c), last);
    LegalCons(s3, Validate(c, verdict), [Store(c)] + last);
    LegalCons(s2, Prepare(c, Some(prepared)), [Validate(c, verdict)] + ([Store(c)] + last));
    LegalCons(s, Lookup(c), [Prepare(c, Some(prepared))] + ([Validate(c, verdict)] + ([Store(c)] + last)));
  }

  lemma {:induction false} FailedSteps(s: System, c: CallId, sql: string)
    requires c in s.calls && s.calls[c] == Looking(sql) && Find(s.cache, sql).None?
    ensures var labels := [Lookup(c)] + [Prepare(c, None)];
            Legal(s, labels) && After(s, labels).cache == s.cache && After(s, labels).history == s.history
  {
    assert [Prepare(c, None)] + [] == [Prepare(c, None)];
    LegalCons(Apply(s, Lookup(c)), Prepare(c, None), []);
    LegalCons(s, Lookup(c), [Prepare(c, None)]);
  }

  /** Uninterrupted, a call with the engine as validator leaves the cache as the sequential guard
      does, and reaches the database exactly if the sequential guard does. */
  lemma {:induction false} AloneIsSequential(adv: World.Adversary, cfg: Config, t: World.Trace, s: System,
                                             c: CallId, ctx: World.Context, sql: string)
    requires c !in s.calls
    ensures var labels := SoloLabels(adv, cfg, s.limits, t, s.cache, c, ctx, sql);
            var (run, entries) := Guard.CachedRun(adv, cfg, s.limits, t, s.cache, ctx, sql);
            && Legal(s, labels)
            && After(s, labels).cache == entries
            && (Executed(c, sql) in After(s, labels).history <==> run.error.None? || Executed(c, sql) in s.history)
  {
    AfterBegin(adv, cfg, t, Apply(s, Begin(c, sql)), c, ctx, sql);
    LegalCons(s, Begin(c, sql), LabelsAfterBegin(adv, cfg, s.limits, t, s.cache, c, ctx, sql));
  }

  lemma {:induction false} AfterBegin(adv: World.Adversary, cfg: Config, t: World.Trace, s: System,
                                      c: CallId, ctx: World.Context, sql: string)
    requires c in s.calls && s.calls[c] == Looking(sql)
    ensures var labels := LabelsAfterBegin(adv, cfg, s.limits, t, s.cache, c, ctx, sql);
            var (run, entries) := Guard.CachedRun(adv, cfg, s.limits, t, s.cache, ctx, sql);
            && Legal(s, labels)
            && After(s, labels).cache == entries
            && (Executed(c, sql) in After(s, labels).history <==> run.error.None? || Executed(c, sql) in s.history)
  {
    var verdict := VerdictOf(Guard.CachedRun(adv, cfg, s.limits, t, s.cache, ctx, sql).0.error);
    if Find(s.cache, sql).Some? {
      HitSteps(s, c, sql, verdict);
    } else {
      match PrepareRun(adv, cfg, t, ctx, sql).1
      case Unprepared(_) => FailedSteps(s, c, sql);
      case Ready(prepared) => MissSteps(s, c, sql, prepared, verdict);
    }
  }
}
