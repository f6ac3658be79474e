/** Which texts the cached guard holds: its keys evolve as the replacement rule says. */
module Replacement {
  import opened Common
  import opened World
  import opened Engine
  import opened Cache
  import opened Guard
  import opened Recency
  import opened Refinement

  /** The calls that reach the cache, as operations on its keys. */
  function OpsOf(maxSQLBytes: nat, rs: seq<Request>, replies: seq<Reply>): seq<Op>
    requires |rs| == |replies|
  {
    if rs == [] then []
    else (if replies[0].Refused? then [] else [Op(rs[0].sql, Admitted(maxSQLBytes, rs[0], replies[0]))])
         + OpsOf(maxSQLBytes, rs[1..], replies[1..])
  }

  lemma CallServes(adv: Adversary, cfg: Config, limits: Limits, t: Trace, entries: Entries, r: Request)
    requires Wf(limits.capacity, Keys(entries))
    ensures var (_, after, reply) := CachedCall(adv, cfg, limits, t, entries, r);
            && (reply.Refused? <==> Rewrites(r.arguments))
            && Keys(after) == (if reply.Refused? then Keys(entries)
                               else Served(limits.capacity, Keys(entries), Op(r.sql, Admitted(limits.maxSQLBytes, r, reply))))
            && Wf(limits.capacity, Keys(after))
  {
    if !Rewrites(r.arguments) {
      KeysAfterLookup(entries, r.sql, limits.capacity);
      UseKeepsShape(limits.capacity, Keys(entries), r.sql);
      var (mid, preparation) := PrepareRun(adv, cfg, Begun(t, r), r.ctx, r.sql);
      if preparation.Ready? {
        KeysAfterInsertion(entries, r.sql, preparation.prepared, limits.capacity);
      }
    }
  }

  lemma {:induction false} CallsServe(adv: Adversary, cfg: Config, limits: Limits, t: Trace, entries: Entries, rs: seq<Request>)
    requires Wf(limits.capacity, Keys(entries))
    ensures var (_, after, replies) := CachedCalls(adv, cfg, limits, t, entries, rs);
            && |replies| == |rs|
            && Keys(after) == ServedAll(limits.capacity, Keys(entries), OpsOf(limits.maxSQLBytes, rs, replies))
            && Wf(limits.capacity, Keys(after))
    decreases |rs|
  {
    if rs != [] {
      CallServes(adv, cfg, limits, t, entries, rs[0]);
      var (mid, after, reply) := CachedCall(adv, cfg, limits, t, entries, rs[0]);
      CallsServe(adv, cfg, limits, mid, after, rs[1..]);
      var rest := CachedCalls(adv, cfg, limits, mid, after, rs[1..]).2;
      var replies := [reply] + rest;
      assert replies[1..] == rest;
      var ops := OpsOf(limits.maxSQLBytes, rs, replies);
      if reply.Refused? {
        assert ops == OpsOf(limits.maxSQLBytes, rs[1..], rest);
      } else {
        assert ops[1..] == OpsOf(limits.maxSQLBytes, rs[1..], rest);
      }
    }
  }

  /** Two cached guards that differ only in capacity, fed the same calls: the smaller one's recency
      list is an ordered part of the larger one's. */
  lemma {:induction false} GuardListsAreNested(adv: Adversary, cfg: Config, c: nat, d: nat, maxSQLBytes: nat, t: Trace, u: Trace, rs: seq<Request>)
    requires Steady(adv) && Observable(t) == Observable(u) && 0 < c <= d
    ensures Sub(Keys(CachedCalls(adv, cfg, Limits(c, maxSQLBytes), t, [], rs).1), Keys(CachedCalls(adv, cfg, Limits(d, maxSQLBytes), u, [], rs).1))
  {
    CachedGuardRefinesPlain(adv, cfg, Limits(c, maxSQLBytes), t, u, [], rs);
    CachedGuardRefinesPlain(adv, cfg, Limits(d, maxSQLBytes), u, u, [], rs);
    CallsServe(adv, cfg, Limits(c, maxSQLBytes), t, [], rs);
    CallsServe(adv, cfg, Limits(d, maxSQLBytes), u, [], rs);
    var ops := OpsOf(maxSQLBytes, rs, PlainCalls(adv, cfg, u, rs).1);
    NoBeladyAnomaly(c, d, ops, |ops|);
    assert ops[..|ops|] == ops;
    assert Keys([]) == [];
  }

  /** With at most `capacity` texts short enough to be kept, a text once cached stays cached. */
  lemma {:induction false} WorkingSetStaysCached(adv: Adversary, cfg: Config, limits: Limits, t: Trace, entries: Entries,
                                                 eligible: set<string>, sql: string, rs: seq<Request>)
    requires Wf(limits.capacity, Keys(entries)) && |eligible| <= limits.capacity
    requires forall k :: k in Keys(entries) ==> k in eligible
    requires forall i :: 0 <= i < |rs| && |rs[i].sql| <= limits.maxSQLBytes ==> rs[i].sql in eligible
    requires Find(entries, sql).Some?
    ensures Find(CachedCalls(adv, cfg, limits, t, entries, rs).1, sql).Some?
  {
    CallsServe(adv, cfg, limits, t, entries, rs);
    var replies := CachedCalls(adv, cfg, limits, t, entries, rs).2;
    EligibleOps(limits.maxSQLBytes, rs, replies, eligible);
    WorkingSetIsKept(limits.capacity, Keys(entries), eligible, OpsOf(limits.maxSQLBytes, rs, replies), sql);
  }

  lemma {:induction false} EligibleOps(maxSQLBytes: nat, rs: seq<Request>, replies: seq<Reply>, eligible: set<string>)
    requires |rs| == |replies|
    requires forall i :: 0 <= i < |rs| && |rs[i].sql| <= maxSQLBytes ==> rs[i].sql in eligible
    ensures forall i :: 0 <= i < |OpsOf(maxSQLBytes, rs, replies)| && OpsOf(maxSQLBytes, rs, replies)[i].admits ==>
              OpsOf(maxSQLBytes, rs, replies)[i].key in eligible
  {
    if rs != [] {
      EligibleOps(maxSQLBytes, rs[1..], replies[1..], eligible);
    }
  }

  /** After a call that hit or inserted `sql`, and any calls with other text, `sql` is still cached iff
      those calls hit or inserted fewer than `capacity` distinct keys. */
  lemma StillCachedIff(adv: Adversary, cfg: Config, limits: Limits, t: Trace, entries: Entries, sql: string, rs: seq<Request>)
    requires Wf(limits.capacity, Keys(entries)) && entries != [] && entries[0].key == sql
    requires forall i :: 0 <= i < |rs| ==> rs[i].sql != sql
    ensures var (_, after, replies) := CachedCalls(adv, cfg, limits, t, entries, rs);
            |replies| == |rs| &&
            (Find(after, sql).Some? <==> |Touched(limits.capacity, Keys(entries), OpsOf(limits.maxSQLBytes, rs, replies))| < limits.capacity)
  {
    CallsServe(adv, cfg, limits, t, entries, rs);
    var replies := CachedCalls(adv, cfg, limits, t, entries, rs).2;
    OtherKeys(limits.maxSQLBytes, rs, replies, sql);
    ReuseDistance(limits.capacity, Keys(entries), sql, OpsOf(limits.maxSQLBytes, rs, replies));
  }

  lemma {:induction false} OtherKeys(maxSQLBytes: nat, rs: seq<Request>, replies: seq<Reply>, sql: string)
    requires |rs| == |replies| && forall i :: 0 <= i < |rs| ==> rs[i].sql != sql
    ensures forall i :: 0 <= i < |OpsOf(maxSQLBytes, rs, replies)| ==> OpsOf(maxSQLBytes, rs, replies)[i].key != sql
  {
    if rs != [] {
      OtherKeys(maxSQLBytes, rs[1..], replies[1..], sql);
    }
  }
}
