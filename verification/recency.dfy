/** Replacement behaviour of the cache over whole sequences of guarded calls. */
module Recency {
  import opened Common
  import opened Cache

  /** A call on `key`; `admits` tells whether, on a miss, its outcome is inserted. */
  datatype Op = Op(key: string, admits: bool)

  /** A hit refreshes the key whatever its outcome; a miss inserts only if admitted. */
  function Served(capacity: nat, keys: seq<string>, op: Op): seq<string> {
    if op.key in keys || op.admits then Use(capacity, keys, op.key) else keys
  }

  function ServedAll(capacity: nat, keys: seq<string>, ops: seq<Op>): seq<string>
    decreases |ops|
  {
    if ops == [] then keys else ServedAll(capacity, Served(capacity, keys, ops[0]), ops[1..])
  }

  lemma {:induction false} ServedAllSnoc(capacity: nat, keys: seq<string>, ops: seq<Op>, op: Op)
    ensures ServedAll(capacity, keys, ops + [op]) == Served(capacity, ServedAll(capacity, keys, ops), op)
    decreases |ops|
  {
    if ops == [] {
      assert [] + [op] == [op] && [op][1..] == [];
    } else {
      assert (ops + [op])[1..] == ops[1..] + [op];
      ServedAllSnoc(capacity, Served(capacity, keys, ops[0]), ops[1..], op);
    }
  }

  ghost predicate Wf(capacity: nat, keys: seq<string>) {
    0 < capacity && Distinct(keys) && |keys| <= capacity
  }

  lemma ServedKeepsWf(capacity: nat, keys: seq<string>, op: Op)
    requires Wf(capacity, keys)
    ensures Wf(capacity, Served(capacity, keys, op))
  {
    UseKeepsShape(capacity, keys, op.key);
  }

  /* ----- a larger cache never does worse ----- */

  /** The smaller list is an ordered part of the larger, and the two differ only once it is full. */
  ghost predicate Nested(c: nat, small: seq<string>, d: nat, large: seq<string>) {
    c <= d && Wf(c, small) && Wf(d, large) && Sub(small, large) && (small == large || |small| == c)
  }

  lemma {:induction false} SubRemoveBoth(a: seq<string>, b: seq<string>, x: string)
    requires Sub(a, b)
    ensures Sub(Remove(a, x), Remove(b, x))
    decreases |b|
  {
    if a != [] {
      if a[0] == b[0] && Sub(a[1..], b[1..]) {
        SubRemoveBoth(a[1..], b[1..], x);
        var head := if a[0] == x then [] else [a[0]];
        SubSelf(head);
        SubConcat(head, head, Remove(a[1..], x), Remove(b[1..], x));
      } else {
        SubRemoveBoth(a, b[1..], x);
        var head := if b[0] == x then [] else [b[0]];
        SubConcat([], head, Remove(a, x), Remove(b[1..], x));
        assert [] + Remove(a, x) == Remove(a, x);
      }
    }
  }

  lemma {:induction false} SubDropLast(a: seq<string>, b: seq<string>)
    requires a != [] && Sub(a, b)
    ensures Sub(a[..|a| - 1], b[..|b| - 1])
    decreases |b|
  {
    var b' := b[..|b| - 1];
    if |a| > 1 {
      assert |b| > 1 by {
        SubLength(a, b);
      }
      assert b'[1..] == b[1..][..|b| - 2];
      if a[0] == b[0] && Sub(a[1..], b[1..]) {
        SubDropLast(a[1..], b[1..]);
        assert a[..|a| - 1][1..] == a[1..][..|a| - 2];
      } else {
        SubDropLast(a, b[1..]);
      }
    }
  }

  lemma {:induction false} SubLength(a: seq<string>, b: seq<string>)
    requires Sub(a, b)
    ensures |a| <= |b|
    decreases |b|
  {
    if a != [] {
      if Sub(a, b[1..]) {
        SubLength(a, b[1..]);
      } else {
        SubLength(a[1..], b[1..]);
      }
    }
  }

  lemma {:induction false} SubFrontOf(a: seq<string>, b: seq<string>)
    requires a != [] && Sub(a, b)
    ensures Sub(a[..|a| - 1], b)
  {
    SubDropLast(a, b);
    assert b == b[..|b| - 1] + b[|b| - 1..] by {
      SubLength(a, b);
    }
    SubConcat(a[..|a| - 1], b[..|b| - 1], [], b[|b| - 1..]);
    assert a[..|a| - 1] + [] == a[..|a| - 1];
  }

  lemma NestedStep(c: nat, small: seq<string>, d: nat, large: seq<string>, op: Op)
    requires Nested(c, small, d, large)
    ensures Nested(c, Served(c, small, op), d, Served(d, large, op))
    ensures op.key in small ==> op.key in large
  {
    var key := op.key;
    ServedKeepsWf(c, small, op);
    ServedKeepsWf(d, large, op);
    RemoveFacts(small, key);
    RemoveFacts(large, key);
    SubRemoveBoth(small, large, key);
    if key in small {
      SubMember(small, large, key);
      SubConcat([key], [key], Remove(small, key), Remove(large, key));
    } else if key in large {
      SubDropFirst(small, Remove(large, key), key);
      SubFrontOf(small, Remove(large, key));
      SubConcat([key], [key], small[..c - 1], Remove(large, key));
      assert ([key] + small)[..c] == [key] + small[..c - 1];
    } else if op.admits {
      MissInBoth(c, small, d, large, key);
    }
  }

  lemma MissInBoth(c: nat, small: seq<string>, d: nat, large: seq<string>, key: string)
    requires Nested(c, small, d, large) && key !in small && key !in large
    ensures Nested(c, Use(c, small, key), d, Use(d, large, key))
  {
    UseKeepsShape(c, small, key);
    UseKeepsShape(d, large, key);
    RemoveFacts(small, key);
    RemoveFacts(large, key);
    SubSelf(Use(c, small, key));
    if |small| == c {
      var front := small[..c - 1];
      assert ([key] + small)[..c] == [key] + front;
      if |large| == d {
        assert ([key] + large)[..d] == [key] + large[..d - 1];
        SubDropLast(small, large);
        SubConcat([key], [key], front, large[..d - 1]);
      } else {
        SubFrontOf(small, large);
        SubConcat([key], [key], front, large);
      }
    }
  }

  /** Two caches of capacities c <= d that serve the same calls with the same outcomes: after every
      step the smaller recency list is an ordered part of the larger, so every hit of the smaller is
      a hit of the larger. */
  lemma {:induction false} NoBeladyAnomaly(c: nat, d: nat, ops: seq<Op>, n: nat)
    requires 0 < c <= d && n <= |ops|
    ensures Sub(ServedAll(c, [], ops[..n]), ServedAll(d, [], ops[..n]))
    ensures n < |ops| && ops[n].key in ServedAll(c, [], ops[..n]) ==> ops[n].key in ServedAll(d, [], ops[..n])
  {
    NestedRun(c, [], d, [], ops[..n]);
    if n < |ops| {
      NestedStep(c, ServedAll(c, [], ops[..n]), d, ServedAll(d, [], ops[..n]), ops[n]);
    }
  }

  lemma {:induction false} NestedRun(c: nat, small: seq<string>, d: nat, large: seq<string>, ops: seq<Op>)
    requires Nested(c, small, d, large)
    ensures Nested(c, ServedAll(c, small, ops), d, ServedAll(d, large, ops))
    decreases |ops|
  {
    if ops != [] {
      NestedStep(c, small, d, large, ops[0]);
      NestedRun(c, Served(c, small, ops[0]), d, Served(d, large, ops[0]), ops[1..]);
    }
  }

  /* ----- exact reuse distance ----- */

  /** The keys hit or inserted while the calls are served. */
  function Touched(capacity: nat, keys: seq<string>, ops: seq<Op>): set<string>
    decreases |ops|
  {
    if ops == [] then {}
    else (if ops[0].key in keys || ops[0].admits then {ops[0].key} else {}) + Touched(capacity, Served(capacity, keys, ops[0]), ops[1..])
  }

  /** The keys used more recently than `key`. */
  function Ahead(keys: seq<string>, key: string): set<string> {
    if keys == [] || keys[0] == key then {} else {keys[0]} + Ahead(keys[1..], key)
  }

  lemma {:induction false} AheadFacts(keys: seq<string>, key: string)
    requires Distinct(keys) && key in keys
    ensures key !in Ahead(keys, key) && |Ahead(keys, key)| < |keys|
    ensures forall x :: x in Ahead(keys, key) ==> x in keys
    ensures |Ahead(keys, key)| == |keys| - 1 <==> keys[|keys| - 1] == key
  {
    if keys[0] == key {
      assert Ahead(keys, key) == {};
      assert |keys| > 1 ==> keys[0] != keys[|keys| - 1];
    } else {
      var first, rest := keys[0], keys[1..];
      assert keys[|keys| - 1] == rest[|rest| - 1];
      assert keys == [first] + rest && first !in rest;
      AheadFacts(rest, key);
      var ahead := Ahead(rest, key);
      assert first !in ahead && Ahead(keys, key) == {first} + ahead;
      assert |{first} + ahead| == 1 + |ahead|;
    }
  }

  lemma {:induction false} AheadRemove(keys: seq<string>, key: string, x: string)
    requires key in keys && x != key
    ensures key in Remove(keys, x) && Ahead(Remove(keys, x), key) == Ahead(keys, key) - {x}
  {
    RemoveFacts(keys, x);
    if keys[0] == key {
    } else {
      AheadRemove(keys[1..], key, x);
      var rest := Ahead(keys[1..], key);
      if keys[0] != x {
        assert Remove(keys, x) == [keys[0]] + Remove(keys[1..], x);
        assert ({keys[0]} + rest) - {x} == {keys[0]} + (rest - {x});
      } else {
        assert Remove(keys, x) == Remove(keys[1..], x);
        assert ({x} + rest) - {x} == rest - {x};
      }
    }
  }

  lemma {:induction false} AheadClipped(keys: seq<string>, key: string)
    requires Distinct(keys) && keys != [] && key in keys && keys[|keys| - 1] != key
    ensures key in keys[..|keys| - 1] && Ahead(keys[..|keys| - 1], key) == Ahead(keys, key)
  {
    var front := keys[..|keys| - 1];
    if keys[0] != key {
      AheadClipped(keys[1..], key);
      assert front[1..] == keys[1..][..|keys| - 2];
    }
  }

  /** One touch of another key: `key` survives iff the keys ahead of it, with that one, still leave
      room, and then exactly these are ahead of it. */
  lemma {:induction false} TouchOther(capacity: nat, keys: seq<string>, key: string, x: string)
    requires Wf(capacity, keys) && key in keys && x != key
    ensures var ahead := Ahead(keys, key) + {x};
            if |ahead| < capacity
            then key in Use(capacity, keys, x) && Ahead(Use(capacity, keys, x), key) == ahead
            else key !in Use(capacity, keys, x) && |ahead| == capacity
  {
    var all := [x] + Remove(keys, x);
    RemoveFacts(keys, x);
    AheadWithFirst(keys, key, x);
    assert Distinct(all);
    ClipOne(capacity, all, key);
  }

  lemma {:induction false} AheadWithFirst(keys: seq<string>, key: string, x: string)
    requires key in keys && x != key
    ensures Ahead([x] + Remove(keys, x), key) == Ahead(keys, key) + {x}
  {
    AheadRemove(keys, key, x);
    assert ([x] + Remove(keys, x))[1..] == Remove(keys, x);
  }

  lemma {:induction false} ClipOne(capacity: nat, all: seq<string>, key: string)
    requires Distinct(all) && |all| <= capacity + 1 && key in all
    ensures if |Ahead(all, key)| < capacity
            then key in Clipped(all, capacity) && Ahead(Clipped(all, capacity), key) == Ahead(all, key)
            else key !in Clipped(all, capacity) && |Ahead(all, key)| == capacity
  {
    AheadFacts(all, key);
    if |all| > capacity {
      assert all[..|all| - 1] == Clipped(all, capacity);
      if all[|all| - 1] != key {
        AheadClipped(all, key);
      }
    }
  }

  /** After `key` was hit or inserted, it is still cached after any calls on other keys iff fewer than
      `capacity` distinct keys were hit or inserted by them. */
  lemma {:induction false} ReuseDistance(capacity: nat, keys: seq<string>, key: string, ops: seq<Op>)
    requires Wf(capacity, keys) && keys != [] && keys[0] == key
    requires forall i :: 0 <= i < |ops| ==> ops[i].key != key
    ensures key in ServedAll(capacity, keys, ops) <==> |Touched(capacity, keys, ops)| < capacity
  {
    DistanceFrom(capacity, keys, key, ops, {});
    assert {} + Touched(capacity, keys, ops) == Touched(capacity, keys, ops);
  }

  lemma {:induction false} DistanceFrom(capacity: nat, keys: seq<string>, key: string, ops: seq<Op>, since: set<string>)
    requires Wf(capacity, keys)
    requires if key in keys then Ahead(keys, key) == since else |since| >= capacity
    requires forall i :: 0 <= i < |ops| ==> ops[i].key != key
    ensures key in ServedAll(capacity, keys, ops) <==> |since + Touched(capacity, keys, ops)| < capacity
    decreases |ops|
  {
    if ops == [] {
      assert since + {} == since;
      if key in keys {
        AheadFacts(keys, key);
      }
    } else {
      var op, next := ops[0], Served(capacity, keys, ops[0]);
      var touch: set<string> := if op.key in keys || op.admits then {op.key} else {};
      ServedKeepsWf(capacity, keys, op);
      DistanceStep(capacity, keys, key, op, since);
      DistanceFrom(capacity, next, key, ops[1..], since + touch);
      assert (since + touch) + Touched(capacity, next, ops[1..]) == since + (touch + Touched(capacity, next, ops[1..]));
    }
  }

  lemma {:induction false} DistanceStep(capacity: nat, keys: seq<string>, key: string, op: Op, since: set<string>)
    requires Wf(capacity, keys) && op.key != key
    requires if key in keys then Ahead(keys, key) == since else |since| >= capacity
    ensures var touch := if op.key in keys || op.admits then {op.key} else {};
            var next := Served(capacity, keys, op);
            if key in next then Ahead(next, key) == since + touch else |since + touch| >= capacity
  {
    if op.key in keys || op.admits {
      if key in keys {
        TouchOther(capacity, keys, key, op.key);
      } else {
        RemoveFacts(keys, op.key);
        assert key !in [op.key] + Remove(keys, op.key);
        Grows(since, {op.key});
      }
    } else {
      assert since + {} == since;
    }
  }

  lemma Grows(a: set<string>, b: set<string>)
    ensures |a| <= |a + b|
  {
    Within(a, a + b);
  }

  lemma {:induction false} Within(a: set<string>, b: set<string>)
    requires a <= b
    ensures |a| <= |b|
  {
    if a != {} {
      var x :| x in a;
      Within(a - {x}, b - {x});
    }
  }

  /** With at most `capacity` keys whose outcomes are ever inserted, a cached key stays cached. */
  lemma {:induction false} WorkingSetIsKept(capacity: nat, keys: seq<string>, eligible: set<string>, ops: seq<Op>, key: string)
    requires Wf(capacity, keys) && |eligible| <= capacity
    requires forall k :: k in keys ==> k in eligible
    requires forall i :: 0 <= i < |ops| && ops[i].admits ==> ops[i].key in eligible
    requires key in keys
    ensures key in ServedAll(capacity, keys, ops)
    decreases |ops|
  {
    if ops != [] {
      var op, next := ops[0], Served(capacity, keys, ops[0]);
      ServedKeepsWf(capacity, keys, op);
      RemoveFacts(keys, op.key);
      if next != keys {
        var all := [op.key] + Remove(keys, op.key);
        assert forall k :: k in all <==> k == op.key || k in keys;
        assert Distinct(all);
        MembersFit(all, eligible);
        assert next == all;
      }
      WorkingSetIsKept(capacity, next, eligible, ops[1..], key);
    }
  }

  lemma {:induction false} MembersFit(keys: seq<string>, eligible: set<string>)
    requires Distinct(keys) && forall k :: k in keys ==> k in eligible
    ensures |keys| <= |eligible|
  {
    if keys != [] {
      assert keys[0] !in keys[1..];
      MembersFit(keys[1..], eligible - {keys[0]});
    }
  }
}
