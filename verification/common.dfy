/** Optional values and the sequence facts the other modules share. */
module Common {

  datatype Option<+T> = None | Some(value: T)

  /** All elements of all sequences, in order. */
  function Concat<T>(ss: seq<seq<T>>): seq<T> {
    if ss == [] then [] else ss[0] + Concat(ss[1..])
  }

  lemma {:induction false} ConcatAppend<T>(a: seq<seq<T>>, b: seq<seq<T>>)
    ensures Concat(a + b) == Concat(a) + Concat(b)
  {
    if a == [] {
      assert a + b == b;
    } else {
      ConcatAppend(a[1..], b);
      assert (a + b)[1..] == a[1..] + b;
      AppendAssociative(a[0], Concat(a[1..]), Concat(b));
    }
  }

  lemma {:induction false} ConcatSnoc<T>(ss: seq<seq<T>>, s: seq<T>)
    ensures Concat(ss + [s]) == Concat(ss) + s
  {
    ConcatAppend(ss, [s]);
    assert Concat([s]) == s + Concat([]);
  }

  lemma ConcatTake<T>(ss: seq<seq<T>>, i: nat)
    requires i < |ss|
    ensures Concat(ss[..i + 1]) == Concat(ss[..i]) + ss[i]
  {
    ConcatSnoc(ss[..i], ss[i]);
    assert ss[..i + 1] == ss[..i] + [ss[i]];
  }

  lemma AppendAssociative<T>(a: seq<T>, b: seq<T>, c: seq<T>)
    ensures (a + b) + c == a + (b + c)
  {
  }

  lemma SplitAt<T>(s: seq<T>, p: nat)
    requires p < |s|
    ensures s == s[..p] + ([s[p]] + s[p + 1..])
  {
  }

  function Map<A, B>(f: A -> B, s: seq<A>): (r: seq<B>)
    ensures |r| == |s| && forall i :: 0 <= i < |r| ==> r[i] == f(s[i])
  {
    seq(|s|, i requires 0 <= i < |s| => f(s[i]))
  }

  lemma MapConcat<A, B>(f: A -> B, a: seq<A>, b: seq<A>)
    ensures Map(f, a + b) == Map(f, a) + Map(f, b)
  {
  }

  lemma MapTail<A, B>(f: A -> B, a: seq<A>)
    requires a != []
    ensures Map(f, a)[1..] == Map(f, a[1..])
  {
  }

  /** `a` is `b` with some elements left out: the order is kept. */
  predicate Sub<T(==)>(a: seq<T>, b: seq<T>) {
    a == [] ||
    (b != [] && ((a[0] == b[0] && Sub(a[1..], b[1..])) || Sub(a, b[1..])))
  }

  lemma {:induction false} SubSelf<T>(a: seq<T>)
    ensures Sub(a, a)
  {
    if a != [] {
      SubSelf(a[1..]);
    }
  }

  lemma {:induction false} SubConcat<T>(a: seq<T>, c: seq<T>, b: seq<T>, d: seq<T>)
    requires Sub(a, c) && Sub(b, d)
    ensures Sub(a + b, c + d)
    decreases |c|
  {
    if c == [] {
      assert a + b == b && c + d == d;
    } else {
      assert (c + d)[1..] == c[1..] + d;
      if a == [] {
        assert a + b == b;
        SubConcat(a, c[1..], b, d);
      } else if a[0] == c[0] && Sub(a[1..], c[1..]) {
        assert (a + b)[1..] == a[1..] + b;
        SubConcat(a[1..], c[1..], b, d);
      } else {
        SubConcat(a, c[1..], b, d);
      }
    }
  }

  lemma {:induction false} SubMember<T>(a: seq<T>, b: seq<T>, x: T)
    requires Sub(a, b) && x in a
    ensures x in b
    decreases |b|
  {
    if !(a[0] == b[0] && Sub(a[1..], b[1..])) {
      SubMember(a, b[1..], x);
    } else if x != a[0] {
      SubMember(a[1..], b[1..], x);
    }
  }

  lemma {:induction false} SubDropFirst<T>(a: seq<T>, b: seq<T>, x: T)
    requires Sub(a, b)
    ensures Sub(a, [x] + b)
  {
    assert ([x] + b)[1..] == b;
  }

  lemma {:induction false} SubTransitive<T>(a: seq<T>, b: seq<T>, c: seq<T>)
    requires Sub(a, b) && Sub(b, c)
    ensures Sub(a, c)
    decreases |b| + |c|
  {
    if a != [] {
      if b[0] == c[0] && Sub(b[1..], c[1..]) {
        if a[0] == b[0] && Sub(a[1..], b[1..]) {
          SubTransitive(a[1..], b[1..], c[1..]);
        } else {
          SubTransitive(a, b[1..], c[1..]);
        }
      } else {
        SubTransitive(a, b, c[1..]);
      }
    }
  }

  lemma {:induction false} SubConcatAll<T>(a: seq<seq<T>>, b: seq<seq<T>>)
    requires |a| == |b| && forall i :: 0 <= i < |a| ==> Sub(a[i], b[i])
    ensures Sub(Concat(a), Concat(b))
  {
    if a != [] {
      SubConcatAll(a[1..], b[1..]);
      SubConcat(a[0], b[0], Concat(a[1..]), Concat(b[1..]));
    }
  }

  /** How many elements are picked. */
  function CountPicked<A, B>(s: seq<A>, pick: A -> Option<B>): nat {
    if s == [] then 0 else (if pick(s[0]).Some? then 1 else 0) + CountPicked(s[1..], pick)
  }

  /** `r` holds what is picked from `s`, each in the place that its predecessors leave it, and no more. */
  ghost predicate PickedInOrder<A, B>(s: seq<A>, pick: A -> Option<B>, r: seq<B>) {
    && |r| == CountPicked(s, pick)
    && forall i :: 0 <= i < |s| && pick(s[i]).Some? ==>
         CountPicked(s[..i], pick) < |r| && r[CountPicked(s[..i], pick)] == pick(s[i]).value
  }

  /** Picking from the rest first. */
  lemma PickedCons<A, B>(s: seq<A>, pick: A -> Option<B>, rest: seq<B>)
    requires s != [] && PickedInOrder(s[1..], pick, rest)
    ensures PickedInOrder(s, pick, (if pick(s[0]).Some? then [pick(s[0]).value] else []) + rest)
  {
    var r := (if pick(s[0]).Some? then [pick(s[0]).value] else []) + rest;
    forall i | 0 <= i < |s| && pick(s[i]).Some?
      ensures CountPicked(s[..i], pick) < |r| && r[CountPicked(s[..i], pick)] == pick(s[i]).value
    {
      if i > 0 {
        assert s[..i][1..] == s[1..][..i - 1] && s[..i][0] == s[0];
        assert s[i] == s[1..][i - 1];
      }
    }
  }
}
