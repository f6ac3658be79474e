/** The bounded cache with the contract the guard relies on: a hit moves the key to the front, an
    insertion goes to the front, and beyond capacity the back is evicted. */
module Cache {
  import opened Common
  import opened Engine

  datatype Entry = Entry(key: string, prepared: Prepared)

  /** Most recently used first. */
  type Entries = seq<Entry>

  function Find(entries: Entries, key: string): (r: Option<Prepared>)
    ensures r.Some? <==> key in Keys(entries)
    ensures r.Some? ==> Entry(key, r.value) in entries
  {
    if entries == [] then None
    else if entries[0].key == key then
      assert entries[0] == Entry(key, entries[0].prepared) && Keys(entries)[0] == key;
      Some(entries[0].prepared)
    else
      assert Keys(entries)[1..] == Keys(entries[1..]);
      Find(entries[1..], key)
  }

  function Keys(entries: Entries): seq<string> {
    seq(|entries|, i requires 0 <= i < |entries| => entries[i].key)
  }

  function Without(entries: Entries, key: string): (r: Entries)
    ensures |r| <= |entries|
    ensures forall e :: e in r ==> e in entries && e.key != key
  {
    if entries == [] then []
    else (if entries[0].key == key then [] else [entries[0]]) + Without(entries[1..], key)
  }

  function Clipped<T>(s: seq<T>, capacity: nat): seq<T> {
    if |s| <= capacity then s else s[..capacity]
  }

  /** The entries after a lookup. */
  function Looked(entries: Entries, key: string): Entries {
    match Find(entries, key)
    case None => entries
    case Some(prepared) => [Entry(key, prepared)] + Without(entries, key)
  }

  /** The entries after an insertion. */
  function Inserted(entries: Entries, key: string, prepared: Prepared, capacity: nat): Entries {
    Clipped([Entry(key, prepared)] + Without(entries, key), capacity)
  }

  /* ----- what the two operations do, by positions ----- */

  ghost predicate Absent(entries: Entries, key: string) {
    forall p :: 0 <= p < |entries| ==> entries[p].key != key
  }

  /** `first` goes to the front and replaces an entry of its key, wherever that is; the others keep
      their values and their order; without such an entry the back leaves if the list was full. */
  ghost predicate PutFirst(entries: Entries, first: Entry, capacity: nat, after: Entries) {
    && 0 < capacity
    && (forall p :: 0 <= p < |entries| && entries[p].key == first.key ==>
          after == [first] + entries[..p] + entries[p + 1..])
    && (Absent(entries, first.key) ==>
          after == [first] + if |entries| < capacity then entries else entries[..capacity - 1])
  }

  lemma {:induction false} WithoutAt(entries: Entries, p: nat)
    requires Distinct(Keys(entries)) && p < |entries|
    ensures Without(entries, entries[p].key) == entries[..p] + entries[p + 1..]
    ensures Find(entries, entries[p].key) == Some(entries[p].prepared)
  {
    KeyOnce(entries, p);
    FindAt(entries, p);
    SplitAt(entries, p);
    WithoutBetween(entries[..p], entries[p], entries[p + 1..]);
  }

  lemma {:induction false} FindAt(entries: Entries, p: nat)
    requires p < |entries| && forall q :: 0 <= q < |entries| && entries[q].key == entries[p].key ==> q == p
    ensures Find(entries, entries[p].key) == Some(entries[p].prepared)
  {
    assert Keys(entries)[p] == entries[p].key;
  }

  lemma {:induction false} WithoutBetween(front: Entries, e: Entry, back: Entries)
    requires Absent(front, e.key) && Absent(back, e.key)
    ensures Without(front + ([e] + back), e.key) == front + back
  {
    var all := front + ([e] + back);
    if front == [] {
      assert all == [e] + back && all[1..] == back;
      WithoutAbsent(back, e.key);
      assert [] + back == back;
    } else {
      var first, rest := front[0], front[1..];
      assert all[0] == first && all[1..] == rest + ([e] + back);
      WithoutBetween(rest, e, back);
      assert front == [first] + rest;
      AppendAssociative([first], rest, back);
    }
  }

  lemma KeyOnce(entries: Entries, p: nat)
    requires Distinct(Keys(entries)) && p < |entries|
    ensures forall q :: 0 <= q < |entries| && entries[q].key == entries[p].key ==> q == p
  {
    forall q | 0 <= q < |entries| && entries[q].key == entries[p].key
      ensures q == p
    {
      assert Keys(entries)[q] == Keys(entries)[p];
    }
  }

  lemma {:induction false} WithoutAbsent(entries: Entries, key: string)
    requires Absent(entries, key)
    ensures Without(entries, key) == entries && Find(entries, key) == None
  {
    if entries != [] {
      WithoutAbsent(entries[1..], key);
    }
  }

  lemma InsertedPutsFirst(entries: Entries, key: string, prepared: Prepared, capacity: nat)
    requires 0 < capacity && Distinct(Keys(entries)) && |entries| <= capacity
    ensures PutFirst(entries, Entry(key, prepared), capacity, Inserted(entries, key, prepared, capacity))
  {
    forall p | 0 <= p < |entries| && entries[p].key == key
      ensures Inserted(entries, key, prepared, capacity) == [Entry(key, prepared)] + entries[..p] + entries[p + 1..]
    {
      WithoutAt(entries, p);
      assert [Entry(key, prepared)] + (entries[..p] + entries[p + 1..]) == [Entry(key, prepared)] + entries[..p] + entries[p + 1..];
    }
    if Absent(entries, key) {
      WithoutAbsent(entries, key);
      assert |entries| == capacity ==> ([Entry(key, prepared)] + entries)[..capacity] == [Entry(key, prepared)] + entries[..capacity - 1];
    }
  }

  lemma {:induction false} LookedPutsFirst(entries: Entries, key: string, capacity: nat)
    requires 0 < capacity && Distinct(Keys(entries)) && |entries| <= capacity
    ensures forall p :: 0 <= p < |entries| && entries[p].key == key ==>
                          Find(entries, key) == Some(entries[p].prepared) && PutFirst(entries, entries[p], capacity, Looked(entries, key))
    ensures Absent(entries, key) ==> Find(entries, key) == None && Looked(entries, key) == entries
  {
    forall p | 0 <= p < |entries| && entries[p].key == key
      ensures Find(entries, key) == Some(entries[p].prepared) && PutFirst(entries, entries[p], capacity, Looked(entries, key))
    {
      WithoutAt(entries, p);
      InsertedPutsFirst(entries, key, entries[p].prepared, capacity);
      assert |Looked(entries, key)| == |entries|;
    }
    if Absent(entries, key) {
      WithoutAbsent(entries, key);
    }
  }

  class Lru {
    const capacity: nat
    var entries: Entries

    ghost predicate Valid()
      reads this
    {
      0 < capacity && |entries| <= capacity && Distinct(Keys(entries))
    }

    constructor (capacity: nat)
      requires 0 < capacity
      ensures Valid() && this.capacity == capacity && entries == []
    {
      this.capacity := capacity;
      entries := [];
    }

    method Get(key: string) returns (found: Option<Prepared>)
      requires Valid()
      modifies this`entries
      ensures Valid()
      ensures found == Find(old(entries), key) && entries == Looked(old(entries), key)
      ensures forall p :: 0 <= p < |old(entries)| && old(entries)[p].key == key ==>
                            found == Some(old(entries)[p].prepared) && PutFirst(old(entries), old(entries)[p], capacity, entries)
      ensures Absent(old(entries), key) ==> found == None && entries == old(entries)
    {
      found := Find(entries, key);
      LookedPutsFirst(entries, key, capacity);
      KeysAfterLookup(entries, key, capacity);
      UseKeepsShape(capacity, Keys(entries), key);
      if found.Some? {
        entries := [Entry(key, found.value)] + Without(entries, key);
      }
    }

    method Add(key: string, prepared: Prepared)
      requires Valid()
      modifies this`entries
      ensures Valid()
      ensures entries == Inserted(old(entries), key, prepared, capacity)
      ensures PutFirst(old(entries), Entry(key, prepared), capacity, entries)
    {
      InsertedPutsFirst(entries, key, prepared, capacity);
      KeysAfterInsertion(entries, key, prepared, capacity);
      UseKeepsShape(capacity, Keys(entries), key);
      entries := [Entry(key, prepared)] + Without(entries, key);
      if |entries| > capacity {
        entries := entries[..capacity];
      }
    }
  }

  /* ----- recency of keys ----- */

  ghost predicate Distinct<T(!new)>(s: seq<T>) {
    forall i, j :: 0 <= i < j < |s| ==> s[i] != s[j]
  }

  function Remove(keys: seq<string>, key: string): seq<string> {
    if keys == [] then []
    else (if keys[0] == key then [] else [keys[0]]) + Remove(keys[1..], key)
  }

  /** The recency list after a hit or an insertion of `key`. */
  function Use(capacity: nat, keys: seq<string>, key: string): seq<string> {
    Clipped([key] + Remove(keys, key), capacity)
  }

  lemma {:induction false} RemoveFacts(keys: seq<string>, key: string)
    ensures |Remove(keys, key)| <= |keys|
    ensures forall x :: x in Remove(keys, key) <==> x in keys && x != key
    ensures Distinct(keys) ==> Distinct(Remove(keys, key))
    ensures Distinct(keys) && key in keys ==> |Remove(keys, key)| == |keys| - 1
    ensures key !in keys ==> Remove(keys, key) == keys
  {
    if keys != [] {
      RemoveFacts(keys[1..], key);
      assert forall x :: x in keys <==> x == keys[0] || x in keys[1..];
      if Distinct(keys) {
        assert Distinct(keys[1..]);
        assert keys[0] !in keys[1..];
      }
    }
  }

  lemma {:induction false} UseKeepsShape(capacity: nat, keys: seq<string>, key: string)
    requires 0 < capacity && Distinct(keys) && |keys| <= capacity
    ensures Distinct(Use(capacity, keys, key)) && |Use(capacity, keys, key)| <= capacity
    ensures Use(capacity, keys, key)[0] == key
    ensures key in keys ==> Use(capacity, keys, key) == [key] + Remove(keys, key)
  {
    RemoveFacts(keys, key);
    assert Distinct([key] + Remove(keys, key));
  }

  lemma KeysCons(e: Entry, entries: Entries)
    ensures Keys([e] + entries) == [e.key] + Keys(entries)
  {
  }

  lemma {:induction false} RemoveCons(first: string, rest: seq<string>, key: string)
    ensures Remove([first] + rest, key) == (if first == key then [] else [first]) + Remove(rest, key)
  {
    assert ([first] + rest)[1..] == rest;
  }

  lemma {:induction false} KeysWithout(entries: Entries, key: string)
    ensures Keys(Without(entries, key)) == Remove(Keys(entries), key)
  {
    if entries != [] {
      var first, rest := entries[0], entries[1..];
      KeysWithout(rest, key);
      assert entries == [first] + rest;
      KeysCons(first, rest);
      RemoveCons(first.key, Keys(rest), key);
      if first.key != key {
        KeysCons(first, Without(rest, key));
      }
    }
  }

  lemma KeysAfterLookup(entries: Entries, key: string, capacity: nat)
    requires Distinct(Keys(entries)) && |entries| <= capacity
    ensures Keys(Looked(entries, key)) == if key in Keys(entries) then Use(capacity, Keys(entries), key) else Keys(entries)
  {
    if Find(entries, key).Some? {
      KeysWithout(entries, key);
      KeysCons(Entry(key, Find(entries, key).value), Without(entries, key));
      RemoveFits(Keys(entries), key);
    }
  }

  lemma {:induction false} RemoveFits(keys: seq<string>, key: string)
    requires Distinct(keys) && key in keys
    ensures |[key] + Remove(keys, key)| == |keys|
  {
    RemoveFacts(keys, key);
  }

  lemma KeysAfterInsertion(entries: Entries, key: string, prepared: Prepared, capacity: nat)
    ensures Keys(Inserted(entries, key, prepared, capacity)) == Use(capacity, Keys(entries), key)
  {
    KeysWithout(entries, key);
    KeysCons(Entry(key, prepared), Without(entries, key));
  }
}
