/**
 A bounded list of keys in order of use with the entries stored under them: what both caches are
 measured against.
 */
module LruLists {
  import opened Graphs

  function Max(a: nat, b: nat): nat { if a < b then b else a }

  function ToSet<K>(s: seq<K>): set<K> { set x | x in s }

  function Drop<K(==,!new)>(s: seq<K>, k: K): (r: seq<K>)
    ensures forall x :: x in r <==> x in s && x != k
  {
    if s == [] then []
    else
      assert s == [s[0]] + s[1..];
      if s[0] == k then Drop(s[1..], k) else [s[0]] + Drop(s[1..], k)
  }

  /** No key twice, read from the front. */
  predicate Distinct<K(==)>(s: seq<K>) {
    s == [] || (s[0] !in s[1..] && Distinct(s[1..]))
  }

  lemma DropDistinct<K(!new)>(s: seq<K>, k: K)
    requires Distinct(s)
    ensures Distinct(Drop(s, k))
    ensures |Drop(s, k)| == if k in s then |s| - 1 else |s|
  {
    if s != [] {
      var rest := Drop(s[1..], k);
      DropDistinct(s[1..], k);
      assert s == [s[0]] + s[1..];
      if s[0] != k { assert ([s[0]] + rest)[1..] == rest; }
    }
  }

  lemma DropAbsent<K(!new)>(s: seq<K>, k: K)
    requires k !in s
    ensures Drop(s, k) == s
  {
    if s != [] {
      assert s == [s[0]] + s[1..];
      DropAbsent(s[1..], k);
    }
  }

  lemma AppendDistinct<K(!new)>(s: seq<K>, k: K)
    requires Distinct(s) && k !in s
    ensures Distinct(s + [k])
  {
    if s != [] {
      assert (s + [k])[1..] == s[1..] + [k];
      AppendDistinct(s[1..], k);
    }
  }

  /** The bounded LRU: `order` lists the keys, most recently used first. */
  datatype Lru<K(==,!new), +V> = Lru(order: seq<K>, entries: map<K, V>) {
    ghost predicate Valid(capacity: nat) {
      && Distinct(order)
      && ToSet(order) == entries.Keys
      && |order| <= capacity
    }

    function Pop(k: K): Lru<K, V> {
      Lru(Drop(order, k), entries - {k})
    }

    /** Stores `v` under `k` and makes it the most recent entry. */
    function ToFront(k: K, v: V): Lru<K, V> {
      Lru([k] + Drop(order, k), entries[k := v])
    }

    function Last(): K
      requires order != []
    {
      order[|order| - 1]
    }

    predicate Evicts(capacity: nat, k: K) {
      k !in entries && |order| >= capacity && order != []
    }

    /** At capacity a new key displaces the least recently used one. */
    function Push(capacity: nat, k: K, v: V): Lru<K, V> {
      if Evicts(capacity, k) then Pop(Last()).ToFront(k, v) else ToFront(k, v)
    }
  }

  lemma PopKeeps<K(!new), V>(l: Lru<K, V>, capacity: nat, k: K)
    requires l.Valid(capacity)
    ensures l.Pop(k).Valid(capacity)
    ensures |l.Pop(k).order| == if k in l.entries then |l.order| - 1 else |l.order|
  {
    DropDistinct(l.order, k);
    assert k in ToSet(l.order) <==> k in l.order;
    assert ToSet(Drop(l.order, k)) == ToSet(l.order) - {k};
  }

  lemma ToFrontKeeps<K(!new), V>(l: Lru<K, V>, capacity: nat, k: K, v: V)
    requires l.Valid(capacity) && (k in l.entries || |l.order| < capacity)
    ensures l.ToFront(k, v).Valid(capacity)
  {
    PopKeeps(l, capacity, k);
    var rest := Drop(l.order, k);
    assert k !in rest;
    assert ([k] + rest)[1..] == rest;
    assert ToSet([k] + rest) == {k} + ToSet(rest);
  }

  lemma PushKeeps<K(!new), V>(l: Lru<K, V>, capacity: nat, k: K, v: V)
    requires l.Valid(capacity) && capacity > 0
    ensures l.Push(capacity, k, v).Valid(capacity)
  {
    if l.Evicts(capacity, k) {
      assert l.Last() in ToSet(l.order);
      PopKeeps(l, capacity, l.Last());
      ToFrontKeeps(l.Pop(l.Last()), capacity, k, v);
    } else {
      ToFrontKeeps(l, capacity, k, v);
    }
  }

  /** Nothing is displaced as long as the capacity covers all keys ever used. */
  lemma RoomForAll<K(!new), V>(l: Lru<K, V>, capacity: nat, k: K, all: set<K>)
    requires l.Valid(capacity)
    requires l.entries.Keys <= all && k in all && |all| <= capacity
    ensures !l.Evicts(capacity, k)
  {
    if k !in l.entries {
      OrderCount(l.order);
      SubsetCard(l.entries.Keys + {k}, all);
    }
  }

  lemma OrderCount<K(!new)>(s: seq<K>)
    requires Distinct(s)
    ensures |ToSet(s)| == |s|
  {
    if s != [] {
      OrderCount(s[1..]);
      assert ToSet(s) == {s[0]} + ToSet(s[1..]);
    }
  }

  /** The members of `s` that are in `keys`, in order. */
  function Keep<K(==,!new)>(s: seq<K>, keys: set<K>): seq<K> {
    if s == [] then []
    else if s[0] in keys then [s[0]] + Keep(s[1..], keys)
    else Keep(s[1..], keys)
  }

  lemma KeepMeaning<K(!new)>(s: seq<K>, keys: set<K>)
    requires Distinct(s)
    ensures Distinct(Keep(s, keys)) && forall x :: x in Keep(s, keys) <==> x in s && x in keys
  {
    if s != [] {
      var rest := Keep(s[1..], keys);
      assert s == [s[0]] + s[1..];
      KeepMeaning(s[1..], keys);
      if s[0] in keys { assert ([s[0]] + rest)[1..] == rest; }
    }
  }

  lemma KeepAll<K(!new)>(s: seq<K>, keys: set<K>)
    requires ToSet(s) <= keys
    ensures Keep(s, keys) == s
  {
    if s != [] {
      assert s[0] in ToSet(s);
      assert ToSet(s[1..]) <= ToSet(s);
      KeepAll(s[1..], keys);
    }
  }

  lemma DropKept<K(!new)>(s: seq<K>, keys: set<K>, k: K)
    ensures Drop(Keep(s, keys), k) == Keep(s, keys - {k})
  {
    if s != [] {
      var rest := Keep(s[1..], keys);
      DropKept(s[1..], keys, k);
      assert ([s[0]] + rest)[1..] == rest;
    }
  }
}
