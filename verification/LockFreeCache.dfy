/**
 The timestamp cache: a map whose entries carry the time of their last access, and which evicts an
 entry with the smallest one.  `ref` is the list of the same entries in order of use, which is what the
 cache stands for.  The clock is the system's: it may stand still between operations, then several
 entries share the smallest timestamp and the order of the scan decides which of them goes; and it may
 be set back, then the smallest timestamp need not belong to the entry used least recently.
 */
module LockFreeCaches {
  import opened Wrappers
  import opened LruLists

  const U64_MAX: nat := 0xFFFF_FFFF_FFFF_FFFF

  datatype TimedEntry<+V> = TimedEntry(value: V, createdAt: nat, accessCount: nat, lastAccessed: nat)

  datatype Stored<+V> = Stored(value: V, createdAt: nat)

  function Touch<V>(e: TimedEntry<V>, now: nat): TimedEntry<V> {
    e.(accessCount := e.accessCount + 1, lastAccessed := now)
  }

  ghost predicate NotNewer<K(!new), V>(storage: map<K, TimedEntry<V>>, k: K, t: nat) {
    k in storage && storage[k].lastAccessed <= t
  }

  ghost predicate NoneNewer<K(!new), V>(storage: map<K, TimedEntry<V>>, s: seq<K>, t: nat) {
    forall k {:trigger NotNewer(storage, k, t)} :: k in s ==> NotNewer(storage, k, t)
  }

  /** No key was last used before a key behind it. */
  ghost predicate ByRecency<K(!new), V>(storage: map<K, TimedEntry<V>>, s: seq<K>) {
    s == [] || (s[0] in storage && NoneNewer(storage, s[1..], storage[s[0]].lastAccessed) && ByRecency(storage, s[1..]))
  }

  ghost predicate EntryTracked<K(!new), V>(ref: map<K, Stored<V>>, storage: map<K, TimedEntry<V>>, k: K)
    requires k in ref && k in storage
  {
    ref[k] == Stored(storage[k].value, storage[k].createdAt)
  }

  /** The list and the map hold the same entries. */
  ghost predicate Tracks<K(!new), V>(ref: Lru<K, Stored<V>>, storage: map<K, TimedEntry<V>>) {
    && ref.entries.Keys == storage.Keys
    && forall k {:trigger EntryTracked(ref.entries, storage, k)} :: k in storage ==>
        EntryTracked(ref.entries, storage, k)
  }

  /** The timestamps tell the order of use, and none lies in the future. */
  ghost predicate InOrder<K(!new), V>(storage: map<K, TimedEntry<V>>, order: seq<K>, clock: nat) {
    ByRecency(storage, order) && forall k :: k in storage ==> storage[k].lastAccessed <= clock
  }

  /** Changing or removing the entry of a key that is not in the list does not disturb the order. */
  lemma OrderIgnoresOthers<K(!new), V>(storage: map<K, TimedEntry<V>>, storage': map<K, TimedEntry<V>>, s: seq<K>)
    requires ByRecency(storage, s)
    requires forall k :: k in s ==> k in storage' && (k in storage ==> storage'[k] == storage[k])
    ensures ByRecency(storage', s)
  {
    if s != [] {
      assert s == [s[0]] + s[1..];
      OrderIgnoresOthers(storage, storage', s[1..]);
      var t := storage[s[0]].lastAccessed;
      forall k {:trigger NotNewer(storage', k, t)} | k in s[1..] ensures NotNewer(storage', k, t) {
        assert NotNewer(storage, k, t);
      }
    }
  }

  lemma ListedIsStored<K(!new), V>(storage: map<K, TimedEntry<V>>, s: seq<K>)
    requires ByRecency(storage, s)
    ensures forall k :: k in s ==> k in storage
  {
    if s != [] {
      assert s == [s[0]] + s[1..];
      ListedIsStored(storage, s[1..]);
    }
  }

  lemma DropKeepsOrder<K(!new), V>(storage: map<K, TimedEntry<V>>, s: seq<K>, k: K)
    requires ByRecency(storage, s)
    ensures ByRecency(storage, Drop(s, k))
  {
    if s != [] {
      DropKeepsOrder(storage, s[1..], k);
      var rest := Drop(s[1..], k);
      if s[0] != k {
        assert ([s[0]] + rest)[1..] == rest;
        forall x {:trigger NotNewer(storage, x, storage[s[0]].lastAccessed)} | x in rest
          ensures NotNewer(storage, x, storage[s[0]].lastAccessed)
        {
          assert x in s[1..];
        }
      }
    }
  }

  lemma FrontTracks<K(!new), V>(ref: Lru<K, Stored<V>>, storage: map<K, TimedEntry<V>>, k: K, e: TimedEntry<V>)
    requires Tracks(ref, storage)
    ensures Tracks(ref.ToFront(k, Stored(e.value, e.createdAt)), storage[k := e])
  {
    var storage' := storage[k := e];
    var ref' := ref.ToFront(k, Stored(e.value, e.createdAt));
    forall x | x in storage' ensures EntryTracked(ref'.entries, storage', x) {
      if x != k { assert EntryTracked(ref.entries, storage, x); }
    }
  }

  /** An entry stamped no earlier than any other belongs at the front. */
  lemma FrontInOrder<K(!new), V>(storage: map<K, TimedEntry<V>>, order: seq<K>, clock: nat, k: K, e: TimedEntry<V>)
    requires InOrder(storage, order, clock) && clock <= e.lastAccessed
    ensures InOrder(storage[k := e], [k] + Drop(order, k), e.lastAccessed)
  {
    var rest := Drop(order, k);
    var storage' := storage[k := e];
    DropKeepsOrder(storage, order, k);
    ListedIsStored(storage, rest);
    OrderIgnoresOthers(storage, storage', rest);
    assert ([k] + rest)[1..] == rest;
    forall x {:trigger NotNewer(storage', x, e.lastAccessed)} | x in rest
      ensures NotNewer(storage', x, e.lastAccessed)
    {
    }
  }

  lemma PopTracks<K(!new), V>(ref: Lru<K, Stored<V>>, storage: map<K, TimedEntry<V>>, k: K)
    requires Tracks(ref, storage)
    ensures Tracks(ref.Pop(k), storage - {k})
  {
    forall x | x in storage - {k} ensures EntryTracked(ref.Pop(k).entries, storage - {k}, x) {
      assert EntryTracked(ref.entries, storage, x);
    }
  }

  lemma PopInOrder<K(!new), V>(storage: map<K, TimedEntry<V>>, order: seq<K>, clock: nat, k: K)
    requires InOrder(storage, order, clock)
    ensures InOrder(storage - {k}, Drop(order, k), clock)
  {
    DropKeepsOrder(storage, order, k);
    ListedIsStored(storage, Drop(order, k));
    OrderIgnoresOthers(storage, storage - {k}, Drop(order, k));
  }

  // ---------------------------------------------------------------- which entry is evicted

  ghost predicate IsOldest<K(!new), V>(storage: map<K, TimedEntry<V>>, k: K) {
    k in storage && forall x :: x in storage ==> storage[k].lastAccessed <= storage[x].lastAccessed
  }

  /** No other entry has the timestamp of `k`. */
  ghost predicate Alone<K(!new), V>(storage: map<K, TimedEntry<V>>, k: K) {
    k in storage && forall x {:trigger storage[x]} :: x in storage && x != k ==>
        storage[x].lastAccessed != storage[k].lastAccessed
  }

  /** All timestamps differ. */
  ghost predicate AllAlone<K(!new), V>(storage: map<K, TimedEntry<V>>) {
    forall k {:trigger Alone(storage, k)} :: k in storage ==> Alone(storage, k)
  }

  lemma AloneInFront<K(!new), V>(storage: map<K, TimedEntry<V>>, k: K, e: TimedEntry<V>)
    requires AllAlone(storage) && forall x :: x in storage ==> storage[x].lastAccessed < e.lastAccessed
    ensures AllAlone(storage[k := e])
  {
    var storage' := storage[k := e];
    forall x | x in storage' ensures Alone(storage', x) {
      if x != k { assert Alone(storage, x); }
    }
  }

  lemma AloneWithout<K(!new), V>(storage: map<K, TimedEntry<V>>, k: K)
    ensures AllAlone(storage) ==> AllAlone(storage - {k})
  {
    var storage' := storage - {k};
    if AllAlone(storage) {
      forall x | x in storage' ensures Alone(storage', x) { assert Alone(storage, x); }
    }
  }

  /** Nothing is older than the end of the list. */
  lemma LastIsOldest<K(!new), V>(storage: map<K, TimedEntry<V>>, s: seq<K>)
    requires ByRecency(storage, s) && s != []
    ensures s[|s| - 1] in storage
    ensures forall x :: x in s ==> x in storage && storage[s[|s| - 1]].lastAccessed <= storage[x].lastAccessed
  {
    assert s == [s[0]] + s[1..];
    if |s| > 1 {
      LastIsOldest(storage, s[1..]);
      assert s[|s| - 1] in s[1..];
      assert NotNewer(storage, s[|s| - 1], storage[s[0]].lastAccessed);
    }
  }

  /** The scan with a running minimum, over the keys in the given order. */
  function ScanOldest<K(!new), V>(storage: map<K, TimedEntry<V>>, order: seq<K>): (r: Option<K>)
    requires ToSet(order) <= storage.Keys
    ensures r.Some? ==> r.value in storage
  {
    if order == [] then None
    else
      var n := |order| - 1;
      assert order[n] in ToSet(order) && ToSet(order[..n]) <= ToSet(order);
      var best := ScanOldest(storage, order[..n]);
      var least := if best.Some? then storage[best.value].lastAccessed else U64_MAX;
      if storage[order[n]].lastAccessed < least then Some(order[n]) else best
  }

  /** `order` goes through all keys, once each. */
  ghost predicate Scans<K(!new), V>(storage: map<K, TimedEntry<V>>, order: seq<K>) {
    Distinct(order) && ToSet(order) == storage.Keys
  }

  ghost predicate InRange<K(!new), V>(storage: map<K, TimedEntry<V>>) {
    forall k :: k in storage ==> storage[k].lastAccessed < U64_MAX
  }

  lemma ScanMeaning<K(!new), V>(storage: map<K, TimedEntry<V>>, order: seq<K>)
    requires ToSet(order) <= storage.Keys && InRange(storage)
    ensures var r := ScanOldest(storage, order);
            && (r.None? <==> order == [])
            && (r.Some? ==> r.value in order && forall x :: x in order ==>
                storage[r.value].lastAccessed <= storage[x].lastAccessed)
  {
    if order != [] {
      var n := |order| - 1;
      LastMember(order);
      ScanMeaning(storage, order[..n]);
    }
  }

  lemma LastMember<K(!new)>(s: seq<K>)
    requires s != []
    ensures var n := |s| - 1;
            s[n] in ToSet(s) && ToSet(s[..n]) <= ToSet(s) && forall x :: x in s <==> x in s[..n] || x == s[n]
  {
    assert s == s[..|s| - 1] + [s[|s| - 1]];
  }

  lemma FullScanFindsOldest<K(!new), V>(storage: map<K, TimedEntry<V>>, order: seq<K>)
    requires Scans(storage, order) && InRange(storage)
    ensures var r := ScanOldest(storage, order);
            (r.None? <==> storage == map[]) && (r.Some? ==> IsOldest(storage, r.value))
  {
    ScanMeaning(storage, order);
    EmptyScan(order);
    forall x ensures x in order <==> x in storage { assert x in ToSet(order) <==> x in order; }
    assert storage.Keys == {} <==> storage == map[];
  }

  /** Among equals the scan stays with the one it saw first. */
  lemma {:induction false} ScanKeepsFirst<K(!new), V>(storage: map<K, TimedEntry<V>>, order: seq<K>)
    requires ToSet(order) <= storage.Keys && InRange(storage)
    requires order != [] && IsOldest(storage, order[0])
    ensures ScanOldest(storage, order) == Some(order[0])
  {
    var n := |order| - 1;
    assert order[n] in ToSet(order) && ToSet(order[..n]) <= ToSet(order);
    if n > 0 { ScanKeepsFirst(storage, order[..n]); } else { assert order[..n] == []; }
  }

  /**
   Whatever the order of the scan, the victim has the smallest timestamp; and it is the end of the
   list for every order exactly when that has the smallest timestamp, alone.
   */
  lemma VictimIsLastIff<K(!new), V>(storage: map<K, TimedEntry<V>>, s: seq<K>)
    requires s != [] && Scans(storage, s) && InRange(storage)
    ensures forall order :: Scans(storage, order) ==>
              ScanOldest(storage, order).Some? && IsOldest(storage, ScanOldest(storage, order).value)
    ensures (forall order :: Scans(storage, order) ==> ScanOldest(storage, order) == Some(s[|s| - 1]))
            <==> IsOldest(storage, s[|s| - 1]) && Alone(storage, s[|s| - 1])
  {
    var last := s[|s| - 1];
    EmptyScan(s);
    forall order | Scans(storage, order)
      ensures ScanOldest(storage, order).Some? && IsOldest(storage, ScanOldest(storage, order).value)
    {
      FullScanFindsOldest(storage, order);
    }
    if !IsOldest(storage, last) {
      assert ScanOldest(storage, s) != Some(last);
    } else if !Alone(storage, last) {
      var order := OtherVictim(storage, s, last);
    }
  }

  /** As long as the timestamps tell the order of use, the end of the list has the smallest one. */
  lemma EndIsOldest<K(!new), V>(storage: map<K, TimedEntry<V>>, s: seq<K>)
    requires ByRecency(storage, s) && s != [] && ToSet(s) == storage.Keys
    ensures IsOldest(storage, s[|s| - 1])
  {
    LastIsOldest(storage, s);
    forall x | x in storage
      ensures storage[s[|s| - 1]].lastAccessed <= storage[x].lastAccessed
    {
      assert x in ToSet(s);
    }
  }

  /** Starting the scan with another entry of the same timestamp makes that one the victim. */
  lemma OtherVictim<K(!new), V>(storage: map<K, TimedEntry<V>>, s: seq<K>, last: K) returns (order: seq<K>)
    requires Scans(storage, s) && InRange(storage) && IsOldest(storage, last) && !Alone(storage, last)
    ensures Scans(storage, order) && ScanOldest(storage, order) != Some(last)
  {
    var x :| x in storage && x != last && storage[x].lastAccessed == storage[last].lastAccessed;
    order := [x] + Drop(s, x);
    DropDistinct(s, x);
    assert order[1..] == Drop(s, x);
    forall y ensures y in ToSet(order) <==> y in storage.Keys {
      assert y in ToSet(order) <==> y == x || y in ToSet(s);
    }
    ScanKeepsFirst(storage, order);
  }

  lemma EmptyScan<K(!new)>(order: seq<K>)
    ensures ToSet(order) == {} <==> order == []
  {
    assert order != [] ==> order[0] in ToSet(order);
  }

  /** The keys of `s` whose entries were created at or after the cutoff, in order. */
  function Survivors<K(!new), V>(s: seq<K>, entries: map<K, Stored<V>>, cutoff: nat): seq<K> {
    if s == [] then []
    else
      var rest := Survivors(s[1..], entries, cutoff);
      if s[0] in entries && entries[s[0]].createdAt >= cutoff then [s[0]] + rest else rest
  }

  lemma SurvivorsDrop<K(!new), V>(s: seq<K>, entries: map<K, Stored<V>>, cutoff: nat, k: K)
    requires k in entries && entries[k].createdAt < cutoff
    ensures Survivors(Drop(s, k), entries, cutoff) == Survivors(s, entries, cutoff)
  {
    if s != [] {
      var rest := Drop(s[1..], k);
      SurvivorsDrop(s[1..], entries, cutoff, k);
      if s[0] != k { assert ([s[0]] + rest)[1..] == rest; }
    }
  }

  lemma AllSurvive<K(!new), V>(s: seq<K>, entries: map<K, Stored<V>>, cutoff: nat)
    requires forall x :: x in s ==> x in entries && entries[x].createdAt >= cutoff
    ensures Survivors(s, entries, cutoff) == s
  {
    if s != [] {
      assert s == [s[0]] + s[1..];
      AllSurvive(s[1..], entries, cutoff);
    }
  }

  lemma PopAbsent<K(!new), V>(l: Lru<K, V>, capacity: nat, k: K)
    requires l.Valid(capacity) && k !in l.entries
    ensures l.Pop(k) == l
  {
    assert k in ToSet(l.order) <==> k in l.order;
    DropAbsent(l.order, k);
    assert l.entries - {k} == l.entries;
  }

  function PopAll<K(!new), V>(l: Lru<K, V>, keys: seq<K>): Lru<K, V> {
    if keys == [] then l else PopAll(l, keys[..|keys| - 1]).Pop(keys[|keys| - 1])
  }

  lemma PopAllMeaning<K(!new), V>(l: Lru<K, Stored<V>>, capacity: nat, keys: seq<K>, cutoff: nat)
    requires l.Valid(capacity)
    requires forall k :: k in keys ==> k in l.entries && l.entries[k].createdAt < cutoff
    ensures PopAll(l, keys).Valid(capacity)
    ensures Survivors(PopAll(l, keys).order, l.entries, cutoff) == Survivors(l.order, l.entries, cutoff)
    ensures forall k :: k in PopAll(l, keys).entries <==> k in l.entries && k !in keys
    ensures forall k :: k in PopAll(l, keys).entries ==> PopAll(l, keys).entries[k] == l.entries[k]
  {
    if keys != [] {
      var n := |keys| - 1;
      assert keys == keys[..n] + [keys[n]];
      var before := PopAll(l, keys[..n]);
      PopAllMeaning(l, capacity, keys[..n], cutoff);
      PopKeeps(before, capacity, keys[n]);
      SurvivorsDrop(before.order, l.entries, cutoff, keys[n]);
    }
  }

  /** Removing exactly the expired keys, in whatever order they were collected, leaves the survivors. */
  lemma PopAllSurvivors<K(!new), V>(l: Lru<K, Stored<V>>, capacity: nat, keys: seq<K>, cutoff: nat)
    requires l.Valid(capacity)
    requires forall k :: k in keys <==> k in l.entries && l.entries[k].createdAt < cutoff
    ensures PopAll(l, keys).order == Survivors(l.order, l.entries, cutoff)
    ensures forall k :: k in PopAll(l, keys).entries ==> k in l.entries && PopAll(l, keys).entries[k] == l.entries[k]
  {
    PopAllMeaning(l, capacity, keys, cutoff);
    var left := PopAll(l, keys);
    forall x | x in left.order
      ensures x in l.entries && l.entries[x].createdAt >= cutoff
    {
      assert x in ToSet(left.order);
    }
    AllSurvive(left.order, l.entries, cutoff);
  }

  /** Among the oldest entries, and the end of the list if that is the oldest, alone. */
  ghost predicate IsVictim<K(!new), V>(storage: map<K, TimedEntry<V>>, ref: Lru<K, Stored<V>>, k: K)
    requires ref.order != []
  {
    IsOldest(storage, k) && (IsOldest(storage, ref.Last()) && Alone(storage, ref.Last()) ==> k == ref.Last())
  }

  function Without<K(!new), V>(l: Lru<K, V>, victim: Option<K>): Lru<K, V> {
    if victim.Some? then l.Pop(victim.value) else l
  }

  function Rest<K(!new), V>(storage: map<K, V>, victim: Option<K>): map<K, V> {
    if victim.Some? then storage - {victim.value} else storage
  }

  lemma InFront<K(!new), V>(storage: map<K, TimedEntry<V>>, order: seq<K>, clock: nat, k: K, e: TimedEntry<V>)
    ensures InOrder(storage, order, clock) && clock <= e.lastAccessed ==>
              InOrder(storage[k := e], [k] + Drop(order, k), e.lastAccessed)
    ensures InOrder(storage, order, clock) && AllAlone(storage) && clock < e.lastAccessed ==>
              AllAlone(storage[k := e])
  {
    if InOrder(storage, order, clock) && clock <= e.lastAccessed {
      FrontInOrder(storage, order, clock, k, e);
      if AllAlone(storage) && clock < e.lastAccessed { AloneInFront(storage, k, e); }
    }
  }

  /** Taking out any but the last entry is not what the reference list does. */
  lemma PushIff<K(!new), V>(l: Lru<K, V>, capacity: nat, k: K, v: V, victim: Option<K>)
    requires victim.Some? <==> l.Evicts(capacity, k)
    requires victim.Some? ==> victim.value in l.entries && l.Last() in l.entries
    ensures Without(l, victim).ToFront(k, v) == l.Push(capacity, k, v) <==>
            victim.None? || victim.value == l.Last()
  {
    if victim.Some? && victim.value != l.Last() {
      assert l.Last() in l.Pop(victim.value).ToFront(k, v).entries;
      assert l.Last() !in l.Pop(l.Last()).ToFront(k, v).entries;
    }
  }

  /** The state of the cache apart from its counters. */
  ghost predicate Sound<K(!new), V>(ref: Lru<K, Stored<V>>, storage: map<K, TimedEntry<V>>, capacity: nat) {
    ref.Valid(capacity) && Tracks(ref, storage) && InRange(storage)
  }

  lemma SizeBound<K(!new), V>(ref: Lru<K, Stored<V>>, storage: map<K, TimedEntry<V>>, capacity: nat)
    requires Sound(ref, storage, capacity)
    ensures |storage| == |ref.order| <= capacity
  {
    OrderCount(ref.order);
    assert |storage| == |storage.Keys| == |ref.entries.Keys|;
  }

  lemma FrontSound<K(!new), V>(ref: Lru<K, Stored<V>>, storage: map<K, TimedEntry<V>>, capacity: nat, k: K,
                               e: TimedEntry<V>)
    requires Sound(ref, storage, capacity) && e.lastAccessed < U64_MAX && (k in storage || |storage| < capacity)
    ensures Sound(ref.ToFront(k, Stored(e.value, e.createdAt)), storage[k := e], capacity)
    ensures k in storage ==> k in ref.entries && ref.entries[k] == Stored(storage[k].value, storage[k].createdAt)
    ensures |storage[k := e]| == |storage| + if k in storage then 0 else 1
  {
    SizeBound(ref, storage, capacity);
    FrontTracks(ref, storage, k, e);
    ToFrontKeeps(ref, capacity, k, Stored(e.value, e.createdAt));
    assert k in storage ==> EntryTracked(ref.entries, storage, k);
  }

  lemma KnownEntry<K(!new), V>(ref: Lru<K, Stored<V>>, storage: map<K, TimedEntry<V>>, capacity: nat, k: K)
    requires Sound(ref, storage, capacity)
    ensures k in storage <==> k in ref.entries
    ensures k in storage ==> ref.entries[k] == Stored(storage[k].value, storage[k].createdAt)
  {
    assert k in storage ==> EntryTracked(ref.entries, storage, k);
  }

  lemma PopSound<K(!new), V>(ref: Lru<K, Stored<V>>, storage: map<K, TimedEntry<V>>, capacity: nat, k: K)
    requires Sound(ref, storage, capacity) && k in storage
    ensures Sound(ref.Pop(k), storage - {k}, capacity)
    ensures ref.entries[k] == Stored(storage[k].value, storage[k].createdAt)
    ensures |storage - {k}| == |storage| - 1 && |ref.Pop(k).order| == |ref.order| - 1
  {
    PopTracks(ref, storage, k);
    PopKeeps(ref, capacity, k);
    assert EntryTracked(ref.entries, storage, k);
    assert (storage - {k}).Keys == storage.Keys - {k};
  }

  lemma Popped<K(!new), V>(storage: map<K, TimedEntry<V>>, order: seq<K>, clock: nat, k: K)
    ensures InOrder(storage, order, clock) ==> InOrder(storage - {k}, Drop(order, k), clock)
    ensures AllAlone(storage) ==> AllAlone(storage - {k})
  {
    AloneWithout(storage, k);
    if InOrder(storage, order, clock) { PopInOrder(storage, order, clock, k); }
  }

  class LockFreeCache<K(==,!new), V> {
    const maxSize: nat
    var storage: map<K, TimedEntry<V>>
    var hits: nat
    var misses: nat
    var evictions: nat
    var inserts: nat

    ghost var ref: Lru<K, Stored<V>>
    ghost var clock: nat    // when the clock was read last
    ghost var removes: nat  // successful removals
    ghost var base: int     // what clears and counter resets have shifted the balance by

    ghost predicate Valid()
      reads this
    {
      && Sound(ref, storage, Max(1, maxSize))
      && |storage| == base + inserts - evictions - removes
    }

    /** The clock has not been set back since the entries were used. */
    ghost predicate Timely()
      reads this
    {
      InOrder(storage, ref.order, clock)
    }

    constructor (maxSize: nat)
      ensures Valid() && Timely() && this.maxSize == maxSize && storage == map[] && base == 0 && removes == 0
      ensures hits == misses == evictions == inserts == 0 && ref == Lru([], map[]) && clock == 0
    {
      this.maxSize := maxSize;
      storage, ref := map[], Lru([], map[]);
      hits, misses, evictions, inserts, clock, removes, base := 0, 0, 0, 0, 0, 0, 0;
    }

    /** A hit moves the entry to the front of the list; a miss changes nothing. */
    method Get(key: K, now: nat) returns (r: Option<V>)
      requires Valid() && now < U64_MAX
      modifies this`storage, this`hits, this`misses, this`ref, this`clock
      ensures Valid() && clock == now && (old(Timely()) && old(clock) <= now ==> Timely())
      ensures r == if key in old(ref).entries then Some(old(ref).entries[key].value) else None
      ensures ref == if r.Some? then old(ref).ToFront(key, old(ref).entries[key]) else old(ref)
      ensures storage ==
          if key in old(storage) then old(storage)[key := Touch(old(storage)[key], now)] else old(storage)
      ensures hits == old(hits) + (if r.Some? then 1 else 0) && misses == old(misses) + (if r.Some? then 0 else 1)
      ensures old(Timely()) && AllAlone(old(storage)) && old(clock) < now ==> AllAlone(storage)
    {
      KnownEntry(ref, storage, Max(1, maxSize), key);
      if key in storage {
        r := Hit(key, now);
      } else {
        misses := misses + 1;
        r := None;
        clock := now;
      }
    }

    method Hit(key: K, now: nat) returns (r: Option<V>)
      requires Valid() && now < U64_MAX && key in storage
      modifies this`storage, this`hits, this`ref, this`clock
      ensures Valid() && clock == now && hits == old(hits) + 1 && (old(Timely()) && old(clock) <= now ==> Timely())
      ensures key in old(ref).entries && r == Some(old(ref).entries[key].value)
      ensures ref == old(ref).ToFront(key, old(ref).entries[key])
      ensures storage == old(storage)[key := Touch(old(storage)[key], now)]
      ensures old(Timely()) && AllAlone(old(storage)) && old(clock) < now ==> AllAlone(storage)
    {
      KnownEntry(ref, storage, Max(1, maxSize), key);
      hits := hits + 1;
      var found := storage[key];
      r := StoreInFront(key, found.(accessCount := found.accessCount + 1, lastAccessed := now));
    }

    /** Stores an entry stamped with the current time at the front. */
    method StoreInFront(key: K, entry: TimedEntry<V>) returns (previous: Option<V>)
      requires Sound(ref, storage, Max(1, maxSize))
      requires entry.lastAccessed < U64_MAX && (key in storage || |storage| < Max(1, maxSize))
      modifies this`storage, this`ref, this`clock
      ensures Sound(ref, storage, Max(1, maxSize)) && clock == entry.lastAccessed
      ensures old(Timely()) && old(clock) <= clock ==> Timely()
      ensures ref == old(ref).ToFront(key, Stored(entry.value, entry.createdAt))
      ensures storage == old(storage)[key := entry]
      ensures previous == if key in old(ref).entries then Some(old(ref).entries[key].value) else None
      ensures |storage| == old(|storage|) + (if previous.Some? then 0 else 1)
      ensures old(Timely()) && AllAlone(old(storage)) && old(clock) < clock ==> AllAlone(storage)
    {
      previous := if key in storage then Some(storage[key].value) else None;
      FrontSound(ref, storage, Max(1, maxSize), key, entry);
      InFront(storage, ref.order, clock, key, entry);
      storage := storage[key := entry];
      ref := ref.ToFront(key, Stored(entry.value, entry.createdAt));
      clock := entry.lastAccessed;
    }

    /**
     A new key at capacity costs an entry with the smallest timestamp, `victim`.  If the end of the
     list has the smallest timestamp, alone, as it always has under a clock that moves on between
     operations, this is exactly the push of the reference list; a capacity of zero keeps the newest
     entry.
     */
    method Insert(key: K, value: V, now: nat) returns (previous: Option<V>, ghost victim: Option<K>)
      requires Valid() && now < U64_MAX
      modifies this`storage, this`inserts, this`evictions, this`ref, this`clock
      ensures Valid() && clock == now && (old(Timely()) && old(clock) <= now ==> Timely())
      ensures previous == if key in old(ref).entries then Some(old(ref).entries[key].value) else None
      ensures victim.Some? <==> old(ref).Evicts(maxSize, key)
      ensures victim.Some? ==> IsVictim(old(storage), old(ref), victim.value)
      ensures ref == Without(old(ref), victim).ToFront(key, Stored(value, now))
      ensures storage == Rest(old(storage), victim)[key := TimedEntry(value, now, 1, now)]
      ensures inserts == old(inserts) + (if previous.None? then 1 else 0)
      ensures evictions == old(evictions) + (if victim.Some? then 1 else 0)
      ensures victim.None? || victim.value == old(ref).Last() <==>
              ref == old(ref).Push(maxSize, key, Stored(value, now))
      ensures old(Timely()) && AllAlone(old(storage)) && old(clock) < now ==> AllAlone(storage)
    {
      ghost var before := ref;
      victim := MakeRoom(key);
      VictimPush(before, key, Stored(value, now), victim);
      previous := Store(key, TimedEntry(value, now, 1, now));
    }

    method Store(key: K, entry: TimedEntry<V>) returns (previous: Option<V>)
      requires Valid() && entry.lastAccessed < U64_MAX && (key in storage || |storage| < Max(1, maxSize))
      modifies this`storage, this`inserts, this`ref, this`clock
      ensures Valid() && clock == entry.lastAccessed && (old(Timely()) && old(clock) <= clock ==> Timely())
      ensures previous == if key in old(ref).entries then Some(old(ref).entries[key].value) else None
      ensures ref == old(ref).ToFront(key, Stored(entry.value, entry.createdAt))
      ensures storage == old(storage)[key := entry]
      ensures inserts == old(inserts) + (if previous.None? then 1 else 0)
      ensures old(Timely()) && AllAlone(old(storage)) && old(clock) < clock ==> AllAlone(storage)
    {
      previous := StoreInFront(key, entry);
      if previous.None? {
        inserts := inserts + 1;
      }
    }

    method MakeRoom(key: K) returns (ghost victim: Option<K>)
      requires Valid()
      modifies this`storage, this`evictions, this`ref
      ensures Valid() && (key in storage <==> key in old(storage))
      ensures key in storage || |storage| < Max(1, maxSize)
      ensures victim.Some? <==> old(ref).Evicts(maxSize, key)
      ensures victim.Some? ==> IsVictim(old(storage), old(ref), victim.value)
      ensures key in old(ref).entries ==> ref.entries == old(ref).entries
      ensures ref == Without(old(ref), victim) && storage == Rest(old(storage), victim)
      ensures evictions == old(evictions) + (if victim.Some? then 1 else 0)
      ensures (old(Timely()) ==> Timely()) && (AllAlone(old(storage)) ==> AllAlone(storage))
    {
      SizeBound(ref, storage, Max(1, maxSize));
      victim := None;
      if key !in storage && |storage| >= maxSize {
        victim := EvictLru();
      }
    }

    /** A scan with a running minimum, in any order. */
    method FindOldest() returns (lruKey: Option<K>, ghost order: seq<K>)
      ensures Scans(storage, order) && lruKey == ScanOldest(storage, order)
      ensures InRange(storage) ==>
        (lruKey.None? <==> storage == map[]) && (lruKey.Some? ==> IsOldest(storage, lruKey.value))
    {
      lruKey, order := None, [];
      var minTimestamp := U64_MAX;
      var todo := storage.Keys;
      while todo != {}
        invariant todo <= storage.Keys && Distinct(order) && ToSet(order) == storage.Keys - todo
        invariant lruKey == ScanOldest(storage, order)
        invariant minTimestamp == if lruKey.Some? then storage[lruKey.value].lastAccessed else U64_MAX
      {
        var k :| k in todo;
        todo := todo - {k};
        assert (order + [k])[..|order|] == order && k !in ToSet(order);
        AppendDistinct(order, k);
        assert ToSet(order + [k]) == ToSet(order) + {k};
        order := order + [k];
        if storage[k].lastAccessed < minTimestamp {
          minTimestamp := storage[k].lastAccessed;
          lruKey := Some(k);
        }
      }
      if InRange(storage) { FullScanFindsOldest(storage, order); }
    }

    /** An entry with the smallest last access goes. */
    method EvictLru() returns (ghost victim: Option<K>)
      requires Valid()
      modifies this`storage, this`evictions, this`ref
      ensures Valid()
      ensures victim.Some? <==> old(ref).order != []
      ensures victim.Some? ==> IsVictim(old(storage), old(ref), victim.value)
      ensures ref == Without(old(ref), victim) && storage == Rest(old(storage), victim)
      ensures evictions == old(evictions) + (if victim.Some? then 1 else 0)
      ensures |storage| == if old(|storage|) == 0 then 0 else old(|storage|) - 1
      ensures (old(Timely()) ==> Timely()) && (AllAlone(old(storage)) ==> AllAlone(storage))
    {
      var lruKey;
      ghost var order;
      lruKey, order := FindOldest();
      victim := lruKey;
      WhoIsEvicted(order);
      if lruKey.Some? { EvictKey(lruKey.value); }
    }

    method EvictKey(key: K)
      requires Valid() && key in storage
      modifies this`storage, this`evictions, this`ref
      ensures Valid() && ref == old(ref).Pop(key) && storage == old(storage) - {key} && evictions == old(evictions) + 1
      ensures |storage| == old(|storage|) - 1
      ensures (old(Timely()) ==> Timely()) && (AllAlone(old(storage)) ==> AllAlone(storage))
    {
      evictions := evictions + 1;
      Forget(key);
    }

    lemma VictimPush(before: Lru<K, Stored<V>>, key: K, entry: Stored<V>, victim: Option<K>)
      requires before.Valid(Max(1, maxSize)) && (victim.Some? <==> before.Evicts(maxSize, key))
      requires victim.Some? ==> victim.value in before.entries
      ensures victim.None? || victim.value == before.Last() <==>
              Without(before, victim).ToFront(key, entry) == before.Push(maxSize, key, entry)
    {
      if victim.Some? { assert before.Last() in ToSet(before.order); }
      PushIff(before, maxSize, key, entry, victim);
    }

    lemma WhoIsEvicted(order: seq<K>)
      requires Sound(ref, storage, Max(1, maxSize)) && Scans(storage, order)
      ensures var victim := ScanOldest(storage, order);
              && (victim.Some? <==> ref.order != []) && (ref.order == [] <==> |storage| == 0)
              && (victim.Some? ==> victim.value in storage && IsVictim(storage, ref, victim.value))
    {
      SizeBound(ref, storage, Max(1, maxSize));
      if ref.order != [] {
        VictimIsLastIff(storage, ref.order);
      } else {
        EmptyScan(order);
      }
    }

    /** Takes a key out of the map and the list; the caller accounts for it. */
    method Forget(key: K)
      requires Sound(ref, storage, Max(1, maxSize)) && key in storage
      modifies this`storage, this`ref
      ensures Sound(ref, storage, Max(1, maxSize))
      ensures ref == old(ref).Pop(key) && |ref.order| == old(|ref.order|) - 1
      ensures storage == old(storage) - {key} && |storage| == old(|storage|) - 1
      ensures (old(Timely()) ==> Timely()) && (AllAlone(old(storage)) ==> AllAlone(storage))
    {
      PopSound(ref, storage, Max(1, maxSize), key);
      Popped(storage, ref.order, clock, key);
      storage := storage - {key};
      ref := ref.Pop(key);
    }

    method Remove(key: K) returns (r: Option<V>)
      requires Valid()
      modifies this`storage, this`ref, this`removes
      ensures Valid() && (old(Timely()) ==> Timely())
      ensures r == if key in old(ref).entries then Some(old(ref).entries[key].value) else None
      ensures ref == if r.Some? then old(ref).Pop(key) else old(ref)
      ensures storage == old(storage) - {key} && removes == old(removes) + (if r.Some? then 1 else 0)
    {
      KnownEntry(ref, storage, Max(1, maxSize), key);
      if key in storage {
        r := Some(storage[key].value);
        RemoveStored(key);
      } else {
        assert storage - {key} == storage;
        r := None;
      }
    }

    method RemoveStored(key: K)
      requires Valid() && key in storage
      modifies this`storage, this`ref, this`removes
      ensures Valid() && (old(Timely()) ==> Timely())
      ensures ref == old(ref).Pop(key) && storage == old(storage) - {key} && removes == old(removes) + 1
    {
      removes := removes + 1;
      Forget(key);
    }

    /** Drops exactly the entries created before the cutoff; the others keep their order. */
    method EvictExpired(now: nat, maxAge: nat)
      requires Valid()
      modifies this`storage, this`ref, this`evictions
      ensures Valid() && (old(Timely()) ==> Timely())
      ensures ref.order == Survivors(old(ref).order, old(ref).entries, if now >= maxAge then now - maxAge else 0)
      ensures forall k :: k in ref.entries ==> k in old(ref).entries && ref.entries[k] == old(ref).entries[k]
      ensures evictions == old(evictions) + old(|storage|) - |storage|
    {
      var cutoff := if now >= maxAge then now - maxAge else 0;
      var expired := CollectExpired(cutoff);
      PopAllSurvivors(ref, Max(1, maxSize), expired, cutoff);
      ForgetAll(expired);
    }

    method CollectExpired(cutoff: nat) returns (expired: seq<K>)
      requires Valid()
      ensures forall k :: k in expired <==> k in ref.entries && ref.entries[k].createdAt < cutoff
    {
      expired := [];
      var todo := storage.Keys;
      while todo != {}
        invariant todo <= storage.Keys
        invariant forall k :: k in expired <==> k in storage && k !in todo && storage[k].createdAt < cutoff
      {
        var k :| k in todo;
        todo := todo - {k};
        if storage[k].createdAt < cutoff { expired := expired + [k]; }
      }
      forall k | k in storage
        ensures ref.entries[k].createdAt == storage[k].createdAt
      {
        assert EntryTracked(ref.entries, storage, k);
      }
    }

    method ForgetAll(keys: seq<K>)
      requires Valid()
      modifies this`storage, this`ref, this`evictions
      ensures Valid() && ref == PopAll(old(ref), keys) && (old(Timely()) ==> Timely())
      ensures evictions == old(evictions) + old(|storage|) - |storage|
    {
      for i := 0 to |keys|
        invariant Valid() && ref == PopAll(old(ref), keys[..i]) && (old(Timely()) ==> Timely())
        invariant evictions == old(evictions) + old(|storage|) - |storage|
      {
        assert keys[..i + 1][..i] == keys[..i];
        Expire(keys[i]);
      }
      assert keys[..|keys|] == keys;
    }

    method Expire(key: K)
      requires Valid()
      modifies this`storage, this`ref, this`evictions
      ensures Valid() && ref == old(ref).Pop(key) && (old(Timely()) ==> Timely())
      ensures evictions == old(evictions) + old(|storage|) - |storage|
    {
      if key in storage {
        EvictKey(key);
      } else {
        PopAbsent(ref, Max(1, maxSize), key);
      }
    }

    method Clear()
      requires Valid()
      modifies this`storage, this`ref, this`base
      ensures Valid() && Timely() && storage == map[] && ref == Lru([], map[])
    {
      base := base - |storage|;
      storage, ref := map[], Lru([], map[]);
    }

    method ResetStats()
      requires Valid()
      modifies this`hits, this`misses, this`evictions, this`inserts, this`base
      ensures Valid() && hits == misses == evictions == inserts == 0
    {
      base := base + inserts - evictions;
      hits, misses, evictions, inserts := 0, 0, 0, 0;
    }
  }

  /** Two keys stored at these times, the second one last. */
  ghost predicate HoldsPair(c: LockFreeCache<nat, nat>, first: nat, second: nat)
    reads c
  {
    && c.Valid() && c.ref.order == [2, 1]
    && c.storage == map[1 := TimedEntry(10, first, 1, first), 2 := TimedEntry(20, second, 1, second)]
  }

  method StorePair(first: nat, second: nat) returns (c: LockFreeCache<nat, nat>)
    requires first < U64_MAX && second < U64_MAX
    ensures fresh(c) && HoldsPair(c, first, second)
    ensures first <= second ==> c.Timely()
  {
    c := new LockFreeCache(2);
    var p, v := c.Insert(1, 10, first);
    assert v.None? && c.ref.order == [1] + Drop([], 1) == [1];
    p, v := c.Insert(2, 20, second);
    assert v.None?;
    assert c.ref.order == [2] + Drop([1], 2) == [2, 1];
  }

  /** In one millisecond: the entry used least recently is 1, and a scan can evict 2. */
  lemma TieChoosesWrongly(c: LockFreeCache<nat, nat>, now: nat)
    requires HoldsPair(c, now, now) && now < U64_MAX
    ensures c.ref.Last() == 1 && Scans(c.storage, [1, 2]) && ScanOldest(c.storage, [1, 2]) == Some(1)
    ensures Scans(c.storage, [2, 1]) && ScanOldest(c.storage, [2, 1]) == Some(2)
  {
    ScanKeepsFirst(c.storage, [1, 2]);
    ScanKeepsFirst(c.storage, [2, 1]);
  }

  /** With the clock set back in between, every scan evicts 2. */
  lemma SetBackChoosesWrongly(c: LockFreeCache<nat, nat>, first: nat, second: nat)
    requires HoldsPair(c, first, second) && second < first < U64_MAX
    ensures c.ref.Last() == 1 && forall order :: Scans(c.storage, order) ==> ScanOldest(c.storage, order) == Some(2)
  {
    forall order | Scans(c.storage, order) ensures ScanOldest(c.storage, order) == Some(2) {
      FullScanFindsOldest(c.storage, order);
      assert 2 in c.storage && c.storage[2].lastAccessed < c.storage[1].lastAccessed;
    }
  }
}
