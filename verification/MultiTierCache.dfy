/**
 The multi-tier cache: a hot map (L1) over a bounded LRU (L2), with promotion, demotion and
 eviction by age.  A key may sit in both tiers with different values.  Operations are sequential,
 and each reads the clock once; `now` is what it reads.  The third tier never returns anything,
 so it does not appear.
 */
module MultiTierCaches {
  import opened Wrappers
  import opened Graphs
  import opened LruLists

  datatype CacheConfig = CacheConfig(l1MaxEntries: nat, l2MaxEntries: nat, promotionThreshold: nat,
                                     metricsEnabled: bool)

  datatype CacheEntry<+V> = CacheEntry(value: V, accessCount: nat, lastAccessed: nat, createdAt: nat)

  function NewEntry<V>(value: V, now: nat): CacheEntry<V> {
    CacheEntry(value, 1, now, now)
  }

  function Accessed<V>(e: CacheEntry<V>, now: nat): CacheEntry<V> {
    e.(accessCount := e.accessCount + 1, lastAccessed := now)
  }

  datatype CacheMetrics = CacheMetrics(
    l1Hits: nat, l2Hits: nat, l3Hits: nat, totalHits: nat, totalMisses: nat,
    l2ToL1Promotions: nat, l1Evictions: nat, l2Evictions: nat)

  const NO_METRICS := CacheMetrics(0, 0, 0, 0, 0, 0, 0, 0)

  // ---------- What the two tiers hold ----------

  /** What the cache has been told: see the ghost fields of the cache. */
  datatype Book<K(==,!new), V> = Book(latest: map<K, V>, everPut: set<K>, agedOut: bool, clock: nat)

  /** An entry of key `k` that answers a lookup has the latest value. */
  ghost predicate Current<K(!new), V>(l1: map<K, CacheEntry<V>>, l2: map<K, CacheEntry<V>>, latest: map<K, V>, k: K) {
    && (k in l1 ==> k in latest && l1[k].value == latest[k])
    && (k in l2 && k !in l1 ==> k in latest && l2[k].value == latest[k])
  }

  /**
   A copy in L2 shadowed by L1 may be stale, but it is never younger: whatever ages the L1 entry
   out takes the stale copy along.
   */
  ghost predicate StaleIsOlder<K(!new), V>(l1: map<K, CacheEntry<V>>, l2: map<K, CacheEntry<V>>, k: K) {
    k in l1 && k in l2 ==> l2[k].createdAt <= l1[k].createdAt
  }

  ghost predicate KeyOk<K(!new), V>(l1: map<K, CacheEntry<V>>, l2: map<K, CacheEntry<V>>, book: Book<K, V>, k: K) {
    && Current(l1, l2, book.latest, k) && StaleIsOlder(l1, l2, k)
    && (k in l1 ==> l1[k].createdAt <= book.clock)
    && (k in l2 ==> l2[k].createdAt <= book.clock)
    && (k in l1 || k in l2 || k in book.latest ==> k in book.everPut)
  }

  /** Nothing that was put has been lost, as far as the capacity of L2 covers it. */
  ghost predicate Complete<K(!new), V>(l1: map<K, CacheEntry<V>>, l2: map<K, CacheEntry<V>>, book: Book<K, V>,
                                       capacity: nat) {
    !book.agedOut && |book.everPut| <= capacity ==> forall k :: k in book.latest ==> k in l1 || k in l2
  }

  /** The invariant of the two tiers. */
  ghost predicate TiersOk<K(!new), V>(config: CacheConfig, l1: map<K, CacheEntry<V>>, l2: Lru<K, CacheEntry<V>>,
                                      book: Book<K, V>) {
    && config.l2MaxEntries > 0
    && l2.Valid(config.l2MaxEntries)
    && (forall k {:trigger KeyOk(l1, l2.entries, book, k)} :: KeyOk(l1, l2.entries, book, k))
    && Complete(l1, l2.entries, book, config.l2MaxEntries)
  }

  lemma TickKeeps<K(!new), V>(config: CacheConfig, l1: map<K, CacheEntry<V>>, l2: Lru<K, CacheEntry<V>>,
                              book: Book<K, V>, now: nat)
    requires TiersOk(config, l1, l2, book) && book.clock <= now
    ensures TiersOk(config, l1, l2, book.(clock := now))
  {
    forall k ensures KeyOk(l1, l2.entries, book.(clock := now), k) { assert KeyOk(l1, l2.entries, book, k); }
  }

  lemma TouchL1Keeps<K(!new), V>(config: CacheConfig, l1: map<K, CacheEntry<V>>, l2: Lru<K, CacheEntry<V>>,
                                 book: Book<K, V>, key: K, now: nat)
    requires TiersOk(config, l1, l2, book) && key in l1
    ensures TiersOk(config, l1[key := Accessed(l1[key], now)], l2, book)
  {
    var l1' := l1[key := Accessed(l1[key], now)];
    forall k ensures KeyOk(l1', l2.entries, book, k) { assert KeyOk(l1, l2.entries, book, k); }
  }

  lemma TouchL2Keeps<K(!new), V>(config: CacheConfig, l1: map<K, CacheEntry<V>>, l2: Lru<K, CacheEntry<V>>,
                                 book: Book<K, V>, key: K, now: nat)
    requires TiersOk(config, l1, l2, book) && key in l2.entries
    ensures TiersOk(config, l1, l2.ToFront(key, Accessed(l2.entries[key], now)), book)
  {
    var l2' := l2.ToFront(key, Accessed(l2.entries[key], now));
    ToFrontKeeps(l2, config.l2MaxEntries, key, Accessed(l2.entries[key], now));
    forall k ensures KeyOk(l1, l2'.entries, book, k) { assert KeyOk(l1, l2.entries, book, k); }
  }

  /** Moving an entry from L1 to the front of L2, whatever that displaces. */
  lemma DemoteKeeps<K(!new), V>(config: CacheConfig, l1: map<K, CacheEntry<V>>, l2: Lru<K, CacheEntry<V>>,
                                book: Book<K, V>, key: K)
    requires TiersOk(config, l1, l2, book) && key in l1
    ensures TiersOk(config, l1 - {key}, l2.Push(config.l2MaxEntries, key, l1[key]), book)
    ensures !book.agedOut && |book.everPut| <= config.l2MaxEntries ==> !l2.Evicts(config.l2MaxEntries, key)
  {
    var capacity := config.l2MaxEntries;
    var l2' := l2.Push(capacity, key, l1[key]);
    PushKeeps(l2, capacity, key, l1[key]);
    forall k ensures KeyOk(l1 - {key}, l2'.entries, book, k) {
      assert KeyOk(l1, l2.entries, book, k);
    }
    if !book.agedOut && |book.everPut| <= capacity {
      assert KeyOk(l1, l2.entries, book, key);
      assert l2.entries.Keys <= book.everPut by {
        forall k | k in l2.entries ensures k in book.everPut { assert KeyOk(l1, l2.entries, book, k); }
      }
      RoomForAll(l2, capacity, key, book.everPut);
    }
  }

  /** Storing an up-to-date entry in L1 that is no older than a copy in L2. */
  lemma StoreKeeps<K(!new), V>(config: CacheConfig, l1: map<K, CacheEntry<V>>, l2: Lru<K, CacheEntry<V>>,
                               book: Book<K, V>, key: K, e: CacheEntry<V>)
    requires TiersOk(config, l1, l2, book)
    requires key in book.latest && e.value == book.latest[key] && e.createdAt <= book.clock
    requires key in l2.entries ==> l2.entries[key].createdAt <= e.createdAt
    ensures TiersOk(config, l1[key := e], l2, book)
  {
    var l1' := l1[key := e];
    forall k ensures KeyOk(l1', l2.entries, book, k) { assert KeyOk(l1, l2.entries, book, k); }
  }

  /** A put: the new value counts at once, and L1 shadows whatever L2 still has. */
  lemma PutKeeps<K(!new), V>(config: CacheConfig, l1: map<K, CacheEntry<V>>, l2: Lru<K, CacheEntry<V>>,
                             book: Book<K, V>, key: K, v: V)
    requires TiersOk(config, l1, l2, book)
    ensures TiersOk(config, l1[key := NewEntry(v, book.clock)], l2,
                    book.(latest := book.latest[key := v], everPut := book.everPut + {key}))
  {
    var book' := book.(latest := book.latest[key := v], everPut := book.everPut + {key});
    var l1' := l1[key := NewEntry(v, book.clock)];
    SubsetCard(book.everPut, book'.everPut);
    forall k ensures KeyOk(l1', l2.entries, book', k) { assert KeyOk(l1, l2.entries, book, k); }
  }

  lemma UnshadowKeeps<K(!new), V>(config: CacheConfig, l1: map<K, CacheEntry<V>>, l2: Lru<K, CacheEntry<V>>,
                                  book: Book<K, V>, key: K)
    requires TiersOk(config, l1, l2, book) && key in l1
    ensures TiersOk(config, l1, l2.Pop(key), book)
  {
    PopKeeps(l2, config.l2MaxEntries, key);
    forall k ensures KeyOk(l1, l2.Pop(key).entries, book, k) { assert KeyOk(l1, l2.entries, book, k); }
  }

  lemma InvalidateKeeps<K(!new), V>(config: CacheConfig, l1: map<K, CacheEntry<V>>, l2: Lru<K, CacheEntry<V>>,
                                    book: Book<K, V>, key: K)
    requires TiersOk(config, l1, l2, book)
    ensures TiersOk(config, l1 - {key}, l2.Pop(key), book.(latest := book.latest - {key}))
  {
    PopKeeps(l2, config.l2MaxEntries, key);
    var book' := book.(latest := book.latest - {key});
    forall k ensures KeyOk(l1 - {key}, l2.Pop(key).entries, book', k) { assert KeyOk(l1, l2.entries, book, k); }
  }

  function Young<K, V>(m: map<K, CacheEntry<V>>, cutoff: nat): map<K, CacheEntry<V>> {
    map k | k in m && m[k].createdAt >= cutoff :: m[k]
  }

  /** Ageing out whole tiers at once: a stale copy never survives the entry that shadowed it. */
  lemma AgeKeeps<K(!new), V>(config: CacheConfig, l1: map<K, CacheEntry<V>>, l2: Lru<K, CacheEntry<V>>,
                             book: Book<K, V>,
                             l2': Lru<K, CacheEntry<V>>, cutoff: nat)
    requires TiersOk(config, l1, l2, book)
    requires l2'.Valid(config.l2MaxEntries) && l2'.entries == Young(l2.entries, cutoff)
    ensures TiersOk(config, Young(l1, cutoff), l2', book.(agedOut := true))
  {
    forall k ensures KeyOk(Young(l1, cutoff), l2'.entries, book.(agedOut := true), k) {
      assert KeyOk(l1, l2.entries, book, k);
    }
  }

  // ---------- What the operations do to the tiers ----------

  ghost predicate IsLeastRecent<K(!new), V>(m: map<K, CacheEntry<V>>, k: K) {
    k in m && forall x :: x in m ==> m[k].lastAccessed <= m[x].lastAccessed
  }

  /** Room in L1: nothing happens below capacity; at it, a least recently used entry goes to the front of L2. */
  ghost predicate RoomMade<K(!new), V>(config: CacheConfig, l1: map<K, CacheEntry<V>>, l2: Lru<K, CacheEntry<V>>,
                                       l1': map<K, CacheEntry<V>>, l2': Lru<K, CacheEntry<V>>) {
    if |l1| < config.l1MaxEntries || l1 == map[] then l1' == l1 && l2' == l2
    else exists victim {:trigger IsLeastRecent(l1, victim)} ::
      IsLeastRecent(l1, victim) && l1' == l1 - {victim} && l2' == l2.Push(config.l2MaxEntries, victim, l1[victim])
  }

  /** Room is made, then the entry goes into L1. */
  ghost predicate StoredInL1<K(!new), V(!new)>(config: CacheConfig, l1: map<K, CacheEntry<V>>,
                                               l2: Lru<K, CacheEntry<V>>, key: K, e: CacheEntry<V>,
                                         l1': map<K, CacheEntry<V>>, l2': Lru<K, CacheEntry<V>>) {
    exists m :: RoomMade(config, l1, l2, m, l2') && l1' == m[key := e]
  }

  /** What making room leaves alone: keys only move down, and an entry of L2 stays what it was unless displaced. */
  lemma RoomLeaves<K(!new), V>(config: CacheConfig, l1: map<K, CacheEntry<V>>, l2: Lru<K, CacheEntry<V>>,
                               l1': map<K, CacheEntry<V>>, l2': Lru<K, CacheEntry<V>>, key: K)
    requires RoomMade(config, l1, l2, l1', l2') && key !in l1
    ensures key !in l1'
    ensures key in l2'.entries ==> key in l2.entries && l2'.entries[key] == l2.entries[key]
  {
  }

  /** The entry is stored in L1 and taken out of L2. */
  ghost predicate Promoted<K(!new), V(!new)>(config: CacheConfig, l1: map<K, CacheEntry<V>>,
                                             l2: Lru<K, CacheEntry<V>>, key: K, e: CacheEntry<V>,
                                       l1': map<K, CacheEntry<V>>, l2': Lru<K, CacheEntry<V>>) {
    exists n :: StoredInL1(config, l1, l2, key, e, l1', n) && l2' == n.Pop(key)
  }

  lemma PromotionOf<K(!new), V(!new)>(config: CacheConfig, l1: map<K, CacheEntry<V>>, l2: Lru<K, CacheEntry<V>>,
                                      m1: map<K, CacheEntry<V>>, m2: Lru<K, CacheEntry<V>>, key: K, e: CacheEntry<V>)
    requires RoomMade(config, l1, l2, m1, m2)
    ensures Promoted(config, l1, l2, key, e, m1[key := e], m2.Pop(key))
  {
    assert StoredInL1(config, l1, l2, key, e, m1[key := e], m2);
  }

  // ---------- Order of use ----------

  ghost predicate NoneLater<K(!new), V>(l1: map<K, CacheEntry<V>>, s: seq<K>, t: nat) {
    forall k {:trigger k in s} :: k in s ==> k in l1 && l1[k].lastAccessed <= t
  }

  /** No key was used before a key behind it. */
  ghost predicate ByUse<K(!new), V>(l1: map<K, CacheEntry<V>>, s: seq<K>) {
    s == [] || (s[0] in l1 && NoneLater(l1, s[1..], l1[s[0]].lastAccessed) && ByUse(l1, s[1..]))
  }

  /** `used` lists the keys of L1, the one got or put last in front, and the timestamps agree. */
  ghost predicate InUseOrder<K(!new), V>(l1: map<K, CacheEntry<V>>, used: seq<K>, clock: nat) {
    && Distinct(used) && ToSet(used) == l1.Keys
    && ByUse(l1, used) && forall k :: k in l1 ==> l1[k].lastAccessed <= clock
  }

  /** All timestamps differ. */
  ghost predicate Apart<K(!new), V>(l1: map<K, CacheEntry<V>>) {
    forall a, b {:trigger l1[a], l1[b]} :: a in l1 && b in l1 && l1[a].lastAccessed == l1[b].lastAccessed ==> a == b
  }

  lemma OthersKeepUse<K(!new), V>(l1: map<K, CacheEntry<V>>, l1': map<K, CacheEntry<V>>, s: seq<K>)
    requires ByUse(l1, s) && forall k :: k in s ==> k in l1' && (k in l1 ==> l1'[k] == l1[k])
    ensures ByUse(l1', s)
  {
    if s != [] {
      assert s == [s[0]] + s[1..];
      OthersKeepUse(l1, l1', s[1..]);
    }
  }

  lemma DropKeepsUse<K(!new), V>(l1: map<K, CacheEntry<V>>, s: seq<K>, k: K)
    requires ByUse(l1, s)
    ensures ByUse(l1, Drop(s, k))
  {
    if s != [] {
      var rest := Drop(s[1..], k);
      DropKeepsUse(l1, s[1..], k);
      if s[0] != k {
        assert NoneLater(l1, rest, l1[s[0]].lastAccessed);
        assert ([s[0]] + rest)[1..] == rest;
      }
    }
  }

  lemma UsedIffInL1<K(!new), V>(l1: map<K, CacheEntry<V>>, used: seq<K>)
    requires ToSet(used) == l1.Keys
    ensures forall x :: x in used <==> x in l1
  {
    forall x ensures x in used <==> x in l1 { assert x in used <==> x in ToSet(used); }
  }

  /** A key that is got or put now is the one used last. */
  lemma UseNow<K(!new), V>(l1: map<K, CacheEntry<V>>, used: seq<K>, clock: nat, k: K, e: CacheEntry<V>)
    requires InUseOrder(l1, used, clock) && clock <= e.lastAccessed
    ensures InUseOrder(l1[k := e], [k] + Drop(used, k), e.lastAccessed)
    ensures Apart(l1) && clock < e.lastAccessed ==> Apart(l1[k := e])
  {
    var rest := Drop(used, k);
    UsedIffInL1(l1, used);
    DropDistinct(used, k);
    DropKeepsUse(l1, used, k);
    OthersKeepUse(l1, l1[k := e], rest);
    InFront(l1[k := e], rest, k);
  }

  lemma InFront<K(!new), V>(l1: map<K, CacheEntry<V>>, rest: seq<K>, k: K)
    requires k in l1 && (forall x :: x in rest <==> x in l1 && x != k) && Distinct(rest) && ByUse(l1, rest)
    requires forall x :: x in l1 ==> l1[x].lastAccessed <= l1[k].lastAccessed
    ensures InUseOrder(l1, [k] + rest, l1[k].lastAccessed)
  {
    assert ([k] + rest)[1..] == rest;
    forall x ensures x in ToSet([k] + rest) <==> x in l1 {
      assert x in ToSet([k] + rest) <==> x == k || x in rest;
    }
  }

  /** A key that leaves L1 leaves the others in order. */
  lemma ForgetUse<K(!new), V>(l1: map<K, CacheEntry<V>>, used: seq<K>, clock: nat, k: K)
    requires InUseOrder(l1, used, clock)
    ensures InUseOrder(l1 - {k}, Drop(used, k), clock) && (Apart(l1) ==> Apart(l1 - {k}))
  {
    UsedIffInL1(l1, used);
    DropDistinct(used, k);
    DropKeepsUse(l1, used, k);
    OthersKeepUse(l1, l1 - {k}, Drop(used, k));
    forall x ensures x in ToSet(Drop(used, k)) <==> x in l1 - {k} {
      assert x in ToSet(Drop(used, k)) <==> x in Drop(used, k);
    }
  }

  /** As for every key that is not in `l1'`. */
  lemma KeepUse<K(!new), V>(l1: map<K, CacheEntry<V>>, used: seq<K>, clock: nat, l1': map<K, CacheEntry<V>>)
    requires InUseOrder(l1, used, clock) && forall k :: k in l1' ==> k in l1 && l1'[k] == l1[k]
    ensures InUseOrder(l1', Keep(used, l1'.Keys), clock) && (Apart(l1) ==> Apart(l1'))
  {
    UsedIffInL1(l1, used);
    KeepMeaning(used, l1'.Keys);
    KeepKeepsUse(l1, used, l1'.Keys);
    OthersKeepUse(l1, l1', Keep(used, l1'.Keys));
    forall x ensures x in ToSet(Keep(used, l1'.Keys)) <==> x in l1' {
      assert x in ToSet(Keep(used, l1'.Keys)) <==> x in Keep(used, l1'.Keys);
    }
  }

  lemma KeepKeepsUse<K(!new), V>(l1: map<K, CacheEntry<V>>, s: seq<K>, keys: set<K>)
    requires ByUse(l1, s) && Distinct(s)
    ensures ByUse(l1, Keep(s, keys))
  {
    if s != [] {
      var rest := Keep(s[1..], keys);
      KeepKeepsUse(l1, s[1..], keys);
      KeepMeaning(s[1..], keys);
      if s[0] in keys { assert ([s[0]] + rest)[1..] == rest; }
    }
  }

  lemma LastUsedFirst<K(!new), V>(l1: map<K, CacheEntry<V>>, s: seq<K>)
    requires ByUse(l1, s) && s != []
    ensures s[|s| - 1] in l1
    ensures forall x :: x in s ==> x in l1 && l1[s[|s| - 1]].lastAccessed <= l1[x].lastAccessed
  {
    assert s == [s[0]] + s[1..];
    if |s| > 1 {
      LastUsedFirst(l1, s[1..]);
      assert s[|s| - 1] in s[1..];
    }
  }

  /** A least recent entry is the end of the list, unless another one has its timestamp. */
  lemma VictimIsEnd<K(!new), V>(l1: map<K, CacheEntry<V>>, used: seq<K>, clock: nat, victim: K)
    requires InUseOrder(l1, used, clock) && IsLeastRecent(l1, victim)
    ensures used != [] && used[|used| - 1] in l1
    ensures l1[victim].lastAccessed == l1[used[|used| - 1]].lastAccessed
    ensures Apart(l1) ==> victim == used[|used| - 1]
  {
    assert victim in ToSet(used);
    LastUsedFirst(l1, used);
  }

  lemma UsedCount<K(!new), V>(l1: map<K, CacheEntry<V>>, used: seq<K>, clock: nat)
    requires InUseOrder(l1, used, clock)
    ensures |used| == |l1|
  {
    OrderCount(used);
    assert |l1.Keys| == |l1|;
  }

  lemma NotUsedYet<K(!new), V>(l1: map<K, CacheEntry<V>>, used: seq<K>, clock: nat, k: K)
    requires InUseOrder(l1, used, clock) && k !in l1
    ensures Drop(used, k) == used
  {
    assert k in used ==> k in ToSet(used);
    DropAbsent(used, k);
  }

  /** What was got or put last is not demoted while anything else is in L1. */
  lemma JustUsedStays<K(!new), V>(l1: map<K, CacheEntry<V>>, used: seq<K>, clock: nat, victim: K)
    requires InUseOrder(l1, used, clock) && Apart(l1) && IsLeastRecent(l1, victim) && |l1| > 1
    ensures used != [] && victim != used[0]
  {
    VictimIsEnd(l1, used, clock, victim);
    OrderCount(used);
    assert |l1.Keys| == |l1|;
    assert used[|used| - 1] in used[1..];
  }

  /** The list with room for one more key: at capacity, without its end. */
  function WithRoom<K>(used: seq<K>, capacity: nat): seq<K> {
    if |used| >= capacity && used != [] then used[..|used| - 1] else used
  }

  lemma DropEnd<K(!new)>(s: seq<K>)
    requires Distinct(s) && s != []
    ensures Drop(s, s[|s| - 1]) == s[..|s| - 1]
  {
    assert s == [s[0]] + s[1..];
    if |s| > 1 {
      DropEnd(s[1..]);
      assert s[|s| - 1] in s[1..];
      assert s[..|s| - 1] == [s[0]] + s[1..][..|s| - 2];
    }
  }

  // ---------- The cache ----------

  class MultiTierCache<K(==,!new), V(!new)> {
    const config: CacheConfig
    var l1: map<K, CacheEntry<V>>
    var l2: Lru<K, CacheEntry<V>>
    var metrics: CacheMetrics

    // `book.latest` is the value last put under each key since it was invalidated or all was cleared;
    // the other entries and `gets` also start afresh with a clear
    ghost var book: Book<K, V>
    ghost var gets: nat
    ghost var used: seq<K>  // the keys of L1 in the order of their last get or put, latest first

    ghost predicate Valid()
      reads this
    {
      && TiersOk(config, l1, l2, book)
      && |l1| <= Max(1, config.l1MaxEntries)
      && CountersAdd(gets)
      && InUseOrder(l1, used, book.clock)
    }

    /** In the middle of an operation: the entries of L1 were used up to `clock`, and `n` lookups are counted. */
    ghost predicate ValidAt(clock: nat, n: int)
      reads this
    {
      && TiersOk(config, l1, l2, book)
      && |l1| <= Max(1, config.l1MaxEntries)
      && CountersAdd(n)
      && InUseOrder(l1, used, clock)
    }

    /** Hits split into tiers, and every lookup is a hit or a miss; without metrics nothing is counted. */
    ghost predicate CountersAdd(n: int)
      reads this`metrics
    {
      if config.metricsEnabled then
        && metrics.totalHits == metrics.l1Hits + metrics.l2Hits + metrics.l3Hits
        && metrics.l3Hits == 0
        && metrics.totalHits + metrics.totalMisses == n
      else metrics == NO_METRICS
    }

    constructor (config: CacheConfig)
      requires config.l2MaxEntries > 0
      ensures Valid() && this.config == config
      ensures l1 == map[] && l2 == Lru([], map[]) && book == Book(map[], {}, false, 0) && gets == 0
      ensures used == []
    {
      this.config := config;
      l1, l2, metrics := map[], Lru([], map[]), NO_METRICS;
      book, gets, used := Book(map[], {}, false, 0), 0, [];
    }

    /** Answers with the latest value or not at all, and always when the key is in a tier. */
    method Get(key: K, now: nat) returns (r: Option<V>)
      requires Valid() && book.clock <= now
      modifies this
      ensures Valid() && book == old(book).(clock := now) && gets == old(gets) + 1
      ensures r.Some? <==> key in old(l1) || key in old(l2.entries)
      ensures r.Some? ==> key in book.latest && r.value == book.latest[key]
      ensures !book.agedOut && |book.everPut| <= config.l2MaxEntries ==> (r.Some? <==> key in book.latest)
      ensures key in old(l1) ==> l1 == old(l1)[key := Accessed(old(l1)[key], now)] && l2 == old(l2)
      ensures key !in old(l1) && key in old(l2.entries) ==>
        var e := Accessed(old(l2.entries)[key], now);
        if e.accessCount >= config.promotionThreshold then Promoted(config, old(l1), old(l2).ToFront(key, e), key, e,
            l1, l2)
        else l1 == old(l1) && l2 == old(l2).ToFront(key, e)
      ensures r.None? ==> l1 == old(l1) && l2 == old(l2)
      ensures key in old(l1) ==> used == [key] + Drop(old(used), key)
      ensures key !in old(l1) && key !in l1 ==> used == old(used)
      ensures key !in old(l1) && key in l1 && Apart(old(l1)) ==>
                used == [key] + WithRoom(old(used), config.l1MaxEntries)
      ensures Apart(old(l1)) && old(book.clock) < now ==> Apart(l1)
      ensures config.metricsEnabled ==>
        && metrics.l1Hits == old(metrics.l1Hits) + (if key in old(l1) then 1 else 0)
        && metrics.l2Hits == old(metrics.l2Hits) + (if key !in old(l1) && key in old(l2.entries) then 1 else 0)
        && metrics.totalMisses == old(metrics.totalMisses) + (if r.None? then 1 else 0)
    {
      TickKeeps(config, l1, l2, book, now);
      book := book.(clock := now);
      gets := gets + 1;
      assert KeyOk(l1, l2.entries, book, key);
      if key in l1 {
        var value := HitL1(key, now, old(book.clock));
        return Some(value);
      }
      if key in l2.entries {
        var value := HitL2(key, now, old(book.clock));
        return Some(value);
      }
      if config.metricsEnabled {
        metrics := metrics.(totalMisses := metrics.totalMisses + 1);
      }
      return None;
    }

    /** A hit in L1: the entry is the one used last. */
    method HitL1(key: K, now: nat, ghost before: nat) returns (value: V)
      requires ValidAt(before, gets - 1) && before <= now == book.clock && key in l1
      modifies this`l1, this`metrics, this`used
      ensures Valid()
      ensures value == old(l1)[key].value
      ensures l1 == old(l1)[key := Accessed(old(l1)[key], now)] && used == [key] + Drop(old(used), key)
      ensures Apart(old(l1)) && before < now ==> Apart(l1)
      ensures metrics.l2Hits == old(metrics.l2Hits) && metrics.totalMisses == old(metrics.totalMisses)
      ensures config.metricsEnabled ==> metrics.l1Hits == old(metrics.l1Hits) + 1
    {
      var found := l1[key];
      var entry := found.(accessCount := found.accessCount + 1, lastAccessed := now);
      TouchL1Keeps(config, l1, l2, book, key, now);
      StoreInL1(key, entry, before);
      CountL1Hit();
      return entry.value;
    }

    method CountL1Hit()
      requires CountersAdd(gets - 1)
      modifies this`metrics
      ensures CountersAdd(gets)
      ensures metrics.l2Hits == old(metrics.l2Hits) && metrics.totalMisses == old(metrics.totalMisses)
      ensures config.metricsEnabled ==> metrics.l1Hits == old(metrics.l1Hits) + 1
    {
      if config.metricsEnabled {
        metrics := metrics.(l1Hits := metrics.l1Hits + 1, totalHits := metrics.totalHits + 1);
      }
    }

    /** The entry goes into L1, where it is the one used last. */
    method StoreInL1(key: K, entry: CacheEntry<V>, ghost before: nat)
      requires TiersOk(config, l1[key := entry], l2, book) && InUseOrder(l1, used, before)
      requires before <= entry.lastAccessed
      modifies this`l1, this`used
      ensures TiersOk(config, l1, l2, book) && InUseOrder(l1, used, entry.lastAccessed)
      ensures l1 == old(l1)[key := entry] && used == [key] + Drop(old(used), key)
      ensures |l1| == |old(l1)| + if key in old(l1) then 0 else 1
      ensures Apart(old(l1)) && before < entry.lastAccessed ==> Apart(l1)
    {
      UseNow(l1, used, before, key, entry);
      l1 := l1[key := entry];
      used := [key] + Drop(used, key);
    }

    /** A hit in L2: the entry becomes the most recent one, and enough of them promote it. */
    method HitL2(key: K, now: nat, ghost before: nat) returns (value: V)
      requires ValidAt(before, gets - 1) && before <= now == book.clock
      requires key !in l1 && key in l2.entries
      modifies this`l1, this`l2, this`metrics, this`used
      ensures Valid()
      ensures value == old(l2).entries[key].value
      ensures var e := Accessed(old(l2.entries)[key], now);
              if e.accessCount >= config.promotionThreshold
              then Promoted(config, old(l1), old(l2).ToFront(key, e), key, e, l1, l2) && key in l1
              else l1 == old(l1) && l2 == old(l2).ToFront(key, e)
      ensures key !in l1 ==> used == old(used)
      ensures key in l1 && Apart(old(l1)) ==> used == [key] + WithRoom(old(used), config.l1MaxEntries)
      ensures Apart(old(l1)) && before < now ==> Apart(l1)
      ensures metrics.l1Hits == old(metrics.l1Hits) && metrics.totalMisses == old(metrics.totalMisses)
      ensures config.metricsEnabled ==> metrics.l2Hits == old(metrics.l2Hits) + 1
    {
      var found := l2.entries[key];
      var entry := found.(accessCount := found.accessCount + 1, lastAccessed := now);
      TouchL2Keeps(config, l1, l2, book, key, now);
      l2 := l2.ToFront(key, entry);
      if config.metricsEnabled {
        metrics := metrics.(l2Hits := metrics.l2Hits + 1, totalHits := metrics.totalHits + 1);
      }
      if entry.accessCount >= config.promotionThreshold {
        PromoteToL1(key, entry, before);
      }
      return entry.value;
    }

    /** The entry moves from L2 to L1, making room there first if need be. */
    method PromoteToL1(key: K, entry: CacheEntry<V>, ghost before: nat)
      requires ValidAt(before, gets) && before <= entry.lastAccessed == book.clock
      requires key !in l1 && key in l2.entries && entry == l2.entries[key]
      modifies this`l1, this`l2, this`metrics, this`used
      ensures Valid() && key in l1
      ensures Promoted(config, old(l1), old(l2), key, entry, l1, l2)
      ensures Apart(old(l1)) ==> used == [key] + WithRoom(old(used), config.l1MaxEntries)
      ensures Apart(old(l1)) && before < book.clock ==> Apart(l1)
      ensures metrics.l1Hits == old(metrics.l1Hits) && metrics.l2Hits == old(metrics.l2Hits)
          && metrics.totalMisses == old(metrics.totalMisses)
    {
      assert KeyOk(l1, l2.entries, book, key);
      MakeRoomInL1(before);
      RoomLeaves(config, old(l1), old(l2), l1, l2, key);
      StoreKeeps(config, l1, l2, book, key, entry);
      PromotionOf(config, old(l1), old(l2), l1, l2, key, entry);
      NotUsedYet(l1, used, before, key);
      MoveUp(key, entry, before);
    }

    /** Into L1, where there is room, and out of L2. */
    method MoveUp(key: K, entry: CacheEntry<V>, ghost before: nat)
      requires ValidAt(before, gets) && |l1| < Max(1, config.l1MaxEntries) && key !in l1
      requires TiersOk(config, l1[key := entry], l2, book) && before <= entry.lastAccessed == book.clock
      modifies this`l1, this`l2, this`metrics, this`used
      ensures Valid()
      ensures l1 == old(l1)[key := entry] && l2 == old(l2).Pop(key) && used == [key] + Drop(old(used), key)
      ensures Apart(old(l1)) && before < book.clock ==> Apart(l1)
      ensures metrics.l1Hits == old(metrics.l1Hits) && metrics.l2Hits == old(metrics.l2Hits)
          && metrics.totalMisses == old(metrics.totalMisses)
    {
      StoreInL1(key, entry, before);
      CountPromotion();
      UnshadowKeeps(config, l1, l2, book, key);
      l2 := l2.Pop(key);
    }

    method CountPromotion()
      requires CountersAdd(gets)
      modifies this`metrics
      ensures CountersAdd(gets)
      ensures metrics.l1Hits == old(metrics.l1Hits) && metrics.l2Hits == old(metrics.l2Hits)
          && metrics.totalMisses == old(metrics.totalMisses)
      ensures config.metricsEnabled ==> metrics.l2ToL1Promotions == old(metrics.l2ToL1Promotions) + 1
    {
      if config.metricsEnabled {
        metrics := metrics.(l2ToL1Promotions := metrics.l2ToL1Promotions + 1);
      }
    }

    /** At capacity, the least recently used entry of L1 is demoted. */
    method MakeRoomInL1(ghost clock: nat)
      requires ValidAt(clock, gets)
      modifies this`l1, this`l2, this`metrics, this`used
      ensures ValidAt(clock, gets) && |l1| < Max(1, config.l1MaxEntries)
      ensures RoomMade(config, old(l1), old(l2), l1, l2)
      ensures Apart(old(l1)) ==> Apart(l1) && used == WithRoom(old(used), config.l1MaxEntries)
      ensures metrics.l1Hits == old(metrics.l1Hits) && metrics.l2Hits == old(metrics.l2Hits)
          && metrics.totalMisses == old(metrics.totalMisses)
    {
      UsedCount(l1, used, clock);
      if |l1| >= config.l1MaxEntries {
        var victim := FindLruInL1();
        if victim.Some? {
          VictimIsEnd(l1, used, clock, victim.value);
          DropEnd(used);
          Demote(victim.value, clock);
        }
      }
    }

    /** A scan with a running minimum, in any order. */
    method FindLruInL1() returns (oldest: Option<K>)
      ensures oldest.None? <==> l1 == map[]
      ensures oldest.Some? ==> IsLeastRecent(l1, oldest.value)
    {
      oldest := None;
      var todo := l1.Keys;
      while todo != {}
        invariant todo <= l1.Keys
        invariant oldest.None? ==> todo == l1.Keys
        invariant oldest.Some? ==> oldest.value in l1
        invariant oldest.Some? ==> forall x :: x in l1 && x !in todo ==>
            l1[oldest.value].lastAccessed <= l1[x].lastAccessed
      {
        var k :| k in todo;
        todo := todo - {k};
        if oldest.None? || l1[k].lastAccessed < l1[oldest.value].lastAccessed {
          oldest := Some(k);
        }
      }
    }

    /** `key` leaves L1 for the front of L2. */
    method Demote(key: K, ghost clock: nat)
      requires ValidAt(clock, gets) && key in l1
      modifies this`l1, this`l2, this`metrics, this`used
      ensures ValidAt(clock, gets)
      ensures used == Drop(old(used), key) && (Apart(old(l1)) ==> Apart(l1))
      ensures l1 == old(l1) - {key} && |l1| == old(|l1|) - 1
      ensures l2 == old(l2).Push(config.l2MaxEntries, key, old(l1)[key])
      ensures metrics.l1Hits == old(metrics.l1Hits) && metrics.l2Hits == old(metrics.l2Hits)
          && metrics.totalMisses == old(metrics.totalMisses)
      ensures config.metricsEnabled ==> metrics.l1Evictions == old(metrics.l1Evictions) + 1
      ensures config.metricsEnabled ==>
        metrics.l2Evictions == old(metrics.l2Evictions)
            + (if key in old(l2.entries) || old(l2).Evicts(config.l2MaxEntries, key) then 1 else 0)
    {
      DemoteKeeps(config, l1, l2, book, key);
      var entry := l1[key];
      ForgetUse(l1, used, clock, key);
      assert (l1 - {key}).Keys == l1.Keys - {key};
      l1 := l1 - {key};
      used := Drop(used, key);
      // the LRU reports a replaced entry of the same key like a displaced one
      var l2Evicted := key in l2.entries || l2.Evicts(config.l2MaxEntries, key);
      l2 := l2.Push(config.l2MaxEntries, key, entry);
      CountDemotion(l2Evicted);
    }

    method CountDemotion(l2Evicted: bool)
      requires CountersAdd(gets)
      modifies this`metrics
      ensures CountersAdd(gets)
      ensures metrics.l1Hits == old(metrics.l1Hits) && metrics.l2Hits == old(metrics.l2Hits)
          && metrics.totalMisses == old(metrics.totalMisses)
      ensures config.metricsEnabled ==>
                && metrics.l1Evictions == old(metrics.l1Evictions) + 1
                && metrics.l2Evictions == old(metrics.l2Evictions) + (if l2Evicted then 1 else 0)
    {
      if config.metricsEnabled {
        metrics := metrics.(l1Evictions := metrics.l1Evictions + 1, l2Evictions := metrics.l2Evictions
            + (if l2Evicted then 1 else 0));
      }
    }

    method Put(key: K, value: V, now: nat)
      requires Valid() && book.clock <= now
      modifies this
      ensures Valid() && gets == old(gets)
      ensures book == Book(old(book).latest[key := value], old(book).everPut + {key}, old(book).agedOut, now)
      ensures StoredInL1(config, old(l1), old(l2), key, NewEntry(value, now), l1, l2)
      ensures used != [] && used[0] == key
      ensures Apart(old(l1)) ==> used == [key] + Drop(WithRoom(old(used), config.l1MaxEntries), key)
      ensures Apart(old(l1)) && old(book.clock) < now ==> Apart(l1)
    {
      TickKeeps(config, l1, l2, book, now);
      book := book.(clock := now);
      var entry := CacheEntry(value, 1, now, now);
      MakeRoomInL1(old(book.clock));
      PutKeeps(config, l1, l2, book, key, value);
      book := book.(latest := book.latest[key := value], everPut := book.everPut + {key});
      StoreInL1(key, entry, old(book.clock));
    }

    method Invalidate(key: K)
      requires Valid()
      modifies this
      ensures Valid() && gets == old(gets)
      ensures book == old(book).(latest := old(book).latest - {key})
      ensures l1 == old(l1) - {key} && l2 == old(l2).Pop(key)
      ensures used == Drop(old(used), key) && (Apart(old(l1)) ==> Apart(l1))
    {
      InvalidateKeeps(config, l1, l2, book, key);
      ForgetUse(l1, used, book.clock, key);
      used := Drop(used, key);
      SubsetCard((l1 - {key}).Keys, l1.Keys);
      l1 := l1 - {key};
      l2 := l2.Pop(key);
      book := book.(latest := book.latest - {key});
    }

    method Clear()
      requires Valid()
      modifies this
      ensures Valid() && l1 == map[] && l2 == Lru([], map[])
      ensures book == Book(map[], {}, false, old(book).clock) && gets == 0 && metrics == NO_METRICS && used == []
    {
      l1, l2 := map[], Lru([], map[]);
      if config.metricsEnabled {
        metrics := NO_METRICS;
      }
      book, gets, used := Book(map[], {}, false, book.clock), 0, [];
    }

    /** For tests and tuning: demotes a key that is in L1. */
    method MoveToL2(key: K)
      requires Valid()
      modifies this`l1, this`l2, this`metrics, this`used
      ensures Valid() && used == Drop(old(used), key) && (Apart(old(l1)) ==> Apart(l1))
      ensures key in old(l1) ==> l1 == old(l1) - {key} && l2 == old(l2).Push(config.l2MaxEntries, key, old(l1)[key])
      ensures key !in old(l1) ==> l1 == old(l1) && l2 == old(l2) && metrics == old(metrics)
    {
      if key in l1 {
        Demote(key, book.clock);
      } else {
        NotUsedYet(l1, used, book.clock, key);
      }
    }

    /** Drops whatever was created before `cutoff`, tier by tier, and nothing else. */
    method EvictOlderThan(cutoff: nat)
      requires Valid()
      modifies this
      ensures Valid() && gets == old(gets) && book == old(book).(agedOut := true)
      ensures l1 == Young(old(l1), cutoff)
      ensures used == Keep(old(used), l1.Keys) && (Apart(old(l1)) ==> Apart(l1))
      ensures l2.entries == Young(old(l2).entries, cutoff) && l2.order == Keep(old(l2).order, l2.entries.Keys)
    {
      EvictOldFromL1(cutoff);
      EvictOldFromL2(cutoff);
      AgeKeeps(config, old(l1), old(l2), book, l2, cutoff);
      book := book.(agedOut := true);
    }

    method EvictOldFromL1(cutoff: nat)
      requires InUseOrder(l1, used, book.clock)
      modifies this`l1, this`used
      ensures l1 == Young(old(l1), cutoff) && |l1| <= |old(l1)|
      ensures InUseOrder(l1, used, book.clock)
      ensures used == Keep(old(used), l1.Keys) && (Apart(old(l1)) ==> Apart(l1))
    {
      SubsetCard(Young(l1, cutoff).Keys, l1.Keys);
      KeepUse(l1, used, book.clock, Young(l1, cutoff));
      used := Keep(used, Young(l1, cutoff).Keys);
      l1 := map k | k in l1 && l1[k].createdAt >= cutoff :: l1[k];
    }

    method EvictOldFromL2(cutoff: nat)
      requires l2.Valid(config.l2MaxEntries)
      modifies this`l2
      ensures l2.Valid(config.l2MaxEntries) && l2.entries == Young(old(l2).entries, cutoff)
      ensures l2.order == Keep(old(l2).order, l2.entries.Keys)
    {
      KeepAll(l2.order, l2.entries.Keys);
      var stale := set k | k in l2.entries && l2.entries[k].createdAt < cutoff;
      while stale != {}
        invariant l2.Valid(config.l2MaxEntries)
        invariant stale <= l2.entries.Keys
        invariant l2.entries - stale == Young(old(l2).entries, cutoff)
        invariant l2.order == Keep(old(l2).order, l2.entries.Keys)
      {
        var k :| k in stale;
        PopKeeps(l2, config.l2MaxEntries, k);
        DropKept(old(l2).order, l2.entries.Keys, k);
        assert (l2.entries - {k}).Keys == l2.entries.Keys - {k};
        l2 := l2.Pop(k);
        stale := stale - {k};
      }
      assert l2.entries - {} == l2.entries;
    }
  }
}
