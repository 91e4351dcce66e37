/**
 Dependency relations over string identifiers, as every scheduler of the program builds them:
 a map from an identifier to the list of identifiers it depends on.  A list may repeat an entry.
 The theorems here are the ones all the graph algorithms share: a rank rules out cycles, and a
 nonempty set in which everything waits for something else in the set contains one.
 */
module Graphs {

  type Id = string
  type Deps = map<Id, seq<Id>>

  function DepsOf(g: Deps, a: Id): seq<Id> {
    if a in g then g[a] else []
  }

  predicate DependsOn(g: Deps, a: Id, b: Id) {
    a in g && b in g[a]
  }

  /** Consecutive members of `p` are linked: each depends on the next. */
  ghost predicate IsChain(g: Deps, p: seq<Id>) {
    && |p| > 0
    && forall i :: 0 <= i < |p| - 1 ==> DependsOn(g, p[i], p[i + 1])
  }

  ghost predicate IsCycle(g: Deps, p: seq<Id>) {
    |p| > 1 && IsChain(g, p) && p[0] == p[|p| - 1]
  }

  ghost predicate Acyclic(g: Deps) {
    forall p :: !IsCycle(g, p)
  }

  /** Every dependency that is mentioned is one of `ids`. */
  ghost predicate Closed(g: Deps, ids: set<Id>) {
    forall a, b :: DependsOn(g, a, b) ==> b in ids
  }

  /** No entry occurs among the entries before it. */
  predicate NoDup<T(==)>(s: seq<T>) {
    forall i {:trigger s[..i]} :: 0 <= i < |s| ==> s[i] !in s[..i]
  }

  function Elems(s: seq<Id>): set<Id> {
    set x | x in s
  }

  /** Whatever an element of `order` depends on comes earlier in `order`. */
  ghost predicate DepsFirst(g: Deps, order: seq<Id>) {
    forall i, b :: 0 <= i < |order| && DependsOn(g, order[i], b) ==> b in order[..i]
  }

  /** `order` lists exactly `ids`, each once, dependencies first. */
  ghost predicate IsTopologicalOrder(g: Deps, ids: set<Id>, order: seq<Id>) {
    NoDup(order) && Elems(order) == ids && DepsFirst(g, order)
  }

  lemma NoDupPairs<T>(s: seq<T>)
    ensures NoDup(s) <==> forall i, j :: 0 <= i < j < |s| ==> s[i] != s[j]
  {
    if NoDup(s) {
      forall i, j | 0 <= i < j < |s| ensures s[i] != s[j] {
        assert s[j] !in s[..j];
        assert s[..j][i] == s[i];
      }
    }
  }

  lemma AppendFresh<T>(s: seq<T>, x: T)
    ensures NoDup(s + [x]) <==> NoDup(s) && x !in s
  {
    var t := s + [x];
    forall i | 0 <= i <= |s| ensures t[..i] == s[..i] {}
    assert s[..|s|] == s;
    if NoDup(t) {
      assert t[|s|] !in t[..|s|];
      forall i | 0 <= i < |s| ensures s[i] !in s[..i] { assert t[i] !in t[..i]; }
    }
  }

  lemma PrefixNoDup<T>(s: seq<T>, n: nat)
    requires NoDup(s) && n <= |s|
    ensures NoDup(s[..n])
  {
    NoDupPairs(s);
    NoDupPairs(s[..n]);
  }

  /** Without repetitions every member counts once, and the other way round. */
  lemma NoDupCounts<T>(s: seq<T>)
    ensures NoDup(s) <==> forall p :: p in s ==> multiset(s)[p] == 1
  {
    if s != [] {
      var n := |s| - 1;
      assert s == s[..n] + [s[n]];
      AppendFresh(s[..n], s[n]);
      NoDupCounts(s[..n]);
      assert multiset(s)[s[n]] == multiset(s[..n])[s[n]] + 1;
      forall p | p in s[..n] ensures multiset(s)[p] == multiset(s[..n])[p] + if p == s[n] then 1 else 0 {}
    }
  }

  lemma DistinctCount(s: seq<Id>)
    requires NoDup(s)
    ensures |Elems(s)| == |s|
  {
    if |s| > 0 {
      var n := |s| - 1;
      assert s == s[..n] + [s[n]];
      AppendFresh(s[..n], s[n]);
      DistinctCount(s[..n]);
      assert Elems(s) == Elems(s[..n]) + {s[n]};
    }
  }

  /** A duplicate-free list of members of `ids` that is as long as `ids` lists all of it. */
  lemma FullList(s: seq<Id>, ids: set<Id>)
    requires NoDup(s) && Elems(s) <= ids
    ensures |s| <= |ids|
    ensures |s| == |ids| <==> Elems(s) == ids
  {
    DistinctCount(s);
    SubsetCard(Elems(s), ids);
  }

  lemma NothingLeft<T>(part: set<T>, whole: set<T>)
    requires part <= whole
    ensures part == whole <==> whole - part == {}
  {
    if whole - part == {} {
      forall x | x in whole ensures x in part { assert x !in whole - part; }
    }
  }

  lemma SubsetCard<T>(a: set<T>, b: set<T>)
    requires a <= b
    ensures |a| <= |b|
    ensures |a| == |b| <==> a == b
  {
    assert |b - a| == |b| - |a|;
    if |a| == |b| { assert b - a == {}; }
  }

  /** Along a chain a strictly decreasing rank drops by at least one per link. */
  lemma {:induction false} RankAlongChain(g: Deps, rank: Id -> int, p: seq<Id>)
    requires forall a, b :: DependsOn(g, a, b) ==> rank(b) < rank(a)
    requires IsChain(g, p)
    ensures rank(p[|p| - 1]) <= rank(p[0]) - (|p| - 1)
  {
    if |p| > 1 {
      assert DependsOn(g, p[0], p[1]);
      assert IsChain(g, p[1..]) by {
        forall i | 0 <= i < |p[1..]| - 1 ensures DependsOn(g, p[1..][i], p[1..][i + 1]) {
          assert DependsOn(g, p[i + 1], p[i + 2]);
        }
      }
      RankAlongChain(g, rank, p[1..]);
    }
  }

  lemma RankMakesAcyclic(g: Deps, rank: Id -> int)
    requires forall a, b :: DependsOn(g, a, b) ==> rank(b) < rank(a)
    ensures Acyclic(g)
  {
    forall p ensures !IsCycle(g, p) {
      if IsCycle(g, p) { RankAlongChain(g, rank, p); }
    }
  }

  function IndexOf(s: seq<Id>, x: Id): (i: int)
    ensures -1 <= i < |s|
    ensures i >= 0 ==> s[i] == x && x !in s[..i]
    ensures i < 0 <==> x !in s
  {
    if |s| == 0 then -1
    else if s[0] == x then 0
    else
      var i := IndexOf(s[1..], x);
      assert s == [s[0]] + s[1..];
      if i < 0 then -1 else assert s[..i + 1] == [s[0]] + s[1..][..i]; i + 1
  }

  lemma FirstIndexIsLeast(s: seq<Id>, x: Id, n: nat)
    requires n <= |s| && x in s[..n]
    ensures 0 <= IndexOf(s, x) < n
  {
    var j :| 0 <= j < n && s[..n][j] == x;
    assert s[j] == x;
    var k := IndexOf(s, x);
    assert forall m :: 0 <= m < k ==> s[..k][m] == s[m];
  }

  /** A list that puts dependencies first and mentions everything that has any rules out cycles. */
  lemma OrderMakesAcyclic(g: Deps, order: seq<Id>)
    requires DepsFirst(g, order)
    requires forall a, b :: DependsOn(g, a, b) ==> a in order
    ensures Acyclic(g)
  {
    var rank := (x: Id) => IndexOf(order, x);
    forall a, b | DependsOn(g, a, b) ensures rank(b) < rank(a) {
      var i := IndexOf(order, a);
      assert b in order[..i];
      FirstIndexIsLeast(order, b, i);
    }
    RankMakesAcyclic(g, rank);
  }

  /** `x` waits for some member of `s`. */
  ghost predicate WaitsIn(g: Deps, s: set<Id>, x: Id) {
    exists y :: y in s && DependsOn(g, x, y)
  }

  ghost predicate Stuck(g: Deps, s: set<Id>) {
    forall x {:trigger WaitsIn(g, s, x)} :: x in s ==> WaitsIn(g, s, x)
  }

  /** From any member of a set in which nobody is without a dependency, chains go on as long as one likes. */
  lemma {:induction false} Walk(g: Deps, s: set<Id>, a: Id, n: nat) returns (p: seq<Id>)
    requires a in s
    requires Stuck(g, s)
    ensures IsChain(g, p) && |p| == n + 1 && p[0] == a && Elems(p) <= s
    decreases n
  {
    if n == 0 {
      p := [a];
    } else {
      assert WaitsIn(g, s, a);
      var b :| b in s && DependsOn(g, a, b);
      var q := Walk(g, s, b, n - 1);
      p := [a] + q;
      forall i | 0 <= i < |p| - 1 ensures DependsOn(g, p[i], p[i + 1]) {
        if i > 0 { assert DependsOn(g, q[i - 1], q[i]); }
      }
    }
  }

  lemma Pigeonhole(p: seq<Id>, s: set<Id>)
    requires Elems(p) <= s && |p| > |s|
    ensures !NoDup(p)
  {
    if NoDup(p) { FullList(p, s); }
  }

  lemma Segment(g: Deps, p: seq<Id>, i: nat, j: nat)
    requires IsChain(g, p) && i < j <= |p|
    ensures IsChain(g, p[i..j])
  {
    forall k | 0 <= k < j - i - 1 ensures DependsOn(g, p[i..j][k], p[i..j][k + 1]) {
      assert DependsOn(g, p[i + k], p[i + k + 1]);
    }
  }

  /** The pigeonhole step behind every "stuck, therefore circular" conclusion in the program. */
  lemma StuckHasCycle(g: Deps, s: set<Id>)
    requires s != {}
    requires Stuck(g, s)
    ensures !Acyclic(g)
  {
    var a :| a in s;
    var p := Walk(g, s, a, |s|);
    Pigeonhole(p, s);
    NoDupPairs(p);
    var i, j :| 0 <= i < j < |p| && p[i] == p[j];
    Segment(g, p, i, j + 1);
    assert IsCycle(g, p[i..j + 1]);
  }

  lemma CycleLifts(g: Deps, h: Deps, p: seq<Id>)
    requires forall a, b :: DependsOn(g, a, b) ==> DependsOn(h, a, b)
    requires IsCycle(g, p)
    ensures IsCycle(h, p)
  {
    forall i | 0 <= i < |p| - 1 ensures DependsOn(h, p[i], p[i + 1]) {
      assert DependsOn(g, p[i], p[i + 1]);
    }
  }

  /** Fewer dependencies cannot create a cycle. */
  lemma SubrelationAcyclic(g: Deps, h: Deps)
    requires forall a, b :: DependsOn(g, a, b) ==> DependsOn(h, a, b)
    ensures Acyclic(h) ==> Acyclic(g)
  {
    forall p | IsCycle(g, p) ensures IsCycle(h, p) { CycleLifts(g, h, p); }
  }

  /** Reachability by at least one link, the notion strongly connected components are made of. */
  ghost predicate Reaches(g: Deps, a: Id, b: Id) {
    exists p :: IsChain(g, p) && |p| > 1 && p[0] == a && p[|p| - 1] == b
  }

  lemma Glue(g: Deps, p: seq<Id>, q: seq<Id>)
    requires IsChain(g, p) && IsChain(g, q) && p[|p| - 1] == q[0]
    ensures IsChain(g, p + q[1..])
    ensures (p + q[1..])[|p + q[1..]| - 1] == q[|q| - 1]
  {
    var r := p + q[1..];
    forall i | 0 <= i < |r| - 1 ensures DependsOn(g, r[i], r[i + 1]) {
      if i < |p| - 1 {
        assert DependsOn(g, p[i], p[i + 1]);
      } else {
        assert DependsOn(g, q[i - (|p| - 1)], q[i - (|p| - 1) + 1]);
      }
    }
  }

  lemma ReachesTransitive(g: Deps, a: Id, b: Id, c: Id)
    requires Reaches(g, a, b) && Reaches(g, b, c)
    ensures Reaches(g, a, c)
  {
    var p :| IsChain(g, p) && |p| > 1 && p[0] == a && p[|p| - 1] == b;
    var q :| IsChain(g, q) && |q| > 1 && q[0] == b && q[|q| - 1] == c;
    Glue(g, p, q);
  }

  lemma LinkReaches(g: Deps, a: Id, b: Id)
    requires DependsOn(g, a, b)
    ensures Reaches(g, a, b)
  {
    assert IsChain(g, [a, b]);
  }

  /** A graph has a cycle exactly when some member reaches itself. */
  lemma CyclicIffSelfReaching(g: Deps)
    ensures Acyclic(g) <==> forall a :: !Reaches(g, a, a)
  {
    forall p | IsCycle(g, p) ensures Reaches(g, p[0], p[0]) {}
    if exists a :: Reaches(g, a, a) {
      var a :| Reaches(g, a, a);
      var p :| IsChain(g, p) && |p| > 1 && p[0] == a && p[|p| - 1] == a;
      assert IsCycle(g, p);
    }
  }

  // ---------------------------------------------------------------- turning a relation round

  ghost predicate IsReverse(g: Deps, h: Deps) {
    forall a, b :: DependsOn(h, a, b) <==> DependsOn(g, b, a)
  }

  function Reversed(p: seq<Id>): (r: seq<Id>)
    ensures |r| == |p| && forall i :: 0 <= i < |p| ==> r[i] == p[|p| - 1 - i]
  {
    seq(|p|, i requires 0 <= i < |p| => p[|p| - 1 - i])
  }

  lemma ChainReversed(g: Deps, h: Deps, p: seq<Id>)
    requires IsReverse(g, h) && IsChain(g, p)
    ensures IsChain(h, Reversed(p))
  {
    var r := Reversed(p);
    forall i | 0 <= i < |r| - 1 ensures DependsOn(h, r[i], r[i + 1]) {
      var j := |p| - 2 - i;
      assert DependsOn(g, p[j], p[j + 1]);
    }
  }

  lemma ReachesReversed(g: Deps, h: Deps, a: Id, b: Id)
    requires IsReverse(g, h)
    ensures Reaches(g, a, b) <==> Reaches(h, b, a)
  {
    if p :| IsChain(g, p) && |p| > 1 && p[0] == a && p[|p| - 1] == b {
      ChainReversed(g, h, p);
      assert Reversed(p)[0] == b && Reversed(p)[|p| - 1] == a;
    }
    if p :| IsChain(h, p) && |p| > 1 && p[0] == b && p[|p| - 1] == a {
      assert IsReverse(h, g);
      ChainReversed(h, g, p);
      assert Reversed(p)[0] == a && Reversed(p)[|p| - 1] == b;
    }
  }
}
