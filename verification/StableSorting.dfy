/**
 Sorting paths by a key without disturbing the order of equal keys, as the library sort does it.
 Sortedness and the order within each key determine the result completely.
 */
module StableSorting {
  import opened Graphs
  import opened PathNames

  ghost predicate Sorted(s: seq<Path>, key: Path -> nat) {
    forall i, j :: 0 <= i < j < |s| ==> key(s[i]) <= key(s[j])
  }

  ghost predicate StrictlySorted(s: seq<Path>, key: Path -> nat) {
    forall i, j :: 0 <= i < j < |s| ==> key(s[i]) < key(s[j])
  }

  /** The members of `s` with key `k`, in the order they have in `s`. */
  function WithKey(s: seq<Path>, key: Path -> nat, k: nat): seq<Path> {
    if s == [] then []
    else
      var rest := WithKey(s[..|s| - 1], key, k);
      if key(s[|s| - 1]) == k then rest + [s[|s| - 1]] else rest
  }

  /** Sorted, and members with equal keys keep their order; this determines the result. */
  ghost predicate IsStableSort(out: seq<Path>, s: seq<Path>, key: Path -> nat) {
    Sorted(out, key) && forall k :: WithKey(out, key, k) == WithKey(s, key, k)
  }

  function InsertByKey(s: seq<Path>, x: Path, key: Path -> nat): seq<Path> {
    if s == [] || key(s[|s| - 1]) <= key(x) then s + [x]
    else InsertByKey(s[..|s| - 1], x, key) + [s[|s| - 1]]
  }

  function SortByKey(s: seq<Path>, key: Path -> nat): seq<Path> {
    if s == [] then [] else InsertByKey(SortByKey(s[..|s| - 1], key), s[|s| - 1], key)
  }

  lemma WithKeyAppend(s: seq<Path>, x: Path, key: Path -> nat, k: nat)
    ensures WithKey(s + [x], key, k) == if key(x) == k then WithKey(s, key, k) + [x] else WithKey(s, key, k)
  {
    assert (s + [x])[..|s|] == s;
  }

  lemma InsertMembers(s: seq<Path>, x: Path, key: Path -> nat)
    ensures multiset(InsertByKey(s, x, key)) == multiset(s) + multiset{x}
    ensures forall y :: y in InsertByKey(s, x, key) <==> y in s || y == x
  {
    if s != [] {
      var n := |s| - 1;
      assert s == s[..n] + [s[n]];
      InsertMembers(s[..n], x, key);
    }
  }

  lemma {:induction false} InsertSorted(s: seq<Path>, x: Path, key: Path -> nat)
    requires Sorted(s, key)
    ensures Sorted(InsertByKey(s, x, key), key)
  {
    if s != [] && key(s[|s| - 1]) > key(x) {
      var t, l := s[..|s| - 1], s[|s| - 1];
      InsertSorted(t, x, key);
      InsertMembers(t, x, key);
      forall y | y in InsertByKey(t, x, key) ensures key(y) <= key(l) {
        if y in t { assert exists i :: 0 <= i < |s| - 1 && s[i] == y; }
      }
    }
  }

  lemma {:induction false} InsertGroups(s: seq<Path>, x: Path, key: Path -> nat, k: nat)
    ensures WithKey(InsertByKey(s, x, key), key, k) == WithKey(s + [x], key, k)
  {
    if s != [] && key(s[|s| - 1]) > key(x) {
      var t, l := s[..|s| - 1], s[|s| - 1];
      assert s == t + [l];
      InsertGroups(t, x, key, k);
      SwapKeepsGroups(t, InsertByKey(t, x, key), l, x, key, k);
    }
  }

  lemma SwapKeepsGroups(t: seq<Path>, r: seq<Path>, l: Path, x: Path, key: Path -> nat, k: nat)
    requires WithKey(r, key, k) == WithKey(t + [x], key, k) && key(l) != key(x)
    ensures WithKey(r + [l], key, k) == WithKey(t + [l] + [x], key, k)
  {
    WithKeyAppend(r, l, key, k);
    WithKeyAppend(t, x, key, k);
    WithKeyAppend(t, l, key, k);
    WithKeyAppend(t + [l], x, key, k);
  }

  /** What the sort returns is a stable sort and a permutation of its input. */
  lemma {:induction false} SortIsStable(s: seq<Path>, key: Path -> nat)
    ensures IsStableSort(SortByKey(s, key), s, key)
    ensures multiset(SortByKey(s, key)) == multiset(s)
    ensures |SortByKey(s, key)| == |s|
  {
    if s != [] {
      var t, x := s[..|s| - 1], s[|s| - 1];
      assert s == t + [x];
      SortIsStable(t, key);
      var r := SortByKey(t, key);
      InsertSorted(r, x, key);
      InsertMembers(r, x, key);
      forall k ensures WithKey(SortByKey(s, key), key, k) == WithKey(s, key, k) {
        InsertGroups(r, x, key, k);
        WithKeyAppend(r, x, key, k);
        WithKeyAppend(t, x, key, k);
      }
      assert |multiset(SortByKey(s, key))| == |multiset(s)|;
    }
  }

  lemma WithKeyLast(s: seq<Path>, key: Path -> nat, k: nat)
    requires WithKey(s, key, k) != []
    ensures exists i :: 0 <= i < |s| && key(s[i]) == k
  {
    if key(s[|s| - 1]) != k { WithKeyLast(s[..|s| - 1], key, k); }
  }

  /** There is only one stable sort, so nothing about how it is computed matters. */
  lemma {:induction false} StableSortIsUnique(a: seq<Path>, b: seq<Path>, key: Path -> nat)
    requires Sorted(a, key) && Sorted(b, key)
    requires forall k :: WithKey(a, key, k) == WithKey(b, key, k)
    ensures a == b
  {
    if a == [] {
      OnlyEmpty(b, key);
    } else if b == [] {
      OnlyEmpty(a, key);
    } else {
      var n, m := |a| - 1, |b| - 1;
      SameLastMember(a, b, key);
      forall k ensures WithKey(a[..n], key, k) == WithKey(b[..m], key, k) { WithoutLast(a, b, key, k); }
      StableSortIsUnique(a[..n], b[..m], key);
      assert a == a[..n] + [a[n]] && b == b[..m] + [b[m]];
    }
  }

  lemma OnlyEmpty(s: seq<Path>, key: Path -> nat)
    requires forall k :: WithKey(s, key, k) == []
    ensures s == []
  {
    if s != [] { LastWithKey(s, key); }
  }

  lemma SameLastMember(a: seq<Path>, b: seq<Path>, key: Path -> nat)
    requires a != [] && b != [] && Sorted(a, key) && Sorted(b, key)
    requires forall k :: WithKey(a, key, k) == WithKey(b, key, k)
    ensures a[|a| - 1] == b[|b| - 1]
  {
    var x, y := a[|a| - 1], b[|b| - 1];
    LastWithKey(a, key);
    LastWithKey(b, key);
    assert WithKey(a, key, key(x)) == WithKey(b, key, key(x));
    assert WithKey(a, key, key(y)) == WithKey(b, key, key(y));
    WithKeyLast(b, key, key(x));
    WithKeyLast(a, key, key(y));
  }

  lemma LastWithKey(s: seq<Path>, key: Path -> nat)
    requires s != []
    ensures var l := s[|s| - 1]; var group := WithKey(s, key, key(l)); group != [] && group[|group| - 1] == l
  {
  }

  lemma WithoutLast(a: seq<Path>, b: seq<Path>, key: Path -> nat, k: nat)
    requires a != [] && b != [] && a[|a| - 1] == b[|b| - 1] && WithKey(a, key, k) == WithKey(b, key, k)
    ensures WithKey(a[..|a| - 1], key, k) == WithKey(b[..|b| - 1], key, k)
  {
    var x := a[|a| - 1];
    var u, v := WithKey(a[..|a| - 1], key, k), WithKey(b[..|b| - 1], key, k);
    if key(x) == k { assert (u + [x])[..|u|] == u && (v + [x])[..|v|] == v; }
  }

  /** Sorting repeats exactly what was repeated. */
  lemma SortKeepsNoDup(s: seq<Path>, key: Path -> nat)
    ensures NoDup(SortByKey(s, key)) <==> NoDup(s)
    ensures Elems(SortByKey(s, key)) == Elems(s)
    ensures Sorted(SortByKey(s, key), key) && |SortByKey(s, key)| == |s|
  {
    SortIsStable(s, key);
    NoDupCounts(s);
    NoDupCounts(SortByKey(s, key));
    forall p ensures p in SortByKey(s, key) <==> p in s {
      assert p in multiset(SortByKey(s, key)) <==> p in multiset(s);
    }
  }

  /** No two different paths of the set have the same key. */
  ghost predicate NoTies(paths: set<Path>, key: Path -> nat) {
    forall a, b {:trigger key(a), key(b)} :: a in paths && b in paths && key(a) == key(b) ==> a == b
  }

  lemma StrictAppend(s: seq<Path>, x: Path, key: Path -> nat)
    requires StrictlySorted(s, key) && forall y :: y in s ==> key(y) < key(x)
    ensures StrictlySorted(s + [x], key)
  {
    forall i | 0 <= i < |s| ensures key(s[i]) < key(x) { assert s[i] in s; }
  }

  lemma StrictSplit(s: seq<Path>, key: Path -> nat)
    requires s != [] && StrictlySorted(s, key)
    ensures var n := |s| - 1;
            StrictlySorted(s[..n], key) && forall y :: y in s[..n] ==> y in s && key(y) < key(s[n])
  {
  }

  lemma InsertStrict(s: seq<Path>, x: Path, key: Path -> nat)
    requires StrictlySorted(s, key) && forall y :: y in s ==> key(y) != key(x)
    ensures StrictlySorted(InsertByKey(s, x, key), key)
  {
    if s != [] {
      var t, l := s[..|s| - 1], s[|s| - 1];
      assert l in s;
      StrictSplit(s, key);
      if key(l) > key(x) {
        InsertStrict(t, x, key);
        InsertMembers(t, x, key);
        StrictAppend(InsertByKey(t, x, key), l, key);
      } else {
        assert forall y :: y in s ==> y in t || y == l;
        StrictAppend(s, x, key);
      }
    }
  }

  lemma SortStrict(s: seq<Path>, paths: set<Path>, key: Path -> nat)
    requires NoDup(s) && NoTies(paths, key) && forall y :: y in s ==> y in paths
    ensures StrictlySorted(SortByKey(s, key), key)
  {
    if s != [] {
      var t, x := s[..|s| - 1], s[|s| - 1];
      assert s == t + [x];
      AppendFresh(t, x);
      SortStrict(t, paths, key);
      SortIsStable(t, key);
      forall y | y in SortByKey(t, key) ensures key(y) != key(x) {
        assert y in multiset(SortByKey(t, key));
        assert y in t;
      }
      InsertStrict(SortByKey(t, key), x, key);
    }
  }
}
