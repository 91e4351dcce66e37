/**
 The hook execution engine's scheduling logic: ordering hooks by their dependencies, running them
 one after the other, and aggregating the results.  What a hook does when it runs is an oracle,
 indexed by position so that it may depend on everything that ran before.
 */
module HookExecution {
  import opened Graphs
  import opened TaskDependencyGraphs
  import opened Wrappers

  datatype Hook = Hook(id: Id, dependsOn: seq<Id>, alwaysRun: bool, concurrent: bool)

  function IdsOf(hooks: seq<Hook>): (ids: seq<Id>)
    ensures |ids| == |hooks|
    ensures forall i :: 0 <= i < |hooks| ==> ids[i] == hooks[i].id
  {
    seq(|hooks|, i requires 0 <= i < |hooks| => hooks[i].id)
  }

  predicate NoDependencies(hooks: seq<Hook>) {
    forall i :: 0 <= i < |hooks| ==> hooks[i].dependsOn == []
  }

  function AddEntries(g: Deps, a: Id, ds: seq<Id>): Deps {
    if ds == [] then g else g[a := DepsOf(g, a) + ds]
  }

  /** All `depends_on` lists, merged per identifier. */
  function DepMap(hooks: seq<Hook>): Deps {
    if hooks == [] then map[]
    else
      var h := hooks[|hooks| - 1];
      AddEntries(DepMap(hooks[..|hooks| - 1]), h.id, h.dependsOn)
  }

  ghost predicate Lists(hooks: seq<Hook>, a: Id, b: Id) {
    exists h :: h in hooks && h.id == a && b in h.dependsOn
  }

  /** The merged map relates exactly what some hook lists, also when identifiers repeat. */
  lemma {:induction false} DepMapMeaning(hooks: seq<Hook>)
    ensures forall a, b :: DependsOn(DepMap(hooks), a, b) <==> Lists(hooks, a, b)
    ensures forall a :: a in DepMap(hooks) ==> DepMap(hooks)[a] != [] && a in Elems(IdsOf(hooks))
  {
    if hooks != [] {
      var n := |hooks| - 1;
      var rest, h := hooks[..n], hooks[n];
      DepMapMeaning(rest);
      assert hooks == rest + [h];
      forall a, b ensures DependsOn(DepMap(hooks), a, b) <==> Lists(hooks, a, b) {
        assert DependsOn(DepMap(rest), a, b) <==> Lists(rest, a, b);
      }
      assert IdsOf(hooks) == IdsOf(rest) + [h.id];
    }
  }

  lemma DepMapPrefix(hooks: seq<Hook>, n: nat)
    requires n <= |hooks|
    ensures forall a, b :: DependsOn(DepMap(hooks[..n]), a, b) ==> DependsOn(DepMap(hooks), a, b)
    decreases |hooks| - n
  {
    if n < |hooks| {
      assert hooks[..n + 1][..n] == hooks[..n];
      DepMapPrefix(hooks, n + 1);
    } else {
      assert hooks[..n] == hooks;
    }
  }

  function Find(hooks: seq<Hook>, id: Id): (r: Option<Hook>)
    ensures r.Some? <==> id in Elems(IdsOf(hooks))
    ensures r.Some? ==> r.value in hooks && r.value.id == id
  {
    if hooks == [] then None
    else if hooks[0].id == id then
      assert IdsOf(hooks)[0] == id;
      Some(hooks[0])
    else
      assert IdsOf(hooks) == [hooks[0].id] + IdsOf(hooks[1..]);
      Find(hooks[1..], id)
  }

  /** Of several hooks with its id, `h` is the first. */
  ghost predicate IsFirst(hooks: seq<Hook>, h: Hook) {
    exists i :: 0 <= i < |hooks| && hooks[i] == h && forall j :: 0 <= j < i ==> hooks[j].id != h.id
  }

  lemma {:induction false} FindIsFirst(hooks: seq<Hook>, id: Id)
    requires Find(hooks, id).Some?
    ensures IsFirst(hooks, Find(hooks, id).value)
  {
    var i := FirstPosition(hooks, id);
  }

  lemma {:induction false} FirstPosition(hooks: seq<Hook>, id: Id) returns (i: nat)
    requires Find(hooks, id).Some?
    ensures i < |hooks| && hooks[i] == Find(hooks, id).value && forall j :: 0 <= j < i ==> hooks[j].id != id
  {
    if hooks[0].id == id {
      i := 0;
    } else {
      var k := FirstPosition(hooks[1..], id);
      FindLater(hooks, id);
      PositionLater(hooks, id, k);
      i := k + 1;
    }
  }

  lemma FindLater(hooks: seq<Hook>, id: Id)
    requires hooks != [] && hooks[0].id != id
    ensures Find(hooks, id) == Find(hooks[1..], id)
  {
  }

  lemma PositionLater(hooks: seq<Hook>, id: Id, k: nat)
    requires hooks != [] && hooks[0].id != id && k < |hooks[1..]|
    requires forall j :: 0 <= j < k ==> hooks[1..][j].id != id
    ensures hooks[k + 1] == hooks[1..][k] && forall j :: 0 <= j < k + 1 ==> hooks[j].id != id
  {
    var rest := hooks[1..];
    forall j | 0 < j < k + 1 ensures hooks[j].id != id { assert rest[j - 1] == hooks[j]; }
  }

  lemma FindDistinct(hooks: seq<Hook>, h: Hook)
    requires forall i, j :: 0 <= i < j < |hooks| ==> hooks[i].id != hooks[j].id
    requires h in hooks
    ensures Find(hooks, h.id) == Some(h)
  {
    if hooks[0] != h {
      var k :| 0 <= k < |hooks| && hooks[k] == h;
      assert hooks[0].id != hooks[k].id;
      FindDistinct(hooks[1..], h);
    }
  }

  /** Duplicate-free lists with the same members are permutations of each other. */
  lemma SameElements<T>(s: seq<T>, t: seq<T>)
    requires NoDup(s) && NoDup(t)
    requires forall x :: x in s <==> x in t
    ensures multiset(s) == multiset(t)
  {
    forall x ensures multiset(s)[x] == multiset(t)[x] {
      OnceEach(s, x);
      OnceEach(t, x);
    }
  }

  lemma OnceEach<T>(s: seq<T>, x: T)
    requires NoDup(s)
    ensures multiset(s)[x] == if x in s then 1 else 0
  {
    if s != [] {
      var n := |s| - 1;
      assert s == s[..n] + [s[n]];
      AppendFresh(s[..n], s[n]);
      OnceEach(s[..n], x);
    }
  }

  lemma DistinctIds(hooks: seq<Hook>)
    requires NoDup(IdsOf(hooks))
    ensures forall i, j :: 0 <= i < j < |hooks| ==> hooks[i].id != hooks[j].id
  {
    NoDupPairs(IdsOf(hooks));
    assert forall i :: 0 <= i < |hooks| ==> IdsOf(hooks)[i] == hooks[i].id;
  }

  lemma NoDupIds(hooks: seq<Hook>)
    requires NoDup(IdsOf(hooks))
    ensures NoDup(hooks)
  {
    NoDupPairs(IdsOf(hooks));
    forall i, j | 0 <= i < j < |hooks| ensures hooks[i] != hooks[j] {
      assert IdsOf(hooks)[i] != IdsOf(hooks)[j];
    }
    NoDupPairs(hooks);
  }

  /** Looking the ordered identifiers up gives back the input hooks, unless an identifier repeats. */
  lemma LookupIsPermutation(hooks: seq<Hook>, ordered: seq<Hook>)
    requires NoDup(IdsOf(ordered)) && Elems(IdsOf(ordered)) == Elems(IdsOf(hooks))
    requires forall i :: 0 <= i < |ordered| ==> Find(hooks, ordered[i].id) == Some(ordered[i])
    ensures multiset(ordered) == multiset(hooks) <==> NoDup(IdsOf(hooks))
    ensures |ordered| <= |hooks|
  {
    var ids := IdsOf(hooks);
    DistinctCount(IdsOf(ordered));
    FewerThanEntries(ids);
    assert |ordered| == |Elems(ids)| <= |hooks|;
    if NoDup(ids) {
      LookupFindsAll(hooks, ordered);
    } else {
      SameMultisetSameLength(ordered, hooks);
    }
  }

  lemma SameMultisetSameLength<T>(s: seq<T>, t: seq<T>)
    ensures multiset(s) == multiset(t) ==> |s| == |t|
  {
    assert |multiset(s)| == |s| && |multiset(t)| == |t|;
  }

  lemma LookupFindsAll(hooks: seq<Hook>, ordered: seq<Hook>)
    requires NoDup(IdsOf(ordered)) && Elems(IdsOf(ordered)) == Elems(IdsOf(hooks))
    requires forall i :: 0 <= i < |ordered| ==> Find(hooks, ordered[i].id) == Some(ordered[i])
    requires NoDup(IdsOf(hooks))
    ensures multiset(ordered) == multiset(hooks)
  {
    NoDupIds(hooks);
    NoDupIds(ordered);
    DistinctIds(hooks);
    forall h | h in hooks ensures h in ordered {
      FindDistinct(hooks, h);
      assert h.id in Elems(IdsOf(hooks));
      var i :| 0 <= i < |ordered| && IdsOf(ordered)[i] == h.id;
      assert ordered[i] == h;
    }
    SameElements(ordered, hooks);
  }

  lemma FewerThanEntries(s: seq<Id>)
    ensures |Elems(s)| <= |s|
    ensures !NoDup(s) ==> |Elems(s)| < |s|
  {
    if s != [] {
      var n := |s| - 1;
      assert s == s[..n] + [s[n]];
      AppendFresh(s[..n], s[n]);
      FewerThanEntries(s[..n]);
      assert Elems(s) == Elems(s[..n]) + {s[n]};
      if s[n] in s[..n] {
        assert Elems(s) == Elems(s[..n]);
      }
    }
  }

  /** Every listed dependency is a hook of the batch, and no cycle exists. */
  ghost predicate Schedulable(hooks: seq<Hook>) {
    Closed(DepMap(hooks), Elems(IdsOf(hooks))) && Acyclic(DepMap(hooks))
  }

  /** What a successful ordering promises. */
  ghost predicate OrdersHooks(hooks: seq<Hook>, ordered: seq<Hook>) {
    && DepsFirst(DepMap(hooks), IdsOf(ordered))
    && Elems(IdsOf(ordered)) == Elems(IdsOf(hooks))
    && |ordered| <= |hooks|
    && (multiset(ordered) == multiset(hooks) <==> NoDup(IdsOf(hooks)) || NoDependencies(hooks))
  }

  lemma NoDependenciesNoLinks(hooks: seq<Hook>)
    requires NoDependencies(hooks)
    ensures forall a, b :: !DependsOn(DepMap(hooks), a, b)
    ensures Acyclic(DepMap(hooks))
  {
    DepMapMeaning(hooks);
    OrderMakesAcyclic(DepMap(hooks), []);
  }

  /**
   Succeeds exactly when every listed dependency is one of the hooks and no cycle exists, whether
   or not identifiers repeat; nothing but the order changes as long as they do not.
   */
  method ResolveHookDependencies(hooks: seq<Hook>) returns (r: Result<seq<Hook>>)
    ensures r.Ok? <==> Schedulable(hooks)
    ensures r.Ok? ==> OrdersHooks(hooks, r.value)
    ensures (forall h :: h in hooks ==> h.dependsOn == []) ==> r == Ok(hooks)
    ensures r.Ok? && (exists h :: h in hooks && h.dependsOn != []) ==>
              NoDup(IdsOf(r.value)) && forall h :: h in r.value ==> IsFirst(hooks, h)
  {
    if forall i :: 0 <= i < |hooks| ==> hooks[i].dependsOn == [] {
      NoDependenciesNoLinks(hooks);
      return Ok(hooks);
    }
    var graph := new TaskDependencyGraph();
    AddTasks(graph, hooks);
    var added := AddDependencies(graph, hooks);
    if added.Err? { return Err(added.error); }

    var cyclesOk := graph.DetectCycles();
    if !cyclesOk { return Err(CircularDependency); }
    // a graph that took every dependency always resolves, so there is no error left to pass on
    var order := graph.ResolveExecutionOrder();
    var ordered := LookupAll(hooks, order.value);
    LookupIsPermutation(hooks, ordered);
    forall h | h in ordered ensures IsFirst(hooks, h) { FindIsFirst(hooks, h.id); }
    return Ok(ordered);
  }

  method AddTasks(graph: TaskDependencyGraph, hooks: seq<Hook>)
    requires graph.Valid() && graph.tasks == map[]
    modifies graph`tasks
    ensures graph.Valid() && graph.tasks.Keys == Elems(IdsOf(hooks))
  {
    for i := 0 to |hooks|
      invariant graph.Valid()
      invariant graph.tasks.Keys == Elems(IdsOf(hooks[..i]))
    {
      assert IdsOf(hooks[..i + 1]) == IdsOf(hooks[..i]) + [hooks[i].id];
      graph.AddTask(TaskConfig(hooks[i].id, 0));
    }
    assert hooks[..|hooks|] == hooks;
  }

  method AddDependencies(graph: TaskDependencyGraph, hooks: seq<Hook>) returns (r: Result<()>)
    requires graph.Valid() && graph.edges == map[] && graph.tasks.Keys == Elems(IdsOf(hooks))
    modifies graph`edges
    ensures graph.Valid()
    ensures r.Ok? <==> Schedulable(hooks)
    ensures r.Ok? ==> graph.edges == DepMap(hooks)
  {
    for i := 0 to |hooks|
      invariant graph.Valid() && graph.edges == DepMap(hooks[..i])
    {
      assert hooks[..i + 1][..i] == hooks[..i];
      r := AddHookDependencies(graph, hooks, i);
      if r.Err? { return; }
    }
    assert hooks[..|hooks|] == hooks;
    return Ok(());
  }

  method AddHookDependencies(graph: TaskDependencyGraph, hooks: seq<Hook>, i: nat) returns (r: Result<()>)
    requires i < |hooks|
    requires graph.Valid() && graph.edges == DepMap(hooks[..i]) && graph.tasks.Keys == Elems(IdsOf(hooks))
    modifies graph`edges
    ensures graph.Valid()
    ensures r.Err? ==> !Schedulable(hooks)
    ensures r.Ok? ==> graph.edges == DepMap(hooks[..i + 1])
  {
    var hook := hooks[i];
    assert IdsOf(hooks)[i] == hook.id;
    for j := 0 to |hook.dependsOn|
      invariant graph.Valid()
      invariant graph.edges == AddEntries(DepMap(hooks[..i]), hook.id, hook.dependsOn[..j])
    {
      RejectedMeansBad(hooks, i, j, graph.edges);
      AddOneEntry(DepMap(hooks[..i]), hook.id, hook.dependsOn, j);
      r := graph.AddDependency(hook.id, hook.dependsOn[j]);
      if r.Err? { return; }
    }
    assert hook.dependsOn[..|hook.dependsOn|] == hook.dependsOn;
    assert hooks[..i + 1][..i] == hooks[..i];
    return Ok(());
  }

  lemma AddOneEntry(g: Deps, a: Id, ds: seq<Id>, j: nat)
    requires j < |ds|
    ensures AddEntries(g, a, ds[..j + 1]) == WithDependency(AddEntries(g, a, ds[..j]), a, ds[j])
  {
    assert ds[..j + 1] == ds[..j] + [ds[j]];
    var g' := AddEntries(g, a, ds[..j]);
    assert DepsOf(g', a) == DepsOf(g, a) + ds[..j];
    assert DepsOf(g, a) + ds[..j + 1] == DepsOf(g', a) + [ds[j]];
  }

  method LookupAll(hooks: seq<Hook>, order: seq<Id>) returns (ordered: seq<Hook>)
    requires Elems(order) <= Elems(IdsOf(hooks))
    ensures IdsOf(ordered) == order
    ensures forall i :: 0 <= i < |ordered| ==> Find(hooks, ordered[i].id) == Some(ordered[i])
  {
    ordered := [];
    for k := 0 to |order|
      invariant IdsOf(ordered) == order[..k]
      invariant forall i :: 0 <= i < |ordered| ==> Find(hooks, ordered[i].id) == Some(ordered[i])
    {
      assert order[k] in Elems(order);
      var found := Find(hooks, order[k]);
      if found.Some? {
        ordered := ordered + [found.value];
      }
    }
  }

  lemma RejectedMeansBad(hooks: seq<Hook>, i: nat, j: nat, edges: Deps)
    requires i < |hooks| && j < |hooks[i].dependsOn|
    requires edges == AddEntries(DepMap(hooks[..i]), hooks[i].id, hooks[i].dependsOn[..j])
    ensures DependsOn(DepMap(hooks), hooks[i].id, hooks[i].dependsOn[j])
    ensures Acyclic(DepMap(hooks)) ==> Acyclic(WithDependency(edges, hooks[i].id, hooks[i].dependsOn[j]))
  {
    var h := hooks[i];
    DepMapPrefix(hooks, i);
    DepMapMeaning(hooks);
    var after := WithDependency(edges, h.id, h.dependsOn[j]);
    forall a, b | DependsOn(after, a, b) ensures DependsOn(DepMap(hooks), a, b) {
      if !DependsOn(DepMap(hooks[..i]), a, b) {
        assert a == h.id && b in h.dependsOn;
        assert Lists(hooks, a, b);
      }
    }
    assert Lists(hooks, h.id, h.dependsOn[j]);
    SubrelationAcyclic(after, DepMap(hooks));
  }

  // ---------- Sequential execution ----------

  type Path = string

  datatype HookResult = HookResult(hookId: Id, success: bool, skipped: bool, duration: nat, filesModified: seq<Path>)

  /** What running a hook yields: a result, or an engine error. */
  datatype Outcome =
    | Completed(success: bool, skipped: bool, duration: nat, filesModified: seq<Path>)
    | EngineError

  /** An engine error counts as a failed run that took no time and modified nothing. */
  function ResultOf(o: Outcome, id: Id): HookResult {
    match o
    case Completed(success, skipped, duration, files) => HookResult(id, success, skipped, duration, files)
    case EngineError => HookResult(id, false, false, 0, [])
  }

  /** The result of each position, if it runs. */
  function Results(hooks: seq<Hook>, outcomes: seq<Outcome>): (rs: seq<HookResult>)
    requires |hooks| <= |outcomes|
    ensures |rs| == |hooks|
    ensures forall i :: 0 <= i < |hooks| ==> rs[i] == ResultOf(outcomes[i], hooks[i].id)
  {
    seq(|hooks|, i requires 0 <= i < |hooks| => ResultOf(outcomes[i], hooks[i].id))
  }

  function ResultIds(rs: seq<HookResult>): (ids: seq<Id>) {
    if rs == [] then [] else ResultIds(rs[..|rs| - 1]) + [rs[|rs| - 1].hookId]
  }

  lemma ResultIdsAppend(rs: seq<HookResult>, r: HookResult)
    ensures ResultIds(rs + [r]) == ResultIds(rs) + [r.hookId]
  {
    assert (rs + [r])[..|rs|] == rs;
  }

  lemma ResultIdsAreIds(hooks: seq<Hook>, outcomes: seq<Outcome>, n: nat)
    requires n <= |hooks| <= |outcomes|
    ensures ResultIds(Results(hooks, outcomes)[..n]) == IdsOf(hooks)[..n]
  {
    if n > 0 {
      var rs := Results(hooks, outcomes);
      assert rs[..n] == rs[..n - 1] + [rs[n - 1]];
      ResultIdsAppend(rs[..n - 1], rs[n - 1]);
      ResultIdsAreIds(hooks, outcomes, n - 1);
    }
  }

  /** `Broken` is a hook that a parallel run could not finish; the sequential run calls it failed. */
  datatype Fate = Passed | Failed | Skipped | Broken

  /** The results of those of the first `|fates|` positions that met fate `f`, in order. */
  function WithFate(rs: seq<HookResult>, fates: seq<Fate>, f: Fate): seq<HookResult>
    requires |fates| <= |rs|
  {
    if fates == [] then []
    else
      var n := |fates| - 1;
      var picked := WithFate(rs, fates[..n], f);
      if fates[n] == f then picked + [rs[n]] else picked
  }

  lemma WithFateAppend(rs: seq<HookResult>, fates: seq<Fate>, fate: Fate, f: Fate)
    requires |fates| < |rs|
    ensures WithFate(rs, fates + [fate], f) ==
            if fate == f then WithFate(rs, fates, f) + [rs[|fates|]] else WithFate(rs, fates, f)
  {
    assert (fates + [fate])[..|fates|] == fates;
  }

  /** Whether and why position `i` is skipped, and what becomes of it otherwise. */
  ghost predicate FateOk(hooks: seq<Hook>, failFast: bool, noFiles: bool, rs: seq<HookResult>, fates: seq<Fate>, i: nat)
    requires i < |fates| <= |hooks| == |rs|
  {
    var skip := (failFast && Failed in fates[..i]) || (noFiles && !hooks[i].alwaysRun) || rs[i].skipped;
    fates[i] == if skip then Skipped else if rs[i].success then Passed else Failed
  }

  /** `fates` is an account of the first `|fates|` positions of the run. */
  ghost predicate AreFates(hooks: seq<Hook>, failFast: bool, noFiles: bool, rs: seq<HookResult>, fates: seq<Fate>) {
    && |fates| <= |hooks| == |rs|
    && forall i {:trigger FateOk(hooks, failFast, noFiles, rs, fates, i)} ::
         0 <= i < |fates| ==> FateOk(hooks, failFast, noFiles, rs, fates, i)
  }

  /** The same account in terms of what the hooks did: nothing but a failure or an engine error fails. */
  ghost predicate Account(hooks: seq<Hook>, failFast: bool, noFiles: bool, outcomes: seq<Outcome>, fates: seq<Fate>)
    requires |fates| == |hooks| <= |outcomes|
  {
    forall i {:trigger IsAccounted(hooks, failFast, noFiles, outcomes, fates, i)} :: 0 <= i < |fates| ==>
      IsAccounted(hooks, failFast, noFiles, outcomes, fates, i)
  }

  ghost predicate IsAccounted(hooks: seq<Hook>, failFast: bool, noFiles: bool, outcomes: seq<Outcome>,
                              fates: seq<Fate>, i: nat)
    requires i < |fates| == |hooks| <= |outcomes|
  {
    var o := outcomes[i];
    && (fates[i] == Skipped <==>
          || (failFast && exists j :: 0 <= j < i && fates[j] == Failed)
          || (noFiles && !hooks[i].alwaysRun)
          || (o.Completed? && o.skipped))
    && (fates[i] == Passed ==> o.Completed? && o.success)
    && (fates[i] == Failed ==> o.EngineError? || !o.success)
    && fates[i] != Broken
  }

  lemma AccountIff(hooks: seq<Hook>, failFast: bool, noFiles: bool, outcomes: seq<Outcome>, fates: seq<Fate>)
    requires |fates| == |hooks| <= |outcomes|
    ensures AreFates(hooks, failFast, noFiles, Results(hooks, outcomes), fates) <==>
            Account(hooks, failFast, noFiles, outcomes, fates)
  {
    var rs := Results(hooks, outcomes);
    forall i | 0 <= i < |fates|
      ensures FateOk(hooks, failFast, noFiles, rs, fates, i) <==>
              IsAccounted(hooks, failFast, noFiles, outcomes, fates, i)
    {
      AccountedIffOk(hooks, failFast, noFiles, outcomes, fates, i);
    }
    if Account(hooks, failFast, noFiles, outcomes, fates) {
      forall i | 0 <= i < |fates| ensures FateOk(hooks, failFast, noFiles, rs, fates, i) {
        assert IsAccounted(hooks, failFast, noFiles, outcomes, fates, i);
      }
    }
    if AreFates(hooks, failFast, noFiles, rs, fates) {
      forall i | 0 <= i < |fates| ensures IsAccounted(hooks, failFast, noFiles, outcomes, fates, i) {
        assert FateOk(hooks, failFast, noFiles, rs, fates, i);
      }
    }
  }

  lemma AccountedIffOk(hooks: seq<Hook>, failFast: bool, noFiles: bool, outcomes: seq<Outcome>, fates: seq<Fate>,
                       i: nat)
    requires i < |fates| == |hooks| <= |outcomes|
    ensures FateOk(hooks, failFast, noFiles, Results(hooks, outcomes), fates, i) <==>
            IsAccounted(hooks, failFast, noFiles, outcomes, fates, i)
  {
    assert Failed in fates[..i] <==> exists j :: 0 <= j < i && fates[j] == Failed by {
      if Failed in fates[..i] { var j :| 0 <= j < i && fates[..i][j] == Failed; assert fates[j] == Failed; }
      forall j | 0 <= j < i && fates[j] == Failed ensures Failed in fates[..i] { assert fates[..i][j] == Failed; }
    }
  }

  /** The positions that met fate `f`, in order. */
  ghost predicate IsSelection(at: seq<nat>, fates: seq<Fate>, f: Fate) {
    && (forall i, j :: 0 <= i < j < |at| ==> at[i] < at[j])
    && forall k: nat :: k in at <==> k < |fates| && fates[k] == f
  }

  /** `list` holds exactly the results of those positions, in order. */
  ghost predicate Selects(list: seq<HookResult>, rs: seq<HookResult>, fates: seq<Fate>, f: Fate)
    requires |fates| <= |rs|
  {
    exists at: seq<nat> :: IsSelection(at, fates, f) && SelectsAt(at, list, rs)
  }

  ghost predicate SelectsAt(at: seq<nat>, list: seq<HookResult>, rs: seq<HookResult>) {
    |at| == |list| && forall j :: 0 <= j < |at| ==> at[j] < |rs| && list[j] == rs[at[j]]
  }

  lemma WithFateSelects(rs: seq<HookResult>, fates: seq<Fate>, f: Fate)
    requires |fates| <= |rs|
    ensures Selects(WithFate(rs, fates, f), rs, fates, f)
  {
    var at := SelectionOf(rs, fates, f);
  }

  lemma {:induction false} SelectionOf(rs: seq<HookResult>, fates: seq<Fate>, f: Fate) returns (at: seq<nat>)
    requires |fates| <= |rs|
    ensures IsSelection(at, fates, f) && SelectsAt(at, WithFate(rs, fates, f), rs)
  {
    if fates == [] {
      at := [];
    } else {
      var n := |fates| - 1;
      var before := SelectionOf(rs, fates[..n], f);
      SelectionGrows(before, fates, f);
      at := if fates[n] == f then before + [n] else before;
      ListGrows(before, WithFate(rs, fates[..n], f), rs, n);
    }
  }

  lemma ListGrows(at: seq<nat>, list: seq<HookResult>, rs: seq<HookResult>, n: nat)
    requires SelectsAt(at, list, rs) && n < |rs|
    ensures SelectsAt(at + [n], list + [rs[n]], rs)
  {
  }

  lemma SelectionGrows(at: seq<nat>, fates: seq<Fate>, f: Fate)
    requires fates != [] && IsSelection(at, fates[..|fates| - 1], f)
    ensures IsSelection(if fates[|fates| - 1] == f then at + [|fates| - 1] else at, fates, f)
  {
    var n := |fates| - 1;
    var more: seq<nat> := if fates[n] == f then at + [n] else at;
    forall j | 0 <= j < |at| ensures at[j] < n { assert at[j] in at; }
    forall k: nat ensures k in more <==> k < |fates| && fates[k] == f {
      assert k in more <==> k in at || (fates[n] == f && k == n);
      assert k in at <==> k < n && fates[..n][k] == f;
    }
  }

  /** How often `x` occurs in `s`. */
  function Times(s: seq<Id>, x: Id): nat {
    if s == [] then 0 else Times(s[..|s| - 1], x) + (if s[|s| - 1] == x then 1 else 0)
  }

  lemma TimesAppend(s: seq<Id>, y: Id, x: Id)
    ensures Times(s + [y], x) == Times(s, x) + if y == x then 1 else 0
  {
    assert (s + [y])[..|s|] == s;
  }

  /** How many of the positions that met fate `f` belong to hook `x`. */
  function FateTimes(rs: seq<HookResult>, fates: seq<Fate>, f: Fate, x: Id): nat
    requires |fates| <= |rs|
  {
    Times(ResultIds(WithFate(rs, fates, f)), x)
  }

  lemma FateTimesAppend(rs: seq<HookResult>, fates: seq<Fate>, fate: Fate, f: Fate, x: Id)
    requires |fates| < |rs|
    ensures FateTimes(rs, fates + [fate], f, x) ==
            FateTimes(rs, fates, f, x) + if fate == f && rs[|fates|].hookId == x then 1 else 0
  {
    WithFateAppend(rs, fates, fate, f);
    ResultIdsAppend(WithFate(rs, fates, f), rs[|fates|]);
    TimesAppend(ResultIds(WithFate(rs, fates, f)), rs[|fates|].hookId, x);
  }

  /** Counting what met each fate gives every hook exactly once. */
  lemma {:induction false} EveryHookHasOneFate(rs: seq<HookResult>, fates: seq<Fate>, x: Id)
    requires |fates| <= |rs|
    ensures FateTimes(rs, fates, Passed, x) + FateTimes(rs, fates, Failed, x) + FateTimes(rs, fates, Skipped, x)
            + FateTimes(rs, fates, Broken, x) == Times(ResultIds(rs[..|fates|]), x)
    decreases |fates|
  {
    if |fates| > 0 {
      var n := |fates| - 1;
      var before, fate := fates[..n], fates[n];
      assert fates == before + [fate];
      EveryHookHasOneFate(rs, before, x);
      FateTimesAppend(rs, before, fate, Passed, x);
      FateTimesAppend(rs, before, fate, Failed, x);
      FateTimesAppend(rs, before, fate, Skipped, x);
      FateTimesAppend(rs, before, fate, Broken, x);
      OneMoreResult(rs, n, x);
    }
  }

  lemma NobodyMet(rs: seq<HookResult>, fates: seq<Fate>, f: Fate)
    requires |fates| <= |rs| && f !in fates
    ensures WithFate(rs, fates, f) == []
  {
    if fates != [] {
      var n := |fates| - 1;
      assert fates == fates[..n] + [fates[n]];
      NobodyMet(rs, fates[..n], f);
    }
  }

  lemma OneMoreResult(rs: seq<HookResult>, n: nat, x: Id)
    requires n < |rs|
    ensures Times(ResultIds(rs[..n + 1]), x) == Times(ResultIds(rs[..n]), x) + if rs[n].hookId == x then 1 else 0
  {
    assert rs[..n + 1] == rs[..n] + [rs[n]];
    ResultIdsAppend(rs[..n], rs[n]);
    TimesAppend(ResultIds(rs[..n]), rs[n].hookId, x);
  }

  /** Under fail-fast at most one hook fails, and whatever follows it is skipped. */
  lemma FailFastStops(hooks: seq<Hook>, noFiles: bool, rs: seq<HookResult>, fates: seq<Fate>, k: nat)
    requires AreFates(hooks, true, noFiles, rs, fates)
    requires k < |fates| && fates[k] == Failed
    ensures forall i :: k < i < |fates| ==> fates[i] == Skipped
    ensures forall i :: 0 <= i < k ==> fates[i] != Failed
  {
    forall i | k < i < |fates| ensures fates[i] == Skipped {
      assert FateOk(hooks, true, noFiles, rs, fates, i);
      assert fates[..i][k] == Failed;
    }
    forall i | 0 <= i < k ensures fates[i] != Failed {
      assert FateOk(hooks, true, noFiles, rs, fates, k);
      assert fates[..k][i] == fates[i];
    }
  }

  /** The fates are determined: two accounts of the same run agree. */
  lemma {:induction false} FatesUnique(hooks: seq<Hook>, failFast: bool, noFiles: bool, rs: seq<HookResult>,
                                       f: seq<Fate>, g: seq<Fate>, n: nat)
    requires AreFates(hooks, failFast, noFiles, rs, f) && AreFates(hooks, failFast, noFiles, rs, g)
    requires n <= |f| && n <= |g|
    ensures f[..n] == g[..n]
  {
    if n > 0 {
      FatesUnique(hooks, failFast, noFiles, rs, f, g, n - 1);
      assert FateOk(hooks, failFast, noFiles, rs, f, n - 1);
      assert FateOk(hooks, failFast, noFiles, rs, g, n - 1);
      assert f[..n] == f[..n - 1] + [f[n - 1]];
      assert g[..n] == g[..n - 1] + [g[n - 1]];
    }
  }

  ghost predicate ModifiedBy(rs: seq<HookResult>, f: Path) {
    exists r :: r in rs && f in r.filesModified
  }

  lemma ModifiedByOneMore(rs: seq<HookResult>, r: HookResult, f: Path)
    ensures ModifiedBy(rs + [r], f) <==> ModifiedBy(rs, f) || f in r.filesModified
  {
    if f in r.filesModified { assert r in rs + [r]; }
    if x :| x in rs && f in x.filesModified { assert x in rs + [r]; }
  }

  class ExecutionResult {
    var success: bool
    var hooksExecuted: nat
    var hooksPassed: seq<HookResult>
    var hooksFailed: seq<HookResult>
    var hooksSkipped: seq<Id>
    var totalDuration: nat
    var filesModified: seq<Path>

    ghost predicate Valid()
      reads this
    {
      && hooksExecuted == |hooksPassed| + |hooksFailed|
      && (success <==> hooksFailed == [])
      && (forall r :: r in hooksPassed ==> r.success)
      && (forall r :: r in hooksFailed ==> !r.success)
      && NoDup(filesModified)
      && (forall f :: f in filesModified <==> ModifiedBy(hooksPassed, f) || ModifiedBy(hooksFailed, f))
    }

    constructor ()
      ensures Valid()
      ensures hooksPassed == hooksFailed == [] && hooksSkipped == [] && totalDuration == 0
    {
      success, hooksExecuted := true, 0;
      hooksPassed, hooksFailed, hooksSkipped := [], [], [];
      totalDuration, filesModified := 0, [];
    }

    method AddResult(result: HookResult)
      requires Valid()
      modifies this
      ensures Valid()
      ensures hooksPassed == if result.success then old(hooksPassed) + [result] else old(hooksPassed)
      ensures hooksFailed == if result.success then old(hooksFailed) else old(hooksFailed) + [result]
      ensures hooksSkipped == old(hooksSkipped)
      ensures totalDuration == old(totalDuration) + result.duration
      ensures old(filesModified) <= filesModified
    {
      hooksExecuted := hooksExecuted + 1;
      totalDuration := totalDuration + result.duration;
      CollectFiles(result.filesModified);
      forall f ensures ModifiedBy(hooksPassed + [result], f) <==>
          ModifiedBy(hooksPassed, f) || f in result.filesModified {
        ModifiedByOneMore(hooksPassed, result, f);
      }
      forall f ensures ModifiedBy(hooksFailed + [result], f) <==>
          ModifiedBy(hooksFailed, f) || f in result.filesModified {
        ModifiedByOneMore(hooksFailed, result, f);
      }
      if result.success {
        hooksPassed := hooksPassed + [result];
      } else {
        success := false;
        hooksFailed := hooksFailed + [result];
      }
    }

    method CollectFiles(files: seq<Path>)
      requires NoDup(filesModified)
      modifies this`filesModified
      ensures NoDup(filesModified) && old(filesModified) <= filesModified
      ensures forall f :: f in filesModified <==> f in old(filesModified) || f in files
    {
      for i := 0 to |files|
        invariant NoDup(filesModified) && old(filesModified) <= filesModified
        invariant forall f :: f in filesModified <==> f in old(filesModified) || f in files[..i]
      {
        if files[i] !in filesModified {
          AppendFresh(filesModified, files[i]);
          filesModified := filesModified + [files[i]];
        }
        assert files[..i + 1] == files[..i] + [files[i]];
      }
      assert files[..|files|] == files;
    }

    method AddSkipped(hookId: Id)
      requires Valid()
      modifies this`hooksSkipped
      ensures Valid()
      ensures hooksSkipped == old(hooksSkipped) + [hookId]
    {
      hooksSkipped := hooksSkipped + [hookId];
    }
  }

  /** The three lists of `result` hold exactly what `fates` says. */
  ghost predicate Reports(result: ExecutionResult, rs: seq<HookResult>, fates: seq<Fate>)
    reads result
  {
    && |fates| <= |rs|
    && result.hooksPassed == WithFate(rs, fates, Passed)
    && result.hooksFailed == WithFate(rs, fates, Failed)
    && result.hooksSkipped == ResultIds(WithFate(rs, fates, Skipped))
    && (result.success <==> Failed !in fates)
  }

  /** How often the three lists of `result` together name `x`. */
  ghost function ListedTimes(result: ExecutionResult, x: Id): nat
    reads result
  {
    Times(ResultIds(result.hooksPassed), x) + Times(ResultIds(result.hooksFailed), x) + Times(result.hooksSkipped, x)
  }

  /** The loop over the ordered hooks; `fates` records what became of each. */
  method ExecuteHooksSequential(hooks: seq<Hook>, failFast: bool, noFiles: bool, outcomes: seq<Outcome>)
    returns (result: ExecutionResult, ghost fates: seq<Fate>)
    requires |hooks| <= |outcomes|
    ensures fresh(result) && result.Valid()
    ensures |fates| == |hooks|
    ensures AreFates(hooks, failFast, noFiles, Results(hooks, outcomes), fates)
    ensures Account(hooks, failFast, noFiles, outcomes, fates)
    ensures Reports(result, Results(hooks, outcomes), fates)
    ensures forall x :: ListedTimes(result, x) == Times(IdsOf(hooks), x)
  {
    result := new ExecutionResult();
    fates := [];
    ghost var rs := Results(hooks, outcomes);
    for i := 0 to |hooks|
      invariant fresh(result) && result.Valid()
      invariant |fates| == i
      invariant AreFates(hooks, failFast, noFiles, rs, fates)
      invariant Reports(result, rs, fates)
    {
      var fate := RunPosition(result, hooks[i], failFast, noFiles, outcomes[i]);
      NextFate(hooks, failFast, noFiles, rs, fates, fate);
      WithFateAppend(rs, fates, fate, Passed);
      WithFateAppend(rs, fates, fate, Failed);
      WithFateAppend(rs, fates, fate, Skipped);
      ResultIdsAppend(WithFate(rs, fates, Skipped), rs[i]);
      fates := fates + [fate];
    }
    AccountIff(hooks, failFast, noFiles, outcomes, fates);
    forall x ensures ListedTimes(result, x) == Times(IdsOf(hooks), x) {
      AllListed(hooks, failFast, noFiles, outcomes, fates, x);
    }
  }

  lemma AllListed(hooks: seq<Hook>, failFast: bool, noFiles: bool, outcomes: seq<Outcome>, fates: seq<Fate>, x: Id)
    requires |fates| == |hooks| <= |outcomes| && AreFates(hooks, failFast, noFiles, Results(hooks, outcomes), fates)
    ensures var rs := Results(hooks, outcomes);
            FateTimes(rs, fates, Passed, x) + FateTimes(rs, fates, Failed, x) + FateTimes(rs, fates, Skipped, x)
            == Times(IdsOf(hooks), x)
  {
    var rs := Results(hooks, outcomes);
    ResultIdsAreIds(hooks, outcomes, |hooks|);
    assert IdsOf(hooks)[..|hooks|] == IdsOf(hooks) && rs[..|rs|] == rs;
    forall i | 0 <= i < |fates| ensures fates[i] != Broken {
      assert FateOk(hooks, failFast, noFiles, rs, fates, i);
    }
    NobodyMet(rs, fates, Broken);
    EveryHookHasOneFate(rs, fates, x);
  }

  /** The body of the loop: one hook is skipped, or runs and is recorded. */
  method RunPosition(result: ExecutionResult, hook: Hook, failFast: bool, noFiles: bool, outcome: Outcome)
    returns (fate: Fate)
    requires result.Valid()
    modifies result
    ensures result.Valid()
    ensures var r := ResultOf(outcome, hook.id);
            && fate == (if (failFast && !old(result.success)) || (noFiles && !hook.alwaysRun) || r.skipped then Skipped
                        else if r.success then Passed else Failed)
            && result.hooksPassed == (if fate == Passed then old(result.hooksPassed) + [r] else old(result.hooksPassed))
            && result.hooksFailed == (if fate == Failed then old(result.hooksFailed) + [r] else old(result.hooksFailed))
            && result.hooksSkipped == (if fate == Skipped then old(result.hooksSkipped) + [hook.id]
                else old(result.hooksSkipped))
  {
    fate := Skipped;
    if failFast && !result.success {
      result.AddSkipped(hook.id);
    } else if noFiles && !hook.alwaysRun {
      result.AddSkipped(hook.id);
    } else {
      var hookResult :=
        match outcome
        case Completed(success, skipped, duration, files) => HookResult(hook.id, success, skipped, duration, files)
        case EngineError => HookResult(hook.id, false, false, 0, []);
      if hookResult.skipped {
        result.AddSkipped(hook.id);
      } else {
        result.AddResult(hookResult);
        fate := if hookResult.success then Passed else Failed;
      }
    }
  }

  /** One more position: the fates stay an account of the run, and each list grows by its own. */
  lemma NextFate(hooks: seq<Hook>, failFast: bool, noFiles: bool, rs: seq<HookResult>, fates: seq<Fate>, fate: Fate)
    requires |fates| < |hooks| == |rs|
    requires AreFates(hooks, failFast, noFiles, rs, fates)
    requires var i := |fates|;
             fate == if (failFast && Failed in fates) || (noFiles && !hooks[i].alwaysRun) || rs[i].skipped then Skipped
                     else if rs[i].success then Passed else Failed
    ensures AreFates(hooks, failFast, noFiles, rs, fates + [fate])
  {
    var fs := fates + [fate];
    forall i | 0 <= i < |fs| ensures FateOk(hooks, failFast, noFiles, rs, fs, i) {
      if i < |fates| {
        assert FateOk(hooks, failFast, noFiles, rs, fates, i);
        assert fs[..i] == fates[..i];
      } else {
        assert fs[..i] == fates;
      }
    }
  }
}
