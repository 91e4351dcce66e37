/**
 Execution plans for hook chains: one phase per level, an estimated duration, and the critical
 path found by tracing the longest path through the dependents.  Durations are whole seconds.
 */
module ChainPlanners {
  import opened Graphs
  import opened Wrappers
  import opened ChainGraphs

  datatype ExecutionStrategy = Sequential | MaxParallel | ResourceOptimized | TimeOptimized

  datatype PhaseMode = SequentialMode | ParallelMode(maxConcurrency: nat)

  datatype ExecutionPhase = ExecutionPhase(phaseNumber: nat, hooks: seq<Id>, mode: PhaseMode, estimatedDuration: nat)

  datatype ExecutionPlan = ExecutionPlan(phases: seq<ExecutionPhase>, estimatedDuration: nat, maxParallelism: nat,
                                         criticalPath: seq<Id>)

  const MAX_PROCESSES: nat := 4

  function Min(a: nat, b: nat): nat { if a < b then a else b }

  function Max(a: nat, b: nat): nat { if a < b then b else a }

  function DependentsOf(nodes: Nodes): Deps {
    map id | id in nodes :: nodes[id].dependents
  }

  /** Dependents mirror the dependencies. */
  ghost predicate Mirrored(nodes: Nodes) {
    forall a, b :: DependsOn(DependentsOf(nodes), a, b) <==> DependsOn(LinksOf(nodes), b, a) && a in nodes
  }

  /** The graph the planner is normally given: leveled, and with dependents that mirror the dependencies. */
  ghost predicate Plannable(nodes: Nodes, levels: seq<seq<Id>>) {
    Leveled(nodes, levels) && Mirrored(nodes)
  }

  lemma BuiltIsMirrored(nodes: Nodes, edges: seq<DependencyEdge>)
    requires Mirrors(nodes, edges)
    ensures Mirrored(nodes)
  {
    forall a, b ensures DependsOn(DependentsOf(nodes), a, b) <==> DependsOn(LinksOf(nodes), b, a) && a in nodes {
      if a in nodes && b in nodes { assert b in nodes[a].dependents <==> a in nodes[b].dependencies; }
    }
  }

  // ---------- Chains of dependents and their durations ----------

  function Duration(nodes: Nodes, p: seq<Id>): nat {
    if p == [] then 0
    else (if p[0] in nodes then nodes[p[0]].estimatedDuration else 0) + Duration(nodes, p[1..])
  }

  ghost predicate IsDownChain(nodes: Nodes, p: seq<Id>) {
    IsChain(DependentsOf(nodes), p) && p[0] in nodes
  }

  /** No chain of dependents that starts at `x` takes longer than `m`. */
  ghost predicate Bounds(nodes: Nodes, x: Id, m: nat) {
    forall q {:trigger IsDownChain(nodes, q)} :: IsDownChain(nodes, q) && q[0] == x ==> Duration(nodes, q) <= m
  }

  lemma LevelsRise(nodes: Nodes, levels: seq<seq<Id>>, a: Id, b: Id)
    requires Plannable(nodes, levels) && DependsOn(DependentsOf(nodes), a, b)
    ensures a in nodes && b in nodes && nodes[a].level < nodes[b].level < |levels|
  {
    assert DependsOn(LinksOf(nodes), b, a);
    assert Placed(nodes, levels, b);
  }

  lemma DownTail(nodes: Nodes, q: seq<Id>)
    requires Mirrored(nodes) && IsDownChain(nodes, q) && |q| > 1
    ensures DependsOn(DependentsOf(nodes), q[0], q[1])
    ensures IsDownChain(nodes, q[1..])
  {
    var g := DependentsOf(nodes);
    assert DependsOn(g, q[0], q[1]);
    assert DependsOn(LinksOf(nodes), q[1], q[0]);
    Segment(g, q, 1, |q|);
    assert q[1..] == q[1..|q|];
  }

  lemma DownExtend(nodes: Nodes, a: Id, q: seq<Id>)
    requires IsDownChain(nodes, q) && DependsOn(DependentsOf(nodes), a, q[0])
    ensures IsDownChain(nodes, [a] + q)
    ensures Duration(nodes, [a] + q) == nodes[a].estimatedDuration + Duration(nodes, q)
  {
    var p := [a] + q;
    forall i | 0 <= i < |p| - 1 ensures DependsOn(DependentsOf(nodes), p[i], p[i + 1]) {
      if i > 0 { assert DependsOn(DependentsOf(nodes), q[i - 1], q[i]); }
    }
    assert p[1..] == q;
  }

  /** A bound for every dependent gives a bound for the node itself. */
  lemma BoundsStep(nodes: Nodes, x: Id, m: nat)
    requires Mirrored(nodes) && x in nodes
    requires forall d {:trigger Bounds(nodes, d, m)} :: d in nodes[x].dependents ==> Bounds(nodes, d, m)
    ensures Bounds(nodes, x, nodes[x].estimatedDuration + m)
  {
    forall q | IsDownChain(nodes, q) && q[0] == x ensures Duration(nodes, q) <= nodes[x].estimatedDuration + m {
      if |q| > 1 {
        DownTail(nodes, q);
        assert Bounds(nodes, q[1], m);
      }
    }
  }

  lemma BoundsMonotone(nodes: Nodes, x: Id, m: nat, n: nat)
    requires Bounds(nodes, x, m) && m <= n
    ensures Bounds(nodes, x, n)
  {
  }

  // ---------- When the recursion ends ----------

  /** Following the dependents of `x` ends after at most `n` nested calls. */
  ghost predicate Returns(nodes: Nodes, x: Id, n: nat)
    decreases n
  {
    x !in nodes || (n > 0 && forall d {:trigger Returns(nodes, d, n - 1)} :: d in nodes[x].dependents ==>
        Returns(nodes, d, n - 1))
  }

  /** It does for every hook that the search for the critical path starts from. */
  ghost predicate TracesReturn(nodes: Nodes, n: nat) {
    forall x {:trigger Returns(nodes, x, n)} :: x in nodes && nodes[x].dependencies == [] ==> Returns(nodes, x, n)
  }

  ghost predicate PlanningEnds(nodes: Nodes) {
    exists n: nat :: TracesReturn(nodes, n)
  }

  /** In a leveled graph the levels limit the depth. */
  lemma {:induction false} LeveledReturns(nodes: Nodes, levels: seq<seq<Id>>, x: Id, n: nat)
    requires Plannable(nodes, levels) && x in nodes && n + nodes[x].level >= |levels|
    ensures Returns(nodes, x, n)
    decreases n
  {
    assert Placed(nodes, levels, x);
    forall d | d in nodes[x].dependents ensures Returns(nodes, d, n - 1) {
      assert DependsOn(DependentsOf(nodes), x, d);
      LevelsRise(nodes, levels, x, d);
      LeveledReturns(nodes, levels, d, n - 1);
    }
  }

  lemma {:induction false} SelfListerNeverReturns(nodes: Nodes, b: Id, n: nat)
    requires DependsOn(DependentsOf(nodes), b, b)
    ensures !Returns(nodes, b, n)
    decreases n
  {
    if n > 0 { SelfListerNeverReturns(nodes, b, n - 1); }
  }

  lemma {:induction false} NeverReturnsAbove(nodes: Nodes, p: seq<Id>, n: nat)
    requires Mirrored(nodes) && IsDownChain(nodes, p) && DependsOn(DependentsOf(nodes), p[|p| - 1], p[|p| - 1])
    ensures !Returns(nodes, p[0], n)
    decreases |p|
  {
    if |p| == 1 {
      SelfListerNeverReturns(nodes, p[0], n);
    } else if n > 0 {
      DownTail(nodes, p);
      NeverReturnsAbove(nodes, p[1..], n - 1);
    }
  }

  /** A recursion that has not ended after `n` calls has followed a chain of that length. */
  lemma {:induction false} LongTrace(nodes: Nodes, x: Id, n: nat) returns (p: seq<Id>)
    requires !Returns(nodes, x, n)
    ensures IsDownChain(nodes, p) && |p| == n + 1 && p[0] == x && Elems(p) <= nodes.Keys
    decreases n
  {
    if n == 0 {
      p := [x];
    } else {
      var d :| d in nodes[x].dependents && !Returns(nodes, d, n - 1);
      var q := LongTrace(nodes, d, n - 1);
      DownExtend(nodes, x, q);
      p := [x] + q;
    }
  }

  /** A hook that a chain of dependents comes back to lists itself, if nothing else is circular. */
  lemma ReturningFindsSelfLister(nodes: Nodes, p: seq<Id>, i: nat, j: nat)
    requires Accepted(LinksOf(nodes)) && IsReverse(LinksOf(nodes), DependentsOf(nodes))
    requires IsDownChain(nodes, p) && i < j < |p| && p[i] == p[j]
    ensures DependsOn(LinksOf(nodes), p[i], p[i])
  {
    var g, down := LinksOf(nodes), DependentsOf(nodes);
    Segment(down, p, i, j + 1);
    var cycle := p[i..j + 1];
    assert IsCycle(down, cycle);
    CycleIsSelfOrMutual(down, cycle);
    MutualReversed(g, down, cycle[0], cycle[1]);
  }

  lemma ChainReachesBack(nodes: Nodes, p: seq<Id>, i: nat)
    requires IsReverse(LinksOf(nodes), DependentsOf(nodes)) && IsDownChain(nodes, p) && 0 < i < |p|
    ensures Reaches(LinksOf(nodes), p[i], p[0])
  {
    var q := p[0..i + 1];
    Segment(DependentsOf(nodes), p, 0, i + 1);
    assert q[0] == p[0] && q[|q| - 1] == p[i];
    ReachesReversed(LinksOf(nodes), DependentsOf(nodes), p[i], p[0]);
  }

  lemma ReverseOf(nodes: Nodes)
    requires Mirrored(nodes) && Closed(LinksOf(nodes), nodes.Keys)
    ensures IsReverse(LinksOf(nodes), DependentsOf(nodes))
  {
  }

  /** Where the tracing of an accepted chain gets stuck, a hook that lists itself is reached. */
  lemma StuckTraceFindsSelfLister(nodes: Nodes, a: Id) returns (b: Id)
    requires Mirrored(nodes) && Accepted(LinksOf(nodes))
    requires a in nodes && nodes[a].dependencies == [] && !Returns(nodes, a, |nodes|)
    ensures DependsOn(LinksOf(nodes), b, b) && Reaches(LinksOf(nodes), b, a)
  {
    var p := LongTrace(nodes, a, |nodes|);
    assert |nodes.Keys| == |nodes|;
    Pigeonhole(p, nodes.Keys);
    NoDupPairs(p);
    var i, j :| 0 <= i < j < |p| && p[i] == p[j];
    ReverseOf(nodes);
    ReturningFindsSelfLister(nodes, p, i, j);
    b := p[i];
    assert b in nodes && nodes[b].dependencies != [];
    ChainReachesBack(nodes, p, i);
  }

  /**
   Planning an accepted chain ends exactly when no hook that lists itself depends, directly or not,
   on a hook without dependencies.
   */
  lemma PlanningEndsIff(nodes: Nodes)
    requires Mirrored(nodes) && Accepted(LinksOf(nodes))
    ensures PlanningEnds(nodes) <==> NoSelfListerAboveRoot(LinksOf(nodes))
  {
    var g, down := LinksOf(nodes), DependentsOf(nodes);
    if NoSelfListerAboveRoot(g) {
      forall a | a in nodes && nodes[a].dependencies == [] ensures Returns(nodes, a, |nodes|) {
        if !Returns(nodes, a, |nodes|) { var b := StuckTraceFindsSelfLister(nodes, a); }
      }
      assert TracesReturn(nodes, |nodes|);
    }
    forall n: nat, a, b | TracesReturn(nodes, n) && a in g && g[a] == [] && Reaches(g, b, a)
      ensures !DependsOn(g, b, b)
    {
      if DependsOn(g, b, b) {
        ReachesReversed(g, down, b, a);
        var p :| IsChain(down, p) && |p| > 1 && p[0] == a && p[|p| - 1] == b;
        NeverReturnsAbove(nodes, p, n);
      }
    }
  }

  ghost predicate NoSelfListerAboveRoot(g: Deps) {
    forall a, b {:trigger Reaches(g, b, a)} :: a in g && g[a] == [] && Reaches(g, b, a) ==> !DependsOn(g, b, b)
  }

  // ---------- The critical path ----------

  /** `p` goes on with the first of `ds` that nothing before it comes up to; with none if no chain takes any time. */
  ghost predicate IsFirstLongest(nodes: Nodes, ds: seq<Id>, p: seq<Id>) {
    if p == [] then forall k {:trigger ds[k]} :: 0 <= k < |ds| ==> Bounds(nodes, ds[k], 0)
    else Duration(nodes, p) > 0 && exists i :: IsFirstAbove(nodes, ds, p, i)
  }

  ghost predicate IsFirstAbove(nodes: Nodes, ds: seq<Id>, p: seq<Id>, i: int)
    requires Duration(nodes, p) > 0
  {
    && p != [] && 0 <= i < |ds| && ds[i] == p[0]
    && forall k {:trigger ds[k]} :: 0 <= k < i ==> Bounds(nodes, ds[k], Duration(nodes, p) - 1)
  }

  lemma FirstLongestNext(nodes: Nodes, ds: seq<Id>, i: nat, p: seq<Id>, q: seq<Id>)
    requires i < |ds| && IsFirstLongest(nodes, ds[..i], p)
    requires forall k {:trigger ds[k]} :: 0 <= k < i ==> Bounds(nodes, ds[k], Duration(nodes, p))
    requires q != [] && q[0] == ds[i] && Bounds(nodes, ds[i], Duration(nodes, q))
    ensures IsFirstLongest(nodes, ds[..i + 1], if Duration(nodes, q) > Duration(nodes, p) then q else p)
  {
    var more := ds[..i + 1];
    if Duration(nodes, q) > Duration(nodes, p) {
      forall k | 0 <= k < i ensures Bounds(nodes, more[k], Duration(nodes, q) - 1) {
        BoundsMonotone(nodes, ds[k], Duration(nodes, p), Duration(nodes, q) - 1);
      }
      assert IsFirstAbove(nodes, more, q, i);
    } else if p != [] {
      var j :| IsFirstAbove(nodes, ds[..i], p, j);
      forall k | 0 <= k < j ensures Bounds(nodes, more[k], Duration(nodes, p) - 1) { assert more[k] == ds[..i][k]; }
      assert IsFirstAbove(nodes, more, p, j);
    } else {
      forall k | 0 <= k < i + 1 ensures Bounds(nodes, more[k], 0) { if k < i { assert more[k] == ds[..i][k]; } }
    }
  }

  /** The longest path from `hookId` down through the dependents, and how long it takes. */
  method TraceLongestPath(hookId: Id, nodes: Nodes, ghost n: nat) returns (path: seq<Id>, duration: nat)
    requires Mirrored(nodes) && Returns(nodes, hookId, n)
    ensures duration == Duration(nodes, path)
    ensures hookId !in nodes ==> path == []
    ensures hookId in nodes ==> IsDownChain(nodes, path) && path[0] == hookId && Bounds(nodes, hookId, duration)
    ensures hookId in nodes ==> IsFirstLongest(nodes, nodes[hookId].dependents, path[1..])
    decreases n
  {
    path, duration := [], 0;
    if hookId in nodes {
      var node := nodes[hookId];
      var maxDuration: nat := 0;
      var maxPath: seq<Id> := [];
      for i := 0 to |node.dependents|
        invariant maxDuration == Duration(nodes, maxPath)
        invariant maxPath != [] ==> IsDownChain(nodes, maxPath) && maxPath[0] in node.dependents
        invariant forall k {:trigger node.dependents[k]} :: 0 <= k < i ==>
            Bounds(nodes, node.dependents[k], maxDuration)
        invariant IsFirstLongest(nodes, node.dependents[..i], maxPath)
      {
        var dependent := node.dependents[i];
        assert dependent in node.dependents;
        var dependentPath, dependentDuration := TraceLongestPath(dependent, nodes, n - 1);
        assert dependent in nodes by {
          assert DependsOn(DependentsOf(nodes), hookId, dependent) && DependsOn(LinksOf(nodes), dependent, hookId);
        }
        forall k | 0 <= k <= i ensures Bounds(nodes, node.dependents[k], Max(maxDuration, dependentDuration)) {
          var known := if k < i then maxDuration else dependentDuration;
          BoundsMonotone(nodes, node.dependents[k], known, Max(maxDuration, dependentDuration));
        }
        ghost var before := maxPath;
        if dependentDuration > maxDuration {
          maxDuration := dependentDuration;
          maxPath := dependentPath;
        }
        FirstLongestNext(nodes, node.dependents, i, before, dependentPath);
      }
      assert node.dependents[..|node.dependents|] == node.dependents;
      BoundsStep(nodes, hookId, maxDuration);
      if maxPath != [] {
        assert DependsOn(DependentsOf(nodes), hookId, maxPath[0]);
        DownExtend(nodes, hookId, maxPath);
      }
      path := [hookId] + maxPath;
      duration := node.estimatedDuration + maxDuration;
    }
  }

  /** Every chain extends upwards to one that starts at a hook without dependencies. */
  lemma {:induction false} ExtendToRoot(nodes: Nodes, levels: seq<seq<Id>>, q: seq<Id>) returns (r: seq<Id>)
    requires Plannable(nodes, levels) && IsDownChain(nodes, q)
    ensures IsDownChain(nodes, r) && nodes[r[0]].dependencies == []
    ensures Duration(nodes, q) <= Duration(nodes, r)
    decreases nodes[q[0]].level
  {
    assert Placed(nodes, levels, q[0]);
    if nodes[q[0]].dependencies == [] {
      r := q;
    } else {
      var d := nodes[q[0]].dependencies[0];
      assert DependsOn(LinksOf(nodes), q[0], d);
      DownExtend(nodes, d, q);
      r := ExtendToRoot(nodes, levels, [d] + q);
    }
  }

  /** No chain of dependents anywhere takes longer than `m`. */
  ghost predicate BoundsAll(nodes: Nodes, m: nat) {
    forall q {:trigger IsDownChain(nodes, q)} :: IsDownChain(nodes, q) ==> Duration(nodes, q) <= m
  }

  /** No chain that starts at a hook without dependencies takes longer than `m`. */
  ghost predicate BoundsRoots(nodes: Nodes, m: nat) {
    forall x {:trigger Bounds(nodes, x, m)} :: x in nodes && nodes[x].dependencies == [] ==> Bounds(nodes, x, m)
  }

  lemma RootsSuffice(nodes: Nodes, levels: seq<seq<Id>>, m: nat)
    requires Plannable(nodes, levels) && BoundsRoots(nodes, m)
    ensures BoundsAll(nodes, m)
  {
    forall q | IsDownChain(nodes, q) ensures Duration(nodes, q) <= m {
      var r := ExtendToRoot(nodes, levels, q);
      assert Bounds(nodes, r[0], m);
    }
  }

  /** A chain of dependents that takes the longest, looking only at the roots, in any order. */
  method FindCriticalPath(nodes: Nodes, ghost n: nat) returns (path: seq<Id>)
    requires Mirrored(nodes) && TracesReturn(nodes, n)
    ensures nodes == map[] ==> path == []
    ensures nodes != map[] ==> IsDownChain(nodes, path) && BoundsRoots(nodes, Duration(nodes, path))
  {
    path := [];
    if nodes == map[] { return; }
    var maxDuration: nat := 0;
    var todo := nodes.Keys;
    while todo != {}
      invariant todo <= nodes.Keys
      invariant maxDuration == Duration(nodes, path)
      invariant path != [] ==> IsDownChain(nodes, path)
      invariant forall x {:trigger Bounds(nodes, x, maxDuration)} ::
        x in nodes && x !in todo && nodes[x].dependencies == [] ==> Bounds(nodes, x, maxDuration)
    {
      var hookId :| hookId in todo;
      todo := todo - {hookId};
      if nodes[hookId].dependencies == [] {
        var p, duration := TraceLongestPath(hookId, nodes, n);
        forall x | x in nodes && x !in todo && nodes[x].dependencies == []
          ensures Bounds(nodes, x, Max(maxDuration, duration))
        {
          assert x != hookId ==> Bounds(nodes, x, maxDuration);
          BoundsMonotone(nodes, x, if x == hookId then duration else maxDuration, Max(maxDuration, duration));
        }
        if duration > maxDuration {
          maxDuration := duration;
          path := p;
        }
      }
    }
    if path == [] {
      var first :| first in nodes.Keys;
      path := [first];
      assert IsDownChain(nodes, path);
      forall x | x in nodes && nodes[x].dependencies == [] ensures Bounds(nodes, x, Duration(nodes, path)) {
        BoundsMonotone(nodes, x, maxDuration, Duration(nodes, path));
      }
    }
  }

  // ---------- Phases ----------

  function ModeFor(strategy: ExecutionStrategy, width: nat): PhaseMode {
    match strategy
    case Sequential => SequentialMode
    case MaxParallel => if width > 1 then ParallelMode(Min(width, MAX_PROCESSES)) else SequentialMode
    case ResourceOptimized => ParallelMode(2)
    case TimeOptimized => if width > 1 then ParallelMode(width) else SequentialMode
  }

  /** The longest duration among the known hooks of a row; 30 seconds if there is none. */
  function MaxDuration(nodes: Nodes, row: seq<Id>): nat {
    var longest := LongestKnown(nodes, row);
    if longest.Some? then longest.value else HOOK_SECONDS
  }

  function LongestKnown(nodes: Nodes, row: seq<Id>): Option<nat> {
    if row == [] then None
    else
      var rest := LongestKnown(nodes, row[1..]);
      if row[0] !in nodes then rest
      else Some(if rest.Some? then Max(nodes[row[0]].estimatedDuration, rest.value)
                else nodes[row[0]].estimatedDuration)
  }

  function PhaseDuration(nodes: Nodes, strategy: ExecutionStrategy, row: seq<Id>): nat {
    if ModeFor(strategy, |row|).SequentialMode? then Duration(nodes, row) else MaxDuration(nodes, row)
  }

  /** The estimate for the phases from `k` on. */
  function PhaseTotal(nodes: Nodes, strategy: ExecutionStrategy, levels: seq<seq<Id>>, k: nat): nat
    requires k <= |levels|
    decreases |levels| - k
  {
    if k == |levels| then 0 else PhaseDuration(nodes, strategy, levels[k]) + PhaseTotal(nodes, strategy, levels, k + 1)
  }

  function Concurrency(mode: PhaseMode): nat {
    match mode
    case SequentialMode => 1
    case ParallelMode(n) => n
  }

  ghost predicate PhaseFor(nodes: Nodes, strategy: ExecutionStrategy, levels: seq<seq<Id>>, k: nat,
                           phase: ExecutionPhase)
    requires k < |levels|
  {
    phase == ExecutionPhase(k, levels[k], ModeFor(strategy, |levels[k]|), PhaseDuration(nodes, strategy, levels[k]))
  }

  ghost predicate IsWidth(phases: seq<ExecutionPhase>, width: nat) {
    exists k :: 0 <= k < |phases| && Concurrency(phases[k].mode) == width
  }

  ghost predicate PlanFor(nodes: Nodes, strategy: ExecutionStrategy, levels: seq<seq<Id>>, plan: ExecutionPlan) {
    && |plan.phases| == |levels|
    && (forall k {:trigger plan.phases[k]} :: 0 <= k < |levels| ==>
        PhaseFor(nodes, strategy, levels, k, plan.phases[k]))
    && plan.estimatedDuration == PhaseTotal(nodes, strategy, levels, 0)
    && (nodes != map[] ==>
        IsDownChain(nodes, plan.criticalPath) && BoundsRoots(nodes, Duration(nodes, plan.criticalPath)))
    && (nodes == map[] ==> plan.criticalPath == [])
    && (if strategy.Sequential? then plan.maxParallelism == 1 else plan.maxParallelism >= 2)
    && (forall k :: 0 <= k < |levels| ==> Concurrency(plan.phases[k].mode) <= plan.maxParallelism)
    && (plan.maxParallelism > 2 ==> IsWidth(plan.phases, plan.maxParallelism))
  }

  /** Also for a graph without levels, as long as the search for the critical path ends. */
  method CreatePlan(nodes: Nodes, levels: seq<seq<Id>>, strategy: ExecutionStrategy) returns (plan: ExecutionPlan)
    requires Mirrored(nodes) && PlanningEnds(nodes)
    ensures PlanFor(nodes, strategy, levels, plan)
    ensures Leveled(nodes, levels) && nodes != map[] ==> BoundsAll(nodes, Duration(nodes, plan.criticalPath))
  {
    var phases: seq<ExecutionPhase> := [];
    var estimated: nat := 0;
    var widest: nat := 1;
    for k := 0 to |levels|
      invariant |phases| == k
      invariant forall j {:trigger phases[j]} :: 0 <= j < k ==> PhaseFor(nodes, strategy, levels, j, phases[j])
      invariant estimated + PhaseTotal(nodes, strategy, levels, k) == PhaseTotal(nodes, strategy, levels, 0)
      invariant forall j :: 0 <= j < k ==> Concurrency(phases[j].mode) <= widest
      invariant widest >= 1 && (strategy.Sequential? ==> widest == 1)
      invariant widest > 1 ==> IsWidth(phases, widest)
    {
      var row := levels[k];
      var mode := ModeFor(strategy, |row|);
      var duration := if mode.SequentialMode? then Duration(nodes, row) else MaxDuration(nodes, row);
      estimated := estimated + duration;
      ghost var before := phases;
      phases := phases + [ExecutionPhase(k, row, mode, duration)];
      assert phases[k].mode == mode && forall j :: 0 <= j < k ==> phases[j] == before[j];
      assert IsWidth(before, widest) ==> IsWidth(phases, widest);
      widest := Max(widest, Concurrency(mode));
    }
    ghost var n: nat :| TracesReturn(nodes, n);
    var criticalPath := FindCriticalPath(nodes, n);
    if Leveled(nodes, levels) && nodes != map[] { RootsSuffice(nodes, levels, Duration(nodes, criticalPath)); }
    var maxParallelism := if !strategy.Sequential? && widest == 1 then 2 else widest;
    plan := ExecutionPlan(phases, estimated, maxParallelism, criticalPath);
  }

  // ---------- What the estimate is worth ----------

  lemma MemberDuration(nodes: Nodes, row: seq<Id>, x: Id)
    requires x in row && forall y :: y in row ==> y in nodes
    ensures nodes[x].estimatedDuration <= Duration(nodes, row)
    ensures nodes[x].estimatedDuration <= MaxDuration(nodes, row)
  {
    LongestMeaning(nodes, row);
    if row[0] != x { MemberDuration(nodes, row[1..], x); }
  }

  /** A duration that one of the known hooks has and none exceeds. */
  lemma LongestMeaning(nodes: Nodes, row: seq<Id>)
    ensures var longest := LongestKnown(nodes, row);
            && (longest.None? <==> forall x :: x in row ==> x !in nodes)
            && (longest.Some? ==>
                  && (exists x :: x in row && x in nodes && nodes[x].estimatedDuration == longest.value)
                  && forall x :: x in row && x in nodes ==> nodes[x].estimatedDuration <= longest.value)
  {
    if row != [] {
      LongestMeaning(nodes, row[1..]);
      assert row == [row[0]] + row[1..];
    }
  }

  /** A chain whose first hook has level `k` or more is paid for by the phases from `k` on. */
  lemma {:induction false} ChainUnderPhases(nodes: Nodes, levels: seq<seq<Id>>, strategy: ExecutionStrategy,
                                            q: seq<Id>, k: nat)
    requires Plannable(nodes, levels) && IsDownChain(nodes, q)
    requires k <= nodes[q[0]].level < |levels|
    ensures Duration(nodes, q) <= PhaseTotal(nodes, strategy, levels, k)
    decreases |levels| - k
  {
    assert Placed(nodes, levels, q[0]);
    if k < nodes[q[0]].level {
      ChainUnderPhases(nodes, levels, strategy, q, k + 1);
    } else {
      assert IsLevel(nodes, nodes.Keys, levels[k], k);
      MemberDuration(nodes, levels[k], q[0]);
      if |q| > 1 {
        DownTail(nodes, q);
        LevelsRise(nodes, levels, q[0], q[1]);
        ChainUnderPhases(nodes, levels, strategy, q[1..], k + 1);
      }
    }
  }

  /** Under every strategy and for any durations, no chain of dependents outlasts the estimate. */
  lemma EstimateBoundsEveryChain(nodes: Nodes, levels: seq<seq<Id>>, strategy: ExecutionStrategy)
    requires Plannable(nodes, levels)
    ensures BoundsAll(nodes, PhaseTotal(nodes, strategy, levels, 0))
  {
    forall q | IsDownChain(nodes, q) ensures Duration(nodes, q) <= PhaseTotal(nodes, strategy, levels, 0) {
      assert Placed(nodes, levels, q[0]);
      ChainUnderPhases(nodes, levels, strategy, q, 0);
    }
  }

  // ---------- What a plan says ----------

  /** The durations of some hooks, each counted once. */
  ghost function SumOf(nodes: Nodes, ids: set<Id>): nat
    requires ids <= nodes.Keys
  {
    if ids == {} then 0
    else
      var id :| id in ids;
      nodes[id].estimatedDuration + SumOf(nodes, ids - {id})
  }

  lemma SumWithout(nodes: Nodes, ids: set<Id>, x: Id)
    requires ids <= nodes.Keys && x in ids
    ensures SumOf(nodes, ids) == nodes[x].estimatedDuration + SumOf(nodes, ids - {x})
    decreases |ids|
  {
    var id :| id in ids && SumOf(nodes, ids) == nodes[id].estimatedDuration + SumOf(nodes, ids - {id});
    if id != x {
      SumWithout(nodes, ids - {id}, x);
      SumWithout(nodes, ids - {x}, id);
      assert ids - {id} - {x} == ids - {x} - {id};
    }
  }

  lemma SumUniform(nodes: Nodes, ids: set<Id>, d: nat)
    requires ids <= nodes.Keys && Uniform(nodes, d)
    ensures SumOf(nodes, ids) == d * |ids|
    decreases |ids|
  {
    if ids != {} {
      var x :| x in ids;
      SumWithout(nodes, ids, x);
      SumUniform(nodes, ids - {x}, d);
      assert d * |ids| == d + d * (|ids| - 1);
    }
  }

  lemma SumUnion(nodes: Nodes, a: set<Id>, b: set<Id>)
    requires a <= nodes.Keys && b <= nodes.Keys && a !! b
    ensures SumOf(nodes, a + b) == SumOf(nodes, a) + SumOf(nodes, b)
    decreases |a|
  {
    if a == {} {
      assert a + b == b;
    } else {
      var x :| x in a;
      SumWithout(nodes, a, x);
      SumWithout(nodes, a + b, x);
      SumUnion(nodes, a - {x}, b);
      assert a + b - {x} == a - {x} + b;
    }
  }

  /** The duration of a list of different hooks is the sum of theirs. */
  lemma DurationIsSum(nodes: Nodes, p: seq<Id>)
    requires NoDup(p) && Elems(p) <= nodes.Keys
    ensures Duration(nodes, p) == SumOf(nodes, Elems(p))
  {
    if p != [] {
      NoDupPairs(p);
      NoDupPairs(p[1..]);
      assert p == [p[0]] + p[1..];
      assert p[0] in Elems(p) && Elems(p[1..]) == Elems(p) - {p[0]};
      DurationIsSum(nodes, p[1..]);
      SumWithout(nodes, Elems(p), p[0]);
    }
  }

  /** The hooks of the levels from `k` on. */
  ghost function From(nodes: Nodes, k: nat): set<Id> {
    set id | id in nodes && nodes[id].level >= k
  }

  lemma {:induction false} SequentialTotal(nodes: Nodes, levels: seq<seq<Id>>, k: nat)
    requires Leveled(nodes, levels) && k <= |levels|
    ensures PhaseTotal(nodes, Sequential, levels, k) == SumOf(nodes, From(nodes, k))
    decreases |levels| - k
  {
    if k < |levels| {
      SequentialTotal(nodes, levels, k + 1);
      assert IsLevel(nodes, nodes.Keys, levels[k], k);
      forall id ensures id in From(nodes, k) <==> id in Elems(levels[k]) || id in From(nodes, k + 1) {
        if id in nodes { assert Placed(nodes, levels, id); }
      }
      assert From(nodes, k) == Elems(levels[k]) + From(nodes, k + 1);
      DurationIsSum(nodes, levels[k]);
      SumUnion(nodes, Elems(levels[k]), From(nodes, k + 1));
    } else {
      forall id | id in nodes ensures nodes[id].level < k { assert Placed(nodes, levels, id); }
      assert From(nodes, k) == {};
    }
  }

  /** Under the sequential strategy the estimate is the sum of all durations, each hook counted once. */
  lemma SequentialEstimate(nodes: Nodes, levels: seq<seq<Id>>, plan: ExecutionPlan)
    requires Leveled(nodes, levels) && PlanFor(nodes, Sequential, levels, plan)
    ensures plan.estimatedDuration == SumOf(nodes, nodes.Keys)
    ensures forall d: nat :: Uniform(nodes, d) ==> plan.estimatedDuration == d * |nodes|
  {
    SequentialTotal(nodes, levels, 0);
    assert From(nodes, 0) == nodes.Keys;
    forall d: nat | Uniform(nodes, d) ensures plan.estimatedDuration == d * |nodes| {
      SumUniform(nodes, nodes.Keys, d);
      assert |nodes.Keys| == |nodes|;
    }
  }

  function SumPhases(phases: seq<ExecutionPhase>): nat {
    if phases == [] then 0 else SumPhases(phases[..|phases| - 1]) + phases[|phases| - 1].estimatedDuration
  }

  /** Under every strategy the estimate is the sum of the phases' estimates. */
  lemma EstimateIsSum(nodes: Nodes, strategy: ExecutionStrategy, levels: seq<seq<Id>>, plan: ExecutionPlan)
    requires PlanFor(nodes, strategy, levels, plan)
    ensures plan.estimatedDuration == SumPhases(plan.phases)
  {
    assert plan.phases[..|levels|] == plan.phases;
    PhasesBefore(nodes, strategy, levels, plan, |levels|);
  }

  lemma {:induction false} PhasesBefore(nodes: Nodes, strategy: ExecutionStrategy, levels: seq<seq<Id>>,
                                        plan: ExecutionPlan, k: nat)
    requires PlanFor(nodes, strategy, levels, plan) && k <= |levels|
    ensures SumPhases(plan.phases[..k]) + PhaseTotal(nodes, strategy, levels, k) == plan.estimatedDuration
  {
    if k > 0 {
      PhasesBefore(nodes, strategy, levels, plan, k - 1);
      assert plan.phases[..k][..k - 1] == plan.phases[..k - 1];
      assert PhaseFor(nodes, strategy, levels, k - 1, plan.phases[k - 1]);
    }
  }

  /**
   A phase in parallel mode is estimated at a duration that one of its hooks has and none exceeds, a phase
   in sequential mode at the sum of its hooks' durations.
   */
  lemma PhaseEstimate(nodes: Nodes, strategy: ExecutionStrategy, levels: seq<seq<Id>>, plan: ExecutionPlan, k: nat)
    requires Leveled(nodes, levels) && PlanFor(nodes, strategy, levels, plan) && k < |levels|
    ensures var phase := plan.phases[k];
            && phase.phaseNumber == k && phase.hooks == levels[k] && Elems(phase.hooks) <= nodes.Keys
            && if phase.mode.ParallelMode?
               then && (exists id :: id in phase.hooks && nodes[id].estimatedDuration == phase.estimatedDuration)
                    && forall id :: id in phase.hooks ==> nodes[id].estimatedDuration <= phase.estimatedDuration
               else phase.estimatedDuration == SumOf(nodes, Elems(phase.hooks))
  {
    var row := levels[k];
    assert IsLevel(nodes, nodes.Keys, row, k) && row[0] in row;
    assert PhaseFor(nodes, strategy, levels, k, plan.phases[k]);
    LongestMeaning(nodes, row);
    DurationIsSum(nodes, row);
  }

  /**
   Only the sequential strategy and levels of one hook are run one after the other; at most four hooks of a
   level at a time, two, or all of them, as the strategy says.
   */
  lemma PhaseModes(nodes: Nodes, strategy: ExecutionStrategy, levels: seq<seq<Id>>, plan: ExecutionPlan, k: nat)
    requires PlanFor(nodes, strategy, levels, plan) && k < |levels|
    ensures var mode, width := plan.phases[k].mode, |levels[k]|;
            && (mode.SequentialMode? <==> strategy.Sequential? || (width <= 1 && !strategy.ResourceOptimized?))
            && (mode.ParallelMode? && strategy.ResourceOptimized? ==> mode.maxConcurrency == 2)
            && (mode.ParallelMode? && strategy.TimeOptimized? ==> mode.maxConcurrency == width)
            && (mode.ParallelMode? && strategy.MaxParallel? ==>
                  mode.maxConcurrency <= 4 && mode.maxConcurrency <= width
                  && (mode.maxConcurrency == 4 || mode.maxConcurrency == width))
  {
    assert PhaseFor(nodes, strategy, levels, k, plan.phases[k]);
  }

  /** The parallelism of a plan: one if sequential, otherwise what its widest phase has, but at least two. */
  lemma MaxParallelismMeaning(nodes: Nodes, strategy: ExecutionStrategy, levels: seq<seq<Id>>, plan: ExecutionPlan)
    requires PlanFor(nodes, strategy, levels, plan)
    ensures strategy.Sequential? ==> plan.maxParallelism == 1
    ensures !strategy.Sequential? ==> plan.maxParallelism >= 2
    ensures forall k :: 0 <= k < |levels| && plan.phases[k].mode.ParallelMode? ==>
              plan.phases[k].mode.maxConcurrency <= plan.maxParallelism
    ensures plan.maxParallelism > 2 ==>
              exists k :: 0 <= k < |levels| && plan.phases[k].mode == ParallelMode(plan.maxParallelism)
  {
    forall k | 0 <= k < |levels| && plan.phases[k].mode.ParallelMode?
      ensures plan.phases[k].mode.maxConcurrency <= plan.maxParallelism
    {
      assert Concurrency(plan.phases[k].mode) <= plan.maxParallelism;
    }
  }

  ghost predicate Uniform(nodes: Nodes, d: nat) {
    forall id :: id in nodes ==> nodes[id].estimatedDuration == d
  }

  lemma UniformDuration(nodes: Nodes, d: nat, p: seq<Id>)
    requires Uniform(nodes, d) && forall x :: x in p ==> x in nodes
    ensures Duration(nodes, p) == d * |p|
  {
    if p != [] { UniformDuration(nodes, d, p[1..]); }
  }

  lemma UniformMax(nodes: Nodes, d: nat, row: seq<Id>)
    requires Uniform(nodes, d) && row != [] && forall x :: x in row ==> x in nodes
    ensures MaxDuration(nodes, row) == d
  {
    LongestMeaning(nodes, row);
    assert row[0] in row;
  }

  lemma UniformPhases(nodes: Nodes, levels: seq<seq<Id>>, strategy: ExecutionStrategy, d: nat, k: nat)
    requires Leveled(nodes, levels) && Uniform(nodes, d) && !strategy.Sequential? && k <= |levels|
    ensures PhaseTotal(nodes, strategy, levels, k) == d * (|levels| - k)
    decreases |levels| - k
  {
    if k < |levels| {
      assert IsLevel(nodes, nodes.Keys, levels[k], k);
      UniformMax(nodes, d, levels[k]);
      UniformDuration(nodes, d, levels[k]);
      UniformPhases(nodes, levels, strategy, d, k + 1);
      assert d * (|levels| - k) == d + d * (|levels| - (k + 1));
    }
  }

  lemma DownMembers(nodes: Nodes, levels: seq<seq<Id>>, q: seq<Id>)
    requires Plannable(nodes, levels) && IsDownChain(nodes, q)
    ensures forall x :: x in q ==> x in nodes
    ensures nodes[q[0]].level + |q| <= |levels|
    decreases |q|
  {
    assert Placed(nodes, levels, q[0]);
    if |q| > 1 {
      DownTail(nodes, q);
      LevelsRise(nodes, levels, q[0], q[1]);
      DownMembers(nodes, levels, q[1..]);
    }
  }

  /** The chain that gave the last level its number, read downwards, crosses all levels. */
  lemma LowestIsRoot(nodes: Nodes, id: Id)
    requires id in nodes && LevelRule(nodes, id) && nodes[id].level == 0
    ensures nodes[id].dependencies == []
  {
    HasMember(nodes[id].dependencies);
  }

  lemma HasMember(s: seq<Id>)
    ensures s == [] || exists x :: x in s
  {
    if s != [] { assert s[0] in s; }
  }

  lemma {:induction false} FullDownChain(nodes: Nodes, levels: seq<seq<Id>>, q: seq<Id>) returns (r: seq<Id>)
    requires Plannable(nodes, levels) && IsDownChain(nodes, q)
    ensures IsDownChain(nodes, r) && |r| == |q| + nodes[q[0]].level && nodes[r[0]].dependencies == []
    decreases nodes[q[0]].level
  {
    assert Placed(nodes, levels, q[0]);
    if nodes[q[0]].level == 0 {
      r := q;
      LowestIsRoot(nodes, q[0]);
    } else {
      var d :| d in nodes[q[0]].dependencies && d in nodes && nodes[d].level == nodes[q[0]].level - 1;
      assert DependsOn(LinksOf(nodes), q[0], d);
      DownExtend(nodes, d, q);
      r := FullDownChain(nodes, levels, [d] + q);
    }
  }

  /**
   With the uniform durations `BuildGraph` assigns, the critical path has exactly one hook per
   level, and every non-sequential plan is estimated at exactly the duration of its critical path.
   */
  lemma UniformPlan(nodes: Nodes, levels: seq<seq<Id>>, strategy: ExecutionStrategy, d: nat, plan: ExecutionPlan)
    requires Plannable(nodes, levels) && Uniform(nodes, d) && d > 0 && nodes != map[]
    requires PlanFor(nodes, strategy, levels, plan)
    ensures |plan.criticalPath| == |levels|
    ensures !strategy.Sequential? ==> plan.estimatedDuration == Duration(nodes, plan.criticalPath) == d * |levels|
  {
    var some :| some in nodes.Keys;
    assert Placed(nodes, levels, some);
    var last := levels[|levels| - 1];
    assert IsLevel(nodes, nodes.Keys, last, |levels| - 1);
    assert last[0] in last;
    assert IsDownChain(nodes, [last[0]]);
    RootsSuffice(nodes, levels, Duration(nodes, plan.criticalPath));
    var full := FullDownChain(nodes, levels, [last[0]]);
    DownMembers(nodes, levels, full);
    DownMembers(nodes, levels, plan.criticalPath);
    UniformDuration(nodes, d, full);
    UniformDuration(nodes, d, plan.criticalPath);
    assert d * |full| <= d * |plan.criticalPath|;
    Cancel(d, |full|, |plan.criticalPath|);
    if !strategy.Sequential? { UniformPhases(nodes, levels, strategy, d, 0); }
  }

  /** In a leveled graph the recursion nests exactly as deep as there are levels. */
  lemma RecursionDepth(nodes: Nodes, levels: seq<seq<Id>>, n: nat)
    requires Plannable(nodes, levels)
    ensures TracesReturn(nodes, n) <==> |levels| <= n
  {
    if |levels| <= n {
      forall x | x in nodes && nodes[x].dependencies == [] ensures Returns(nodes, x, n) {
        LeveledReturns(nodes, levels, x, n);
      }
    } else {
      var last := levels[|levels| - 1];
      assert IsLevel(nodes, nodes.Keys, last, |levels| - 1);
      assert last[0] in last;
      assert IsDownChain(nodes, [last[0]]);
      var full := FullDownChain(nodes, levels, [last[0]]);
      ChainNeedsDepth(nodes, full, n);
      assert full[0] in nodes && !Returns(nodes, full[0], n);
    }
  }

  lemma {:induction false} ChainNeedsDepth(nodes: Nodes, p: seq<Id>, n: nat)
    requires Mirrored(nodes) && IsDownChain(nodes, p) && n < |p|
    ensures !Returns(nodes, p[0], n)
    decreases n
  {
    if n > 0 {
      DownTail(nodes, p);
      ChainNeedsDepth(nodes, p[1..], n - 1);
    }
  }

  lemma Cancel(d: nat, m: nat, n: nat)
    requires d > 0
    ensures m > n ==> d * m > d * n
  {
    if m > n { assert d * m == d * n + d * (m - n); }
  }
}
