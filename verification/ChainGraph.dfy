/**
 Hook chains: building the dependency graph, validating it, and peeling it into execution levels.
 Nodes are keyed by hook identifier, so the hooks of a chain must have distinct identifiers.
 */
module ChainGraphs {
  import opened Graphs
  import opened Wrappers

  datatype FailureBehavior = Critical | Independent | RetryOnFailure | ContinueOnFailure | Optional

  datatype ChainedHook = ChainedHook(id: Id, dependencies: seq<Id>, failureBehavior: FailureBehavior)

  datatype HookNode = HookNode(
    hookId: Id, dependencies: seq<Id>, dependents: seq<Id>, level: nat, isCritical: bool, estimatedDuration: nat)

  datatype DependencyEdge = DependencyEdge(from: Id, to: Id)

  datatype ValidationError =
    | MissingDependency(hookId: Id, missing: Id)
    | CircularDependency(cycle: seq<Id>)

  datatype Validation = Valid | Invalid(error: ValidationError)

  type Nodes = map<Id, HookNode>

  const HOOK_SECONDS: nat := 30

  function IdsOf(hooks: seq<ChainedHook>): set<Id> {
    set h | h in hooks :: h.id
  }

  /** Entries with one id are the same; distinct ids are the usual case. */
  ghost predicate OneHookPerId(hooks: seq<ChainedHook>) {
    forall h, k :: h in hooks && k in hooks && h.id == k.id ==> h == k
  }

  /** The dependency relation a node map describes; it may mention unknown hooks. */
  function LinksOf(nodes: Nodes): Deps {
    map id | id in nodes :: nodes[id].dependencies
  }

  ghost predicate NoSelfDependency(g: Deps) {
    forall a :: !DependsOn(g, a, a)
  }

  /** All dependencies known and no cycle: what the level computation needs. */
  ghost predicate Sound(nodes: Nodes) {
    Closed(LinksOf(nodes), nodes.Keys) && Acyclic(LinksOf(nodes))
  }

  ghost predicate SameButLevel(a: Nodes, b: Nodes) {
    a.Keys == b.Keys && forall id {:trigger b[id]} :: id in a ==> b[id] == a[id].(level := b[id].level)
  }

  /** A node has level 0, or one more than the highest level among its dependencies. */
  ghost predicate LevelRule(nodes: Nodes, id: Id)
    requires id in nodes
  {
    && (forall d :: d in nodes[id].dependencies ==> d in nodes && nodes[d].level < nodes[id].level)
    && (nodes[id].level > 0 ==>
          exists d :: d in nodes[id].dependencies && d in nodes && nodes[d].level == nodes[id].level - 1)
  }

  /** `row` lists placed nodes of level `k`, each once, and is not empty. */
  ghost predicate IsLevel(nodes: Nodes, placed: set<Id>, row: seq<Id>, k: nat) {
    && row != [] && NoDup(row)
    && forall id :: id in row ==> id in placed && id in nodes && nodes[id].level == k
  }

  ghost predicate ListsLevels(nodes: Nodes, placed: set<Id>, levels: seq<seq<Id>>) {
    forall k {:trigger IsLevel(nodes, placed, levels[k], k)} :: 0 <= k < |levels| ==>
        IsLevel(nodes, placed, levels[k], k)
  }

  /** The node's level is listed, the node in it, and the level is the right one. */
  ghost predicate Placed(nodes: Nodes, levels: seq<seq<Id>>, id: Id)
    requires id in nodes
  {
    nodes[id].level < |levels| && id in levels[nodes[id].level] && LevelRule(nodes, id)
  }

  /** The levels partition the nodes, and every node has the level it should have. */
  ghost predicate Leveled(nodes: Nodes, levels: seq<seq<Id>>) {
    && ListsLevels(nodes, nodes.Keys, levels)
    && forall id {:trigger Placed(nodes, levels, id)} :: id in nodes ==> Placed(nodes, levels, id)
  }

  /** Levels are a rank, so a graph that has them is sound. */
  lemma LeveledIsSound(nodes: Nodes, levels: seq<seq<Id>>)
    requires Leveled(nodes, levels)
    ensures Sound(nodes)
  {
    var g := LinksOf(nodes);
    var rank := (x: Id) => if x in nodes then nodes[x].level else -1;
    forall a, b | DependsOn(g, a, b) ensures b in nodes && rank(b) < rank(a) {
      assert Placed(nodes, levels, a);
    }
    RankMakesAcyclic(g, rank);
  }

  /** The level is the length of the longest chain of dependencies below the node. */
  lemma {:induction false} LevelIsLongestChain(nodes: Nodes, levels: seq<seq<Id>>, id: Id) returns (longest: seq<Id>)
    requires Leveled(nodes, levels) && id in nodes
    ensures IsChain(LinksOf(nodes), longest) && longest[0] == id && |longest| == nodes[id].level + 1
    ensures forall p :: IsChain(LinksOf(nodes), p) && p[0] == id ==> |p| <= nodes[id].level + 1
    decreases nodes[id].level
  {
    var g := LinksOf(nodes);
    assert Placed(nodes, levels, id);
    if nodes[id].level == 0 {
      longest := [id];
    } else {
      var d :| d in nodes[id].dependencies && d in nodes && nodes[d].level == nodes[id].level - 1;
      var rest := LevelIsLongestChain(nodes, levels, d);
      assert DependsOn(g, id, d);
      assert IsChain(g, [id, d]);
      Glue(g, [id, d], rest);
      longest := [id, d] + rest[1..];
    }
    forall p | IsChain(g, p) && p[0] == id ensures |p| <= nodes[id].level + 1 {
      ChainFitsLevel(nodes, levels, p);
    }
  }

  lemma ChainFitsLevel(nodes: Nodes, levels: seq<seq<Id>>, p: seq<Id>)
    requires Leveled(nodes, levels)
    requires IsChain(LinksOf(nodes), p) && p[0] in nodes
    ensures |p| <= nodes[p[0]].level + 1
  {
    var rank := (x: Id) => if x in nodes then nodes[x].level else -1;
    forall a, b | DependsOn(LinksOf(nodes), a, b) ensures b in nodes && rank(b) < rank(a) {
      assert Placed(nodes, levels, a);
    }
    RankAlongChain(LinksOf(nodes), rank, p);
    if |p| > 1 { assert DependsOn(LinksOf(nodes), p[|p| - 2], p[|p| - 1]); }
  }

  /** Levels do not depend on the order in which the nodes were looked at. */
  lemma {:induction false} LevelsUnique(a: Nodes, aLevels: seq<seq<Id>>, b: Nodes, bLevels: seq<seq<Id>>, id: Id)
    requires Leveled(a, aLevels) && Leveled(b, bLevels) && LinksOf(a) == LinksOf(b) && id in a && id in b
    ensures a[id].level == b[id].level
  {
    var p := LevelIsLongestChain(a, aLevels, id);
    var q := LevelIsLongestChain(b, bLevels, id);
  }

  class DependencyGraph {
    var nodes: Nodes
    var edges: seq<DependencyEdge>
    var executionLevels: seq<seq<Id>>

    constructor (nodes: Nodes, edges: seq<DependencyEdge>)
      ensures this.nodes == nodes && this.edges == edges && executionLevels == []
    {
      this.nodes, this.edges, executionLevels := nodes, edges, [];
    }

    /** The next level: every unplaced node whose dependencies are all placed. */
    method ReadyNodes(placed: set<Id>) returns (ready: seq<Id>)
      ensures NoDup(ready)
      ensures forall id :: id in ready <==> IsReady(nodes, placed, id)
    {
      ready := [];
      var todo := nodes.Keys;
      while todo != {}
        invariant todo <= nodes.Keys && NoDup(ready)
        invariant forall id :: id in ready <==> id !in todo && IsReady(nodes, placed, id)
      {
        var hookId :| hookId in todo;
        todo := todo - {hookId};
        if hookId !in placed && DepsIn(nodes, placed, hookId) {
          AppendFresh(ready, hookId);
          ready := ready + [hookId];
        }
      }
    }

    method WriteLevel(ids: seq<Id>, level: nat)
      requires forall id :: id in ids ==> id in nodes
      modifies this`nodes
      ensures LevelWritten(old(nodes), nodes, ids, level)
    {
      for i := 0 to |ids|
        invariant LevelWritten(old(nodes), nodes, ids[..i], level)
      {
        assert ids[i] in ids;
        nodes := nodes[ids[i] := nodes[ids[i]].(level := level)];
        assert ids[..i + 1] == ids[..i] + [ids[i]];
      }
      assert ids[..|ids|] == ids;
    }

    /** The next level, written into its nodes; empty only if what is left can never be placed. */
    method PeelNext(placed: set<Id>, level: nat, ghost levels: seq<seq<Id>>) returns (current: seq<Id>)
      requires PeelState(nodes, placed, levels) && level == |levels|
      requires placed != nodes.Keys
      modifies this`nodes
      ensures SameButLevel(old(nodes), nodes)
      ensures current == [] ==> !Sound(nodes)
      ensures current != [] ==> current[0] !in placed && PeelState(nodes, placed + Elems(current), levels + [current])
    {
      current := ReadyNodes(placed);
      if current == [] {
        NothingReady(nodes, placed);
      } else {
        ghost var before := nodes;
        assert current[0] in current;
        WriteLevel(current, level);
        PeelOneLevel(before, nodes, placed, levels, current);
      }
    }

    /** Peels the graph; succeeds exactly when everything is known and nothing is circular. */
    method CalculateExecutionLevels() returns (ok: bool)
      modifies this`nodes, this`executionLevels
      ensures SameButLevel(old(nodes), nodes)
      ensures ok <==> Sound(nodes)
      ensures ok ==> Leveled(nodes, executionLevels)
      ensures !ok ==> executionLevels == old(executionLevels)
    {
      var levels: seq<seq<Id>> := [];
      var placed: set<Id> := {};
      while |placed| < |nodes|
        invariant SameButLevel(old(nodes), nodes) && executionLevels == old(executionLevels)
        invariant PeelState(nodes, placed, levels)
        decreases |nodes| - |placed|
      {
        var current := PeelNext(placed, |levels|, levels);
        if current == [] { return false; }
        PlacedGrows(placed, placed + Elems(current), nodes.Keys, current[0]);
        placed := placed + Elems(current);
        levels := levels + [current];
      }
      SubsetCard(placed, nodes.Keys);
      executionLevels := levels;
      PeelDone(nodes, levels);
      LeveledIsSound(nodes, levels);
      ok := true;
    }
  }

  lemma PlacedGrows(a: set<Id>, b: set<Id>, all: set<Id>, x: Id)
    requires a <= b <= all && x in b && x !in a
    ensures |a| < |b| <= |all|
  {
    SubsetCard(a, b);
    SubsetCard(b, all);
  }

  /** After some levels: the placed nodes are leveled, and the others wait for something recent or unplaced. */
  ghost predicate PeelState(nodes: Nodes, placed: set<Id>, levels: seq<seq<Id>>) {
    && placed <= nodes.Keys
    && ListsLevels(nodes, placed, levels)
    && (forall id {:trigger Placed(nodes, levels, id)} :: id in placed ==> Placed(nodes, levels, id))
    && (forall id {:trigger DepsIn(nodes, placed, id)} :: id in placed ==> DepsIn(nodes, placed, id))
    && (forall id {:trigger WaitsForRecent(nodes, placed, |levels|, id)} ::
          id in nodes && id !in placed ==> WaitsForRecent(nodes, placed, |levels|, id))
  }

  predicate DepsIn(nodes: Nodes, placed: set<Id>, id: Id)
    requires id in nodes
  {
    forall d :: d in nodes[id].dependencies ==> d in placed
  }

  ghost predicate WaitsForRecent(nodes: Nodes, placed: set<Id>, level: nat, id: Id)
    requires placed <= nodes.Keys && id in nodes
  {
    level > 0 ==> exists d :: d in nodes[id].dependencies && (d in placed ==> nodes[d].level == level - 1)
  }

  /** `after` is `before` with the level of the nodes in `row` set to `k`. */
  ghost predicate LevelWritten(before: Nodes, after: Nodes, row: seq<Id>, k: nat) {
    && after.Keys == before.Keys
    && forall id {:trigger after[id]} :: id in after ==>
        after[id] == if id in row then before[id].(level := k) else before[id]
  }

  ghost predicate IsReady(nodes: Nodes, placed: set<Id>, id: Id) {
    id in nodes && id !in placed && DepsIn(nodes, placed, id)
  }

  lemma PeelOneLevel(before: Nodes, after: Nodes, placed: set<Id>, levels: seq<seq<Id>>, current: seq<Id>)
    requires PeelState(before, placed, levels)
    requires current != [] && NoDup(current)
    requires forall id :: id in current <==> IsReady(before, placed, id)
    requires LevelWritten(before, after, current, |levels|)
    ensures PeelState(after, placed + Elems(current), levels + [current])
  {
    var placed', levels' := placed + Elems(current), levels + [current];
    forall k | 0 <= k < |levels'| ensures IsLevel(after, placed', levels'[k], k) {
      if k < |levels| { assert IsLevel(before, placed, levels[k], k); }
    }
    forall id | id in placed' ensures Placed(after, levels', id) {
      PlacedAfter(before, after, placed, levels, current, id);
    }
    forall id | id in placed' ensures DepsIn(after, placed', id) {
      if id in placed { assert DepsIn(before, placed, id); }
    }
    forall id | id in after && id !in placed' ensures WaitsForRecent(after, placed', |levels'|, id) {
      assert !DepsIn(before, placed, id);
      var d :| d in before[id].dependencies && d !in placed;
      assert d in after[id].dependencies;
    }
  }

  lemma PlacedAfter(before: Nodes, after: Nodes, placed: set<Id>, levels: seq<seq<Id>>, current: seq<Id>, id: Id)
    requires PeelState(before, placed, levels)
    requires forall x :: x in current <==> IsReady(before, placed, x)
    requires LevelWritten(before, after, current, |levels|)
    requires id in after && id in placed + Elems(current)
    ensures Placed(after, levels + [current], id)
  {
    assert after[id].dependencies == before[id].dependencies;
    forall d | d in placed ensures after[d] == before[d] && before[d].level < |levels| {
      assert Placed(before, levels, d);
    }
    if id in placed {
      assert Placed(before, levels, id);
      assert DepsIn(before, placed, id);
      assert (levels + [current])[before[id].level] == levels[before[id].level];
    } else {
      assert IsReady(before, placed, id);
      assert WaitsForRecent(before, placed, |levels|, id);
      assert (levels + [current])[|levels|] == current;
    }
  }

  lemma PeelDone(nodes: Nodes, levels: seq<seq<Id>>)
    requires PeelState(nodes, nodes.Keys, levels)
    ensures Leveled(nodes, levels)
  {
  }

  lemma NothingReady(nodes: Nodes, placed: set<Id>)
    requires placed <= nodes.Keys && placed != nodes.Keys
    requires forall id :: !IsReady(nodes, placed, id)
    ensures !Sound(nodes)
  {
    var g, rest := LinksOf(nodes), nodes.Keys - placed;
    if Closed(g, nodes.Keys) {
      NothingLeft(placed, nodes.Keys);
      forall x {:trigger WaitsIn(g, rest, x)} | x in rest ensures WaitsIn(g, rest, x) {
        assert !IsReady(nodes, placed, x);
        var d :| d in nodes[x].dependencies && d !in placed;
        assert DependsOn(g, x, d);
      }
      StuckHasCycle(g, rest);
    }
  }

  // ---------- Building ----------

  /** Edges and dependents mirror the dependencies, as far as these are known. */
  ghost predicate Mirrors(nodes: Nodes, edges: seq<DependencyEdge>) {
    && (forall a, b :: a in nodes && b in nodes ==> (b in nodes[a].dependents <==> a in nodes[b].dependencies))
    && (forall a :: a in nodes ==> forall b :: b in nodes[a].dependents ==> b in nodes)
    && (forall e :: e in edges <==> e.from in nodes && e.to in nodes && e.from in nodes[e.to].dependencies)
  }

  ghost predicate NodeFor(node: HookNode, hook: ChainedHook) {
    && node.hookId == hook.id
    && node.dependencies == hook.dependencies
    && node.isCritical == hook.failureBehavior.Critical?
    && node.estimatedDuration == HOOK_SECONDS
  }

  ghost predicate NodesFor(nodes: Nodes, hooks: seq<ChainedHook>) {
    && nodes.Keys == IdsOf(hooks)
    && forall h :: h in hooks ==> NodeFor(nodes[h.id], h)
  }

  /** Of several hooks with one id the last one gives the node its data. */
  function LastHook(hooks: seq<ChainedHook>, id: Id): (h: ChainedHook)
    requires id in IdsOf(hooks)
    ensures h in hooks && h.id == id
  {
    var n := |hooks| - 1;
    if hooks[n].id == id then hooks[n]
    else
      assert hooks == hooks[..n] + [hooks[n]];
      LastHook(hooks[..n], id)
  }

  ghost predicate LastNodesFor(nodes: Nodes, hooks: seq<ChainedHook>) {
    && nodes.Keys == IdsOf(hooks)
    && forall id :: id in nodes ==> NodeFor(nodes[id], LastHook(hooks, id))
  }

  lemma NodesOfOne(nodes: Nodes, hooks: seq<ChainedHook>)
    requires OneHookPerId(hooks) && LastNodesFor(nodes, hooks)
    ensures NodesFor(nodes, hooks)
  {
    forall h | h in hooks ensures NodeFor(nodes[h.id], h) { assert LastHook(hooks, h.id) == h; }
  }

  /** Edges and dependents come from the lists of all hooks, those of a repeated id included. */
  ghost predicate EdgesOf(nodes: Nodes, edges: seq<DependencyEdge>, hooks: seq<ChainedHook>) {
    && (forall a, b :: a in nodes ==> (b in nodes[a].dependents <==> ListedBy(hooks, a, b)))
    && (forall e :: e in edges <==> e.from in nodes && ListedBy(hooks, e.from, e.to))
  }

  /** What a hook lists, the last hook with its id lists too, if it is known. */
  ghost predicate ListsAgree(nodes: Nodes, hooks: seq<ChainedHook>)
    requires nodes.Keys == IdsOf(hooks)
  {
    forall h, d :: h in hooks && d in h.dependencies && d in nodes ==> d in LastHook(hooks, h.id).dependencies
  }

  /**
   Edges and dependents mirror the nodes' dependencies exactly when no hook lists another one that the
   last hook with the same id leaves out.
   */
  lemma MirrorsIff(nodes: Nodes, edges: seq<DependencyEdge>, hooks: seq<ChainedHook>)
    requires LastNodesFor(nodes, hooks) && EdgesOf(nodes, edges, hooks)
    ensures Mirrors(nodes, edges) <==> ListsAgree(nodes, hooks)
  {
    if Mirrors(nodes, edges) {
      forall h, d | h in hooks && d in h.dependencies && d in nodes ensures d in LastHook(hooks, h.id).dependencies {
        assert ListedBy(hooks, d, h.id) && h.id in nodes;
        assert NodeFor(nodes[h.id], LastHook(hooks, h.id));
      }
    } else if ListsAgree(nodes, hooks) {
      forall a, b | a in nodes ensures ListedBy(hooks, a, b) <==> b in nodes && a in nodes[b].dependencies {
        ListedIffDepends(nodes, hooks, a, b);
      }
      MirrorsFrom(nodes, edges, hooks);
    }
  }

  lemma ListedIffDepends(nodes: Nodes, hooks: seq<ChainedHook>, a: Id, b: Id)
    requires LastNodesFor(nodes, hooks) && ListsAgree(nodes, hooks) && a in nodes
    ensures ListedBy(hooks, a, b) <==> b in nodes && a in nodes[b].dependencies
  {
    if b in nodes { assert NodeFor(nodes[b], LastHook(hooks, b)); }
    if ListedBy(hooks, a, b) {
      var h :| h in hooks && h.id == b && a in h.dependencies;
      assert a in LastHook(hooks, h.id).dependencies;
    }
  }

  lemma MirrorsFrom(nodes: Nodes, edges: seq<DependencyEdge>, hooks: seq<ChainedHook>)
    requires EdgesOf(nodes, edges, hooks)
    requires forall a, b :: a in nodes ==> (ListedBy(hooks, a, b) <==> b in nodes && a in nodes[b].dependencies)
    ensures Mirrors(nodes, edges)
  {
  }

  /** With one hook for each id all is as expected. */
  lemma BuiltOfOne(nodes: Nodes, edges: seq<DependencyEdge>, hooks: seq<ChainedHook>)
    requires LastNodesFor(nodes, hooks) && EdgesOf(nodes, edges, hooks)
    ensures OneHookPerId(hooks) ==> NodesFor(nodes, hooks) && Mirrors(nodes, edges)
  {
    MirrorsIff(nodes, edges, hooks);
    if OneHookPerId(hooks) { NodesOfOne(nodes, hooks); }
  }

  ghost predicate ListedBy(hooks: seq<ChainedHook>, a: Id, b: Id) {
    exists h :: h in hooks && h.id == b && a in h.dependencies
  }

  /** `b` lists `a` among the first `i` hooks, or among the first `j` entries of hook `i`. */
  ghost predicate Seen(hooks: seq<ChainedHook>, i: nat, j: nat, a: Id, b: Id)
    requires i <= |hooks| && (i < |hooks| ==> j <= |hooks[i].dependencies|)
  {
    ListedBy(hooks[..i], a, b) || (i < |hooks| && b == hooks[i].id && a in hooks[i].dependencies[..j])
  }

  lemma SeenOneEntry(hooks: seq<ChainedHook>, i: nat, j: nat, a: Id, b: Id)
    requires i < |hooks| && j < |hooks[i].dependencies|
    ensures Seen(hooks, i, j + 1, a, b) <==>
        Seen(hooks, i, j, a, b) || (a == hooks[i].dependencies[j] && b == hooks[i].id)
  {
    var ds := hooks[i].dependencies;
    assert ds[..j + 1] == ds[..j] + [ds[j]];
    assert a in ds[..j] + [ds[j]] <==> a in ds[..j] || a == ds[j];
  }

  lemma SeenOneHook(hooks: seq<ChainedHook>, i: nat, a: Id, b: Id)
    requires i < |hooks|
    ensures Seen(hooks, i + 1, 0, a, b) <==> Seen(hooks, i, |hooks[i].dependencies|, a, b)
  {
    var ds := hooks[i].dependencies;
    assert ds[..|ds|] == ds;
    assert hooks[..i + 1] == hooks[..i] + [hooks[i]];
    if hooks[i].id == b && a in ds { assert hooks[i] in hooks[..i + 1]; }
    if h :| h in hooks[..i] && h.id == b && a in h.dependencies { assert h in hooks[..i + 1]; }
  }

  ghost predicate MirrorsSeen(nodes: Nodes, edges: seq<DependencyEdge>, hooks: seq<ChainedHook>, i: nat, j: nat)
    requires i <= |hooks| && (i < |hooks| ==> j <= |hooks[i].dependencies|)
  {
    && (forall a, b {:trigger Seen(hooks, i, j, a, b)} :: a in nodes ==>
        (b in nodes[a].dependents <==> Seen(hooks, i, j, a, b)))
    && (forall e {:trigger e in edges} :: e in edges <==> e.from in nodes && Seen(hooks, i, j, e.from, e.to))
  }

  ghost predicate SameButDependents(a: Nodes, b: Nodes) {
    a.Keys == b.Keys && forall id {:trigger b[id]} :: id in a ==> b[id] == a[id].(dependents := b[id].dependents)
  }

  lemma SeenAll(nodes: Nodes, edges: seq<DependencyEdge>, hooks: seq<ChainedHook>)
    requires MirrorsSeen(nodes, edges, hooks, |hooks|, 0)
    ensures EdgesOf(nodes, edges, hooks)
  {
    assert hooks[..|hooks|] == hooks;
    forall a, b ensures Seen(hooks, |hooks|, 0, a, b) <==> ListedBy(hooks, a, b) {}
  }

  lemma NextHook(nodes: Nodes, edges: seq<DependencyEdge>, hooks: seq<ChainedHook>, i: nat)
    requires i < |hooks|
    requires MirrorsSeen(nodes, edges, hooks, i, |hooks[i].dependencies|)
    ensures MirrorsSeen(nodes, edges, hooks, i + 1, 0)
  {
    var n := |hooks[i].dependencies|;
    forall a, b | a in nodes ensures b in nodes[a].dependents <==> Seen(hooks, i + 1, 0, a, b) {
      assert b in nodes[a].dependents <==> Seen(hooks, i, n, a, b);
      SeenOneHook(hooks, i, a, b);
    }
    forall e ensures e in edges <==> e.from in nodes && Seen(hooks, i + 1, 0, e.from, e.to) {
      assert e in edges <==> e.from in nodes && Seen(hooks, i, n, e.from, e.to);
      SeenOneHook(hooks, i, e.from, e.to);
    }
  }

  lemma AddOneEdge(nodes: Nodes, edges: seq<DependencyEdge>, hooks: seq<ChainedHook>, i: nat, j: nat)
    requires i < |hooks| && j < |hooks[i].dependencies|
    requires MirrorsSeen(nodes, edges, hooks, i, j)
    ensures var dep := hooks[i].dependencies[j]; var id := hooks[i].id;
            if dep in nodes then
              MirrorsSeen(nodes[dep := nodes[dep].(dependents := nodes[dep].dependents + [id])],
                          edges + [DependencyEdge(dep, id)], hooks, i, j + 1)
            else MirrorsSeen(nodes, edges, hooks, i, j + 1)
  {
    var dep, id := hooks[i].dependencies[j], hooks[i].id;
    var nodes' := if dep in nodes then nodes[dep := nodes[dep].(dependents := nodes[dep].dependents + [id])] else nodes;
    var edges' := if dep in nodes then edges + [DependencyEdge(dep, id)] else edges;
    forall a, b | a in nodes' ensures b in nodes'[a].dependents <==> Seen(hooks, i, j + 1, a, b) {
      assert b in nodes[a].dependents <==> Seen(hooks, i, j, a, b);
      SeenOneEntry(hooks, i, j, a, b);
    }
    forall e ensures e in edges' <==> e.from in nodes' && Seen(hooks, i, j + 1, e.from, e.to) {
      assert e in edges <==> e.from in nodes && Seen(hooks, i, j, e.from, e.to);
      SeenOneEntry(hooks, i, j, e.from, e.to);
    }
  }

  method BuildNodes(hooks: seq<ChainedHook>) returns (nodes: Nodes)
    ensures LastNodesFor(nodes, hooks)
    ensures forall id :: id in nodes ==> nodes[id].dependents == []
  {
    nodes := map[];
    for i := 0 to |hooks|
      invariant LastNodesFor(nodes, hooks[..i])
      invariant forall id :: id in nodes ==> nodes[id].dependents == []
    {
      var hook := hooks[i];
      var node := HookNode(hook.id, hook.dependencies, [], 0, hook.failureBehavior.Critical?, HOOK_SECONDS);
      NextNode(nodes, hooks, i, node);
      nodes := nodes[hook.id := node];
    }
    assert hooks[..|hooks|] == hooks;
  }

  lemma NextNode(nodes: Nodes, hooks: seq<ChainedHook>, i: nat, node: HookNode)
    requires i < |hooks| && LastNodesFor(nodes, hooks[..i]) && NodeFor(node, hooks[i])
    ensures LastNodesFor(nodes[hooks[i].id := node], hooks[..i + 1])
  {
    var more := hooks[..i + 1];
    assert more == hooks[..i] + [hooks[i]] && more[..i] == hooks[..i];
    assert IdsOf(more) == IdsOf(hooks[..i]) + {hooks[i].id};
  }

  /**
   Nodes, edges and, when they exist, levels.  Unknown and circular dependencies are no error here:
   they leave the levels empty.
   */
  method BuildGraph(hooks: seq<ChainedHook>) returns (graph: DependencyGraph)
    ensures fresh(graph)
    ensures LastNodesFor(graph.nodes, hooks) && EdgesOf(graph.nodes, graph.edges, hooks)
    ensures OneHookPerId(hooks) ==> NodesFor(graph.nodes, hooks) && Mirrors(graph.nodes, graph.edges)
    ensures if Sound(graph.nodes) then Leveled(graph.nodes, graph.executionLevels) else graph.executionLevels == []
  {
    var nodes := BuildNodes(hooks);
    var edges;
    nodes, edges := AddEdges(hooks, nodes);
    graph := new DependencyGraph(nodes, edges);
    var levelsKnown := graph.CalculateExecutionLevels();
    LevelsKeepLinks(nodes, graph.nodes, edges, hooks);
    BuiltOfOne(graph.nodes, edges, hooks);
  }

  lemma LevelsKeepLinks(a: Nodes, b: Nodes, edges: seq<DependencyEdge>, hooks: seq<ChainedHook>)
    requires SameButLevel(a, b) && LastNodesFor(a, hooks) && EdgesOf(a, edges, hooks)
    ensures LastNodesFor(b, hooks) && EdgesOf(b, edges, hooks)
  {
    forall id | id in b ensures NodeFor(b[id], LastHook(hooks, id)) {
      assert NodeFor(a[id], LastHook(hooks, id)) && b[id] == a[id].(level := b[id].level);
    }
    forall x, y | x in b ensures y in b[x].dependents <==> ListedBy(hooks, x, y) {
      assert b[x] == a[x].(level := b[x].level);
    }
  }

  /** The dependencies of one hook; missing ones are passed over. */
  method AddHookEdges(hooks: seq<ChainedHook>, i: nat, nodes0: Nodes, edges0: seq<DependencyEdge>)
    returns (nodes: Nodes, edges: seq<DependencyEdge>)
    requires i < |hooks| && MirrorsSeen(nodes0, edges0, hooks, i, 0)
    ensures SameButDependents(nodes0, nodes)
    ensures MirrorsSeen(nodes, edges, hooks, i, |hooks[i].dependencies|)
  {
    nodes, edges := nodes0, edges0;
    var hook := hooks[i];
    for j := 0 to |hook.dependencies|
      invariant SameButDependents(nodes0, nodes)
      invariant MirrorsSeen(nodes, edges, hooks, i, j)
    {
      var dep := hook.dependencies[j];
      AddOneEdge(nodes, edges, hooks, i, j);
      if dep in nodes {
        edges := edges + [DependencyEdge(dep, hook.id)];
        nodes := nodes[dep := nodes[dep].(dependents := nodes[dep].dependents + [hook.id])];
      }
    }
  }

  lemma NothingSeenYet(nodes: Nodes, hooks: seq<ChainedHook>)
    requires forall id :: id in nodes ==> nodes[id].dependents == []
    ensures MirrorsSeen(nodes, [], hooks, 0, 0)
  {
  }

  method AddEdges(hooks: seq<ChainedHook>, nodes0: Nodes) returns (nodes: Nodes, edges: seq<DependencyEdge>)
    requires LastNodesFor(nodes0, hooks) && forall id :: id in nodes0 ==> nodes0[id].dependents == []
    ensures LastNodesFor(nodes, hooks) && EdgesOf(nodes, edges, hooks)
  {
    nodes, edges := nodes0, [];
    NothingSeenYet(nodes, hooks);
    for i := 0 to |hooks|
      invariant SameButDependents(nodes0, nodes)
      invariant MirrorsSeen(nodes, edges, hooks, i, 0)
    {
      nodes, edges := AddHookEdges(hooks, i, nodes, edges);
      NextHook(nodes, edges, hooks, i);
    }
    forall id | id in nodes ensures NodeFor(nodes[id], LastHook(hooks, id)) {
      assert NodeFor(nodes0[id], LastHook(hooks, id));
    }
    SeenAll(nodes, edges, hooks);
  }

  // ---------- Validation ----------

  /** What the strongly-connected-components routine delivers: the classes of mutual reachability. */
  ghost predicate AreComponents(g: Deps, ids: set<Id>, components: seq<seq<Id>>) {
    && (forall k, a :: 0 <= k < |components| && a in components[k] ==> a in ids)
    && (forall k :: 0 <= k < |components| ==> NoDup(components[k]))
    && (forall k, a, b :: 0 <= k < |components| && a in components[k] && b in components[k] && a != b ==>
        Reaches(g, a, b))
    && (forall a, b :: a in ids && b in ids && a != b && Reaches(g, a, b) && Reaches(g, b, a) ==>
          exists k :: 0 <= k < |components| && a in components[k] && b in components[k])
  }

  ghost predicate MutuallyDependent(g: Deps, a: Id, b: Id) {
    a != b && Reaches(g, a, b) && Reaches(g, b, a)
  }

  /** The graph that is searched for cycles: an entry for every node, with the ends of the edges that leave it. */
  function SearchGraph(ids: set<Id>, edges: seq<DependencyEdge>): Deps {
    if edges == [] then map id | id in ids :: []
    else
      var pg := SearchGraph(ids, edges[..|edges| - 1]);
      var e := edges[|edges| - 1];
      if e.from in pg && e.to in pg then pg[e.from := pg[e.from] + [e.to]] else pg
  }

  lemma SearchGraphMeaning(ids: set<Id>, edges: seq<DependencyEdge>)
    ensures SearchGraph(ids, edges).Keys == ids
    ensures forall a, b :: DependsOn(SearchGraph(ids, edges), a, b) <==>
        a in ids && b in ids && DependencyEdge(a, b) in edges
  {
    if edges != [] {
      var n := |edges| - 1;
      assert edges == edges[..n] + [edges[n]];
      SearchGraphMeaning(ids, edges[..n]);
    }
  }

  /** When every dependency is known, the edges run exactly against the dependencies. */
  lemma SearchGraphReverses(nodes: Nodes, edges: seq<DependencyEdge>)
    requires Mirrors(nodes, edges) && Closed(LinksOf(nodes), nodes.Keys)
    ensures IsReverse(LinksOf(nodes), SearchGraph(nodes.Keys, edges))
  {
    var g, pg := LinksOf(nodes), SearchGraph(nodes.Keys, edges);
    SearchGraphMeaning(nodes.Keys, edges);
    forall a, b ensures DependsOn(pg, a, b) <==> DependsOn(g, b, a) {
      var e := DependencyEdge(a, b);
      assert e in edges <==> a in nodes && b in nodes && a in nodes[b].dependencies;
    }
  }

  /** Components do not depend on the direction of the edges. */
  lemma ComponentsReversed(g: Deps, h: Deps, ids: set<Id>, components: seq<seq<Id>>)
    requires IsReverse(g, h) && AreComponents(g, ids, components)
    ensures AreComponents(h, ids, components)
  {
    forall k, a, b | 0 <= k < |components| && a in components[k] && b in components[k] && a != b
      ensures Reaches(h, a, b)
    {
      ReachesReversed(g, h, b, a);
    }
    forall a, b | a in ids && b in ids && a != b && Reaches(h, a, b) && Reaches(h, b, a)
      ensures exists k :: 0 <= k < |components| && a in components[k] && b in components[k]
    {
      ReachesReversed(g, h, a, b);
      ReachesReversed(g, h, b, a);
    }
  }

  /** Builds the search graph; of its components, which are `components`, those with more than one member are cycles. */
  method DetectCycles(graph: DependencyGraph, components: seq<seq<Id>>) returns (cycles: seq<seq<Id>>, pg: Deps)
    requires AreComponents(SearchGraph(graph.nodes.Keys, graph.edges), graph.nodes.Keys, components)
    ensures pg == SearchGraph(graph.nodes.Keys, graph.edges)
    ensures forall c :: c in cycles <==> c in components && |c| > 1
    ensures cycles != [] ==> IsFirstBig(components, cycles[0])
    ensures forall c, a, b :: c in cycles && a in c && b in c && a != b ==> MutuallyDependent(pg, a, b)
    ensures cycles == [] <==> forall a, b :: !MutuallyDependent(pg, a, b)
  {
    pg := map id | id in graph.nodes.Keys :: [];
    for i := 0 to |graph.edges|
      invariant pg == SearchGraph(graph.nodes.Keys, graph.edges[..i])
    {
      assert graph.edges[..i + 1][..i] == graph.edges[..i];
      var e := graph.edges[i];
      if e.from in pg && e.to in pg {
        pg := pg[e.from := pg[e.from] + [e.to]];
      }
    }
    assert graph.edges[..|graph.edges|] == graph.edges;
    SearchGraphMeaning(graph.nodes.Keys, graph.edges);
    cycles := BigComponents(components);
    BigComponentIffMutual(pg, components);
    forall c, a, b | c in cycles && a in c && b in c && a != b ensures MutuallyDependent(pg, a, b) {
      ComponentIsMutual(pg, components, c, a, b);
    }
    if cycles == [] {
      assert forall c :: c in components ==> |c| <= 1;
    } else {
      assert cycles[0] in cycles;
    }
  }

  /** The first component with more than one member. */
  ghost predicate IsFirstBig(components: seq<seq<Id>>, c: seq<Id>) {
    exists i :: 0 <= i < |components| && components[i] == c && |c| > 1 &&
      forall j :: 0 <= j < i ==> |components[j]| <= 1
  }

  method BigComponents(components: seq<seq<Id>>) returns (cycles: seq<seq<Id>>)
    ensures forall c :: c in cycles <==> c in components && |c| > 1
    ensures cycles != [] ==> IsFirstBig(components, cycles[0])
  {
    cycles := [];
    for i := 0 to |components|
      invariant forall c :: c in cycles <==> c in components[..i] && |c| > 1
      invariant if cycles == [] then forall j :: 0 <= j < i ==> |components[j]| <= 1
                else IsFirstBig(components, cycles[0])
    {
      if |components[i]| > 1 {
        cycles := cycles + [components[i]];
      }
      assert components[..i + 1] == components[..i] + [components[i]];
    }
    assert components[..|components|] == components;
  }

  /** A dependency that is no node, if there is one. */
  method FindMissing(nodes: Nodes) returns (missing: Option<ValidationError>)
    ensures missing.None? <==> Closed(LinksOf(nodes), nodes.Keys)
    ensures missing.Some? ==>
      && missing.value.MissingDependency?
      && DependsOn(LinksOf(nodes), missing.value.hookId, missing.value.missing)
      && missing.value.missing !in nodes
  {
    var todo := nodes.Keys;
    while todo != {}
      invariant todo <= nodes.Keys
      invariant forall a, b :: DependsOn(LinksOf(nodes), a, b) && a !in todo ==> b in nodes
    {
      var hookId :| hookId in todo;
      todo := todo - {hookId};
      var dependencies := nodes[hookId].dependencies;
      for i := 0 to |dependencies|
        invariant forall k :: 0 <= k < i ==> dependencies[k] in nodes
      {
        if dependencies[i] !in nodes {
          assert DependsOn(LinksOf(nodes), hookId, dependencies[i]);
          return Some(MissingDependency(hookId, dependencies[i]));
        }
      }
    }
    return None;
  }

  lemma BigComponentIffMutual(g: Deps, components: seq<seq<Id>>)
    requires AreComponents(g, g.Keys, components) && Closed(g, g.Keys)
    ensures (exists c :: c in components && |c| > 1) <==> exists a, b :: MutuallyDependent(g, a, b)
  {
    if a, b :| MutuallyDependent(g, a, b) {
      ReachingIsKnown(g, a, b);
      ReachingIsKnown(g, b, a);
      var k :| 0 <= k < |components| && a in components[k] && b in components[k];
      var c := components[k];
      assert c in components;
      var i :| 0 <= i < |c| && c[i] == a;
      var j :| 0 <= j < |c| && c[j] == b;
      assert |c| > 1;
    }
    if c :| c in components && |c| > 1 {
      NoDupPairs(c);
      assert c[0] in c && c[1] in c && c[0] != c[1];
      ComponentIsMutual(g, components, c, c[0], c[1]);
    }
  }

  lemma ReachingIsKnown(g: Deps, a: Id, b: Id)
    requires Reaches(g, a, b)
    ensures a in g && g[a] != []
  {
    var p :| IsChain(g, p) && |p| > 1 && p[0] == a && p[|p| - 1] == b;
    assert DependsOn(g, p[0], p[1]);
  }

  lemma ComponentIsMutual(g: Deps, components: seq<seq<Id>>, c: seq<Id>, a: Id, b: Id)
    requires AreComponents(g, g.Keys, components)
    requires c in components && a in c && b in c && a != b
    ensures MutuallyDependent(g, a, b)
  {
    var k :| 0 <= k < |components| && components[k] == c;
    assert a in components[k] && b in components[k];
  }

  /**
   Accepts a graph exactly when all dependencies are known and no two distinct hooks depend on each
   other.  A hook that depends on itself passes: it is a component of one.
   */
  method ValidateDependencies(graph: DependencyGraph, components: seq<seq<Id>>) returns (v: Validation)
    requires Mirrors(graph.nodes, graph.edges)
    requires Closed(LinksOf(graph.nodes), graph.nodes.Keys) ==>
               AreComponents(SearchGraph(graph.nodes.Keys, graph.edges), graph.nodes.Keys, components)
    ensures v.Valid? <==> Accepted(LinksOf(graph.nodes))
    ensures v.Invalid? ==> match v.error
      case MissingDependency(a, b) => DependsOn(LinksOf(graph.nodes), a, b) && b !in graph.nodes
      case CircularDependency(cycle) =>
        IsFirstBig(components, cycle) && forall a, b :: a in cycle && b in cycle && a != b ==>
            MutuallyDependent(LinksOf(graph.nodes), a, b)
  {
    var missing := FindMissing(graph.nodes);
    if missing.Some? { return Invalid(missing.value); }
    ghost var g := LinksOf(graph.nodes);
    var cycles, pg := DetectCycles(graph, components);
    SearchGraphReverses(graph.nodes, graph.edges);
    forall a, b ensures MutuallyDependent(pg, a, b) <==> MutuallyDependent(g, a, b) {
      MutualReversed(g, pg, a, b);
    }
    if cycles != [] {
      assert cycles[0] in cycles;
      return Invalid(CircularDependency(cycles[0]));
    }
    return Valid;
  }

  lemma MutualReversed(g: Deps, h: Deps, a: Id, b: Id)
    requires IsReverse(g, h)
    ensures MutuallyDependent(h, a, b) <==> MutuallyDependent(g, a, b)
  {
    ReachesReversed(g, h, a, b);
    ReachesReversed(g, h, b, a);
  }

  /** What validation asks of a relation: everything known, and no two hooks that depend on each other. */
  ghost predicate Accepted(g: Deps) {
    Closed(g, g.Keys) && forall a, b {:trigger MutuallyDependent(g, a, b)} :: !MutuallyDependent(g, a, b)
  }

  /** A cycle through two hooks makes them mutually dependent; any other cycle is one hook listing itself. */
  lemma AcyclicIffNoMutualNoSelf(g: Deps)
    ensures Acyclic(g) <==> (forall a, b :: !MutuallyDependent(g, a, b)) && NoSelfDependency(g)
  {
    CyclicIffSelfReaching(g);
    forall a, b | MutuallyDependent(g, a, b) ensures Reaches(g, a, a) { ReachesTransitive(g, a, b, a); }
    forall a | DependsOn(g, a, a) ensures Reaches(g, a, a) { LinkReaches(g, a, a); }
    forall p | IsCycle(g, p) ensures DependsOn(g, p[0], p[0]) || MutuallyDependent(g, p[0], p[1]) {
      CycleIsSelfOrMutual(g, p);
    }
  }

  lemma CycleIsSelfOrMutual(g: Deps, p: seq<Id>)
    requires IsCycle(g, p)
    ensures DependsOn(g, p[0], p[0]) || MutuallyDependent(g, p[0], p[1])
  {
    assert DependsOn(g, p[0], p[1]);
    if p[1] != p[0] {
      LinkReaches(g, p[0], p[1]);
      Segment(g, p, 1, |p|);
      assert p[1..|p|][0] == p[1] && p[1..|p|][|p| - 2] == p[0];
      assert Reaches(g, p[1], p[0]);
    }
  }

  /**
   The level computation and the validation agree, except on hooks that list themselves: for a
   validated chain the levels cover every hook if and only if no hook does.
   */
  lemma ValidatedLevels(nodes: Nodes, levels: seq<seq<Id>>)
    requires Accepted(LinksOf(nodes))
    requires if Sound(nodes) then Leveled(nodes, levels) else levels == []
    ensures NoSelfDependency(LinksOf(nodes)) <==> Leveled(nodes, levels)
  {
    AcyclicIffNoMutualNoSelf(LinksOf(nodes));
    if Leveled(nodes, levels) { LeveledIsSound(nodes, levels); }
  }

  /** The gap: one hook that depends on itself is accepted, and then has no level to run in. */
  lemma SelfDependencyPassesValidation(a: Id) returns (nodes: Nodes)
    ensures nodes.Keys == {a} && DependsOn(LinksOf(nodes), a, a)
    ensures AreComponents(LinksOf(nodes), nodes.Keys, [[a]])
    ensures Accepted(LinksOf(nodes)) && !Sound(nodes)
  {
    nodes := map[a := HookNode(a, [a], [a], 0, false, HOOK_SECONDS)];
    var g := LinksOf(nodes);
    forall x, y ensures !MutuallyDependent(g, x, y) {
      if Reaches(g, x, y) && Reaches(g, y, x) {
        ReachingIsKnown(g, x, y);
        ReachingIsKnown(g, y, x);
      }
    }
    assert DependsOn(g, a, a);
    AcyclicIffNoMutualNoSelf(g);
  }
}
