/**
 The task dependency graph: tentative edge insertion checked by a depth-first cycle search and
 undone on failure, and Kahn's algorithm for the execution order.  Hash maps are iterated in an
 arbitrary order, chosen here by `:|`; every contract holds for every choice.
 */
module TaskDependencyGraphs {
  import opened Graphs
  import opened DepthFirstSearch
  import opened Wrappers

  datatype TaskConfig = TaskConfig(id: Id, maxRetries: nat)

  datatype GraphError =
    | UnknownTask(id: Id)
    | UnknownDependency(id: Id)
    | InvalidDependency(dependent: Id, dependency: Id)
    | CircularDependency

  datatype Result<+T> = Ok(value: T) | Err(error: GraphError)

  /** `g` with one more dependency of `a`, at the end of its list. */
  function WithDependency(g: Deps, a: Id, b: Id): Deps {
    g[a := DepsOf(g, a) + [b]]
  }

  lemma WithDependencyLinks(g: Deps, a: Id, b: Id)
    ensures forall x, y :: DependsOn(WithDependency(g, a, b), x, y) <==> DependsOn(g, x, y) || (x == a && y == b)
  {
  }

  /** Listing a dependency a second time changes nothing about cycles, so it is never rolled back. */
  lemma RepeatedDependencyIsHarmless(g: Deps, a: Id, b: Id)
    requires DependsOn(g, a, b)
    ensures Acyclic(WithDependency(g, a, b)) <==> Acyclic(g)
  {
    WithDependencyLinks(g, a, b);
    SubrelationAcyclic(g, WithDependency(g, a, b));
    SubrelationAcyclic(WithDependency(g, a, b), g);
  }

  /** `s` without its occurrences of `x`. */
  function Without(s: seq<Id>, x: Id): (r: seq<Id>)
    ensures x !in r
    ensures x !in s ==> r == s
  {
    if s == [] then []
    else if s[0] == x then Without(s[1..], x)
    else [s[0]] + Without(s[1..], x)
  }

  lemma WithoutLast(s: seq<Id>, x: Id)
    requires x !in s
    ensures Without(s + [x], x) == s
  {
    if s == [] {
    } else {
      assert (s + [x])[1..] == s[1..] + [x];
      WithoutLast(s[1..], x);
    }
  }

  /**
   The rollback drops every entry equal to the rejected one.  That is an exact undo, because a
   dependency that was listed before cannot be the one that closes a cycle.
   */
  lemma RollbackRestores(g: Deps, a: Id, b: Id)
    requires Acyclic(g) && !Acyclic(WithDependency(g, a, b))
    requires forall x :: x in g ==> g[x] != []
    ensures var after := WithDependency(g, a, b);
            var kept := Without(after[a], b);
            (if kept == [] then after[a := kept] - {a} else after[a := kept]) == g
  {
    if DependsOn(g, a, b) { RepeatedDependencyIsHarmless(g, a, b); }
    WithoutLast(DepsOf(g, a), b);
  }

  // ---------- Counting for Kahn's algorithm ----------

  /** How many entries of a dependency list are still unprocessed. */
  function Pending(ds: seq<Id>, done: set<Id>): nat {
    if ds == [] then 0 else (if ds[0] in done then 0 else 1) + Pending(ds[1..], done)
  }

  lemma PendingFresh(ds: seq<Id>)
    ensures Pending(ds, {}) == |ds|
  {
  }

  /** Processing `c` settles each of its occurrences. */
  lemma PendingAfter(ds: seq<Id>, done: set<Id>, c: Id)
    requires c !in done
    ensures Pending(ds, done + {c}) == Pending(ds, done) - multiset(ds)[c]
  {
    if ds != [] {
      assert ds == [ds[0]] + ds[1..];
      PendingAfter(ds[1..], done, c);
    }
  }

  lemma PendingZero(ds: seq<Id>, done: set<Id>)
    ensures Pending(ds, done) == 0 <==> forall d :: d in ds ==> d in done
  {
    if ds != [] {
      assert ds == [ds[0]] + ds[1..];
      PendingZero(ds[1..], done);
    }
  }

  /** `dependents` mentions every task as often as that task's dependency list mentions `d`. */
  ghost predicate Reverses(tasks: set<Id>, seen: Deps, d: Id, dependents: seq<Id>) {
    && Elems(dependents) <= tasks
    && forall t {:trigger multiset(dependents)[t]} :: t in tasks ==>
        multiset(dependents)[t] == multiset(DepsOf(seen, t))[d]
  }

  ghost predicate RowOk(tasks: set<Id>, seen: Deps, t: Id, degree: nat, dependents: seq<Id>) {
    degree == |DepsOf(seen, t)| && Reverses(tasks, seen, t, dependents)
  }

  /** The two tables describe the entries seen so far: in-degrees, and the edges reversed. */
  ghost predicate Tabulates(tasks: set<Id>, seen: Deps, inDegree: map<Id, nat>, adjacency: map<Id, seq<Id>>) {
    && inDegree.Keys == adjacency.Keys == tasks
    && forall t {:trigger RowOk(tasks, seen, t, inDegree[t], adjacency[t])} ::
         t in tasks ==> RowOk(tasks, seen, t, inDegree[t], adjacency[t])
  }

  ghost predicate DegreeIs(g: Deps, done: set<Id>, part: seq<Id>, t: Id, degree: nat) {
    degree == Pending(DepsOf(g, t), done) - multiset(part)[t]
  }

  /**
   The state of Kahn's algorithm: degrees count the entries that are neither processed nor among
   `part`, the dependents already released by the task now being processed; `emitted`, the order
   so far followed by the queue, lists each task of degree zero once.
   */
  ghost predicate KahnState(g: Deps, tasks: set<Id>, done: set<Id>, part: seq<Id>, inDegree: map<Id, nat>,
                            emitted: seq<Id>) {
    && inDegree.Keys == tasks
    && NoDup(emitted)
    && Elems(emitted) <= tasks
    && (forall t {:trigger DegreeIs(g, done, part, t, inDegree[t])} :: t in tasks ==>
        DegreeIs(g, done, part, t, inDegree[t]))
    && (forall t :: t in tasks ==> (inDegree[t] == 0 <==> t in emitted))
  }

  lemma ReadyMeansDepsDone(g: Deps, order: seq<Id>, t: Id)
    requires DepsFirst(g, order)
    requires Pending(DepsOf(g, t), Elems(order)) == 0
    ensures DepsFirst(g, order + [t])
  {
    PendingZero(DepsOf(g, t), Elems(order));
    FinishTask(g, order, t);
  }

  /** When the queue runs dry before all tasks are out, the remaining ones wait for each other. */
  lemma DryQueue(g: Deps, tasks: set<Id>, inDegree: map<Id, nat>, order: seq<Id>)
    requires KahnState(g, tasks, Elems(order), [], inDegree, order)
    requires Closed(g, tasks) && g.Keys <= tasks
    requires DepsFirst(g, order)
    ensures |order| == |tasks| <==> Elems(order) == tasks
    ensures |order| == |tasks| <==> Acyclic(g)
  {
    FullList(order, tasks);
    if Elems(order) == tasks {
      forall a, b | DependsOn(g, a, b) ensures a in order { assert a in Elems(order); }
      OrderMakesAcyclic(g, order);
    } else {
      var rest := tasks - Elems(order);
      NothingLeft(Elems(order), tasks);
      forall x {:trigger WaitsIn(g, rest, x)} | x in rest ensures WaitsIn(g, rest, x) {
        assert x !in order;
        assert DegreeIs(g, Elems(order), [], x, inDegree[x]);
        PendingZero(DepsOf(g, x), Elems(order));
        var d :| d in DepsOf(g, x) && d !in Elems(order);
        assert DependsOn(g, x, d);
      }
      StuckHasCycle(g, rest);
    }
  }

  class TaskDependencyGraph {
    var tasks: map<Id, TaskConfig>
    var edges: Deps

    /** What `AddTask` and `AddDependency` keep in every run. */
    ghost predicate Valid()
      reads this
    {
      && (forall t :: t in tasks ==> tasks[t].id == t)
      && edges.Keys <= tasks.Keys
      && (forall a :: a in edges ==> edges[a] != [])
      && Closed(edges, tasks.Keys)
      && Acyclic(edges)
    }

    constructor ()
      ensures Valid() && tasks == map[] && edges == map[]
    {
      tasks := map[];
      edges := map[];
      new;
      OrderMakesAcyclic(edges, []);
    }

    method AddTask(config: TaskConfig)
      requires Valid()
      modifies this`tasks
      ensures Valid()
      ensures tasks == old(tasks)[config.id := config]
    {
      tasks := tasks[config.id := config];
    }

    /**
     The dependency goes in exactly when both tasks are known and no cycle arises; otherwise the
     edge map is left as it was, entry for entry.
     */
    method AddDependency(taskId: Id, dependsOn: Id) returns (r: Result<()>)
      requires Valid()
      modifies this`edges
      ensures Valid()
      ensures r == (
        if taskId !in tasks then Err(UnknownTask(taskId))
        else if dependsOn !in tasks then Err(UnknownDependency(dependsOn))
        else if Acyclic(WithDependency(old(edges), taskId, dependsOn)) then Ok(())
        else Err(CircularDependency))
      ensures edges == if r.Ok? then WithDependency(old(edges), taskId, dependsOn) else old(edges)
    {
      if taskId !in tasks { return Err(UnknownTask(taskId)); }
      if dependsOn !in tasks { return Err(UnknownDependency(dependsOn)); }

      ghost var before := edges;
      edges := edges[taskId := DepsOf(edges, taskId) + [dependsOn]];
      assert edges == WithDependency(before, taskId, dependsOn);
      WithDependencyLinks(before, taskId, dependsOn);
      assert Closed(edges, tasks.Keys) by {
        forall a, b | DependsOn(edges, a, b) ensures b in tasks.Keys {
          assert DependsOn(before, a, b) || b == dependsOn;
        }
      }

      var ok := DetectCycles();
      if !ok {
        RollbackRestores(before, taskId, dependsOn);
        var deps := Without(edges[taskId], dependsOn);
        edges := edges[taskId := deps];
        if deps == [] {
          edges := edges - {taskId};
        }
        return Err(CircularDependency);
      }
      return Ok(());
    }

    /** Kahn's algorithm. */
    method ResolveExecutionOrder() returns (r: Result<seq<Id>>)
      requires edges.Keys <= tasks.Keys
      ensures r.Ok? <==> Closed(edges, tasks.Keys) && Acyclic(edges)
      ensures r.Ok? ==> IsTopologicalOrder(edges, tasks.Keys, r.value)
      ensures r.Err? ==>
        || (r.error == CircularDependency && Closed(edges, tasks.Keys) && !Acyclic(edges))
        || (r.error.InvalidDependency? && DependsOn(edges, r.error.dependent, r.error.dependency)
            && r.error.dependency !in tasks)
      ensures Valid() ==> r.Ok?
    {
      var error, inDegree, adjacency := BuildTables();
      if error.Some? { return Err(error.value); }
      ghost var inDegree0 := inDegree;
      assert forall t :: t in tasks ==> inDegree[t] == |DepsOf(edges, t)| by {
        forall t | t in tasks ensures inDegree[t] == |DepsOf(edges, t)| {
          assert RowOk(tasks.Keys, edges, t, inDegree[t], adjacency[t]);
        }
      }
      var queue := InitialQueue(inDegree);

      var order: seq<Id> := [];
      KahnStart(edges, tasks.Keys, inDegree, queue);
      while queue != []
        invariant KahnState(edges, tasks.Keys, Elems(order), [], inDegree, order + queue)
        invariant DepsFirst(edges, order)
        decreases |tasks| - |order|
      {
        var current := queue[0];
        KahnTake(edges, tasks.Keys, inDegree, queue, order);
        assert RowOk(tasks.Keys, edges, current, |DepsOf(edges, current)|, adjacency[current]) by {
          assert RowOk(tasks.Keys, edges, current, inDegree0[current], adjacency[current]);
        }
        queue := queue[1..];
        inDegree, queue := ReleaseDependents(current, adjacency[current], inDegree, queue, order);
        order := order + [current];
      }
      assert order + queue == order;
      DryQueue(edges, tasks.Keys, inDegree, order);
      if |order| != |tasks| {
        return Err(CircularDependency);
      }
      return Ok(order);
    }

    /** In-degrees and the reversed edges; stops at the first dependency that is no task. */
    method BuildTables() returns (error: Option<GraphError>, inDegree: map<Id, nat>, adjacency: map<Id, seq<Id>>)
      requires edges.Keys <= tasks.Keys
      ensures error.None? ==> Closed(edges, tasks.Keys) && Tabulates(tasks.Keys, edges, inDegree, adjacency)
      ensures error.Some? ==>
        && error.value.InvalidDependency?
        && DependsOn(edges, error.value.dependent, error.value.dependency)
        && error.value.dependency !in tasks
    {
      inDegree := map t | t in tasks :: 0;
      adjacency := map t | t in tasks :: [];
      ghost var seen: Deps := map[];

      var todo := edges.Keys;
      while todo != {}
        invariant todo <= edges.Keys
        invariant Tabulates(tasks.Keys, seen, inDegree, adjacency)
        invariant seen.Keys == edges.Keys - todo
        invariant forall t :: t in seen ==> seen[t] == edges[t]
        invariant Closed(seen, tasks.Keys)
      {
        var dependent :| dependent in todo;
        todo := todo - {dependent};
        EmptyEntry(tasks.Keys, seen, inDegree, adjacency, dependent);
        error, inDegree, adjacency := CountEntries(dependent, inDegree, adjacency, seen);
        if error.Some? { return; }
        seen := seen[dependent := edges[dependent]];
      }
      assert seen == edges;
      error := None;
    }

    /** The inner loop of `BuildTables`: the entries of one dependency list. */
    method CountEntries(dependent: Id, inDegree0: map<Id, nat>, adjacency0: map<Id, seq<Id>>, ghost seen: Deps)
      returns (error: Option<GraphError>, inDegree: map<Id, nat>, adjacency: map<Id, seq<Id>>)
      requires dependent in edges && dependent in tasks
      requires Tabulates(tasks.Keys, seen[dependent := []], inDegree0, adjacency0)
          && Closed(seen[dependent := []], tasks.Keys)
      ensures error.None? ==>
        && Closed(seen[dependent := edges[dependent]], tasks.Keys)
        && Tabulates(tasks.Keys, seen[dependent := edges[dependent]], inDegree, adjacency)
      ensures error.Some? ==>
        && error.value.InvalidDependency?
        && DependsOn(edges, error.value.dependent, error.value.dependency)
        && error.value.dependency !in tasks
    {
      inDegree, adjacency := inDegree0, adjacency0;
      var dependencies := edges[dependent];
      for i := 0 to |dependencies|
        invariant Tabulates(tasks.Keys, seen[dependent := dependencies[..i]], inDegree, adjacency)
        invariant Closed(seen[dependent := dependencies[..i]], tasks.Keys)
      {
        var dependency := dependencies[i];
        if dependency !in tasks {
          assert DependsOn(edges, dependent, dependency);
          return Some(InvalidDependency(dependent, dependency)), inDegree, adjacency;
        }
        ghost var sofar := seen[dependent := dependencies[..i]];
        Tabulate(tasks.Keys, sofar, inDegree, adjacency, dependent, dependency);
        adjacency := adjacency[dependency := adjacency[dependency] + [dependent]];
        inDegree := inDegree[dependent := inDegree[dependent] + 1];
        assert dependencies[..i + 1] == dependencies[..i] + [dependency];
        assert seen[dependent := dependencies[..i + 1]] == WithDependency(sofar, dependent, dependency);
        WithDependencyLinks(sofar, dependent, dependency);
      }
      assert dependencies[..|dependencies|] == dependencies;
      error := None;
    }

    method InitialQueue(inDegree: map<Id, nat>) returns (queue: seq<Id>)
      requires inDegree.Keys == tasks.Keys
      ensures NoDup(queue) && Elems(queue) == set t | t in tasks && inDegree[t] == 0
    {
      queue := [];
      var scan := tasks.Keys;
      while scan != {}
        invariant scan <= tasks.Keys
        invariant NoDup(queue) && Elems(queue) == set t | t in tasks && t !in scan && inDegree[t] == 0
      {
        var t :| t in scan;
        scan := scan - {t};
        if inDegree[t] == 0 {
          assert t !in Elems(queue);
          AppendFresh(queue, t);
          assert Elems(queue + [t]) == Elems(queue) + {t};
          queue := queue + [t];
        }
      }
    }

    /** The inner loop: one decrement per entry, and whoever reaches zero is queued. */
    method ReleaseDependents(current: Id, dependents: seq<Id>, inDegree0: map<Id, nat>, queue0: seq<Id>,
                             ghost order: seq<Id>)
      returns (inDegree: map<Id, nat>, queue: seq<Id>)
      requires current !in order
      requires Reverses(tasks.Keys, edges, current, dependents)
      requires KahnState(edges, tasks.Keys, Elems(order), [], inDegree0, order + [current] + queue0)
      ensures KahnState(edges, tasks.Keys, Elems(order + [current]), [], inDegree, order + [current] + queue)
    {
      inDegree, queue := inDegree0, queue0;
      for j := 0 to |dependents|
        invariant KahnState(edges, tasks.Keys, Elems(order), dependents[..j], inDegree, order + [current] + queue)
      {
        var dependent := dependents[j];
        KahnDecrement(edges, tasks.Keys, Elems(order), current, dependents, j, inDegree, order + [current] + queue);
        assert order + [current] + (queue + [dependent]) == order + [current] + queue + [dependent];
        var degree := inDegree[dependent] - 1;
        inDegree := inDegree[dependent := degree];
        if degree == 0 {
          queue := queue + [dependent];
        }
      }
      assert dependents[..|dependents|] == dependents;
      KahnSettle(edges, tasks.Keys, order, current, dependents, inDegree, order + [current] + queue);
    }

    /** Succeeds exactly when there is no cycle. */
    method DetectCycles() returns (ok: bool)
      requires edges.Keys <= tasks.Keys && Closed(edges, tasks.Keys)
      ensures ok <==> Acyclic(edges)
    {
      var visited: set<Id> := {};
      var recursionStack: set<Id> := {};
      ghost var finished: seq<Id> := [];
      var todo := tasks.Keys;
      while todo != {}
        invariant todo <= tasks.Keys
        invariant tasks.Keys - todo <= visited <= tasks.Keys
        invariant recursionStack == {}
        invariant DfsState(edges, visited, recursionStack, [], finished)
      {
        var taskId :| taskId in todo;
        todo := todo - {taskId};
        if taskId !in visited {
          ok, visited, recursionStack, finished := DfsCycleCheck(taskId, visited, recursionStack, [], finished);
          if !ok { return; }
        }
      }
      forall a, b | DependsOn(edges, a, b) ensures a in finished { assert a in Elems(finished); }
      OrderMakesAcyclic(edges, finished);
      ok := true;
    }

    /** One search from `taskId`; `visited0` and `stack0` are the tables on entry. */
    method DfsCycleCheck(taskId: Id, visited0: set<Id>, stack0: set<Id>, ghost path: seq<Id>, ghost finished0: seq<Id>)
      returns (ok: bool, visited: set<Id>, stack: set<Id>, ghost finished: seq<Id>)
      requires edges.Keys <= tasks.Keys && Closed(edges, tasks.Keys)
      requires taskId in tasks && taskId !in visited0 && visited0 <= tasks.Keys
      requires DfsState(edges, visited0, stack0, path, finished0)
      requires path != [] ==> DependsOn(edges, path[|path| - 1], taskId)
      ensures ok ==> stack == stack0 && visited0 + {taskId} <= visited <= tasks.Keys
      ensures ok ==> DfsState(edges, visited, stack, path, finished) && finished0 <= finished
      ensures !ok ==> !Acyclic(edges)
      decreases tasks.Keys - visited0
    {
      visited := visited0 + {taskId};
      stack := stack0 + {taskId};
      finished := finished0;
      ghost var here := path + [taskId];
      ExtendChain(edges, path, taskId);

      var dependencies := DepsOf(edges, taskId);
      for i := 0 to |dependencies|
        invariant stack == stack0 + {taskId} && visited0 + {taskId} <= visited <= tasks.Keys
        invariant DfsState(edges, visited, stack, here, finished) && finished0 <= finished
        invariant forall k :: 0 <= k < i ==> dependencies[k] in finished
      {
        var dependency := dependencies[i];
        assert DependsOn(edges, taskId, dependency);
        ghost var finished1 := finished;
        if dependency !in visited {
          var sub;
          sub, visited, stack, finished := DfsCycleCheck(dependency, visited, stack, here, finished);
          if !sub { return false, visited, stack, finished; }
          assert dependency !in stack;
        } else if dependency in stack {
          BackEdgeClosesCycle(edges, here, dependency);
          return false, visited, stack, finished;
        }
        assert dependency in Elems(finished);
        assert forall k :: 0 <= k < i ==> dependencies[k] in finished1;
      }

      stack := stack - {taskId};
      FinishTask(edges, finished, taskId);
      finished := finished + [taskId];
      return true, visited, stack, finished;
    }
  }

  lemma Tabulate(tasks: set<Id>, seen: Deps, inDegree: map<Id, nat>, adjacency: map<Id, seq<Id>>, t: Id, d: Id)
    requires Tabulates(tasks, seen, inDegree, adjacency)
    requires t in tasks && d in tasks
    ensures Tabulates(tasks, WithDependency(seen, t, d), inDegree[t := inDegree[t] + 1],
        adjacency[d := adjacency[d] + [t]])
  {
    var seen' := WithDependency(seen, t, d);
    var adjacency' := adjacency[d := adjacency[d] + [t]];
    var inDegree' := inDegree[t := inDegree[t] + 1];
    forall x | x in tasks ensures RowOk(tasks, seen', x, inDegree'[x], adjacency'[x]) {
      assert RowOk(tasks, seen, x, inDegree[x], adjacency[x]);
      TabulateRow(tasks, seen, adjacency, t, d, x);
    }
  }

  lemma TabulateRow(tasks: set<Id>, seen: Deps, adjacency: map<Id, seq<Id>>, t: Id, d: Id, x: Id)
    requires x in adjacency && t in tasks && d in adjacency
    requires Reverses(tasks, seen, x, adjacency[x])
    ensures Reverses(tasks, WithDependency(seen, t, d), x, adjacency[d := adjacency[d] + [t]][x])
  {
    var row := adjacency[d := adjacency[d] + [t]][x];
    forall y | y in Elems(row) ensures y in tasks {
      assert y == t || y in Elems(adjacency[x]);
    }
    var seen' := WithDependency(seen, t, d);
    forall u | u in tasks ensures multiset(row)[u] == multiset(DepsOf(seen', u))[x] {
      assert multiset(adjacency[x])[u] == multiset(DepsOf(seen, u))[x];
    }
  }

  lemma EmptyEntry(tasks: set<Id>, seen: Deps, inDegree: map<Id, nat>, adjacency: map<Id, seq<Id>>, t: Id)
    requires Tabulates(tasks, seen, inDegree, adjacency) && Closed(seen, tasks) && t !in seen
    ensures Tabulates(tasks, seen[t := []], inDegree, adjacency) && Closed(seen[t := []], tasks)
  {
    var seen' := seen[t := []];
    assert forall x :: DepsOf(seen', x) == DepsOf(seen, x);
    forall x | x in tasks ensures RowOk(tasks, seen', x, inDegree[x], adjacency[x]) {
      assert RowOk(tasks, seen, x, inDegree[x], adjacency[x]);
    }
    forall a, b | DependsOn(seen', a, b) ensures b in tasks { assert DependsOn(seen, a, b); }
  }

  lemma KahnStart(g: Deps, tasks: set<Id>, inDegree: map<Id, nat>, queue: seq<Id>)
    requires inDegree.Keys == tasks
    requires forall t :: t in tasks ==> inDegree[t] == |DepsOf(g, t)|
    requires NoDup(queue) && Elems(queue) == set t | t in tasks && inDegree[t] == 0
    ensures KahnState(g, tasks, Elems([]), [], inDegree, [] + queue)
  {
    assert [] + queue == queue;
    assert Elems([]) == {};
    forall t | t in tasks ensures DegreeIs(g, Elems([]), [], t, inDegree[t]) {
      PendingFresh(DepsOf(g, t));
    }
    forall t | t in tasks ensures inDegree[t] == 0 <==> t in queue {
      assert t in Elems(queue) <==> inDegree[t] == 0;
    }
  }

  /** Taking the head of the queue: it was ready, and the order keeps dependencies first. */
  lemma KahnTake(g: Deps, tasks: set<Id>, inDegree: map<Id, nat>, queue: seq<Id>, order: seq<Id>)
    requires KahnState(g, tasks, Elems(order), [], inDegree, order + queue) && queue != []
    requires DepsFirst(g, order)
    ensures queue[0] in tasks && queue[0] !in order
    ensures DepsFirst(g, order + [queue[0]])
    ensures order + queue == order + [queue[0]] + queue[1..]
    ensures |order| < |tasks|
  {
    var c := queue[0];
    var all := order + queue;
    assert all[|order|] == c && all[..|order|] == order;
    assert c in Elems(all);
    assert forall i :: 0 <= i < |order| ==> all[i] == order[i];
    assert DegreeIs(g, Elems(order), [], c, inDegree[c]);
    ReadyMeansDepsDone(g, order, c);
    FullList(all, tasks);
  }

  /** A dependent's degree is positive whenever it is decremented, and it is queued only once. */
  lemma KahnDecrement(g: Deps, tasks: set<Id>, before: set<Id>, current: Id, dependents: seq<Id>, j: nat,
                      inDegree: map<Id, nat>, emitted: seq<Id>)
    requires j < |dependents| && current !in before
    requires Reverses(tasks, g, current, dependents)
    requires KahnState(g, tasks, before, dependents[..j], inDegree, emitted)
    ensures dependents[j] in tasks && inDegree[dependents[j]] > 0
    ensures var t := dependents[j];
            KahnState(g, tasks, before, dependents[..j + 1], inDegree[t := inDegree[t] - 1],
                      if inDegree[t] == 1 then emitted + [t] else emitted)
  {
    var t := dependents[j];
    assert t in Elems(dependents);
    assert DegreeIs(g, before, dependents[..j], t, inDegree[t]);
    DegreePositive(g, before, current, dependents, j, inDegree[t]);
    assert t !in emitted;
    AppendFresh(emitted, t);
    var inDegree' := inDegree[t := inDegree[t] - 1];
    assert dependents[..j + 1] == dependents[..j] + [t];
    forall u | u in tasks ensures DegreeIs(g, before, dependents[..j + 1], u, inDegree'[u]) {
      assert DegreeIs(g, before, dependents[..j], u, inDegree[u]);
    }
  }

  lemma DegreePositive(g: Deps, before: set<Id>, current: Id, dependents: seq<Id>, j: nat, degree: nat)
    requires j < |dependents| && current !in before
    requires multiset(dependents)[dependents[j]] == multiset(DepsOf(g, dependents[j]))[current]
    requires DegreeIs(g, before, dependents[..j], dependents[j], degree)
    ensures degree > 0
  {
    var t := dependents[j];
    PendingAfter(DepsOf(g, t), before, current);
    assert dependents == dependents[..j] + [t] + dependents[j + 1..];
    assert multiset(dependents) == multiset(dependents[..j]) + multiset{t} + multiset(dependents[j + 1..]);
  }

  /** Once all its dependents are released, the task counts as processed. */
  lemma KahnSettle(g: Deps, tasks: set<Id>, order: seq<Id>, current: Id, dependents: seq<Id>, inDegree: map<Id, nat>,
                   emitted: seq<Id>)
    requires current !in order
    requires Reverses(tasks, g, current, dependents)
    requires KahnState(g, tasks, Elems(order), dependents, inDegree, emitted)
    ensures KahnState(g, tasks, Elems(order + [current]), [], inDegree, emitted)
  {
    assert Elems(order + [current]) == Elems(order) + {current};
    forall t | t in tasks ensures DegreeIs(g, Elems(order + [current]), [], t, inDegree[t]) {
      assert DegreeIs(g, Elems(order), dependents, t, inDegree[t]);
      PendingAfter(DepsOf(g, t), Elems(order), current);
    }
  }
}
