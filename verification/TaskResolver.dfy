/**
 The scheduler's dependency resolver: a batch of tasks is checked for cycles, turned into a graph,
 and submitted by repeatedly taking the nodes without incoming edges.  Tasks of a batch have
 distinct identifiers.  A resolver remembers what it has completed, and such tasks are never ready.
 */
module TaskResolvers {
  import opened Graphs
  import opened Wrappers
  import opened DepthFirstSearch

  datatype Task = Task(id: Id, dependencies: seq<Id>, priority: nat)

  datatype ResolveError =
    | CircularDependency(taskId: Id)
    | UnknownTask(taskId: Id, dependency: Id)

  function IdSeq(tasks: seq<Task>): (ids: seq<Id>)
    ensures |ids| == |tasks|
    ensures forall i :: 0 <= i < |tasks| ==> ids[i] == tasks[i].id
  {
    seq(|tasks|, i requires 0 <= i < |tasks| => tasks[i].id)
  }

  function IdsOf(tasks: seq<Task>): set<Id> {
    set t | t in tasks :: t.id
  }

  ghost predicate DistinctIds(tasks: seq<Task>) {
    forall i, j :: 0 <= i < j < |tasks| ==> tasks[i].id != tasks[j].id
  }

  function FindTask(tasks: seq<Task>, id: Id): (r: Option<Task>)
    ensures r.Some? <==> id in IdsOf(tasks)
    ensures r.Some? ==> r.value in tasks && r.value.id == id
  {
    if tasks == [] then None
    else if tasks[0].id == id then Some(tasks[0])
    else
      assert IdsOf(tasks) == {tasks[0].id} + IdsOf(tasks[1..]);
      FindTask(tasks[1..], id)
  }

  lemma FindDistinct(tasks: seq<Task>, t: Task)
    requires DistinctIds(tasks) && t in tasks
    ensures FindTask(tasks, t.id) == Some(t)
  {
    if tasks[0] != t {
      var k :| 0 <= k < |tasks| && tasks[k] == t;
      assert tasks[0].id != tasks[k].id;
      FindDistinct(tasks[1..], t);
    }
  }

  /** The dependency relation of a batch; it may mention unknown tasks. */
  function Links(tasks: seq<Task>): Deps {
    map id | id in IdsOf(tasks) :: FindTask(tasks, id).value.dependencies
  }

  /** `links` gives every task its own dependencies, and has no other entries. */
  ghost predicate Assigns(links: Deps, tasks: seq<Task>) {
    && (forall i {:trigger tasks[i]} :: 0 <= i < |tasks| ==>
        tasks[i].id in links && links[tasks[i].id] == tasks[i].dependencies)
    && (forall id {:trigger IsListed(tasks, id)} :: id in links ==> IsListed(tasks, id))
  }

  ghost predicate IsListed(tasks: seq<Task>, id: Id) {
    exists i :: 0 <= i < |tasks| && tasks[i].id == id
  }

  lemma LinksAssign(tasks: seq<Task>)
    requires DistinctIds(tasks)
    ensures Assigns(Links(tasks), tasks)
  {
    forall i | 0 <= i < |tasks|
      ensures tasks[i].id in Links(tasks) && Links(tasks)[tasks[i].id] == tasks[i].dependencies
    {
      assert tasks[i] in tasks;
      FindDistinct(tasks, tasks[i]);
    }
    forall id | id in Links(tasks) ensures IsListed(tasks, id) {
      var t := FindTask(tasks, id).value;
      var i :| 0 <= i < |tasks| && tasks[i] == t;
    }
  }

  function Known(ds: seq<Id>, ids: set<Id>): (r: seq<Id>)
    ensures forall d :: d in r <==> d in ds && d in ids
  {
    if ds == [] then []
    else
      var rest := Known(ds[1..], ids);
      assert ds == [ds[0]] + ds[1..];
      if ds[0] in ids then [ds[0]] + rest else rest
  }

  /** The relation the cycle check looks at: unknown dependencies are passed over. */
  function KnownLinks(tasks: seq<Task>): Deps {
    map id | id in IdsOf(tasks) :: Known(FindTask(tasks, id).value.dependencies, IdsOf(tasks))
  }

  /** Passing over unknown tasks hides no cycle. */
  lemma KnownCycles(tasks: seq<Task>)
    ensures Acyclic(KnownLinks(tasks)) <==> Acyclic(Links(tasks))
  {
    var g, k := Links(tasks), KnownLinks(tasks);
    SubrelationAcyclic(k, g);
    forall p | IsCycle(g, p) ensures IsCycle(k, p) {
      forall i | 0 <= i < |p| - 1 ensures DependsOn(k, p[i], p[i + 1]) {
        assert DependsOn(g, p[i], p[i + 1]);
        if i + 1 < |p| - 1 { assert DependsOn(g, p[i + 1], p[i + 2]); } else { assert DependsOn(g, p[0], p[1]); }
      }
    }
  }

  // ---------- Cycle check ----------

  /** A list that is closed under dependencies and puts them first: nothing in it reaches itself. */
  lemma ListedNeverCycles(g: Deps, order: seq<Id>, p: seq<Id>)
    requires DepsFirst(g, order) && IsChain(g, p) && p[0] in order
    ensures !IsCycle(g, p)
  {
    var h := map a | a in g && a in order :: g[a];
    forall a, b | DependsOn(h, a, b) ensures a in order {}
    assert DepsFirst(h, order) by {
      forall i, b | 0 <= i < |order| && DependsOn(h, order[i], b) ensures b in order[..i] {
        assert DependsOn(g, order[i], b);
      }
    }
    OrderMakesAcyclic(h, order);
    ChainStaysListed(g, h, order, p);
    assert !IsCycle(h, p);
  }

  lemma ChainStaysListed(g: Deps, h: Deps, order: seq<Id>, p: seq<Id>)
    requires DepsFirst(g, order) && IsChain(g, p) && p[0] in order
    requires h == map a | a in g && a in order :: g[a]
    ensures IsChain(h, p)
    decreases |p|
  {
    if |p| > 1 {
      assert DependsOn(g, p[0], p[1]);
      var i :| 0 <= i < |order| && order[i] == p[0];
      assert p[1] in order[..i];
      Segment(g, p, 1, |p|);
      assert p[1..] == p[1..|p|];
      ChainStaysListed(g, h, order, p[1..]);
      forall j | 0 <= j < |p| - 1 ensures DependsOn(h, p[j], p[j + 1]) {
        if j > 0 { assert DependsOn(h, p[1..][j - 1], p[1..][j]); }
      }
    }
  }

  /** `g` relates the tasks of `ids` to those of their dependencies that are in `ids`. */
  ghost predicate Describes(g: Deps, tasks: seq<Task>, ids: set<Id>) {
    && g.Keys == ids
    && (forall id {:trigger FindTask(tasks, id)} :: id in ids ==> FindTask(tasks, id).Some?)
    && (forall id, d {:trigger DependsOn(g, id, d)} :: id in ids ==>
          (DependsOn(g, id, d) <==> d in ids && d in FindTask(tasks, id).value.dependencies))
  }

  /** The recursive search; the tables are passed in and out. */
  method HasCycle(taskId: Id, allTasks: set<Id>, tasks: seq<Task>, visited0: set<Id>, stack0: set<Id>,
                  ghost g: Deps, ghost path: seq<Id>, ghost finished0: seq<Id>)
    returns (found: bool, visited: set<Id>, stack: set<Id>, ghost finished: seq<Id>)
    requires Describes(g, tasks, allTasks)
    requires taskId in allTasks && visited0 <= allTasks
    requires DfsState(g, visited0, stack0, path, finished0)
    requires path != [] ==> DependsOn(g, path[|path| - 1], taskId)
    ensures found ==> !Acyclic(g)
    ensures !found ==>
      && stack == stack0 && visited0 + {taskId} <= visited <= allTasks
      && DfsState(g, visited, stack, path, finished) && finished0 <= finished && taskId in finished
    decreases allTasks - visited0
  {
    visited, stack, finished := visited0, stack0, finished0;
    if taskId in stack {
      BackEdgeClosesCycle(g, path, taskId);
      return true, visited, stack, finished;
    }
    if taskId in visited {
      assert taskId in Elems(finished);
      return false, visited, stack, finished;
    }
    visited := visited + {taskId};
    stack := stack + {taskId};
    ghost var here := path + [taskId];
    ExtendChain(g, path, taskId);

    var dependencies := FindTask(tasks, taskId).value.dependencies;
    for i := 0 to |dependencies|
      invariant stack == stack0 + {taskId} && visited0 + {taskId} <= visited <= allTasks
      invariant DfsState(g, visited, stack, here, finished) && finished0 <= finished
      invariant forall k :: 0 <= k < i && dependencies[k] in allTasks ==> dependencies[k] in finished
    {
      var dep := dependencies[i];
      if dep in allTasks {
        assert DependsOn(g, taskId, dep);
        ghost var finished1 := finished;
        found, visited, stack, finished := HasCycle(dep, allTasks, tasks, visited, stack, g, here, finished);
        if found { return; }
        assert forall k :: 0 <= k < i && dependencies[k] in finished1 ==> dependencies[k] in finished;
      }
    }
    stack := stack - {taskId};
    forall d | d in DepsOf(g, taskId) ensures d in finished { assert DependsOn(g, taskId, d); }
    FinishTask(g, finished, taskId);
    finished := finished + [taskId];
    found := false;
  }

  /** One search per task, each with fresh tables; succeeds exactly when there is no cycle. */
  method DetectCircularDependencies(tasks: seq<Task>) returns (error: Option<ResolveError>)
    ensures error.None? <==> Acyclic(Links(tasks))
    ensures error.Some? ==> error.value.CircularDependency?
  {
    var taskIds := IdsOf(tasks);
    ghost var g := CheckSetup(tasks);
    for i := 0 to |tasks|
      invariant forall k {:trigger tasks[k]} :: 0 <= k < i ==> NoCycleFrom(g, tasks[k].id)
    {
      var found, visited, stack;
      ghost var finished;
      found, visited, stack, finished := HasCycle(tasks[i].id, taskIds, tasks, {}, {}, g, [], []);
      if found { return Some(CircularDependency(tasks[i].id)); }
      forall p | p != [] && p[0] == tasks[i].id ensures !IsCycle(g, p) {
        if IsChain(g, p) { ListedNeverCycles(g, finished, p); }
      }
    }
    NoCycleFromAny(tasks, g);
    return None;
  }

  ghost predicate NoCycleFrom(g: Deps, a: Id) {
    forall p {:trigger IsCycle(g, p)} :: p != [] && p[0] == a ==> !IsCycle(g, p)
  }

  lemma CheckSetup(tasks: seq<Task>) returns (g: Deps)
    ensures g.Keys == IdsOf(tasks) && Describes(g, tasks, IdsOf(tasks)) && DfsState(g, {}, {}, [], [])
    ensures Acyclic(g) <==> Acyclic(Links(tasks))
    ensures forall k {:trigger tasks[k]} :: 0 <= k < |tasks| ==> tasks[k].id in IdsOf(tasks)
  {
    KnownCycles(tasks);
    g := KnownLinks(tasks);
  }

  lemma NoCycleFromAny(tasks: seq<Task>, g: Deps)
    requires g.Keys == IdsOf(tasks)
    requires forall k {:trigger tasks[k]} :: 0 <= k < |tasks| ==> NoCycleFrom(g, tasks[k].id)
    ensures Acyclic(g)
  {
    forall p ensures !IsCycle(g, p) {
      if |p| > 1 && IsChain(g, p) {
        assert DependsOn(g, p[0], p[1]);
        var t :| t in tasks && t.id == p[0];
        var k :| 0 <= k < |tasks| && tasks[k] == t;
        assert NoCycleFrom(g, tasks[k].id);
      }
    }
  }

  // ---------- Submission ----------

  /** `ds` without what is already out. */
  function Open(ds: seq<Id>, out: set<Id>): (r: seq<Id>)
    ensures forall d :: d in r <==> d in ds && d !in out
  {
    if ds == [] then []
    else
      var rest := Open(ds[1..], out);
      assert ds == [ds[0]] + ds[1..];
      if ds[0] in out then rest else [ds[0]] + rest
  }

  lemma OpenMore(ds: seq<Id>, out: set<Id>, x: Id)
    ensures Open(Open(ds, out), {x}) == Open(ds, out + {x})
  {
    if ds != [] { OpenMore(ds[1..], out, x); }
  }

  lemma OpenNothing(ds: seq<Id>)
    ensures Open(ds, {}) == ds
  {
  }

  /** The tasks still to be submitted. */
  function RestOf(all: map<Id, Task>, out: seq<Task>): map<Id, Task> {
    map id | id in all && id !in IdSeq(out) :: all[id]
  }

  /** Their graph: without the nodes that are out, and without their edges. */
  function GraphAfter(links: Deps, out: seq<Task>): Deps {
    map id | id in links && id !in IdSeq(out) :: Open(links[id], Elems(IdSeq(out)))
  }

  ghost predicate FromBatch(all: map<Id, Task>, out: seq<Task>) {
    forall t {:trigger t in out} :: t in out ==> t.id in all && all[t.id] == t
  }

  /** The state of the submission once the tasks in `out` have been submitted. */
  ghost predicate SubmitState(all: map<Id, Task>, links: Deps, graph: Deps, taskMap: map<Id, Task>, out: seq<Task>) {
    && all.Keys == links.Keys
    && NoDup(IdSeq(out)) && FromBatch(all, out)
    && taskMap == RestOf(all, out)
    && graph == GraphAfter(links, out)
  }

  function RemoveNode(graph: Deps, id: Id): Deps {
    map n | n in graph && n != id :: Open(graph[n], {id})
  }

  predicate IsReady(graph: Deps, id: Id) {
    id in graph && graph[id] == []
  }

  lemma AppendId(out: seq<Task>, t: Task)
    ensures IdSeq(out + [t]) == IdSeq(out) + [t.id]
    ensures Elems(IdSeq(out + [t])) == Elems(IdSeq(out)) + {t.id}
  {
    assert IdSeq(out + [t]) == IdSeq(out) + [t.id];
  }

  lemma GraphStep(links: Deps, out: seq<Task>, t: Task)
    ensures GraphAfter(links, out + [t]) == RemoveNode(GraphAfter(links, out), t.id)
  {
    AppendId(out, t);
    forall n | n in links
      ensures Open(Open(links[n], Elems(IdSeq(out))), {t.id}) == Open(links[n], Elems(IdSeq(out + [t])))
    {
      OpenMore(links[n], Elems(IdSeq(out)), t.id);
    }
  }

  lemma RestStep(all: map<Id, Task>, out: seq<Task>, t: Task)
    ensures RestOf(all, out + [t]) == RestOf(all, out) - {t.id}
  {
    AppendId(out, t);
  }

  /** Submitting a task without open dependencies keeps the state, and dependencies stay first. */
  lemma SubmitStep(all: map<Id, Task>, links: Deps, graph: Deps, taskMap: map<Id, Task>, out: seq<Task>, id: Id)
    requires SubmitState(all, links, graph, taskMap, out)
    requires id in taskMap && all[id].id == id
    ensures SubmitState(all, links, RemoveNode(graph, id), taskMap - {id}, out + [taskMap[id]])
    ensures DepsFirst(links, IdSeq(out)) && graph[id] == [] ==> DepsFirst(links, IdSeq(out + [taskMap[id]]))
  {
    var t := all[id];
    AppendId(out, t);
    AppendFresh(IdSeq(out), id);
    GraphStep(links, out, t);
    RestStep(all, out, t);
    if DepsFirst(links, IdSeq(out)) && graph[id] == [] {
      forall d | d in DepsOf(links, id) ensures d in IdSeq(out) { assert d !in Open(links[id], Elems(IdSeq(out))); }
      FinishTask(links, IdSeq(out), id);
    }
  }

  lemma SubmitStart(all: map<Id, Task>, links: Deps)
    requires all.Keys == links.Keys
    ensures SubmitState(all, links, links, all, [])
  {
    assert Elems(IdSeq([])) == {};
    forall id | id in links ensures Open(links[id], {}) == links[id] { OpenNothing(links[id]); }
  }

  /** When nothing is ready although `some` is left, what is left waits for itself. */
  lemma NoneReady(links: Deps, graph: Deps, out: seq<Task>, some: Id)
    requires graph == GraphAfter(links, out) && Closed(links, links.Keys)
    requires some in graph && forall id {:trigger IsReady(graph, id)} :: !IsReady(graph, id)
    ensures !Acyclic(links)
  {
    var rest := graph.Keys;
    forall x {:trigger WaitsIn(links, rest, x)} | x in rest ensures WaitsIn(links, rest, x) {
      assert !IsReady(graph, x);
      OpenWaits(links, out, x);
    }
    assert some in rest;
    StuckHasCycle(links, rest);
  }

  lemma OpenWaits(links: Deps, out: seq<Task>, x: Id)
    requires Closed(links, links.Keys)
    requires x in GraphAfter(links, out) && GraphAfter(links, out)[x] != []
    ensures WaitsIn(links, GraphAfter(links, out).Keys, x)
  {
    var d := Open(links[x], Elems(IdSeq(out)))[0];
    assert d in Open(links[x], Elems(IdSeq(out)));
    assert DependsOn(links, x, d);
    assert d in GraphAfter(links, out).Keys;
  }

  // ---------- Tasks completed before, and a filled cache ----------

  /** The submission loop has nothing more to take: what is left was completed before or waits for what is left. */
  ghost predicate Stalled(links: Deps, done: set<Id>, first: seq<Id>) {
    && NoDup(first) && Elems(first) <= links.Keys && Elems(first) !! done
    && DepsFirst(links, first)
    && forall x {:trigger WaitsIn(links, links.Keys - Elems(first), x)} :: x in links.Keys - Elems(first) ==>
        x in done || WaitsIn(links, links.Keys - Elems(first), x)
  }

  /** The tasks that are completed already or depend, directly or not, on one that is. */
  ghost function Blocked(links: Deps, done: set<Id>): set<Id> {
    set x | x in links && (x in done || ReachesOne(links, x, done))
  }

  ghost predicate ReachesOne(links: Deps, x: Id, done: set<Id>) {
    exists c :: c in done && Reaches(links, x, c)
  }

  lemma BlockedByDependency(links: Deps, done: set<Id>, x: Id, y: Id)
    requires DependsOn(links, x, y) && y in Blocked(links, done)
    ensures x in Blocked(links, done)
  {
    LinkReaches(links, x, y);
    if y !in done {
      var c :| c in done && Reaches(links, y, c);
      ReachesTransitive(links, x, y, c);
    }
  }

  /** What was listed dependencies first reaches only what was listed. */
  lemma ListedReaches(links: Deps, first: seq<Id>, x: Id, c: Id)
    requires DepsFirst(links, first) && x in first && Reaches(links, x, c)
    ensures c in Elems(first)
  {
    var p :| IsChain(links, p) && |p| > 1 && p[0] == x && p[|p| - 1] == c;
    ChainListed(links, first, p);
  }

  lemma {:induction false} ChainListed(links: Deps, first: seq<Id>, p: seq<Id>)
    requires DepsFirst(links, first) && IsChain(links, p) && p[0] in first
    ensures p[|p| - 1] in first
    decreases |p|
  {
    if |p| > 1 {
      assert DependsOn(links, p[0], p[1]);
      var i :| 0 <= i < |first| && first[i] == p[0];
      assert p[1] in first[..i];
      forall j | 0 <= j < |p| - 2 ensures DependsOn(links, p[1..][j], p[1..][j + 1]) {
        assert DependsOn(links, p[j + 1], p[j + 2]);
      }
      ChainListed(links, first, p[1..]);
    }
  }

  /** In a batch without cycles the loop takes exactly the tasks that nothing completed before blocks. */
  lemma StalledMeaning(links: Deps, done: set<Id>, first: seq<Id>)
    requires Acyclic(links) && Stalled(links, done, first)
    ensures Elems(first) == links.Keys - Blocked(links, done)
  {
    var rest := links.Keys - Elems(first);
    forall x | x in first ensures x !in Blocked(links, done) {
      assert x in Elems(first);
      if ReachesOne(links, x, done) {
        var c :| c in done && Reaches(links, x, c);
        ListedReaches(links, first, x, c);
      }
    }
    var free := rest - Blocked(links, done);
    if free != {} {
      forall x {:trigger WaitsIn(links, free, x)} | x in free ensures WaitsIn(links, free, x) {
        assert WaitsIn(links, rest, x);
        var y :| y in rest && DependsOn(links, x, y);
        if y in Blocked(links, done) { BlockedByDependency(links, done, x, y); }
      }
      StuckHasCycle(links, free);
    }
    forall x ensures x in Elems(first) <==> x in links.Keys - Blocked(links, done) {
      if x in links.Keys - Blocked(links, done) { assert x !in free; }
    }
  }

  /** The fallback is needed exactly when there is a cycle or a task of the batch was completed before. */
  lemma FallbackIff(links: Deps, done: set<Id>, first: seq<Id>)
    requires Stalled(links, done, first)
    ensures Elems(first) != links.Keys <==> !Acyclic(links) || !(links.Keys !! done)
  {
    var rest := links.Keys - Elems(first);
    if rest == {} {
      NothingLeft(Elems(first), links.Keys);
      forall a, b | DependsOn(links, a, b) ensures a in first { assert a in Elems(first); }
      OrderMakesAcyclic(links, first);
    } else if links.Keys !! done {
      forall x {:trigger WaitsIn(links, rest, x)} | x in rest ensures WaitsIn(links, rest, x) {}
      StuckHasCycle(links, rest);
    }
  }

  /** No task depends on one that was completed before. */
  ghost predicate NoneCompleted(links: Deps, done: set<Id>) {
    forall a, b :: DependsOn(links, a, b) ==> b !in done
  }

  /** An order in which a batch may go out: first what nothing blocks, dependencies first, then the rest as it comes. */
  ghost predicate Possible(links: Deps, done: set<Id>, order: seq<Id>) {
    exists n :: SplitsAt(links, done, order, n)
  }

  ghost predicate SplitsAt(links: Deps, done: set<Id>, order: seq<Id>, n: int) {
    && 0 <= n <= |order|
    && NoDup(order) && Elems(order) == links.Keys
    && DepsFirst(links, order[..n]) && Elems(order[..n]) == links.Keys - Blocked(links, done)
  }

  /**
   Dependencies are certain to go out first exactly when no task depends on one that was completed before.
   `some` is any order the batch may go out in.
   */
  lemma OrderGuaranteedIff(links: Deps, done: set<Id>, some: seq<Id>)
    requires Closed(links, links.Keys) && Possible(links, done, some)
    ensures (forall order :: Possible(links, done, order) ==> DepsFirst(links, order)) <==> NoneCompleted(links, done)
  {
    if NoneCompleted(links, done) {
      forall order | Possible(links, done, order) ensures DepsFirst(links, order) {
        NothingWaits(links, done, order);
      }
    } else {
      var a, b :| DependsOn(links, a, b) && b in done;
      var bad := DependentFirst(links, done, some, a, b);
      assert !DepsFirst(links, bad);
    }
  }

  lemma NothingWaits(links: Deps, done: set<Id>, order: seq<Id>)
    requires Closed(links, links.Keys) && Possible(links, done, order) && NoneCompleted(links, done)
    ensures DepsFirst(links, order)
  {
    var n :| SplitsAt(links, done, order, n);
    forall i, d | 0 <= i < |order| && DependsOn(links, order[i], d) ensures d in order[..i] {
      if i < n {
        assert order[..n][i] == order[i] && order[..n][..i] == order[..i];
      } else {
        NotBlocked(links, done, d);
        assert d in Elems(order[..n]);
        assert order[..n] <= order[..i];
      }
    }
  }

  /** A chain ends at a direct dependency. */
  lemma NotBlocked(links: Deps, done: set<Id>, d: Id)
    requires NoneCompleted(links, done) && d !in done
    ensures d !in Blocked(links, done)
  {
    if ReachesOne(links, d, done) {
      var c :| c in done && Reaches(links, d, c);
      ReachesByLink(links, d, c);
    }
  }

  lemma ReachesByLink(links: Deps, d: Id, c: Id)
    requires Reaches(links, d, c)
    ensures exists y :: DependsOn(links, y, c)
  {
    var p :| IsChain(links, p) && |p| > 1 && p[0] == d && p[|p| - 1] == c;
    assert DependsOn(links, p[|p| - 2], p[|p| - 1]);
  }

  /** A batch that goes out a second time may do so in any order at all. */
  lemma SecondTimeAnyOrder(links: Deps, done: set<Id>, order: seq<Id>)
    requires links.Keys <= done
    ensures Possible(links, done, order) <==> NoDup(order) && Elems(order) == links.Keys
  {
    assert links.Keys - Blocked(links, done) == {};
    if NoDup(order) && Elems(order) == links.Keys { assert SplitsAt(links, done, order, 0); }
  }

  /** The fallback may well begin with a task that depends on another one in it. */
  lemma DependentFirst(links: Deps, done: set<Id>, some: seq<Id>, a: Id, b: Id) returns (order: seq<Id>)
    requires Closed(links, links.Keys) && Possible(links, done, some) && DependsOn(links, a, b) && b in done
    ensures Possible(links, done, order) && !DepsFirst(links, order)
  {
    var n :| SplitsAt(links, done, some, n);
    assert b in links.Keys && b in Blocked(links, done);
    BlockedByDependency(links, done, a, b);
    var i := BlockedComesLater(links, done, some, n, a);
    order := some[..n] + [a] + some[n..i] + some[i + 1..];
    MovedForward(some, n, i, order);
    assert SplitsAt(links, done, order, n);
    assert order[n] == a && b !in Elems(order[..n]);
  }

  lemma BlockedComesLater(links: Deps, done: set<Id>, order: seq<Id>, n: int, a: Id) returns (i: nat)
    requires SplitsAt(links, done, order, n) && a in Blocked(links, done)
    ensures n <= i < |order| && order[i] == a
  {
    assert a in Elems(order);
    forall k | 0 <= k < n ensures order[k] in Elems(order[..n]) { assert order[..n][k] == order[k]; }
    i :| 0 <= i < |order| && order[i] == a;
  }

  lemma MovedForward(s: seq<Id>, n: nat, i: nat, t: seq<Id>)
    requires NoDup(s) && n <= i < |s| && t == s[..n] + [s[i]] + s[n..i] + s[i + 1..]
    ensures NoDup(t) && Elems(t) == Elems(s) && t[..n] == s[..n]
  {
    assert s == s[..n] + s[n..i] + [s[i]] + s[i + 1..];
    assert multiset(t) == multiset(s);
    NoDupCounts(s);
    NoDupCounts(t);
    forall x ensures x in t <==> x in s { assert x in multiset(t) <==> x in multiset(s); }
  }

  /** The ids of `ids` that are in `keys`, each where it occurs first. */
  function Picked(ids: seq<Id>, keys: set<Id>): (r: seq<Id>)
    ensures forall x :: x in r <==> x in ids && x in keys
  {
    if ids == [] then []
    else
      var n := |ids| - 1;
      var rest := Picked(ids[..n], keys);
      assert ids == ids[..n] + [ids[n]];
      if ids[n] in keys && ids[n] !in rest then rest + [ids[n]] else rest
  }

  /** What is left of a batch after `n` rounds that take what is in the cache. */
  function AfterRounds(keys: set<Id>, cached: seq<Id>, n: nat): set<Id> {
    if n == 0 then keys else AfterRounds(keys, cached, n - 1) - Elems(cached)
  }

  /** Taking the same cache round after round ends exactly when the cache lists the whole batch. */
  lemma RoundsEndIff(keys: set<Id>, cached: seq<Id>)
    ensures (exists n :: AfterRounds(keys, cached, n) == {}) <==> keys <= Elems(cached)
  {
    if keys <= Elems(cached) {
      assert AfterRounds(keys, cached, 0) == keys;
      assert AfterRounds(keys, cached, 1) == {};
    } else {
      var x :| x in keys && x !in Elems(cached);
      forall n: nat ensures x in AfterRounds(keys, cached, n) { StaysLeft(keys, cached, x, n); }
    }
  }

  lemma {:induction false} StaysLeft(keys: set<Id>, cached: seq<Id>, x: Id, n: nat)
    requires x in keys && x !in Elems(cached)
    ensures x in AfterRounds(keys, cached, n)
  {
    if n > 0 { StaysLeft(keys, cached, x, n - 1); }
  }

  class DependencyResolver {
    var graph: Deps            // each remaining node with its incoming neighbours
    var readyTasks: seq<Task>  // the cache, which only other entry points fill
    var completedTasks: set<Id>

    constructor ()
      ensures graph == map[] && readyTasks == [] && completedTasks == {}
    {
      graph, readyTasks, completedTasks := map[], [], {};
    }

    /** The graph of the batch; fails on the first dependency that is no task of it. */
    method BuildDependencyGraph(tasks: seq<Task>) returns (error: Option<ResolveError>)
      requires DistinctIds(tasks)
      modifies this`graph
      ensures error.None? <==> Closed(Links(tasks), IdsOf(tasks))
      ensures error.None? ==> graph == Links(tasks)
      ensures error.Some? ==>
          error.value.UnknownTask? && DependsOn(Links(tasks), error.value.taskId, error.value.dependency)
                              && error.value.dependency !in IdsOf(tasks)
    {
      LinksAssign(tasks);
      var nodes := IdsOf(tasks);
      graph := map id | id in nodes :: [];
      error := AddEdges(tasks, nodes, Links(tasks));
    }

    method AddEdges(tasks: seq<Task>, nodes: set<Id>, ghost links: Deps) returns (error: Option<ResolveError>)
      requires DistinctIds(tasks) && Assigns(links, tasks)
      requires links.Keys == nodes == graph.Keys && forall id :: id in graph ==> graph[id] == []
      modifies this`graph
      ensures error.None? <==> Closed(links, nodes)
      ensures error.None? ==> graph == links
      ensures error.Some? ==> error.value.UnknownTask? && DependsOn(links, error.value.taskId, error.value.dependency)
                              && error.value.dependency !in nodes
    {
      for i := 0 to |tasks|
        invariant graph.Keys == nodes
        invariant forall k {:trigger tasks[k]} :: 0 <= k < |tasks| ==>
            graph[tasks[k].id] == if k < i then links[tasks[k].id] else []
        invariant forall k, d {:trigger d in tasks[k].dependencies} :: 0 <= k < i && d in tasks[k].dependencies ==>
            d in nodes
      {
        error := AddIncoming(nodes, tasks[i]);
        if error.Some? {
          assert DependsOn(links, error.value.taskId, error.value.dependency);
          return;
        }
      }
      forall a, b | DependsOn(links, a, b) ensures b in nodes {
        assert IsListed(tasks, a);
        var k :| 0 <= k < |tasks| && tasks[k].id == a;
        assert b in tasks[k].dependencies;
      }
      forall id | id in links ensures graph[id] == links[id] {
        assert IsListed(tasks, id);
        var k :| 0 <= k < |tasks| && tasks[k].id == id;
      }
      return None;
    }

    /** The edges of one task. */
    method AddIncoming(nodes: set<Id>, task: Task) returns (error: Option<ResolveError>)
      requires task.id in graph && graph[task.id] == []
      modifies this`graph
      ensures error.None? ==>
          graph == old(graph)[task.id := task.dependencies] && forall d :: d in task.dependencies ==> d in nodes
      ensures error.Some? ==> error.value.UnknownTask? && error.value.taskId == task.id
                              && error.value.dependency in task.dependencies && error.value.dependency !in nodes
    {
      for j := 0 to |task.dependencies|
        invariant graph == old(graph)[task.id := task.dependencies[..j]]
        invariant forall k :: 0 <= k < j ==> task.dependencies[k] in nodes
      {
        var dep := task.dependencies[j];
        if dep !in nodes { return Some(UnknownTask(task.id, dep)); }
        graph := graph[task.id := graph[task.id] + [dep]];
        assert task.dependencies[..j + 1] == task.dependencies[..j] + [dep];
      }
      assert task.dependencies[..|task.dependencies|] == task.dependencies;
      return None;
    }

    /** The nodes without incoming edges that are not completed, in some order; or the cache. */
    method GetReadyTasks() returns (ready: seq<Id>)
      ensures IsReadyList(graph, readyTasks, completedTasks, ready)
    {
      if readyTasks != [] { return IdSeq(readyTasks); }
      ready := [];
      var todo := graph.Keys;
      while todo != {}
        invariant todo <= graph.Keys && NoDup(ready)
        invariant forall id :: id in ready <==> IsReady(graph, id) && id !in todo && id !in completedTasks
      {
        var id :| id in todo;
        todo := todo - {id};
        if graph[id] == [] && id !in completedTasks {
          AppendFresh(ready, id);
          ready := ready + [id];
        }
      }
    }

    /** The node goes, and with it its edges. */
    method MarkTaskCompleted(id: Id)
      modifies this`graph, this`completedTasks
      ensures completedTasks == old(completedTasks) + {id}
      ensures graph == RemoveNode(old(graph), id)
    {
      completedTasks := completedTasks + {id};
      graph := RemoveNode(graph, id);
    }

    /** Submits those of the ready tasks that are left; each leaves the map and the graph. */
    method SubmitReady(ready: seq<Id>, taskMap0: map<Id, Task>, submitted0: seq<Task>, ghost all: map<Id, Task>,
                       ghost links: Deps)
      returns (taskMap: map<Id, Task>, submitted: seq<Task>)
      requires SubmitState(all, links, graph, taskMap0, submitted0) && forall id :: id in all ==> all[id].id == id
      modifies this`graph, this`completedTasks
      ensures SubmitState(all, links, graph, taskMap, submitted)
      ensures Progress(IdSeq(submitted), taskMap.Keys, completedTasks) ==
              After(Progress(IdSeq(submitted0), taskMap0.Keys, old(completedTasks)), ready)
      ensures DepsFirst(links, IdSeq(submitted0)) && (forall id :: id in ready ==> IsReady(old(graph), id)) ==>
                DepsFirst(links, IdSeq(submitted))
    {
      taskMap, submitted := taskMap0, submitted0;
      ghost var fine := DepsFirst(links, IdSeq(submitted0)) && forall id :: id in ready ==> IsReady(graph, id);
      ghost var start := Progress(IdSeq(submitted0), taskMap0.Keys, completedTasks);
      NothingPicked(start, ready);
      for j := 0 to |ready|
        invariant SubmitState(all, links, graph, taskMap, submitted)
        invariant Progress(IdSeq(submitted), taskMap.Keys, completedTasks) == After(start, ready[..j])
        invariant fine ==> DepsFirst(links, IdSeq(submitted)) && ReadyIfLeft(graph, taskMap, ready)
      {
        PickNext(start, ready, j);
        taskMap, submitted := SubmitIfLeft(ready[j], taskMap, submitted, all, links, ready);
      }
      assert ready[..|ready|] == ready;
    }

    method SubmitIfLeft(taskId: Id, taskMap0: map<Id, Task>, submitted0: seq<Task>, ghost all: map<Id, Task>,
                        ghost links: Deps, ghost ready: seq<Id>)
      returns (taskMap: map<Id, Task>, submitted: seq<Task>)
      requires SubmitState(all, links, graph, taskMap0, submitted0) && forall id :: id in all ==> all[id].id == id
      requires taskId in ready
      modifies this`graph, this`completedTasks
      ensures SubmitState(all, links, graph, taskMap, submitted)
      ensures var p := Progress(IdSeq(submitted0), taskMap0.Keys, old(completedTasks));
              Progress(IdSeq(submitted), taskMap.Keys, completedTasks) ==
              if taskId in p.left then Progress(p.out + [taskId], p.left - {taskId}, p.completed + {taskId}) else p
      ensures DepsFirst(links, IdSeq(submitted0)) && ReadyIfLeft(old(graph), taskMap0, ready) ==>
                DepsFirst(links, IdSeq(submitted)) && ReadyIfLeft(graph, taskMap, ready)
    {
      taskMap, submitted := taskMap0, submitted0;
      if taskId in taskMap {
        taskMap, submitted := SubmitOne(taskId, taskMap, submitted, all, links);
      }
    }

    /** One task: out of the map, to the scheduler, out of the graph. */
    method SubmitOne(taskId: Id, taskMap0: map<Id, Task>, submitted0: seq<Task>, ghost all: map<Id, Task>,
                     ghost links: Deps)
      returns (taskMap: map<Id, Task>, submitted: seq<Task>)
      requires SubmitState(all, links, graph, taskMap0, submitted0) && taskId in taskMap0 && all[taskId].id == taskId
      modifies this`graph, this`completedTasks
      ensures SubmitState(all, links, graph, taskMap, submitted)
      ensures taskMap == taskMap0 - {taskId} && IdSeq(submitted) == IdSeq(submitted0) + [taskId]
      ensures completedTasks == old(completedTasks) + {taskId}
      ensures DepsFirst(links, IdSeq(submitted0)) && IsReady(old(graph), taskId) ==> DepsFirst(links, IdSeq(submitted))
      ensures forall id :: IsReady(old(graph), id) && id != taskId ==> IsReady(graph, id)
    {
      SubmitStep(all, links, graph, taskMap0, submitted0, taskId);
      AppendId(submitted0, taskMap0[taskId]);
      submitted := submitted0 + [taskMap0[taskId]];
      taskMap := taskMap0 - {taskId};
      MarkTaskCompleted(taskId);
    }

    /** The fallback: whatever is left, in any order. */
    method SubmitAnyway(taskMap0: map<Id, Task>, submitted0: seq<Task>, ghost all: map<Id, Task>, ghost links: Deps,
                        ghost graph0: Deps)
      returns (submitted: seq<Task>)
      requires SubmitState(all, links, graph0, taskMap0, submitted0) && forall id :: id in all ==> all[id].id == id
      ensures NoDup(IdSeq(submitted)) && Elems(IdSeq(submitted)) == all.Keys
      ensures FromBatch(all, submitted) && IdSeq(submitted0) <= IdSeq(submitted)
    {
      var taskMap := taskMap0;
      submitted := submitted0;
      ghost var g := graph0;
      while taskMap != map[]
        invariant SubmitState(all, links, g, taskMap, submitted) && IdSeq(submitted0) <= IdSeq(submitted)
        decreases taskMap.Keys
      {
        var id :| id in taskMap.Keys;
        AppendId(submitted, taskMap[id]);
        SubmitStep(all, links, g, taskMap, submitted, id);
        g := RemoveNode(g, id);
        submitted := submitted + [taskMap[id]];
        taskMap := taskMap - {id};
      }
      AllSubmitted(all, links, g, taskMap, submitted);
    }

    /** Nothing is ready although something is left. */
    method SubmitRest(taskMap: map<Id, Task>, submitted0: seq<Task>, ghost all: map<Id, Task>, ghost links: Deps,
                      ghost done: set<Id>)
      returns (submitted: seq<Task>, ghost first: nat)
      requires SubmitState(all, links, graph, taskMap, submitted0) && forall id :: id in all ==> all[id].id == id
      requires LoopState(all, links, done, [], taskMap, submitted0, completedTasks) && Closed(links, links.Keys)
      requires forall id :: !(IsReady(graph, id) && id !in completedTasks)
      ensures NoDup(IdSeq(submitted)) && Elems(IdSeq(submitted)) == all.Keys && FromBatch(all, submitted)
      ensures first <= |submitted| && completedTasks == done + Elems(IdSeq(submitted)[..first])
      ensures Stalled(links, done, IdSeq(submitted)[..first])
    {
      LoopStalls(all, links, graph, taskMap, submitted0, done);
      first := |submitted0|;
      submitted := SubmitAnyway(taskMap, submitted0, all, links, graph);
      assert IdSeq(submitted)[..first] == IdSeq(submitted0);
    }

    method SubmitRound(ready: seq<Id>, taskMap0: map<Id, Task>, submitted0: seq<Task>, ghost all: map<Id, Task>,
                       ghost links: Deps, ghost done: set<Id>)
      returns (taskMap: map<Id, Task>, submitted: seq<Task>)
      requires SubmitState(all, links, graph, taskMap0, submitted0) && forall id :: id in all ==> all[id].id == id
      requires LoopState(all, links, done, readyTasks, taskMap0, submitted0, completedTasks) && taskMap0 != map[]
      requires IsReadyList(graph, readyTasks, completedTasks, ready) && ready != []
      requires readyTasks != [] ==> all.Keys <= Elems(ready)
      modifies this`graph, this`completedTasks
      ensures SubmitState(all, links, graph, taskMap, submitted) && taskMap.Keys < taskMap0.Keys
      ensures LoopState(all, links, done, readyTasks, taskMap, submitted, completedTasks)
    {
      ghost var p := Progress(IdSeq(submitted0), taskMap0.Keys, completedTasks);
      RoundTakes(all, links, graph, taskMap0, submitted0, ready, readyTasks, completedTasks);
      if readyTasks == [] {
        RoundOfReady(p, graph, ready, completedTasks, done);
      } else {
        RoundOfCache(p, ready);
      }
      taskMap, submitted := SubmitReady(ready, taskMap0, submitted0, all, links);
    }

    /**
     The submission loop.  Every task is submitted exactly once whatever the graph looks like.  The loop
     takes the first `first` of them, dependencies first, until it stalls; the fallback submits the rest in
     any order.  With a filled cache, which has to list the whole batch, the cache alone sets the order.
     */
    method SubmitInOrder(all: map<Id, Task>, ghost links: Deps) returns (submitted: seq<Task>, ghost first: nat)
      requires all.Keys == links.Keys && Closed(links, links.Keys) && forall id :: id in all ==> all[id].id == id
      requires graph == links && (readyTasks != [] ==> all.Keys <= Elems(IdSeq(readyTasks)))
      modifies this`graph, this`completedTasks
      ensures NoDup(IdSeq(submitted)) && Elems(IdSeq(submitted)) == all.Keys && FromBatch(all, submitted)
      ensures first <= |submitted| && completedTasks == old(completedTasks) + Elems(IdSeq(submitted)[..first])
      ensures readyTasks == [] ==> Stalled(links, old(completedTasks), IdSeq(submitted)[..first])
      ensures readyTasks != [] ==>
                first == |submitted| && IdSeq(submitted) == Picked(IdSeq(readyTasks), all.Keys)
    {
      var taskMap := all;
      submitted := [];
      SubmitStart(all, links);
      PickedNothing(IdSeq(readyTasks), all.Keys);
      while taskMap != map[]
        invariant SubmitState(all, links, graph, taskMap, submitted)
        invariant LoopState(all, links, old(completedTasks), readyTasks, taskMap, submitted, completedTasks)
        decreases taskMap.Keys
      {
        var ready := GetReadyTasks();
        if ready == [] {
          submitted, first := SubmitRest(taskMap, submitted, all, links, old(completedTasks));
          return;
        }
        taskMap, submitted := SubmitRound(ready, taskMap, submitted, all, links, old(completedTasks));
      }
      first := |submitted|;
      assert IdSeq(submitted)[..first] == IdSeq(submitted);
      LoopEnds(all, links, graph, taskMap, submitted, readyTasks, old(completedTasks), completedTasks);
    }

    /**
     The whole operation.  It fails exactly on a cycle, a task that lists itself included, or an unknown
     dependency; otherwise every task goes out once, in a possible order, which is dependencies first
     unless a task depends on one that was completed before (`OrderGuaranteedIff`).  A filled cache has to
     list the whole batch, or the loop never ends (`RoundsEndIff`), and it alone sets the order.
     */
    method ResolveAndSubmit(tasks: seq<Task>) returns (error: Option<ResolveError>, submitted: seq<Task>)
      requires DistinctIds(tasks)
      requires readyTasks != [] && Closed(Links(tasks), IdsOf(tasks)) && Acyclic(Links(tasks)) ==>
                 IdsOf(tasks) <= Elems(IdSeq(readyTasks))
      modifies this`graph, this`completedTasks
      ensures error.None? <==> Closed(Links(tasks), IdsOf(tasks)) && Acyclic(Links(tasks))
      ensures error.Some? ==> submitted == [] && completedTasks == old(completedTasks)
      ensures error.None? ==> NoDup(IdSeq(submitted)) && forall t :: t in submitted <==> t in tasks
      ensures error.None? && readyTasks == [] ==> Possible(Links(tasks), old(completedTasks), IdSeq(submitted))
      ensures error.None? && readyTasks == [] && NoneCompleted(Links(tasks), old(completedTasks)) ==>
                IsTopologicalOrder(Links(tasks), IdsOf(tasks), IdSeq(submitted))
      ensures error.None? && readyTasks == [] ==>
                completedTasks == old(completedTasks) + (IdsOf(tasks) - Blocked(Links(tasks), old(completedTasks)))
      ensures error.None? && readyTasks != [] ==>
                && IdSeq(submitted) == Picked(IdSeq(readyTasks), IdsOf(tasks))
                && completedTasks == old(completedTasks) + IdsOf(tasks)
    {
      submitted := [];
      error := DetectCircularDependencies(tasks);
      if error.Some? { return; }
      error := BuildDependencyGraph(tasks);
      if error.Some? { return; }
      ghost var first;
      submitted, first := SubmitInOrder(TaskMap(tasks), Links(tasks));
      WholeBatch(tasks, submitted);
      if readyTasks == [] {
        StalledOrder(Links(tasks), old(completedTasks), IdSeq(submitted), first);
      } else {
        assert IdSeq(submitted)[..first] == IdSeq(submitted);
      }
    }
  }

  /** What the loop leaves behind is an order the batch may go out in. */
  lemma StalledOrder(links: Deps, done: set<Id>, order: seq<Id>, first: nat)
    requires Acyclic(links) && Closed(links, links.Keys) && first <= |order| && Stalled(links, done, order[..first])
    requires NoDup(order) && Elems(order) == links.Keys
    ensures Possible(links, done, order) && Elems(order[..first]) == links.Keys - Blocked(links, done)
    ensures NoneCompleted(links, done) ==> DepsFirst(links, order)
  {
    StalledMeaning(links, done, order[..first]);
    assert SplitsAt(links, done, order, first);
    if NoneCompleted(links, done) { NothingWaits(links, done, order); }
  }

  ghost predicate ReadyIfLeft(graph: Deps, taskMap: map<Id, Task>, ready: seq<Id>) {
    forall id :: id in ready && id in taskMap ==> IsReady(graph, id)
  }

  /** What is out, what is left, and what is marked completed. */
  datatype Progress = Progress(out: seq<Id>, left: set<Id>, completed: set<Id>)

  /** Once the ids in `ids` have been gone through. */
  function After(p: Progress, ids: seq<Id>): Progress {
    var picked := Picked(ids, p.left);
    Progress(p.out + picked, p.left - Elems(ids), p.completed + Elems(picked))
  }

  lemma NothingPicked(p: Progress, ready: seq<Id>)
    ensures After(p, ready[..0]) == p
  {
    assert p.out + [] == p.out;
  }

  lemma PickNext(p: Progress, ready: seq<Id>, j: nat)
    requires j < |ready|
    ensures var now, id := After(p, ready[..j]), ready[j];
            After(p, ready[..j + 1]) ==
              if id in now.left then Progress(now.out + [id], now.left - {id}, now.completed + {id}) else now
  {
    var picked := Picked(ready[..j], p.left);
    assert ready[..j + 1][..j] == ready[..j];
    assert ready[..j + 1] == ready[..j] + [ready[j]];
    assert Elems(ready[..j + 1]) == Elems(ready[..j]) + {ready[j]};
    assert Elems(picked + [ready[j]]) == Elems(picked) + {ready[j]};
    assert p.out + (picked + [ready[j]]) == p.out + picked + [ready[j]];
  }

  /** With nothing ready the loop has stalled. */
  lemma LoopStalls(all: map<Id, Task>, links: Deps, graph: Deps, taskMap: map<Id, Task>, out: seq<Task>, done: set<Id>)
    requires SubmitState(all, links, graph, taskMap, out) && Closed(links, links.Keys)
    requires DepsFirst(links, IdSeq(out)) && Elems(IdSeq(out)) !! done
    requires forall id :: !(IsReady(graph, id) && id !in done + Elems(IdSeq(out)))
    ensures Stalled(links, done, IdSeq(out))
  {
    var rest := links.Keys - Elems(IdSeq(out));
    assert graph.Keys == rest;
    forall x {:trigger WaitsIn(links, rest, x)} | x in rest ensures x in done || WaitsIn(links, rest, x) {
      if x !in done {
        assert !IsReady(graph, x);
        OpenWaits(links, out, x);
      }
    }
    forall x | x in Elems(IdSeq(out)) ensures x in links {
      var i :| 0 <= i < |out| && IdSeq(out)[i] == x;
      assert out[i] in out;
    }
  }

  /** Between two rounds: without a cache, dependencies are first; a cache does all its work in one round. */
  ghost predicate LoopState(all: map<Id, Task>, links: Deps, done: set<Id>, cache: seq<Task>, taskMap: map<Id, Task>,
                            out: seq<Task>, completed: set<Id>) {
    && completed == done + Elems(IdSeq(out))
    && (cache == [] ==> DepsFirst(links, IdSeq(out)) && Elems(IdSeq(out)) !! done)
    && (cache != [] ==> if taskMap == map[] then IdSeq(out) == Picked(IdSeq(cache), all.Keys)
                        else taskMap == all && out == [])
  }

  lemma PickedNothing(ids: seq<Id>, keys: set<Id>)
    ensures keys == {} ==> Picked(ids, keys) == []
  {
    if Picked(ids, keys) != [] { assert Picked(ids, keys)[0] in keys; }
  }

  /** The cache, if it is filled; otherwise the nodes without incoming edges that are not completed, each once. */
  ghost predicate IsReadyList(graph: Deps, cache: seq<Task>, completed: set<Id>, ready: seq<Id>) {
    && (cache != [] ==> ready == IdSeq(cache))
    && (cache == [] ==> NoDup(ready) && forall id :: id in ready <==> IsReady(graph, id) && id !in completed)
  }

  /** A round takes at least the first task of the ready list. */
  lemma RoundTakes(all: map<Id, Task>, links: Deps, graph: Deps, taskMap: map<Id, Task>, out: seq<Task>,
                   ready: seq<Id>, cache: seq<Task>, completed: set<Id>)
    requires SubmitState(all, links, graph, taskMap, out) && IsReadyList(graph, cache, completed, ready)
    requires ready != [] && taskMap != map[] && (cache != [] ==> all.Keys <= Elems(ready))
    ensures taskMap.Keys - Elems(ready) < taskMap.Keys
  {
    assert ready[0] in Elems(ready);
    if cache == [] {
      assert ready[0] in graph && ready[0] in taskMap;
    } else {
      var id :| id in taskMap;
      assert id in all.Keys && id in Elems(ready);
    }
  }

  /** What is ready was not completed before. */
  lemma RoundOfReady(p: Progress, graph: Deps, ready: seq<Id>, completed: set<Id>, done: set<Id>)
    requires p.completed == completed == done + Elems(p.out) && Elems(p.out) !! done
    requires forall id :: id in ready ==> IsReady(graph, id) && id !in completed
    ensures var q := After(p, ready); q.completed == done + Elems(q.out) && Elems(q.out) !! done
  {
    var picked := Picked(ready, p.left);
    assert Elems(p.out + picked) == Elems(p.out) + Elems(picked);
  }

  /** A cache that lists everything leaves nothing. */
  lemma RoundOfCache(p: Progress, ready: seq<Id>)
    requires p.out == [] && p.left <= Elems(ready)
    ensures var q := After(p, ready);
            q.left == {} && q.out == Picked(ready, p.left) && q.completed == p.completed + Elems(q.out)
  {
    assert [] + Picked(ready, p.left) == Picked(ready, p.left);
  }

  lemma LoopEnds(all: map<Id, Task>, links: Deps, graph: Deps, taskMap: map<Id, Task>, out: seq<Task>,
                 cache: seq<Task>, done: set<Id>, completed: set<Id>)
    requires SubmitState(all, links, graph, taskMap, out) && taskMap == map[]
    requires LoopState(all, links, done, cache, taskMap, out, completed)
    ensures Elems(IdSeq(out)) == all.Keys
    ensures cache == [] ==> Stalled(links, done, IdSeq(out))
  {
    AllSubmitted(all, links, graph, taskMap, out);
  }

  function TaskMap(tasks: seq<Task>): (all: map<Id, Task>)
    ensures all.Keys == IdsOf(tasks)
    ensures forall id :: id in all ==> all[id] == FindTask(tasks, id).value && all[id].id == id
  {
    map id | id in IdsOf(tasks) :: FindTask(tasks, id).value
  }

  lemma WholeBatch(tasks: seq<Task>, out: seq<Task>)
    requires DistinctIds(tasks) && FromBatch(TaskMap(tasks), out)
    requires Elems(IdSeq(out)) == IdsOf(tasks)
    ensures forall t :: t in out <==> t in tasks
  {
    forall t ensures t in out <==> t in tasks {
      if t in tasks {
        FindDistinct(tasks, t);
        assert t.id in Elems(IdSeq(out));
        var i :| 0 <= i < |out| && IdSeq(out)[i] == t.id;
        assert out[i] in out;
      }
    }
  }

  lemma LaterDiffer(s: seq<Id>, j: nat)
    requires NoDup(s) && j < |s|
    ensures forall k {:trigger s[k]} :: j < k < |s| ==> s[k] != s[j]
    ensures forall k {:trigger s[k]} :: 0 <= k < j ==> s[k] != s[j]
  {
    NoDupPairs(s);
  }

  lemma AllSubmitted(all: map<Id, Task>, links: Deps, graph: Deps, taskMap: map<Id, Task>, out: seq<Task>)
    requires SubmitState(all, links, graph, taskMap, out) && taskMap == map[]
    ensures Elems(IdSeq(out)) == all.Keys
  {
    forall id | id in all ensures id in IdSeq(out) {
      assert id !in taskMap;
    }
    forall id | id in IdSeq(out) ensures id in all {
      var i :| 0 <= i < |out| && IdSeq(out)[i] == id;
      assert out[i] in out;
    }
  }
}
