/**
 The argument behind both recursive cycle checks of the program: a dependency found on the search
 stack closes a cycle, and what has left the stack can be listed dependencies first.
 */
module DepthFirstSearch {
  import opened Graphs

  /**
   The search state: `stack` is a chain from the task the search started at, and what is visited
   but no longer on the stack is listed in `finished`, dependencies first.
   */
  ghost predicate DfsState(g: Deps, visited: set<Id>, stack: set<Id>, path: seq<Id>, finished: seq<Id>) {
    && stack == Elems(path)
    && stack <= visited
    && Elems(finished) == visited - stack
    && (path != [] ==> IsChain(g, path))
    && DepsFirst(g, finished)
  }

  lemma BackEdgeClosesCycle(g: Deps, path: seq<Id>, d: Id)
    requires IsChain(g, path) && DependsOn(g, path[|path| - 1], d) && d in path
    ensures !Acyclic(g)
  {
    var k :| 0 <= k < |path| && path[k] == d;
    Segment(g, path, k, |path|);
    var p := path[k..|path|];
    assert IsChain(g, [path[|path| - 1], d]);
    Glue(g, p, [path[|path| - 1], d]);
    assert IsCycle(g, p + [path[|path| - 1], d][1..]);
  }

  lemma ExtendChain(g: Deps, path: seq<Id>, d: Id)
    requires path != [] ==> IsChain(g, path) && DependsOn(g, path[|path| - 1], d)
    ensures IsChain(g, path + [d])
  {
    if path != [] {
      assert IsChain(g, [path[|path| - 1], d]);
      Glue(g, path, [path[|path| - 1], d]);
      assert path + [path[|path| - 1], d][1..] == path + [d];
    }
  }

  /** A task whose dependencies are all listed may be listed next. */
  lemma FinishTask(g: Deps, finished: seq<Id>, t: Id)
    requires DepsFirst(g, finished)
    requires forall d :: d in DepsOf(g, t) ==> d in finished
    ensures DepsFirst(g, finished + [t])
    ensures Elems(finished + [t]) == Elems(finished) + {t}
  {
    var o := finished + [t];
    forall i, b | 0 <= i < |o| && DependsOn(g, o[i], b) ensures b in o[..i] {
      if i < |finished| {
        assert DependsOn(g, finished[i], b);
        assert o[..i] == finished[..i];
      } else {
        assert o[..i] == finished;
      }
    }
  }
}
