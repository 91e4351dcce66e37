/**
 Running a hook chain phase by phase.  Whether a hook's conditions hold and whether its run
 succeeds are oracles; each is consulted at most once per hook.
 */
module ChainExecutors {
  import opened Graphs
  import opened Wrappers
  import opened ChainGraphs
  import opened ChainPlanners

  datatype FailureStrategy = FailFast | ContinueIndependent | BestEffort | OnlyCritical

  function FindHook(hooks: seq<ChainedHook>, id: Id): (r: Option<ChainedHook>)
    ensures r.Some? <==> id in IdsOf(hooks)
    ensures r.Some? ==> r.value in hooks && r.value.id == id
  {
    if hooks == [] then None
    else if hooks[0].id == id then Some(hooks[0])
    else
      assert IdsOf(hooks) == {hooks[0].id} + IdsOf(hooks[1..]);
      FindHook(hooks[1..], id)
  }

  /** The dependency relation of a chain. */
  function HookLinks(hooks: seq<ChainedHook>): Deps {
    map id | id in IdsOf(hooks) :: FindHook(hooks, id).value.dependencies
  }

  lemma NodesLinks(nodes: Nodes, hooks: seq<ChainedHook>)
    requires NodesFor(nodes, hooks)
    ensures LinksOf(nodes) == HookLinks(hooks)
  {
    forall id | id in IdsOf(hooks) ensures nodes[id].dependencies == FindHook(hooks, id).value.dependencies {
      var h := FindHook(hooks, id).value;
      assert NodeFor(nodes[h.id], h);
    }
  }

  // ---------- What a run means ----------

  /** The oracles of one run: which conditions hold, and which hooks succeed when they run. */
  datatype World = World(conditionsMet: Id -> bool, succeeds: Id -> bool)

  /** What a run produces: the hooks executed and the hooks skipped, each in order. */
  datatype Trace = Trace(executed: seq<Id>, skipped: seq<Id>)

  /** The conditions hold and every dependency is among `executed` and succeeded. */
  ghost predicate Runnable(g: Deps, w: World, executed: set<Id>, id: Id) {
    w.conditionsMet(id) && forall d :: d in DepsOf(g, id) ==> d in executed && w.succeeds(d)
  }

  /** Position `i` of the run had everything it depends on before it, all of it successful. */
  ghost predicate RanSafely(g: Deps, w: World, executed: seq<Id>, i: nat)
    requires i < |executed|
  {
    w.conditionsMet(executed[i]) && forall d :: d in DepsOf(g, executed[i]) ==> d in executed[..i] && w.succeeds(d)
  }

  /** Nothing runs twice, nothing is both run and skipped, and everything ran safely. */
  ghost predicate Safe(g: Deps, w: World, t: Trace) {
    && NoDup(t.executed) && NoDup(t.skipped)
    && (forall x :: x in t.executed ==> x !in t.skipped)
    && forall i {:trigger RanSafely(g, w, t.executed, i)} :: 0 <= i < |t.executed| ==> RanSafely(g, w, t.executed, i)
  }

  /** Whatever a hook that ran depends on, directly or not, ran earlier and succeeded. */
  lemma {:induction false} TransitiveDependenciesRanEarlier(g: Deps, w: World, t: Trace, i: nat, p: seq<Id>)
    requires Safe(g, w, t) && i < |t.executed|
    requires IsChain(g, p) && |p| > 1 && p[0] == t.executed[i]
    ensures p[|p| - 1] in t.executed[..i] && w.succeeds(p[|p| - 1])
    decreases |p|
  {
    var executed := t.executed;
    assert RanSafely(g, w, executed, i);
    assert DependsOn(g, p[0], p[1]);
    var j :| 0 <= j < i && executed[..i][j] == p[1];
    if |p| > 2 {
      Segment(g, p, 1, |p|);
      assert p[1..] == p[1..|p|];
      TransitiveDependenciesRanEarlier(g, w, t, j, p[1..]);
      var k :| 0 <= k < j && executed[..j][k] == p[|p| - 1];
      assert executed[..i][k] == p[|p| - 1];
    }
  }

  /** The equation that says which hooks a chain runs: `e` is the set of executed hooks. */
  ghost predicate IsExecutedSet(g: Deps, w: World, e: set<Id>) {
    e <= g.Keys && forall id {:trigger Runnable(g, w, e, id)} :: id in g ==> (id in e <==> Runnable(g, w, e, id))
  }

  /** Without cycles the equation has one solution, so the order inside a phase cannot matter. */
  lemma {:induction false} ExecutedSetUnique(nodes: Nodes, levels: seq<seq<Id>>, w: World, e: set<Id>, f: set<Id>,
                                             id: Id)
    requires Leveled(nodes, levels) && id in nodes
    requires IsExecutedSet(LinksOf(nodes), w, e) && IsExecutedSet(LinksOf(nodes), w, f)
    ensures id in e <==> id in f
    decreases nodes[id].level
  {
    var g := LinksOf(nodes);
    assert Placed(nodes, levels, id);
    forall d | d in DepsOf(g, id) ensures d in e <==> d in f {
      ExecutedSetUnique(nodes, levels, w, e, f, d);
    }
    assert id in e <==> Runnable(g, w, e, id);
    assert id in f <==> Runnable(g, w, f, id);
  }

  // ---------- One phase ----------

  /** A failure that ends a sequential phase. */
  predicate Breaks(w: World, failure: FailureStrategy, hook: ChainedHook) {
    !w.succeeds(hook.id) && (failure.FailFast? || hook.failureBehavior.Critical?)
  }

  /** The hooks a phase in sequential mode gets to: it stops after the first that breaks it. */
  function UpToBreak(w: World, failure: FailureStrategy, hooks: seq<ChainedHook>): seq<ChainedHook> {
    if hooks == [] then []
    else if Breaks(w, failure, hooks[0]) then [hooks[0]]
    else [hooks[0]] + UpToBreak(w, failure, hooks[1..])
  }

  /** A sequential phase runs all it could run exactly when at most the last of its hooks breaks it. */
  lemma {:induction false} SequentialPhaseComplete(w: World, failure: FailureStrategy, hooks: seq<ChainedHook>)
    ensures UpToBreak(w, failure, hooks) == hooks <==> forall i :: 0 <= i < |hooks| - 1 ==>
        !Breaks(w, failure, hooks[i])
  {
    if |hooks| > 1 {
      var rest := hooks[1..];
      SequentialPhaseComplete(w, failure, rest);
      if Breaks(w, failure, hooks[0]) {
        assert |UpToBreak(w, failure, hooks)| == 1;
      } else {
        assert UpToBreak(w, failure, hooks) == hooks <==> UpToBreak(w, failure, rest) == rest;
        assert forall i :: 0 <= i < |rest| ==> rest[i] == hooks[i + 1];
        if forall i :: 0 <= i < |rest| - 1 ==> !Breaks(w, failure, rest[i]) {
          forall i | 0 < i < |hooks| - 1 ensures !Breaks(w, failure, hooks[i]) { assert rest[i - 1] == hooks[i]; }
        }
      }
    }
  }

  function HooksRun(w: World, failure: FailureStrategy, mode: PhaseMode, hooks: seq<ChainedHook>): seq<ChainedHook> {
    if mode.SequentialMode? then UpToBreak(w, failure, hooks) else hooks
  }

  function IdSeq(hooks: seq<ChainedHook>): (ids: seq<Id>)
    ensures |ids| == |hooks|
    ensures forall i :: 0 <= i < |hooks| ==> ids[i] == hooks[i].id
  {
    seq(|hooks|, i requires 0 <= i < |hooks| => hooks[i].id)
  }

  /** The dependencies that failed, in list order. */
  function FailedAmong(ds: seq<Id>, failed: set<Id>): seq<Id> {
    if ds == [] then []
    else (if ds[0] in failed then [ds[0]] else []) + FailedAmong(ds[1..], failed)
  }

  /** `s` is `t` with some entries left out. */
  predicate Subsequence(s: seq<Id>, t: seq<Id>) {
    s == [] || (t != [] && if s[0] == t[0] then Subsequence(s[1..], t[1..]) else Subsequence(s, t[1..]))
  }

  /** Every failed entry as often as it is listed, nothing else, in order. */
  lemma FailedAmongMeaning(ds: seq<Id>, failed: set<Id>)
    ensures forall d :: multiset(FailedAmong(ds, failed))[d] == if d in failed then multiset(ds)[d] else 0
    ensures Subsequence(FailedAmong(ds, failed), ds)
    ensures FailedAmong(ds, failed) == [] <==> forall d :: d in ds ==> d !in failed
  {
    var list := FailedAmong(ds, failed);
    forall d ensures multiset(list)[d] == if d in failed then multiset(ds)[d] else 0 { FailedCount(ds, failed, d); }
    FailedInOrder(ds, failed);
    forall d | d in ds && d in failed ensures d in multiset(list) { assert multiset(ds)[d] > 0; }
    if list != [] { assert list[0] in multiset(list) && multiset(ds)[list[0]] > 0; }
  }

  lemma {:induction false} FailedCount(ds: seq<Id>, failed: set<Id>, d: Id)
    ensures multiset(FailedAmong(ds, failed))[d] == if d in failed then multiset(ds)[d] else 0
  {
    if ds != [] {
      FailedCount(ds[1..], failed, d);
      assert ds == [ds[0]] + ds[1..];
    }
  }

  lemma {:induction false} FailedInOrder(ds: seq<Id>, failed: set<Id>)
    ensures Subsequence(FailedAmong(ds, failed), ds)
  {
    if ds != [] {
      var rest := FailedAmong(ds[1..], failed);
      FailedInOrder(ds[1..], failed);
      if ds[0] in failed {
        assert ([ds[0]] + rest)[1..] == rest;
      } else {
        assert FailedAmong(ds, failed) == rest;
        if rest != [] {
          FailedCount(ds[1..], failed, rest[0]);
          assert multiset(rest)[rest[0]] > 0;
        }
      }
    }
  }

  predicate DepsOk(h: ChainedHook, executed: set<Id>, failed: set<Id>) {
    forall d :: d in h.dependencies ==> d in executed && d !in failed
  }

  predicate CanRun(h: ChainedHook, w: World, executed: set<Id>, failed: set<Id>) {
    DepsOk(h, executed, failed) && w.conditionsMet(h.id)
  }

  /** The row's hooks that can run, given what ran before the phase, in the row's order. */
  function RunnableIn(hooks: seq<ChainedHook>, w: World, executed: set<Id>, failed: set<Id>,
                      row: seq<Id>): seq<ChainedHook>
    requires forall id :: id in row ==> id in IdsOf(hooks)
  {
    if row == [] then []
    else
      var n := |row| - 1;
      var h := FindHook(hooks, row[n]).value;
      var rest := RunnableIn(hooks, w, executed, failed, row[..n]);
      if CanRun(h, w, executed, failed) then rest + [h] else rest
  }

  /** The row's other hooks. */
  function SkippedIn(hooks: seq<ChainedHook>, w: World, executed: set<Id>, failed: set<Id>, row: seq<Id>): seq<Id>
    requires forall id :: id in row ==> id in IdsOf(hooks)
  {
    if row == [] then []
    else
      var n := |row| - 1;
      var h := FindHook(hooks, row[n]).value;
      var rest := SkippedIn(hooks, w, executed, failed, row[..n]);
      if CanRun(h, w, executed, failed) then rest else rest + [row[n]]
  }

  function FailedOf(w: World, executed: seq<Id>): set<Id> {
    set x | x in executed && !w.succeeds(x)
  }

  /** What `UpToBreak` leaves out comes after a hook that broke the phase; only the last one it keeps may be one. */
  lemma UpToBreakMeaning(w: World, failure: FailureStrategy, hooks: seq<ChainedHook>)
    ensures var p := UpToBreak(w, failure, hooks);
            && p <= hooks
            && (hooks != [] ==> p != [])
            && (|p| < |hooks| ==> Breaks(w, failure, p[|p| - 1]))
            && forall i :: 0 <= i < |p| - 1 ==> !Breaks(w, failure, p[i])
  {
  }

  lemma BreakAt(w: World, failure: FailureStrategy, hooks: seq<ChainedHook>, i: nat)
    requires i < |hooks| && Breaks(w, failure, hooks[i])
    requires forall j :: 0 <= j < i ==> !Breaks(w, failure, hooks[j])
    ensures UpToBreak(w, failure, hooks) == hooks[..i + 1]
  {
    if i > 0 {
      BreakAt(w, failure, hooks[1..], i - 1);
      assert hooks[..i + 1] == [hooks[0]] + hooks[1..][..i];
    }
  }

  // ---------- A whole run, as a function ----------

  /** Everything a run depends on: the chain, its graph and levels, the oracles and the two strategies. */
  datatype Setting = Setting(
    hooks: seq<ChainedHook>, nodes: Nodes, levels: seq<seq<Id>>,
    world: World, strategy: ExecutionStrategy, failure: FailureStrategy)
  {
    ghost predicate Ok() {
      Leveled(nodes, levels) && NodesFor(nodes, hooks)
    }

    predicate RowsKnown() {
      forall k {:trigger levels[k]} :: 0 <= k < |levels| ==> forall id :: id in levels[k] ==> id in IdsOf(hooks)
    }

    function Links(): Deps {
      LinksOf(nodes)
    }

    /** The hook's failure ends a sequential phase. */
    predicate Breaking(id: Id)
      requires id in nodes
    {
      !world.succeeds(id) && (failure.FailFast? || nodes[id].isCritical)
    }

    ghost predicate Can(executed: seq<Id>, id: Id) {
      Runnable(Links(), world, Elems(executed), id)
    }
  }

  lemma OkRows(c: Setting)
    requires c.Ok()
    ensures c.RowsKnown()
  {
    forall k, id | 0 <= k < |c.levels| && id in c.levels[k] ensures id in IdsOf(c.hooks) {
      assert IsLevel(c.nodes, c.nodes.Keys, c.levels[k], k);
    }
  }

  /** The hooks of level `k` that can run after `executed`. */
  function CanRunNow(c: Setting, executed: seq<Id>, k: nat): seq<ChainedHook>
    requires c.RowsKnown() && k < |c.levels|
  {
    RunnableIn(c.hooks, c.world, Elems(executed), FailedOf(c.world, executed), c.levels[k])
  }

  /** What the phase of level `k` runs. */
  function RanNow(c: Setting, executed: seq<Id>, k: nat): seq<Id>
    requires c.RowsKnown() && k < |c.levels|
  {
    IdSeq(HooksRun(c.world, c.failure, ModeFor(c.strategy, |c.levels[k]|), CanRunNow(c, executed, k)))
  }

  function SkippedNow(c: Setting, executed: seq<Id>, k: nat): seq<Id>
    requires c.RowsKnown() && k < |c.levels|
  {
    SkippedIn(c.hooks, c.world, Elems(executed), FailedOf(c.world, executed), c.levels[k])
  }

  function AfterPhase(c: Setting, t: Trace, k: nat): Trace
    requires c.RowsKnown() && k < |c.levels|
  {
    Trace(t.executed + RanNow(c, t.executed, k), t.skipped + SkippedNow(c, t.executed, k))
  }

  function RestFrom(levels: seq<seq<Id>>, k: nat): seq<Id>
    requires k <= |levels|
    decreases |levels| - k
  {
    if k == |levels| then [] else levels[k] + RestFrom(levels, k + 1)
  }

  predicate StopsHere(c: Setting, t: Trace) {
    c.failure.FailFast? && FailedOf(c.world, t.executed) != {}
  }

  /** The phases from `k` on; after a fail-fast stop what is left is skipped. */
  function PlayFrom(c: Setting, k: nat, t: Trace): Trace
    requires c.RowsKnown() && k <= |c.levels|
    decreases |c.levels| - k
  {
    if k == |c.levels| then t
    else
      var u := AfterPhase(c, t, k);
      if StopsHere(c, u) then Trace(u.executed, u.skipped + RestFrom(c.levels, k + 1)) else PlayFrom(c, k + 1, u)
  }

  function Played(c: Setting): Trace
    requires c.RowsKnown()
  {
    PlayFrom(c, 0, Trace([], []))
  }

  // ---------- The account of a run ----------

  /** A hook of the same level that failed in a way that ends a sequential phase. */
  ghost predicate BrokenBy(c: Setting, executed: seq<Id>, id: Id, b: Id)
    requires id in c.nodes
  {
    b in executed && b in c.nodes && b != id && c.nodes[b].level == c.nodes[id].level && c.Breaking(b)
  }

  /**
   What has become of a hook whose phase is over: it ran only if it could, it is skipped exactly
   when it could not, and it is neither only in a sequential phase that broke.
   */
  ghost predicate Settled(c: Setting, t: Trace, id: Id)
    requires id in c.nodes
  {
    && (id in t.executed ==> c.Can(t.executed, id))
    && (id in t.skipped <==> !c.Can(t.executed, id))
    && (c.Can(t.executed, id) && id !in t.executed ==>
        c.strategy.Sequential? && exists b :: BrokenBy(c, t.executed, id, b))
  }

  ghost predicate SettledBelow(c: Setting, t: Trace, k: nat) {
    forall id {:trigger Settled(c, t, id)} :: id in c.nodes && c.nodes[id].level < k ==> Settled(c, t, id)
  }

  /** If the hook in position `i` breaks its phase, nothing of its level runs after it. */
  ghost predicate StopsAt(c: Setting, executed: seq<Id>, i: nat)
    requires i < |executed| && forall id :: id in executed ==> id in c.nodes
  {
    c.Breaking(executed[i]) ==>
      forall j :: i < j < |executed| ==> c.nodes[executed[j]].level != c.nodes[executed[i]].level
  }

  ghost predicate Stops(c: Setting, executed: seq<Id>) {
    && (forall id :: id in executed ==> id in c.nodes)
    && (c.strategy.Sequential? ==>
          forall i {:trigger StopsAt(c, executed, i)} :: 0 <= i < |executed| ==> StopsAt(c, executed, i))
  }

  ghost predicate Below(c: Setting, ids: seq<Id>, k: nat) {
    forall id :: id in ids ==> id in c.nodes && c.nodes[id].level < k
  }

  /** The state between phases: the first `k` levels are settled, the others untouched. */
  ghost predicate RunState(c: Setting, t: Trace, k: nat) {
    && Safe(c.Links(), c.world, t)
    && Below(c, t.executed, k) && Below(c, t.skipped, k)
    && SettledBelow(c, t, k)
    && Stops(c, t.executed)
  }

  /** How a run ends: the first `m` levels are settled, and after a fail-fast stop the rest is skipped. */
  ghost predicate FinalState(c: Setting, t: Trace, m: nat) {
    && m <= |c.levels|
    && Safe(c.Links(), c.world, t)
    && (forall id :: id in t.skipped ==> id in c.nodes)
    && SettledBelow(c, t, m)
    && (forall id :: id in c.nodes && c.nodes[id].level >= m ==> id in t.skipped && id !in t.executed)
    && Stops(c, t.executed)
    && (m < |c.levels| ==> c.failure.FailFast? && FailedOf(c.world, t.executed) != {})
    && (c.failure.FailFast? ==> forall id :: id in FailedOf(c.world, t.executed) ==> c.nodes[id].level + 1 == m)
  }

  // ---------- One phase keeps the account ----------

  /** Later phases cannot change what an earlier hook depends on. */
  lemma SettledStays(c: Setting, t: Trace, ran: seq<Id>, more: seq<Id>, k: nat, id: Id)
    requires Leveled(c.nodes, c.levels) && id in c.nodes && c.nodes[id].level < k
    requires Settled(c, t, id)
    requires forall x :: x in ran || x in more ==> x in c.nodes && c.nodes[x].level >= k
    ensures Settled(c, Trace(t.executed + ran, t.skipped + more), id)
  {
    var executed' := t.executed + ran;
    assert Placed(c.nodes, c.levels, id);
    assert forall d :: d in DepsOf(c.Links(), id) ==> (d in t.executed <==> d in executed');
    assert id in executed' <==> id in t.executed;
    assert id in t.skipped + more <==> id in t.skipped;
    if b :| BrokenBy(c, t.executed, id, b) {
      assert BrokenBy(c, executed', id, b);
    }
  }

  /** The executor's own test, before the phase, for a hook of the chain. */
  ghost predicate Ready(c: Setting, executed: seq<Id>, id: Id)
    requires id in IdsOf(c.hooks)
  {
    CanRun(FindHook(c.hooks, id).value, c.world, Elems(executed), FailedOf(c.world, executed))
  }

  lemma NodeDependencies(nodes: Nodes, hooks: seq<ChainedHook>, id: Id)
    requires NodesFor(nodes, hooks) && id in nodes
    ensures FindHook(hooks, id).value.dependencies == nodes[id].dependencies
    ensures FindHook(hooks, id).value.failureBehavior.Critical? == nodes[id].isCritical
  {
    var h := FindHook(hooks, id).value;
    assert NodeFor(nodes[h.id], h);
  }

  /** It is the right test, also in hindsight: what the phase itself runs makes no difference. */
  lemma ReadyIsRunnable(c: Setting, executed: seq<Id>, ran: seq<Id>, id: Id)
    requires c.Ok() && id in c.nodes
    requires forall x :: x in ran ==> x in c.nodes && c.nodes[x].level >= c.nodes[id].level
    ensures Ready(c, executed, id) <==> c.Can(executed + ran, id)
  {
    NodeDependencies(c.nodes, c.hooks, id);
    var ds := c.nodes[id].dependencies;
    assert DepsOf(c.Links(), id) == ds;
    assert Placed(c.nodes, c.levels, id);
    forall d | d in ds
      ensures (d in Elems(executed) && d !in FailedOf(c.world, executed)) <==>
          (d in Elems(executed + ran) && c.world.succeeds(d))
    {
      assert d !in ran;
      assert d in executed + ran <==> d in executed;
    }
  }

  /** The row is split in two: `can` has the hooks that pass the test, `more` the identifiers that do not. */
  ghost predicate Splits(c: Setting, executed: seq<Id>, row: seq<Id>, can: seq<ChainedHook>, more: seq<Id>)
    requires forall id :: id in row ==> id in IdsOf(c.hooks)
  {
    && NoDup(IdSeq(can)) && NoDup(more)
    && (forall h :: h in can ==> h.id in row && h in c.hooks)
    && (forall id {:trigger id in IdSeq(can)} :: id in IdSeq(can) <==> id in row && Ready(c, executed, id))
    && (forall id {:trigger id in more} :: id in more <==> id in row && !Ready(c, executed, id))
  }

  lemma SplitsWith(c: Setting, executed: seq<Id>, row: seq<Id>, x: Id, can: seq<ChainedHook>, more: seq<Id>)
    requires (forall id :: id in row ==> id in IdsOf(c.hooks)) && x in IdsOf(c.hooks) && x !in row
    requires Splits(c, executed, row, can, more)
    ensures if Ready(c, executed, x) then Splits(c, executed, row + [x], can + [FindHook(c.hooks, x).value], more)
            else Splits(c, executed, row + [x], can, more + [x])
  {
    if Ready(c, executed, x) {
      var h := FindHook(c.hooks, x).value;
      assert IdSeq(can + [h]) == IdSeq(can) + [x];
      AppendFresh(IdSeq(can), x);
    } else {
      AppendFresh(more, x);
    }
  }

  lemma RowSplits(c: Setting, executed: seq<Id>, row: seq<Id>)
    requires NoDup(row) && forall id :: id in row ==> id in IdsOf(c.hooks)
    ensures Splits(c, executed, row,
                   RunnableIn(c.hooks, c.world, Elems(executed), FailedOf(c.world, executed), row),
                   SkippedIn(c.hooks, c.world, Elems(executed), FailedOf(c.world, executed), row))
  {
    if row != [] {
      var n := |row| - 1;
      var first := row[..n];
      assert row == first + [row[n]];
      AppendFresh(first, row[n]);
      RowSplits(c, executed, first);
      SplitsWith(c, executed, first, row[n],
                 RunnableIn(c.hooks, c.world, Elems(executed), FailedOf(c.world, executed), first),
                 SkippedIn(c.hooks, c.world, Elems(executed), FailedOf(c.world, executed), first));
    }
  }

  lemma RanIsPrefix(w: World, failure: FailureStrategy, mode: PhaseMode, can: seq<ChainedHook>)
    requires NoDup(IdSeq(can))
    ensures var ran := HooksRun(w, failure, mode, can);
            && |ran| <= |can|
            && IdSeq(ran) == IdSeq(can)[..|ran|]
            && NoDup(IdSeq(ran))
            && (forall x :: x in IdSeq(ran) ==> x in IdSeq(can))
  {
    UpToBreakMeaning(w, failure, can);
    var ran := HooksRun(w, failure, mode, can);
    assert IdSeq(ran) == IdSeq(can)[..|ran|];
    PrefixNoDup(IdSeq(can), |ran|);
  }

  /** What a phase runs and skips, as far as the account of the run is concerned. */
  lemma PhaseMembers(c: Setting, executed: seq<Id>, k: nat)
    requires c.Ok() && k < |c.levels| && c.RowsKnown()
    ensures NoDup(RanNow(c, executed, k)) && NoDup(SkippedNow(c, executed, k))
    ensures forall x :: x in RanNow(c, executed, k) ==> x in c.nodes && c.nodes[x].level == k && Ready(c, executed, x)
    ensures forall x :: x in SkippedNow(c, executed, k) <==>
              x in c.levels[k] && x in c.nodes && c.nodes[x].level == k && !Ready(c, executed, x)
    ensures Splits(c, executed, c.levels[k], CanRunNow(c, executed, k), SkippedNow(c, executed, k))
  {
    assert IsLevel(c.nodes, c.nodes.Keys, c.levels[k], k);
    RowSplits(c, executed, c.levels[k]);
    RanIsPrefix(c.world, c.failure, ModeFor(c.strategy, |c.levels[k]|), CanRunNow(c, executed, k));
  }

  lemma PhaseSettles(c: Setting, t: Trace, k: nat)
    requires c.Ok() && c.RowsKnown() && k < |c.levels| && RunState(c, t, k)
    ensures RunState(c, AfterPhase(c, t, k), k + 1)
  {
    var ran, more := RanNow(c, t.executed, k), SkippedNow(c, t.executed, k);
    PhaseMembers(c, t.executed, k);
    PhaseIsSafe(c, t, ran, more, k);
    var u := AfterPhase(c, t, k);
    forall id | id in c.nodes && c.nodes[id].level < k + 1 ensures Settled(c, u, id) {
      if c.nodes[id].level < k {
        SettledStays(c, t, ran, more, k, id);
      } else {
        ReadyIsRunnable(c, t.executed, ran, id);
        RowSettles(c, t, k, id);
      }
    }
    PhaseStops(c, t.executed, k);
  }

  lemma NoDupConcat(a: seq<Id>, b: seq<Id>)
    requires NoDup(a) && NoDup(b) && forall x :: x in a ==> x !in b
    ensures NoDup(a + b)
  {
    NoDupPairs(a);
    NoDupPairs(b);
    forall i, j | 0 <= i < j < |a + b| ensures (a + b)[i] != (a + b)[j] {
      if i < |a| <= j { assert (a + b)[i] in a && (a + b)[j] in b; }
    }
    NoDupPairs(a + b);
  }

  lemma PhaseIsSafe(c: Setting, t: Trace, ran: seq<Id>, more: seq<Id>, k: nat)
    requires c.Ok() && Safe(c.Links(), c.world, t)
    requires Below(c, t.executed, k) && Below(c, t.skipped, k)
    requires NoDup(ran) && NoDup(more)
    requires forall id :: id in ran ==> id in c.nodes && c.nodes[id].level == k && Ready(c, t.executed, id)
    requires forall id :: id in more ==> id in c.nodes && c.nodes[id].level == k && !Ready(c, t.executed, id)
    ensures Safe(c.Links(), c.world, Trace(t.executed + ran, t.skipped + more))
    ensures Below(c, t.executed + ran, k + 1) && Below(c, t.skipped + more, k + 1)
  {
    var g, executed' := c.Links(), t.executed + ran;
    NoDupConcat(t.executed, ran);
    NoDupConcat(t.skipped, more);
    forall i | 0 <= i < |executed'| ensures RanSafely(g, c.world, executed', i) {
      if i < |t.executed| {
        assert RanSafely(g, c.world, t.executed, i);
        assert executed'[..i] == t.executed[..i];
      } else {
        var id := executed'[i];
        assert id in ran;
        ReadyIsRunnable(c, t.executed, [], id);
        assert t.executed + [] == t.executed;
        assert executed'[..i] == t.executed + ran[..i - |t.executed|];
      }
    }
  }

  /** The hooks of the phase itself: run, skipped, or cut off by a broken sequential phase. */
  lemma RowSettles(c: Setting, t: Trace, k: nat, id: Id)
    requires c.Ok() && c.RowsKnown() && k < |c.levels| && id in c.nodes && c.nodes[id].level == k
    requires Below(c, t.executed, k) && Below(c, t.skipped, k)
    requires Ready(c, t.executed, id) <==> c.Can(t.executed + RanNow(c, t.executed, k), id)
    ensures Settled(c, AfterPhase(c, t, k), id)
  {
    var ran := RanNow(c, t.executed, k);
    assert Placed(c.nodes, c.levels, id);
    PhaseMembers(c, t.executed, k);
    assert id in t.executed + ran <==> id in ran;
    assert id in AfterPhase(c, t, k).skipped <==> id in SkippedNow(c, t.executed, k);
    if Ready(c, t.executed, id) && id !in ran {
      assert id in IdSeq(CanRunNow(c, t.executed, k));
      var b := CutOff(c, t.executed, k, id);
      assert BrokenBy(c, t.executed + ran, id, b);
    }
  }

  lemma CutOff(c: Setting, executed: seq<Id>, k: nat, id: Id) returns (b: Id)
    requires c.Ok() && c.RowsKnown() && k < |c.levels|
    requires id in IdSeq(CanRunNow(c, executed, k)) && id !in RanNow(c, executed, k)
    ensures c.strategy.Sequential?
    ensures b in RanNow(c, executed, k) && b in c.nodes && c.nodes[b].level == k && b != id && c.Breaking(b)
  {
    MoreThanOne(c, executed, k, id);
    var h := LastRan(c, executed, k, id);
    b := h.id;
    PhaseMembers(c, executed, k);
    assert NodeFor(c.nodes[b], h);
  }

  /** When a sequential phase leaves out hooks, the last one it ran broke it. */
  lemma LastRan(c: Setting, executed: seq<Id>, k: nat, id: Id) returns (h: ChainedHook)
    requires c.RowsKnown() && k < |c.levels|
    requires id in IdSeq(CanRunNow(c, executed, k)) && id !in RanNow(c, executed, k)
    ensures ModeFor(c.strategy, |c.levels[k]|).SequentialMode?
    ensures h in CanRunNow(c, executed, k) && h.id in RanNow(c, executed, k) && Breaks(c.world, c.failure, h)
  {
    var can := CanRunNow(c, executed, k);
    var ran := HooksRun(c.world, c.failure, ModeFor(c.strategy, |c.levels[k]|), can);
    UpToBreakMeaning(c.world, c.failure, can);
    h := ran[|ran| - 1];
    assert can[|ran| - 1] == h;
    assert IdSeq(ran)[|ran| - 1] == h.id;
  }

  /** Whatever the mode, the first hook that can run does. */
  lemma FirstRuns(c: Setting, executed: seq<Id>, k: nat)
    requires c.RowsKnown() && k < |c.levels| && CanRunNow(c, executed, k) != []
    ensures RanNow(c, executed, k) != [] && RanNow(c, executed, k)[0] == CanRunNow(c, executed, k)[0].id
  {
    UpToBreakMeaning(c.world, c.failure, CanRunNow(c, executed, k));
  }

  /** A level in which something was cut off has at least two hooks. */
  lemma MoreThanOne(c: Setting, executed: seq<Id>, k: nat, id: Id)
    requires c.Ok() && c.RowsKnown() && k < |c.levels|
    requires id in IdSeq(CanRunNow(c, executed, k)) && id !in RanNow(c, executed, k)
    ensures |c.levels[k]| > 1
  {
    var row, can := c.levels[k], CanRunNow(c, executed, k);
    PhaseMembers(c, executed, k);
    FirstRuns(c, executed, k);
    var first := can[0].id;
    assert IdSeq(can)[0] == first && first in IdSeq(can);
    assert first in RanNow(c, executed, k) && first != id;
    TwoMembers(row, first, id);
  }

  lemma TwoMembers(s: seq<Id>, x: Id, y: Id)
    requires x in s && y in s && x != y
    ensures |s| > 1
  {
  }

  lemma PhaseStops(c: Setting, executed: seq<Id>, k: nat)
    requires c.Ok() && c.RowsKnown() && k < |c.levels|
    requires Stops(c, executed) && Below(c, executed, k)
    ensures Stops(c, executed + RanNow(c, executed, k))
  {
    var ran := RanNow(c, executed, k);
    PhaseMembers(c, executed, k);
    if c.strategy.Sequential? {
      var can := CanRunNow(c, executed, k);
      UpToBreakMeaning(c.world, c.failure, can);
      forall i | 0 <= i < |executed + ran| ensures StopsAt(c, executed + ran, i) {
        if i < |executed| {
          assert StopsAt(c, executed, i);
          assert executed[i] in executed;
          forall j | |executed| <= j < |executed + ran| ensures (executed + ran)[j] in ran {}
        } else if i < |executed + ran| - 1 {
          var h := can[i - |executed|];
          assert h in can && NodeFor(c.nodes[h.id], h) && !Breaks(c.world, c.failure, h);
        }
      }
    }
  }

  // ---------- The whole run ----------

  /** While the remaining levels are being skipped: those from `m` up to `j` are done. */
  ghost predicate SkipState(c: Setting, t: Trace, m: nat, j: nat) {
    && m <= j <= |c.levels|
    && Safe(c.Links(), c.world, t)
    && Below(c, t.executed, m) && Below(c, t.skipped, j)
    && SettledBelow(c, t, m)
    && (forall id :: id in c.nodes && m <= c.nodes[id].level < j ==> id in t.skipped)
    && Stops(c, t.executed)
  }

  lemma SkipStep(c: Setting, t: Trace, m: nat, j: nat)
    requires Leveled(c.nodes, c.levels) && j < |c.levels| && SkipState(c, t, m, j)
    ensures SkipState(c, Trace(t.executed, t.skipped + c.levels[j]), m, j + 1)
  {
    var row := c.levels[j];
    var u := Trace(t.executed, t.skipped + row);
    assert IsLevel(c.nodes, c.nodes.Keys, row, j);
    NoDupConcat(t.skipped, row);
    assert t.executed + [] == t.executed;
    forall id | id in c.nodes && c.nodes[id].level < m ensures Settled(c, u, id) {
      SettledStays(c, t, [], row, m, id);
    }
    forall id | id in c.nodes && m <= c.nodes[id].level < j + 1 ensures id in u.skipped {
      assert Placed(c.nodes, c.levels, id);
    }
  }

  lemma {:induction false} SkipRest(c: Setting, t: Trace, m: nat, j: nat)
    requires Leveled(c.nodes, c.levels) && SkipState(c, t, m, j)
    ensures SkipState(c, Trace(t.executed, t.skipped + RestFrom(c.levels, j)), m, |c.levels|)
    decreases |c.levels| - j
  {
    if j < |c.levels| {
      var u := Trace(t.executed, t.skipped + c.levels[j]);
      SkipStep(c, t, m, j);
      SkipRest(c, u, m, j + 1);
      assert t.skipped + RestFrom(c.levels, j) == u.skipped + RestFrom(c.levels, j + 1);
    } else {
      assert t.skipped + [] == t.skipped;
    }
  }

  lemma FirstFailures(c: Setting, before: seq<Id>, ran: seq<Id>, k: nat)
    requires FailedOf(c.world, before) == {}
    requires forall x :: x in ran ==> x in c.nodes && c.nodes[x].level == k
    ensures forall id :: id in FailedOf(c.world, before + ran) ==> id in c.nodes && c.nodes[id].level == k
  {
    forall id | id in FailedOf(c.world, before + ran) ensures id in c.nodes && c.nodes[id].level == k {
      assert id in before ==> id in FailedOf(c.world, before);
    }
  }

  /** Every run over the phases ends in a final state. */
  lemma {:induction false} PlayIsFinal(c: Setting, k: nat, t: Trace) returns (m: nat)
    requires c.Ok() && c.RowsKnown() && k <= |c.levels| && RunState(c, t, k) && !StopsHere(c, t)
    ensures FinalState(c, PlayFrom(c, k, t), m)
    decreases |c.levels| - k
  {
    if k == |c.levels| {
      m := k;
      EndIsFinal(c, t);
    } else {
      var u := AfterPhase(c, t, k);
      PhaseSettles(c, t, k);
      if StopsHere(c, u) {
        m := k + 1;
        StopIsFinal(c, k, t);
      } else {
        m := PlayIsFinal(c, k + 1, u);
      }
    }
  }

  lemma EndIsFinal(c: Setting, t: Trace)
    requires c.Ok() && RunState(c, t, |c.levels|) && !StopsHere(c, t)
    ensures FinalState(c, t, |c.levels|)
  {
    LevelsInRange(c);
  }

  /** A fail-fast stop after phase `k`: the remaining levels are skipped. */
  lemma StopIsFinal(c: Setting, k: nat, t: Trace)
    requires c.Ok() && c.RowsKnown() && k < |c.levels| && RunState(c, t, k) && !StopsHere(c, t)
    requires RunState(c, AfterPhase(c, t, k), k + 1) && StopsHere(c, AfterPhase(c, t, k))
    ensures FinalState(c, PlayFrom(c, k, t), k + 1)
  {
    StopFailures(c, k, t);
    SkipToEnd(c, AfterPhase(c, t, k), k + 1);
  }

  lemma StopFailures(c: Setting, k: nat, t: Trace)
    requires c.Ok() && c.RowsKnown() && k < |c.levels| && FailedOf(c.world, t.executed) == {}
    ensures FailedAtLevel(c, AfterPhase(c, t, k), k)
  {
    PhaseMembers(c, t.executed, k);
    FirstFailures(c, t.executed, RanNow(c, t.executed, k), k);
  }

  ghost predicate FailedAtLevel(c: Setting, t: Trace, k: nat) {
    forall id :: id in FailedOf(c.world, t.executed) ==> id in c.nodes && c.nodes[id].level == k
  }

  lemma SkipToEnd(c: Setting, t: Trace, m: nat)
    requires c.Ok() && 0 < m <= |c.levels| && RunState(c, t, m) && StopsHere(c, t) && FailedAtLevel(c, t, m - 1)
    ensures FinalState(c, Trace(t.executed, t.skipped + RestFrom(c.levels, m)), m)
  {
    StartSkipping(c, t, m);
    SkipRest(c, t, m, m);
    SkippedIsFinal(c, Trace(t.executed, t.skipped + RestFrom(c.levels, m)), m);
  }

  lemma StartSkipping(c: Setting, t: Trace, m: nat)
    requires RunState(c, t, m) && m <= |c.levels|
    ensures SkipState(c, t, m, m)
  {
  }

  lemma SkippedIsFinal(c: Setting, t: Trace, m: nat)
    requires c.Ok() && SkipState(c, t, m, |c.levels|)
    requires c.failure.FailFast? && FailedOf(c.world, t.executed) != {}
    requires forall id :: id in FailedOf(c.world, t.executed) ==> id in c.nodes && c.nodes[id].level + 1 == m
    ensures FinalState(c, t, m)
  {
    LevelsInRange(c);
  }

  lemma LevelsInRange(c: Setting)
    requires c.Ok()
    ensures forall id :: id in c.nodes ==> c.nodes[id].level < |c.levels|
  {
    forall id | id in c.nodes ensures c.nodes[id].level < |c.levels| { assert Placed(c.nodes, c.levels, id); }
  }

  lemma RunStart(c: Setting)
    ensures RunState(c, Trace([], []), 0) && !StopsHere(c, Trace([], []))
  {
    assert FailedOf(c.world, []) == {};
  }

  lemma PlayStep(c: Setting, k: nat, t: Trace)
    requires c.RowsKnown() && k < |c.levels|
    ensures var u := AfterPhase(c, t, k);
            PlayFrom(c, k, t) ==
              if StopsHere(c, u) then Trace(u.executed, u.skipped + RestFrom(c.levels, k + 1))
                  else PlayFrom(c, k + 1, u)
  {
  }

  lemma PlayedIsFinal(c: Setting) returns (m: nat)
    requires c.Ok() && c.RowsKnown()
    ensures FinalState(c, Played(c), m)
  {
    RunStart(c);
    m := PlayIsFinal(c, 0, Trace([], []));
  }

  // ---------- What a finished run tells ----------

  /** Neither run nor skipped: the run says nothing about the hook. */
  predicate Lost(t: Trace, id: Id) {
    id !in t.executed && id !in t.skipped
  }

  /** Unless the strategy is sequential every hook is either run or skipped, fail-fast stops included. */
  lemma RunOrSkipped(c: Setting, id: Id)
    requires c.Ok() && c.RowsKnown() && id in c.nodes
    ensures !(id in Played(c).executed && id in Played(c).skipped)
    ensures !c.strategy.Sequential? ==> !Lost(Played(c), id)
  {
    var m := PlayedIsFinal(c);
    if c.nodes[id].level < m { assert Settled(c, Played(c), id); }
  }

  /** The hook in position `i` broke the phase of `id`, which had not run by then. */
  ghost predicate BreaksBefore(c: Setting, t: Trace, id: Id, i: nat)
    requires id in c.nodes
  {
    && i < |t.executed| && t.executed[i] in c.nodes && c.nodes[t.executed[i]].level == c.nodes[id].level
    && c.Breaking(t.executed[i]) && id !in t.executed[..i + 1]
  }

  /**
   A sequential run loses a hook exactly when the hook could have run and one of its level broke the
   phase before its turn.
   */
  lemma LostIff(c: Setting, id: Id)
    requires c.Ok() && c.RowsKnown() && c.strategy.Sequential? && id in c.nodes
    ensures Lost(Played(c), id) <==>
            c.Can(Played(c).executed, id) && exists i :: BreaksBefore(c, Played(c), id, i)
  {
    var t := Played(c);
    var m := PlayedIsFinal(c);
    if c.nodes[id].level < m { assert Settled(c, t, id); }
    if Lost(t, id) {
      var b :| BrokenBy(c, t.executed, id, b);
      var i: nat :| i < |t.executed| && t.executed[i] == b;
      assert BreaksBefore(c, t, id, i);
    }
    if i: nat :| BreaksBefore(c, t, id, i) {
      assert StopsAt(c, t.executed, i);
      forall j | 0 <= j < |t.executed| ensures t.executed[j] != id {
        assert j <= i ==> t.executed[j] in t.executed[..i + 1];
      }
    }
  }

  /** With a non-sequential strategy and no fail-fast, the executed hooks solve the equation. */
  lemma ExecutedSetMeaning(c: Setting)
    requires c.Ok() && c.RowsKnown() && !c.strategy.Sequential? && !c.failure.FailFast?
    ensures IsExecutedSet(c.Links(), c.world, Elems(Played(c).executed))
    ensures Elems(Played(c).skipped) == c.nodes.Keys - Elems(Played(c).executed)
  {
    var t := Played(c);
    var m := PlayedIsFinal(c);
    forall id | id in c.nodes
      ensures id in Elems(t.executed) <==> Runnable(c.Links(), c.world, Elems(t.executed), id)
      ensures id in t.skipped <==> id !in t.executed
    {
      assert Placed(c.nodes, c.levels, id);
      assert Settled(c, t, id);
    }
  }

  /**
   Two such runs of one chain execute and skip the same hooks and agree on success, however their
   levels were ordered and whichever of these strategies each of them used.
   */
  lemma OrderDoesNotMatter(c: Setting, d: Setting)
    requires c.Ok() && c.RowsKnown() && !c.strategy.Sequential? && !c.failure.FailFast?
    requires d.Ok() && d.RowsKnown() && !d.strategy.Sequential? && !d.failure.FailFast?
    requires c.hooks == d.hooks && c.world == d.world
    ensures Elems(Played(c).executed) == Elems(Played(d).executed)
    ensures Elems(Played(c).skipped) == Elems(Played(d).skipped)
    ensures FailedOf(c.world, Played(c).executed) == FailedOf(d.world, Played(d).executed)
  {
    ExecutedSetMeaning(c);
    ExecutedSetMeaning(d);
    NodesLinks(c.nodes, c.hooks);
    NodesLinks(d.nodes, d.hooks);
    var e, f := Elems(Played(c).executed), Elems(Played(d).executed);
    forall id | id in c.nodes ensures id in e <==> id in f {
      ExecutedSetUnique(c.nodes, c.levels, c.world, e, f, id);
    }
    assert e == f;
    forall x ensures x in FailedOf(c.world, Played(c).executed) <==> x in FailedOf(d.world, Played(d).executed) {
      assert x in e <==> x in f;
    }
  }

  // ---------- When a sequential run loses nothing ----------

  /** The hooks that run when nothing ends a phase or the run early. */
  function Unhindered(c: Setting): set<Id>
    requires c.RowsKnown()
  {
    Elems(Played(c.(strategy := MaxParallel, failure := BestEffort)).executed)
  }

  lemma UnhinderedMeaning(c: Setting)
    requires c.Ok() && c.RowsKnown()
    ensures IsExecutedSet(c.Links(), c.world, Unhindered(c))
  {
    ExecutedSetMeaning(c.(strategy := MaxParallel, failure := BestEffort));
  }

  /** No fail-fast stop can come before the phase of level `k`. */
  predicate Reached(c: Setting, e: set<Id>, k: nat) {
    c.failure.FailFast? ==> forall y :: y in e && y in c.nodes && c.nodes[y].level < k ==> c.world.succeeds(y)
  }

  /** Two hooks of one level that can both run, the first of which would end the phase. */
  predicate Rivals(c: Setting, e: set<Id>, b: Id, x: Id) {
    && b in e && x in e && b != x && b in c.nodes && x in c.nodes && c.nodes[b].level == c.nodes[x].level
    && c.Breaking(b) && Reached(c, e, c.nodes[b].level)
  }

  /** Every hook of the chain is executed or skipped. */
  ghost predicate AllAccounted(c: Setting)
    requires c.RowsKnown()
  {
    forall id :: id in c.nodes ==> !Lost(Played(c), id)
  }

  /** Every hook below level `k` is executed or skipped. */
  ghost predicate NoneLostBelow(c: Setting, t: Trace, k: nat) {
    forall id :: id in c.nodes && c.nodes[id].level < k ==> !Lost(t, id)
  }

  /** Up to the first loss a sequential run agrees with the unhindered one. */
  lemma {:induction false} AgreesUpToLoss(c: Setting, t: Trace, m: nat, k: nat, id: Id)
    requires c.Ok() && c.RowsKnown() && FinalState(c, t, m) && k <= m
    requires NoneLostBelow(c, t, k) && id in c.nodes && c.nodes[id].level <= k && c.nodes[id].level < m
    ensures c.Can(t.executed, id) <==> id in Unhindered(c)
    ensures c.nodes[id].level < k ==> (id in t.executed <==> id in Unhindered(c))
    decreases c.nodes[id].level
  {
    UnhinderedMeaning(c);
    var g, e := c.Links(), Unhindered(c);
    assert Placed(c.nodes, c.levels, id);
    forall d | d in DepsOf(g, id) ensures d in Elems(t.executed) <==> d in e {
      AgreesUpToLoss(c, t, m, k, d);
    }
    assert Runnable(g, c.world, e, id) <==> c.Can(t.executed, id);
    assert Settled(c, t, id);
  }

  /** A loss, if there is one, first happens in some level. */
  lemma {:induction false} FirstLoss(c: Setting, t: Trace, k: nat) returns (x: Id)
    requires !NoneLostBelow(c, t, k)
    ensures x in c.nodes && c.nodes[x].level < k && Lost(t, x) && NoneLostBelow(c, t, c.nodes[x].level)
  {
    if k > 0 && !NoneLostBelow(c, t, k - 1) {
      x := FirstLoss(c, t, k - 1);
    } else {
      x :| x in c.nodes && c.nodes[x].level < k && Lost(t, x);
    }
  }

  /** What is lost first is lost to a rival. */
  lemma LossHasRivals(c: Setting, id: Id) returns (b: Id, x: Id)
    requires c.Ok() && c.RowsKnown() && id in c.nodes && Lost(Played(c), id)
    ensures Rivals(c, Unhindered(c), b, x)
  {
    var t := Played(c);
    var m := PlayedIsFinal(c);
    assert !NoneLostBelow(c, t, m);
    x := FirstLoss(c, t, m);
    var k := c.nodes[x].level;
    assert Settled(c, t, x);
    AgreesUpToLoss(c, t, m, k, x);
    b :| BrokenBy(c, t.executed, x, b);
    assert Settled(c, t, b);
    AgreesUpToLoss(c, t, m, k, b);
    if c.failure.FailFast? {
      forall y | y in Unhindered(c) && y in c.nodes && c.nodes[y].level < k ensures c.world.succeeds(y) {
        AgreesUpToLoss(c, t, m, k, y);
        assert y in t.executed;
        assert !c.world.succeeds(y) ==> y in FailedOf(c.world, t.executed);
      }
    }
  }

  /** Phases only add to what was executed, each hooks of its own level. */
  lemma {:induction false} PlayAdds(c: Setting, k: nat, t: Trace)
    requires c.Ok() && c.RowsKnown() && k <= |c.levels|
    ensures var executed := PlayFrom(c, k, t).executed;
            && t.executed <= executed
            && forall j :: |t.executed| <= j < |executed| ==> executed[j] in c.nodes && c.nodes[executed[j]].level >= k
    decreases |c.levels| - k
  {
    if k < |c.levels| {
      var u := AfterPhase(c, t, k);
      PhaseMembers(c, t.executed, k);
      forall j | |t.executed| <= j < |u.executed|
        ensures u.executed[j] in c.nodes && c.nodes[u.executed[j]].level == k
      {
        assert u.executed[j] in RanNow(c, t.executed, k);
      }
      if !StopsHere(c, u) { PlayAdds(c, k + 1, u); }
    }
  }

  lemma RunnableFirst(hooks: seq<ChainedHook>, w: World, executed: set<Id>, failed: set<Id>, row: seq<Id>)
    requires row != [] && forall id :: id in row ==> id in IdsOf(hooks)
    requires CanRun(FindHook(hooks, row[0]).value, w, executed, failed)
    ensures RunnableIn(hooks, w, executed, failed, row) != []
    ensures RunnableIn(hooks, w, executed, failed, row)[0].id == row[0]
  {
    var n := |row| - 1;
    if n > 0 { RunnableFirst(hooks, w, executed, failed, row[..n]); } else { assert row[..n] == []; }
  }

  /** What runs after a phase is of higher levels. */
  lemma PlayAddsLater(c: Setting, k: nat, t: Trace)
    requires c.Ok() && c.RowsKnown() && k < |c.levels|
    ensures var ran, executed := t.executed + RanNow(c, t.executed, k), PlayFrom(c, k, t).executed;
            && ran <= executed
            && forall j :: |ran| <= j < |executed| ==> executed[j] in c.nodes && c.nodes[executed[j]].level > k
  {
    var u := AfterPhase(c, t, k);
    if !StopsHere(c, u) { PlayAdds(c, k + 1, u); }
  }

  /** A hook of level `k` that runs at all runs in the phase of that level. */
  lemma RanInItsPhase(c: Setting, before: seq<Id>, ran: seq<Id>, executed: seq<Id>, k: nat, x: Id)
    requires Below(c, before, k) && before + ran <= executed
    requires forall j :: |before + ran| <= j < |executed| ==> executed[j] in c.nodes && c.nodes[executed[j]].level > k
    requires x in executed && x in c.nodes && c.nodes[x].level == k
    ensures x in ran
  {
    assert x !in before;
    var j :| 0 <= j < |executed| && executed[j] == x;
    assert j < |before + ran| && (before + ran)[j] == x;
  }

  /** A run in which something of a higher level runs does not stop here. */
  lemma GoesOn(c: Setting, k: nat, t: Trace, x: Id)
    requires c.Ok() && c.RowsKnown() && k < |c.levels| && Below(c, t.executed, k)
    requires x in PlayFrom(c, k, t).executed && x in c.nodes && c.nodes[x].level > k
    ensures Below(c, AfterPhase(c, t, k).executed, k + 1)
    ensures PlayFrom(c, k, t) == PlayFrom(c, k + 1, AfterPhase(c, t, k))
  {
    PhaseMembers(c, t.executed, k);
  }

  /** The first hook of a row is the first of its level to run, if it runs. */
  lemma {:induction false} FirstOfRowRunsFirst(c: Setting, k: nat, t: Trace, row: nat, executed: seq<Id>)
    returns (i: nat)
    requires c.Ok() && c.RowsKnown() && k <= row < |c.levels| && Below(c, t.executed, k)
    requires executed == PlayFrom(c, k, t).executed
    requires IsLevel(c.nodes, c.nodes.Keys, c.levels[row], row) && c.levels[row][0] in executed
    ensures i < |executed| && executed[i] == c.levels[row][0]
    ensures forall j :: 0 <= j < i ==> executed[j] in c.nodes && c.nodes[executed[j]].level < row
    decreases row - k
  {
    if k < row {
      assert c.levels[row][0] in c.levels[row];
      GoesOn(c, k, t, c.levels[row][0]);
      i := FirstOfRowRunsFirst(c, k + 1, AfterPhase(c, t, k), row, executed);
    } else {
      FirstOfOwnRow(c, k, t);
      i := |t.executed|;
    }
  }

  lemma FirstOfOwnRow(c: Setting, k: nat, t: Trace)
    requires c.Ok() && c.RowsKnown() && k < |c.levels| && Below(c, t.executed, k)
    requires IsLevel(c.nodes, c.nodes.Keys, c.levels[k], k) && c.levels[k][0] in PlayFrom(c, k, t).executed
    ensures var executed := PlayFrom(c, k, t).executed;
            && t.executed < executed && executed[|t.executed|] == c.levels[k][0]
            && forall j :: 0 <= j < |t.executed| ==> executed[j] in c.nodes && c.nodes[executed[j]].level < k
  {
    var x, ran, executed := c.levels[k][0], RanNow(c, t.executed, k), PlayFrom(c, k, t).executed;
    assert x in c.levels[k];
    PlayAddsLater(c, k, t);
    RanInItsPhase(c, t.executed, ran, executed, k, x);
    RanFirst(c, t.executed, k);
    assert (t.executed + ran)[|t.executed|] == x;
    forall j | 0 <= j < |t.executed| ensures executed[j] in c.nodes && c.nodes[executed[j]].level < k {
      assert executed[j] == (t.executed + ran)[j] == t.executed[j] && t.executed[j] in t.executed;
    }
  }

  lemma RanFirst(c: Setting, executed: seq<Id>, k: nat)
    requires c.Ok() && c.RowsKnown() && k < |c.levels| && c.levels[k] != [] && c.levels[k][0] in RanNow(c, executed, k)
    ensures RanNow(c, executed, k)[0] == c.levels[k][0]
  {
    PhaseMembers(c, executed, k);
    RunnableFirst(c.hooks, c.world, Elems(executed), FailedOf(c.world, executed), c.levels[k]);
    FirstRuns(c, executed, k);
  }

  /** The levels with two entries of one row exchanged. */
  function Swapped(levels: seq<seq<Id>>, k: nat, i: nat): seq<seq<Id>>
    requires k < |levels| && i < |levels[k]|
  {
    levels[k := levels[k][0 := levels[k][i]][i := levels[k][0]]]
  }

  lemma SwapMembers(row: seq<Id>, i: nat)
    requires i < |row|
    ensures forall x :: x in row[0 := row[i]][i := row[0]] <==> x in row
  {
    var row' := row[0 := row[i]][i := row[0]];
    assert forall j :: 0 <= j < |row| ==> row'[j] == row[if j == 0 then i else if j == i then 0 else j];
    assert forall j :: 0 <= j < |row| ==> row[j] == row'[if j == 0 then i else if j == i then 0 else j];
  }

  lemma SwappedLeveled(nodes: Nodes, levels: seq<seq<Id>>, k: nat, i: nat)
    requires Leveled(nodes, levels) && k < |levels| && i < |levels[k]|
    ensures Leveled(nodes, Swapped(levels, k, i))
  {
    var levels', row := Swapped(levels, k, i), levels[k];
    var row' := levels'[k];
    NoDupPairs(row);
    NoDupPairs(row');
    assert IsLevel(nodes, nodes.Keys, row, k);
    SwapMembers(row, i);
    forall j | 0 <= j < |levels'| ensures IsLevel(nodes, nodes.Keys, levels'[j], j) {
      assert IsLevel(nodes, nodes.Keys, levels[j], j);
    }
    forall id | id in nodes ensures Placed(nodes, levels', id) { assert Placed(nodes, levels, id); }
  }

  /** With rivals, the order that puts the breaking one first loses something. */
  lemma RivalsLose(c: Setting, b: Id, x: Id) returns (levels': seq<seq<Id>>)
    requires c.Ok() && c.RowsKnown() && c.strategy.Sequential? && Rivals(c, Unhindered(c), b, x)
    ensures c.(levels := levels').Ok() && c.(levels := levels').RowsKnown() && !AllAccounted(c.(levels := levels'))
  {
    var k := c.nodes[b].level;
    assert Placed(c.nodes, c.levels, b);
    var i :| 0 <= i < |c.levels[k]| && c.levels[k][i] == b;
    levels' := Swapped(c.levels, k, i);
    SwappedLeveled(c.nodes, c.levels, k, i);
    var d := c.(levels := levels');
    OkRows(d);
    SameUnhindered(c, d);
    if AllAccounted(d) { FirstBreakLosesTheRest(d, b, x); }
  }

  lemma SameUnhindered(c: Setting, d: Setting)
    requires c.Ok() && c.RowsKnown() && d.Ok() && d.RowsKnown() && c.hooks == d.hooks && c.world == d.world
    ensures Unhindered(c) == Unhindered(d)
  {
    OrderDoesNotMatter(c.(strategy := MaxParallel, failure := BestEffort),
        d.(strategy := MaxParallel, failure := BestEffort));
  }

  /** A breaking hook that comes first in its row ends the phase at once. */
  lemma FirstBreakLosesTheRest(c: Setting, b: Id, x: Id)
    requires c.Ok() && c.RowsKnown() && c.strategy.Sequential? && Rivals(c, Unhindered(c), b, x)
    requires c.nodes[b].level < |c.levels| && c.levels[c.nodes[b].level] != [] && c.levels[c.nodes[b].level][0] == b
    ensures !AllAccounted(c)
  {
    if AllAccounted(c) {
      var t, k := Played(c), c.nodes[b].level;
      var m := PlayedIsFinal(c);
      PhaseReached(c, t, m, k);
      assert Settled(c, t, b) && Settled(c, t, x);
      AgreesUpToLoss(c, t, m, k, b);
      assert IsLevel(c.nodes, c.nodes.Keys, c.levels[k], k);
      var i := FirstOfRowRunsFirst(c, 0, Trace([], []), k, t.executed);
      NothingAfterBreak(c, t.executed, i, x);
      AgreesUpToLoss(c, t, m, k, x);
    }
  }

  lemma NothingAfterBreak(c: Setting, executed: seq<Id>, i: nat, x: Id)
    requires Stops(c, executed) && c.strategy.Sequential? && i < |executed| && c.Breaking(executed[i])
    requires x in c.nodes && x != executed[i] && c.nodes[x].level == c.nodes[executed[i]].level
    requires forall j :: 0 <= j < i ==> c.nodes[executed[j]].level < c.nodes[x].level
    ensures x !in executed
  {
    assert StopsAt(c, executed, i);
  }

  lemma PhaseReached(c: Setting, t: Trace, m: nat, k: nat)
    requires c.Ok() && c.RowsKnown() && FinalState(c, t, m) && NoneLostBelow(c, t, |c.levels|)
    requires k < |c.levels| && Reached(c, Unhindered(c), k)
    ensures k < m
  {
    if m <= k {
      var y :| y in FailedOf(c.world, t.executed);
      assert y in c.nodes && c.nodes[y].level + 1 == m;
      assert Settled(c, t, y);
      AgreesUpToLoss(c, t, m, m, y);
    }
  }

  /**
   A sequential run accounts for every hook, in whatever order its levels list their hooks, exactly
   when no level that is reached holds a breaking hook that can run beside another that can.
   */
  lemma NothingLostIff(c: Setting)
    requires c.Ok() && c.RowsKnown() && c.strategy.Sequential?
    ensures (forall levels' :: Leveled(c.nodes, levels') && c.(levels := levels').RowsKnown() ==>
        AllAccounted(c.(levels := levels')))
            <==> forall b, x :: !Rivals(c, Unhindered(c), b, x)
  {
    if b, x :| Rivals(c, Unhindered(c), b, x) {
      var levels' := RivalsLose(c, b, x);
    } else {
      forall levels' | Leveled(c.nodes, levels') && c.(levels := levels').RowsKnown()
        ensures AllAccounted(c.(levels := levels'))
      {
        var d := c.(levels := levels');
        SameUnhindered(c, d);
        forall id | id in d.nodes ensures !Lost(Played(d), id) {
          if Lost(Played(d), id) {
            var b, x := LossHasRivals(d, id);
            assert Rivals(c, Unhindered(c), b, x);
          }
        }
      }
    }
  }

  /**
   The defaults, two independent critical hooks, and the first one fails: the second is neither
   executed nor skipped.
   */
  lemma LostByDefault(a: Id, b: Id, world: World) returns (c: Setting)
    requires a != b && world.conditionsMet(a) && world.conditionsMet(b) && !world.succeeds(a)
    ensures c.hooks == [ChainedHook(a, [], Critical), ChainedHook(b, [], Critical)]
    ensures c.world == world && c.strategy == Sequential && c.failure == FailFast
    ensures c.Ok() && c.RowsKnown() && Played(c) == Trace([a], [])
  {
    var p, q := ChainedHook(a, [], Critical), ChainedHook(b, [], Critical);
    var node := (id: Id) => HookNode(id, [], [], 0, true, HOOK_SECONDS);
    c := Setting([p, q], map[a := node(a), b := node(b)], [[a, b]], world, Sequential, FailFast);
    TwoRoots(c, a, b);
    FirstOfTwoOnly(c, a, b);
    assert a in FailedOf(world, [a]);
    assert RestFrom(c.levels, 1) == [];
  }

  /** The first of the two fails and ends the phase. */
  lemma FirstOfTwoOnly(c: Setting, a: Id, b: Id)
    requires a != b && c.hooks == [ChainedHook(a, [], Critical), ChainedHook(b, [], Critical)]
    requires c.world.conditionsMet(a) && c.world.conditionsMet(b) && !c.world.succeeds(a)
    requires c.levels == [[a, b]] && c.strategy == Sequential && c.failure == FailFast && c.RowsKnown()
    ensures AfterPhase(c, Trace([], []), 0) == Trace([a], [])
  {
    var e: set<Id> := {};
    assert Elems([]) == e && FailedOf(c.world, []) == e;
    RowOfTwo(c.hooks, c.world, a, b);
    assert HooksRun(c.world, FailFast, SequentialMode, c.hooks) == [c.hooks[0]];
    assert IdSeq([c.hooks[0]]) == [a];
  }

  /** Two hooks without dependencies: one level, both ready at once. */
  lemma TwoRoots(c: Setting, a: Id, b: Id)
    requires a != b && c.hooks == [ChainedHook(a, [], Critical), ChainedHook(b, [], Critical)]
    requires c.nodes == map[a := HookNode(a, [], [], 0, true, HOOK_SECONDS),
        b := HookNode(b, [], [], 0, true, HOOK_SECONDS)]
    requires c.levels == [[a, b]]
    ensures c.Ok() && c.RowsKnown()
  {
    NoDupPairs([a, b]);
    assert IdsOf(c.hooks) == {a, b} by {
      assert c.hooks[0].id == a && c.hooks[1].id == b;
      forall x ensures x in IdsOf(c.hooks) <==> x in {a, b} {
        assert x == a ==> c.hooks[0] in c.hooks;
        assert x == b ==> c.hooks[1] in c.hooks;
      }
    }
    assert IsLevel(c.nodes, c.nodes.Keys, c.levels[0], 0);
    forall id | id in c.nodes ensures Placed(c.nodes, c.levels, id) {
      assert c.levels[0][0] == a && c.levels[0][1] == b;
    }
  }

  lemma RowOfTwo(hooks: seq<ChainedHook>, w: World, a: Id, b: Id)
    requires a != b && hooks == [ChainedHook(a, [], Critical), ChainedHook(b, [], Critical)]
    requires w.conditionsMet(a) && w.conditionsMet(b) && forall id :: id in [a, b] ==> id in IdsOf(hooks)
    ensures RunnableIn(hooks, w, {}, {}, [a, b]) == hooks
    ensures SkippedIn(hooks, w, {}, {}, [a, b]) == []
  {
    var row := [a, b];
    assert row[..1] == [a] && [a][..0] == [];
    assert FindHook(hooks, a) == Some(hooks[0]) && FindHook(hooks, b) == Some(hooks[1]);
    assert RunnableIn(hooks, w, {}, {}, [a]) == [hooks[0]];
    assert SkippedIn(hooks, w, {}, {}, [a]) == [];
  }

  // ---------- What a run records about failed dependencies ----------

  /**
   The reason for an entry: a dependency that did not run or failed; after a fail-fast stop, one that ran
   and failed.
   */
  ghost predicate HasBadDependency(g: Deps, w: World, executed: seq<Id>, id: Id, stopped: bool) {
    exists d :: d in DepsOf(g, id) &&
      if stopped then d in executed && !w.succeeds(d) else !(d in executed && w.succeeds(d))
  }

  /** The entry: the dependencies that ran and failed, each as often as it is listed, in order. */
  ghost predicate ListsFailed(g: Deps, w: World, executed: seq<Id>, id: Id, list: seq<Id>) {
    && Subsequence(list, DepsOf(g, id))
    && forall d {:trigger multiset(list)[d]} ::
         multiset(list)[d] == if d in executed && !w.succeeds(d) then multiset(DepsOf(g, id))[d] else 0
  }

  /** Going through a row changes the entries for which there is a reason, and nothing else. */
  ghost predicate Adds(before: map<Id, seq<Id>>, after: map<Id, seq<Id>>, row: seq<Id>, hooks: seq<ChainedHook>,
                       executed: seq<Id>, w: World, stopped: bool) {
    forall id {:trigger IsAdded(before, after, row, hooks, executed, w, stopped, id)} ::
      IsAdded(before, after, row, hooks, executed, w, stopped, id)
  }

  ghost predicate IsAdded(before: map<Id, seq<Id>>, after: map<Id, seq<Id>>, row: seq<Id>, hooks: seq<ChainedHook>,
                          executed: seq<Id>, w: World, stopped: bool, id: Id) {
    if id in row && HasBadDependency(HookLinks(hooks), w, executed, id, stopped)
    then id in after && ListsFailed(HookLinks(hooks), w, executed, id, after[id])
    else (id in after <==> id in before) && (id in before ==> after[id] == before[id])
  }

  lemma DepsOkMeaning(hook: ChainedHook, executed: seq<Id>, w: World)
    ensures DepsOk(hook, Elems(executed), FailedOf(w, executed)) <==>
            forall d :: d in hook.dependencies ==> d in executed && w.succeeds(d)
  {
  }

  lemma AddsOneMore(start: map<Id, seq<Id>>, before: map<Id, seq<Id>>, after: map<Id, seq<Id>>, row: seq<Id>, i: nat,
                    hooks: seq<ChainedHook>, executed: seq<Id>, w: World, stopped: bool)
    requires i < |row| && Adds(start, before, row[..i], hooks, executed, w, stopped)
    requires if HasBadDependency(HookLinks(hooks), w, executed, row[i], stopped)
             then row[i] in after && ListsFailed(HookLinks(hooks), w, executed, row[i], after[row[i]])
                  && after == before[row[i] := after[row[i]]]
             else after == before
    ensures Adds(start, after, row[..i + 1], hooks, executed, w, stopped)
  {
    var more := row[..i + 1];
    assert more == row[..i] + [row[i]];
    forall id ensures IsAdded(start, after, more, hooks, executed, w, stopped, id) {
      assert IsAdded(start, before, row[..i], hooks, executed, w, stopped, id);
    }
  }

  /** The entry of `id` is as it should be, `m` levels having been gone through. */
  ghost predicate RightRecord(c: Setting, executed: seq<Id>, recorded: map<Id, seq<Id>>, m: nat, id: Id)
    requires id in c.nodes
  {
    && (id in recorded <==> HasBadDependency(c.Links(), c.world, executed, id, c.nodes[id].level >= m))
    && (id in recorded ==> ListsFailed(c.Links(), c.world, executed, id, recorded[id]))
  }

  /** So it is for the hooks of the first `k` levels, and there are no other entries. */
  ghost predicate RecordsBelow(c: Setting, executed: seq<Id>, recorded: map<Id, seq<Id>>, m: nat, k: nat) {
    && (forall id :: id in recorded ==> id in c.nodes && c.nodes[id].level < k)
    && forall id {:trigger RightRecord(c, executed, recorded, m, id)} :: id in c.nodes && c.nodes[id].level < k ==>
         RightRecord(c, executed, recorded, m, id)
  }

  /** One more level, gone through or, from `m` on, skipped. */
  lemma RecordsNextLevel(c: Setting, executed: seq<Id>, before: map<Id, seq<Id>>, after: map<Id, seq<Id>>, m: nat,
                         k: nat)
    requires c.Ok() && k < |c.levels| && m <= |c.levels|
    requires RecordsBelow(c, executed, before, if m <= k then m else k, k) && (m <= k || m == k + 1)
    requires Adds(before, after, c.levels[k], c.hooks, executed, c.world, m <= k)
    ensures RecordsBelow(c, executed, after, m, k + 1)
  {
    NodesLinks(c.nodes, c.hooks);
    assert IsLevel(c.nodes, c.nodes.Keys, c.levels[k], k);
    forall id | id in after ensures id in c.nodes && c.nodes[id].level < k + 1 {
      assert IsAdded(before, after, c.levels[k], c.hooks, executed, c.world, m <= k, id);
    }
    forall id | id in c.nodes && c.nodes[id].level < k + 1 ensures RightRecord(c, executed, after, m, id) {
      assert IsAdded(before, after, c.levels[k], c.hooks, executed, c.world, m <= k, id);
      if c.nodes[id].level < k { assert RightRecord(c, executed, before, if m <= k then m else k, id); }
      InItsRow(c, k, id);
    }
  }

  lemma InItsRow(c: Setting, k: nat, id: Id)
    requires c.Ok() && k < |c.levels| && id in c.nodes
    ensures id in c.levels[k] <==> c.nodes[id].level == k
  {
    assert IsLevel(c.nodes, c.nodes.Keys, c.levels[k], k);
    assert Placed(c.nodes, c.levels, id);
  }

  /** What runs in a phase is no dependency of a hook up to its level. */
  lemma RecordsStay(c: Setting, executed: seq<Id>, ran: seq<Id>, recorded: map<Id, seq<Id>>, k: nat)
    requires c.Ok() && RecordsBelow(c, executed, recorded, k + 1, k + 1)
    requires forall x :: x in ran ==> x in c.nodes && c.nodes[x].level == k
    ensures RecordsBelow(c, executed + ran, recorded, k + 1, k + 1)
  {
    forall id | id in c.nodes && c.nodes[id].level < k + 1
      ensures RightRecord(c, executed + ran, recorded, k + 1, id)
    {
      assert RightRecord(c, executed, recorded, k + 1, id);
      assert Placed(c.nodes, c.levels, id);
      forall d | d in DepsOf(c.Links(), id) ensures d in executed <==> d in executed + ran { assert d !in ran; }
      if id in recorded { SameFailed(c.Links(), c.world, executed, executed + ran, id, recorded[id]); }
    }
  }

  lemma SameFailed(g: Deps, w: World, executed: seq<Id>, more: seq<Id>, id: Id, list: seq<Id>)
    requires ListsFailed(g, w, executed, id, list) && forall d :: d in DepsOf(g, id) ==> (d in executed <==> d in more)
    ensures ListsFailed(g, w, more, id, list)
  {
    forall d ensures multiset(list)[d] == if d in more && !w.succeeds(d) then multiset(DepsOf(g, id))[d] else 0 {
      assert d in DepsOf(g, id) <==> multiset(DepsOf(g, id))[d] > 0;
    }
  }

  /** How many levels a run has gone through: all, or up to the level of the first failure. */
  ghost predicate WentThrough(c: Setting, executed: seq<Id>, m: nat) {
    if c.failure.FailFast? && FailedOf(c.world, executed) != {}
    then exists id :: id in FailedOf(c.world, executed) && id in c.nodes && c.nodes[id].level + 1 == m
    else m == |c.levels|
  }

  lemma StopReached(c: Setting, k: nat, t: Trace)
    requires c.Ok() && c.RowsKnown() && k < |c.levels| && c.failure.FailFast? && FailedOf(c.world, t.executed) == {}
    requires FailedOf(c.world, AfterPhase(c, t, k).executed) != {}
    ensures WentThrough(c, AfterPhase(c, t, k).executed, k + 1)
  {
    StopFailures(c, k, t);
    var id :| id in FailedOf(c.world, AfterPhase(c, t, k).executed);
  }

  lemma ReachedOnce(c: Setting, t: Trace, m: nat, n: nat)
    requires FinalState(c, t, m) && WentThrough(c, t.executed, n)
    ensures m == n
  {
  }

  /**
   The record of a finished run.  There is an entry for exactly the skipped hooks with a dependency that did
   not run or failed; after a fail-fast stop, for those with a dependency that ran and failed.
   */
  ghost predicate FailuresRecorded(c: Setting, t: Trace, m: nat, recorded: map<Id, seq<Id>>) {
    && (forall id :: id in recorded ==> id in c.nodes && ListsFailed(c.Links(), c.world, t.executed, id, recorded[id]))
    && forall id :: id in c.nodes ==>
         (id in recorded <==>
          id in t.skipped && HasBadDependency(c.Links(), c.world, t.executed, id, c.nodes[id].level >= m))
  }

  lemma FailuresComplete(c: Setting, t: Trace, m: nat, recorded: map<Id, seq<Id>>)
    requires c.Ok() && FinalState(c, t, m) && RecordsBelow(c, t.executed, recorded, m, |c.levels|)
    ensures FailuresRecorded(c, t, m, recorded)
  {
    LevelsInRange(c);
    forall id | id in c.nodes
      ensures RightRecord(c, t.executed, recorded, m, id) && (id in recorded ==> id in t.skipped)
    {
      assert RightRecord(c, t.executed, recorded, m, id);
      if c.nodes[id].level < m { assert Settled(c, t, id); }
    }
  }

  lemma RowGrows(skipped: seq<Id>, row: seq<Id>, i: nat)
    requires i < |row|
    ensures skipped + row[..i + 1] == skipped + row[..i] + [row[i]]
  {
  }

  // ---------- Executing a chain ----------

  datatype HookRun = HookRun(hookId: Id, success: bool)

  /** The result record and the executor's two working sets. */
  class ChainRun {
    const hooks: seq<ChainedHook>
    const world: World
    const failure: FailureStrategy

    var success: bool
    var executedHooks: seq<HookRun>
    var skippedHooks: seq<Id>
    var failedDependencies: map<Id, seq<Id>>
    var executedIds: set<Id>
    var failedIds: set<Id>
    ghost var executed: seq<Id>  // the identifiers in `executedHooks`

    ghost predicate Valid()
      reads this
    {
      && |executed| == |executedHooks|
      && (forall i {:trigger executedHooks[i]} :: 0 <= i < |executed| ==>
            executedHooks[i] == HookRun(executed[i], world.succeeds(executed[i])))
      && executedIds == Elems(executed)
      && failedIds == FailedOf(world, executed)
      && (success <==> failedIds == {})
    }

    ghost function TraceSoFar(): Trace
      reads this
    {
      Trace(executed, skippedHooks)
    }

    ghost predicate Plays(c: Setting)
      reads this
    {
      hooks == c.hooks && world == c.world && failure == c.failure
    }

    constructor (hooks: seq<ChainedHook>, world: World, failure: FailureStrategy)
      ensures this.hooks == hooks && this.world == world && this.failure == failure
      ensures Valid() && TraceSoFar() == Trace([], []) && failedDependencies == map[] && success
    {
      this.hooks, this.world, this.failure := hooks, world, failure;
      success, executedHooks, skippedHooks, failedDependencies := true, [], [], map[];
      executedIds, failedIds, executed := {}, {}, [];
    }

    /** One hook runs and its outcome is recorded. */
    method RunHook(hook: ChainedHook) returns (ok: bool)
      requires Valid()
      modifies this`success, this`executedHooks, this`executedIds, this`failedIds, this`executed
      ensures Valid() && ok == world.succeeds(hook.id)
      ensures executed == old(executed) + [hook.id]
    {
      ok := world.succeeds(hook.id);
      executedIds := executedIds + {hook.id};
      if !ok {
        failedIds := failedIds + {hook.id};
        success := false;
      }
      executedHooks := executedHooks + [HookRun(hook.id, ok)];
      executed := executed + [hook.id];
      assert FailedOf(world, executed) == FailedOf(world, old(executed)) + if ok then {} else {hook.id};
    }

    /** The entry of the next hook of a row, if there is a reason for one. */
    lemma NextEntry(start: map<Id, seq<Id>>, before: map<Id, seq<Id>>, row: seq<Id>, i: nat, stopped: bool)
      requires Valid() && i < |row| && row[i] in IdsOf(hooks)
      requires Adds(start, before, row[..i], hooks, executed, world, stopped)
      ensures var hook := FindHook(hooks, row[i]).value;
              var list := FailedAmong(hook.dependencies, failedIds);
              var after := if (if stopped then list != [] else !DepsOk(hook, executedIds, failedIds))
                           then before[row[i] := list] else before;
              Adds(start, after, row[..i + 1], hooks, executed, world, stopped)
    {
      var hook := FindHook(hooks, row[i]).value;
      var list := FailedAmong(hook.dependencies, failedIds);
      DepsOkMeaning(hook, executed, world);
      FailedAmongMeaning(hook.dependencies, failedIds);
      var reason := if stopped then list != [] else !DepsOk(hook, executedIds, failedIds);
      assert reason <==> HasBadDependency(HookLinks(hooks), world, executed, row[i], stopped);
      AddsOneMore(start, before, if reason then before[row[i] := list] else before, row, i, hooks, executed, world,
                  stopped);
    }

    /** Sorts the hooks of a phase into those that can run and those that are skipped. */
    method SelectExecutable(row: seq<Id>) returns (executable: seq<ChainedHook>)
      requires Valid() && forall id :: id in row ==> id in IdsOf(hooks)
      modifies this`skippedHooks, this`failedDependencies
      ensures Valid()
      ensures executable == RunnableIn(hooks, world, executedIds, failedIds, row)
      ensures skippedHooks == old(skippedHooks) + SkippedIn(hooks, world, executedIds, failedIds, row)
      ensures Adds(old(failedDependencies), failedDependencies, row, hooks, executed, world, false)
    {
      executable := [];
      for i := 0 to |row|
        invariant Valid()
        invariant executable == RunnableIn(hooks, world, executedIds, failedIds, row[..i])
        invariant skippedHooks == old(skippedHooks) + SkippedIn(hooks, world, executedIds, failedIds, row[..i])
        invariant Adds(old(failedDependencies), failedDependencies, row[..i], hooks, executed, world, false)
      {
        var hookId := row[i];
        assert row[..i + 1][..i] == row[..i];
        var hook := FindHook(hooks, hookId).value;
        NextEntry(old(failedDependencies), failedDependencies, row, i, false);
        if DepsOk(hook, executedIds, failedIds) {
          if world.conditionsMet(hook.id) {
            executable := executable + [hook];
          } else {
            skippedHooks := skippedHooks + [hookId];
          }
        } else {
          skippedHooks := skippedHooks + [hookId];
          failedDependencies := failedDependencies[hookId := FailedAmong(hook.dependencies, failedIds)];
        }
      }
      assert row[..|row|] == row;
    }

    /** Runs a phase's hooks; in sequential mode, up to the first that breaks it. */
    method RunPhase(executable: seq<ChainedHook>, mode: PhaseMode)
      requires Valid()
      modifies this`success, this`executedHooks, this`executedIds, this`failedIds, this`executed
      ensures Valid()
      ensures executed == old(executed) + IdSeq(HooksRun(world, failure, mode, executable))
    {
      for i := 0 to |executable|
        invariant Valid()
        invariant executed == old(executed) + IdSeq(executable[..i])
        invariant mode.SequentialMode? ==> forall j :: 0 <= j < i ==> !Breaks(world, failure, executable[j])
      {
        var hook := executable[i];
        var ok := RunHook(hook);
        assert IdSeq(executable[..i + 1]) == IdSeq(executable[..i]) + [hook.id];
        if mode.SequentialMode? && !ok && (failure.FailFast? || hook.failureBehavior.Critical?) {
          BreakAt(world, failure, executable, i);
          return;
        }
      }
      if mode.SequentialMode? { SequentialPhaseComplete(world, failure, executable); }
      assert executable[..|executable|] == executable;
    }

    /** After a fail-fast stop: everything in the remaining phases is skipped. */
    method SkipRow(row: seq<Id>)
      requires Valid() && forall id :: id in row ==> id in IdsOf(hooks)
      modifies this`skippedHooks, this`failedDependencies
      ensures Valid()
      ensures skippedHooks == old(skippedHooks) + row
      ensures Adds(old(failedDependencies), failedDependencies, row, hooks, executed, world, true)
    {
      for i := 0 to |row|
        invariant Valid()
        invariant skippedHooks == old(skippedHooks) + row[..i]
        invariant Adds(old(failedDependencies), failedDependencies, row[..i], hooks, executed, world, true)
      {
        var hookId := row[i];
        RowGrows(old(skippedHooks), row, i);
        skippedHooks := skippedHooks + [hookId];
        var hook := FindHook(hooks, hookId).value;
        var failedDeps := FailedAmong(hook.dependencies, failedIds);
        NextEntry(old(failedDependencies), failedDependencies, row, i, true);
        if failedDeps != [] {
          failedDependencies := failedDependencies[hookId := failedDeps];
        }
      }
      assert row[..|row|] == row;
    }

    /** One phase: select, then run. */
    method ExecutePhase(mode: PhaseMode, row: seq<Id>, ghost c: Setting, ghost k: nat)
      requires Valid() && Plays(c) && RecordsBelow(c, executed, failedDependencies, k, k)
      requires c.Ok() && c.RowsKnown() && k < |c.levels| && row == c.levels[k] && mode == ModeFor(c.strategy, |row|)
      modifies this
      ensures Valid() && RecordsBelow(c, executed, failedDependencies, k + 1, k + 1)
      ensures TraceSoFar() == AfterPhase(c, old(TraceSoFar()), k)
    {
      ghost var t, before := TraceSoFar(), failedDependencies;
      var executable := SelectExecutable(row);
      RecordsNextLevel(c, executed, before, failedDependencies, k + 1, k);
      RunPhase(executable, mode);
      PhaseMembers(c, t.executed, k);
      RecordsStay(c, t.executed, RanNow(c, t.executed, k), failedDependencies, k);
    }

    /** The loop over the phases, with the fail-fast stop; `m` is the number of phases it goes through. */
    method ExecutePlan(phases: seq<ExecutionPhase>, ghost c: Setting) returns (ghost m: nat)
      requires Valid() && TraceSoFar() == Trace([], []) && failedDependencies == map[] && Plays(c)
      requires (phases != [] ==> c.Ok()) && c.RowsKnown() && |phases| == |c.levels|
      requires forall k {:trigger phases[k]} :: 0 <= k < |phases| ==>
          PhaseFor(c.nodes, c.strategy, c.levels, k, phases[k])
      modifies this
      ensures Valid() && TraceSoFar() == Played(c)
      ensures phases == [] ==> failedDependencies == map[] && m == 0
      ensures phases != [] ==> RecordsBelow(c, executed, failedDependencies, m, |c.levels|)
      ensures phases != [] ==> WentThrough(c, executed, m)
    {
      for k := 0 to |phases|
        invariant Valid() && Played(c) == PlayFrom(c, k, TraceSoFar())
        invariant failure.FailFast? ==> failedIds == {}
        invariant if phases == [] then failedDependencies == map[]
                  else RecordsBelow(c, executed, failedDependencies, k, k)
      {
        assert PhaseFor(c.nodes, c.strategy, c.levels, k, phases[k]);
        ghost var t := TraceSoFar();
        PlayStep(c, k, t);
        ExecutePhase(phases[k].mode, phases[k].hooks, c, k);
        if failure.FailFast? && failedIds != {} { StopReached(c, k, t); }
        if !success && failure.FailFast? {
          SkipRemaining(phases, c, k + 1);
          return k + 1;
        }
      }
      m := |phases|;
    }

    /** The fail-fast stop: what is left is skipped, phase by phase. */
    method SkipRemaining(phases: seq<ExecutionPhase>, ghost c: Setting, from: nat)
      requires Valid() && Plays(c) && c.Ok() && c.RowsKnown() && from <= |phases| == |c.levels|
      requires RecordsBelow(c, executed, failedDependencies, from, from)
      requires forall k {:trigger phases[k]} :: 0 <= k < |phases| ==> phases[k].hooks == c.levels[k]
      modifies this`skippedHooks, this`failedDependencies
      ensures Valid() && RecordsBelow(c, executed, failedDependencies, from, |c.levels|)
      ensures TraceSoFar() == Trace(old(executed), old(skippedHooks) + RestFrom(c.levels, from))
    {
      for j := from to |phases|
        invariant Valid() && RecordsBelow(c, executed, failedDependencies, from, j)
        invariant skippedHooks + RestFrom(c.levels, j) == old(skippedHooks) + RestFrom(c.levels, from)
      {
        ghost var before := failedDependencies;
        SkipRow(phases[j].hooks);
        RecordsNextLevel(c, executed, before, failedDependencies, from, j);
      }
    }
  }

  lemma ChainRecorded(c: Setting, n: nat, recorded: map<Id, seq<Id>>)
    requires c.Ok() && c.RowsKnown()
    requires if c.levels == [] then recorded == map[] && n == 0
             else WentThrough(c, Played(c).executed, n) && RecordsBelow(c, Played(c).executed, recorded, n, |c.levels|)
    ensures FinalState(c, Played(c), n) && FailuresRecorded(c, Played(c), n, recorded)
  {
    var m := PlayedIsFinal(c);
    LevelsInRange(c);
    if c.levels != [] { ReachedOnce(c, Played(c), m, n); }
    FailuresComplete(c, Played(c), n, recorded);
  }

  datatype ChainOutcome = Rejected(error: ValidationError) | Finished(run: ChainRun)

  /**
   The whole execution, for every chain on which it ends.  Validation accepts the chain or nothing
   runs.  If no hook lists itself it runs as `Played` says; a single hook that does leaves the whole
   chain without levels, and the run succeeds without executing or skipping anything.
   */
  method ExecuteChain(hooks: seq<ChainedHook>, strategy: ExecutionStrategy, failure: FailureStrategy, world: World,
                      components: seq<seq<Id>>)
    returns (r: ChainOutcome, ghost c: Setting, ghost m: nat)
    requires OneHookPerId(hooks)
    requires Closed(HookLinks(hooks), IdsOf(hooks)) ==> AreComponents(HookLinks(hooks), IdsOf(hooks), components)
    requires Accepted(HookLinks(hooks)) ==> NoSelfListerAboveRoot(HookLinks(hooks))
    ensures r.Finished? <==> Accepted(HookLinks(hooks))
    ensures r.Finished? ==> r.run.Valid() && r.run.hooks == hooks && r.run.world == world
    ensures r.Finished? ==> c.RowsKnown() && r.run.TraceSoFar() == Played(c)
    ensures r.Finished? && NoSelfDependency(HookLinks(hooks)) ==>
              && c == Setting(hooks, c.nodes, c.levels, world, strategy, failure)
              && c.Ok() && FinalState(c, Played(c), m) && FailuresRecorded(c, Played(c), m, r.run.failedDependencies)
    ensures r.Finished? && !NoSelfDependency(HookLinks(hooks)) ==>
              && r.run.executedHooks == [] && r.run.skippedHooks == [] && r.run.failedDependencies == map[]
              && r.run.success
  {
    m := 0;
    var validation, plan;
    validation, plan, c := PlanChain(hooks, strategy, failure, world, components);
    if validation.Invalid? { return Rejected(validation.error), c, m; }
    var run := new ChainRun(hooks, world, failure);
    m := run.ExecutePlan(plan.phases, c);
    if NoSelfDependency(HookLinks(hooks)) { ChainRecorded(c, m, run.failedDependencies); }
    r := Finished(run);
  }

  /** Build, validate, plan. */
  method PlanChain(hooks: seq<ChainedHook>, strategy: ExecutionStrategy, ghost failure: FailureStrategy,
                   ghost world: World,
                   components: seq<seq<Id>>)
    returns (validation: Validation, plan: ExecutionPlan, ghost c: Setting)
    requires OneHookPerId(hooks)
    requires Closed(HookLinks(hooks), IdsOf(hooks)) ==> AreComponents(HookLinks(hooks), IdsOf(hooks), components)
    requires Accepted(HookLinks(hooks)) ==> NoSelfListerAboveRoot(HookLinks(hooks))
    ensures validation.Valid? <==> Accepted(HookLinks(hooks))
    ensures validation.Valid? ==>
              && c == Setting(hooks, c.nodes, c.levels, world, strategy, failure)
              && c.RowsKnown() && NodesFor(c.nodes, hooks) && Mirrored(c.nodes)
                  && PlanFor(c.nodes, strategy, c.levels, plan)
    ensures validation.Valid? ==> if NoSelfDependency(HookLinks(hooks)) then c.Ok() else c.levels == []
  {
    var graph := BuildGraph(hooks);
    c := Setting(hooks, graph.nodes, graph.executionLevels, world, strategy, failure);
    NodesLinks(graph.nodes, hooks);
    BuiltIsMirrored(graph.nodes, graph.edges);
    if Closed(HookLinks(hooks), IdsOf(hooks)) {
      SearchGraphReverses(graph.nodes, graph.edges);
      ComponentsReversed(HookLinks(hooks), SearchGraph(graph.nodes.Keys, graph.edges), IdsOf(hooks), components);
    }
    validation := ValidateDependencies(graph, components);
    plan := ExecutionPlan([], 0, 1, []);
    if validation.Valid? {
      AcyclicIffNoMutualNoSelf(HookLinks(hooks));
      PlanningEndsIff(graph.nodes);
      if NoSelfDependency(HookLinks(hooks)) { OkRows(c); }
      plan := CreatePlan(graph.nodes, graph.executionLevels, strategy);
    }
  }

  /** The chains for which no execution is promised are exactly those whose planning never ends. */
  lemma ExecutionEndsIff(hooks: seq<ChainedHook>, nodes: Nodes)
    requires NodesFor(nodes, hooks) && Mirrored(nodes) && Accepted(HookLinks(hooks))
    ensures PlanningEnds(nodes) <==> NoSelfListerAboveRoot(HookLinks(hooks))
  {
    NodesLinks(nodes, hooks);
    PlanningEndsIff(nodes);
  }

  /** A hook that lists itself, on its own: accepted, although not sound, and planning ends. */
  lemma SelfListerAlone(a: Id, behavior: FailureBehavior) returns (g: Deps)
    ensures g == HookLinks([ChainedHook(a, [a], behavior)]) && g.Keys == IdsOf([ChainedHook(a, [a], behavior)]) == {a}
    ensures Accepted(g) && NoSelfListerAboveRoot(g) && !NoSelfDependency(g) && AreComponents(g, {a}, [[a]])
  {
    var hooks := [ChainedHook(a, [a], behavior)];
    assert hooks[0] in hooks;
    g := HookLinks(hooks);
    assert g == map[a := [a]];
    assert DependsOn(g, a, a);
    forall x, y ensures !MutuallyDependent(g, x, y) {
      if Reaches(g, x, y) && Reaches(g, y, x) {
        ReachingIsKnown(g, x, y);
        ReachingIsKnown(g, y, x);
      }
    }
  }

  /** Executing it: nothing runs, nothing is skipped, and the run is a success. */
  method SelfListerAloneRuns(a: Id, behavior: FailureBehavior, strategy: ExecutionStrategy, failure: FailureStrategy,
                             world: World)
    returns (r: ChainOutcome)
    ensures r.Finished? && r.run.success && r.run.executedHooks == [] && r.run.skippedHooks == []
  {
    var hooks := [ChainedHook(a, [a], behavior)];
    ghost var g := SelfListerAlone(a, behavior);
    ghost var c, m;
    r, c, m := ExecuteChain(hooks, strategy, failure, world, [[a]]);
  }

  /** A hook that lists itself and a hook without dependencies: accepted, and planning never ends. */
  lemma SelfListerOnRoot(a: Id, b: Id, behavior: FailureBehavior) returns (g: Deps)
    requires a != b
    ensures g == HookLinks([ChainedHook(a, [], behavior), ChainedHook(b, [a, b], behavior)])
    ensures Accepted(g) && !NoSelfListerAboveRoot(g)
  {
    var hooks := [ChainedHook(a, [], behavior), ChainedHook(b, [a, b], behavior)];
    assert hooks[0] in hooks && hooks[1] in hooks;
    g := HookLinks(hooks);
    RootAndSelfLister(g, a, b);
  }

  lemma RootAndSelfLister(g: Deps, a: Id, b: Id)
    requires g == map[a := [], b := [a, b]] && a != b
    ensures Accepted(g) && !NoSelfListerAboveRoot(g)
  {
    assert DependsOn(g, b, a) && DependsOn(g, b, b);
    LinkReaches(g, b, a);
    forall x, y ensures !MutuallyDependent(g, x, y) {
      if Reaches(g, x, y) && Reaches(g, y, x) {
        ReachingIsKnown(g, x, y);
        ReachingIsKnown(g, y, x);
      }
    }
  }
}
