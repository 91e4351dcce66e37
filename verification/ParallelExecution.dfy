/**
 The engine as a whole: which of its two ways of running hooks it takes, and the parallel one.  There
 all hooks run as tasks of one batch, whose results come back in the order of the hooks; results are
 recorded first, then the tasks that broke off.  A task that timed out has lost its hook's name.
 */
module ParallelExecution {
  import opened Graphs
  import opened TaskDependencyGraphs
  import opened HookExecution

  /** What becomes of a hook's task: a result, an error after some time, or a time-out. */
  datatype TaskOutcome =
    | Ran(success: bool, skipped: bool, duration: nat, filesModified: seq<Path>)
    | Errored(duration: nat)
    | TimedOut

  const UNKNOWN: Id := "unknown"

  /** What is recorded for it. */
  function RecordOf(o: TaskOutcome, id: Id): HookResult {
    match o
    case Ran(success, skipped, duration, filesModified) => HookResult(id, success, skipped, duration, filesModified)
    case Errored(duration) => HookResult(id, false, false, duration, [])
    case TimedOut => HookResult(UNKNOWN, false, false, 0, [])
  }

  function FateOf(o: TaskOutcome): Fate {
    match o
    case Ran(success, skipped, _, _) => if skipped then Skipped else if success then Passed else Failed
    case _ => Broken
  }

  function Records(hooks: seq<Hook>, tasks: seq<TaskOutcome>): (rs: seq<HookResult>)
    requires |hooks| == |tasks|
    ensures |rs| == |hooks|
    ensures forall i :: 0 <= i < |hooks| ==> rs[i] == RecordOf(tasks[i], hooks[i].id)
  {
    seq(|hooks|, i requires 0 <= i < |hooks| => RecordOf(tasks[i], hooks[i].id))
  }

  function FatesOf(tasks: seq<TaskOutcome>): (fates: seq<Fate>)
    ensures |fates| == |tasks|
    ensures forall i :: 0 <= i < |tasks| ==> fates[i] == FateOf(tasks[i])
  {
    seq(|tasks|, i requires 0 <= i < |tasks| => FateOf(tasks[i]))
  }

  /** The three lists once the first `n` results and the broken ones among the first `b` are recorded. */
  ghost predicate Listed(passed: seq<HookResult>, failed: seq<HookResult>, skipped: seq<Id>,
                         rs: seq<HookResult>, fates: seq<Fate>, n: nat, b: nat)
    requires n <= |fates| == |rs| && b <= |fates|
  {
    && passed == WithFate(rs, fates[..n], Passed)
    && failed == WithFate(rs, fates[..n], Failed) + WithFate(rs, fates[..b], Broken)
    && skipped == ResultIds(WithFate(rs, fates[..n], Skipped))
  }

  ghost predicate ReportsUpTo(result: ExecutionResult, rs: seq<HookResult>, fates: seq<Fate>, n: nat, b: nat)
    requires n <= |fates| == |rs| && b <= |fates|
    reads result
  {
    Listed(result.hooksPassed, result.hooksFailed, result.hooksSkipped, rs, fates, n, b)
  }

  lemma NextResult(passed: seq<HookResult>, failed: seq<HookResult>, skipped: seq<Id>,
                   rs: seq<HookResult>, fates: seq<Fate>, i: nat)
    requires i < |fates| == |rs| && Listed(passed, failed, skipped, rs, fates, i, 0)
    ensures fates[i] == Passed ==> Listed(passed + [rs[i]], failed, skipped, rs, fates, i + 1, 0)
    ensures fates[i] == Failed ==> Listed(passed, failed + [rs[i]], skipped, rs, fates, i + 1, 0)
    ensures fates[i] == Skipped ==> Listed(passed, failed, skipped + [rs[i].hookId], rs, fates, i + 1, 0)
    ensures fates[i] == Broken ==> Listed(passed, failed, skipped, rs, fates, i + 1, 0)
  {
    OneMoreFate(rs, fates, i, Passed);
    OneMoreFate(rs, fates, i, Failed);
    OneMoreFate(rs, fates, i, Skipped);
    assert WithFate(rs, fates[..0], Broken) == [];
  }

  lemma NextBroken(passed: seq<HookResult>, failed: seq<HookResult>, skipped: seq<Id>,
                   rs: seq<HookResult>, fates: seq<Fate>, i: nat)
    requires i < |fates| == |rs| && Listed(passed, failed, skipped, rs, fates, |fates|, i)
    ensures Listed(passed, if fates[i] == Broken then failed + [rs[i]] else failed, skipped, rs, fates, |fates|, i + 1)
  {
    OneMoreFate(rs, fates, i, Broken);
  }

  /** The whole batch: every result, in hook order, and after them whatever broke off, as failed. */
  method ExecuteHooksParallel(hooks: seq<Hook>, tasks: seq<TaskOutcome>) returns (result: ExecutionResult)
    requires |hooks| == |tasks|
    ensures fresh(result) && result.Valid()
    ensures ReportsUpTo(result, Records(hooks, tasks), FatesOf(tasks), |hooks|, |hooks|)
    ensures result.success <==> forall i :: 0 <= i < |tasks| ==>
        FateOf(tasks[i]) == Passed || FateOf(tasks[i]) == Skipped
  {
    result := new ExecutionResult();
    ghost var rs, fates := Records(hooks, tasks), FatesOf(tasks);
    for i := 0 to |hooks|
      invariant fresh(result) && result.Valid() && ReportsUpTo(result, rs, fates, i, 0)
    {
      RecordResult(result, hooks[i], tasks[i], rs, fates, i);
    }
    for i := 0 to |hooks|
      invariant fresh(result) && result.Valid() && ReportsUpTo(result, rs, fates, |hooks|, i)
    {
      RecordBroken(result, hooks[i], tasks[i], rs, fates, i);
    }
    assert fates[..|hooks|] == fates;
    NoneFailedIff(rs, fates);
  }

  /** A task that came back with a result. */
  method RecordResult(result: ExecutionResult, hook: Hook, task: TaskOutcome, ghost rs: seq<HookResult>,
                      ghost fates: seq<Fate>, ghost i: nat)
    requires i < |fates| == |rs| && rs[i] == RecordOf(task, hook.id) && fates[i] == FateOf(task)
    requires result.Valid() && ReportsUpTo(result, rs, fates, i, 0)
    modifies result
    ensures result.Valid() && ReportsUpTo(result, rs, fates, i + 1, 0)
  {
    NextResult(result.hooksPassed, result.hooksFailed, result.hooksSkipped, rs, fates, i);
    if task.Ran? {
      if task.skipped {
        result.AddSkipped(hook.id);
      } else {
        result.AddResult(HookResult(hook.id, task.success, false, task.duration, task.filesModified));
      }
    }
  }

  /** A task that broke off. */
  method RecordBroken(result: ExecutionResult, hook: Hook, task: TaskOutcome, ghost rs: seq<HookResult>,
                      ghost fates: seq<Fate>, ghost i: nat)
    requires i < |fates| == |rs| && rs[i] == RecordOf(task, hook.id) && fates[i] == FateOf(task)
    requires result.Valid() && ReportsUpTo(result, rs, fates, |fates|, i)
    modifies result
    ensures result.Valid() && ReportsUpTo(result, rs, fates, |fates|, i + 1)
  {
    NextBroken(result.hooksPassed, result.hooksFailed, result.hooksSkipped, rs, fates, i);
    if task.Errored? {
      result.AddResult(HookResult(hook.id, false, false, task.duration, []));
    } else if task.TimedOut? {
      result.AddResult(HookResult("unknown", false, false, 0, []));
    }
  }

  lemma OneMoreFate(rs: seq<HookResult>, fates: seq<Fate>, i: nat, f: Fate)
    requires i < |fates| == |rs|
    ensures WithFate(rs, fates[..i + 1], f) ==
              if fates[i] == f then WithFate(rs, fates[..i], f) + [rs[i]] else WithFate(rs, fates[..i], f)
    ensures fates[i] == f ==>
              ResultIds(WithFate(rs, fates[..i + 1], f)) == ResultIds(WithFate(rs, fates[..i], f)) + [rs[i].hookId]
  {
    assert fates[..i + 1] == fates[..i] + [fates[i]];
    WithFateAppend(rs, fates[..i], fates[i], f);
    ResultIdsAppend(WithFate(rs, fates[..i], f), rs[i]);
  }

  lemma MetIff(rs: seq<HookResult>, fates: seq<Fate>, f: Fate)
    requires |fates| <= |rs|
    ensures WithFate(rs, fates, f) == [] <==> f !in fates
  {
    if fates != [] {
      var n := |fates| - 1;
      assert fates == fates[..n] + [fates[n]];
      MetIff(rs, fates[..n], f);
    }
  }

  lemma NoneFailedIff(rs: seq<HookResult>, fates: seq<Fate>)
    requires |fates| <= |rs|
    ensures WithFate(rs, fates, Failed) + WithFate(rs, fates, Broken) == [] <==>
            forall i :: 0 <= i < |fates| ==> fates[i] == Passed || fates[i] == Skipped
  {
    MetIff(rs, fates, Failed);
    MetIff(rs, fates, Broken);
    forall i | 0 <= i < |fates| ensures fates[i] in fates {}
  }

  /** How often the three lists together name `x`. */
  function Named(rs: seq<HookResult>, fates: seq<Fate>, x: Id): nat
    requires |fates| <= |rs|
  {
    FateTimes(rs, fates, Passed, x) + FateTimes(rs, fates, Failed, x) + FateTimes(rs, fates, Broken, x)
        + FateTimes(rs, fates, Skipped, x)
  }

  /**
   A parallel run accounts for every hook under its own name exactly when only hooks called
   "unknown" time out.
   */
  lemma AccountedIff(hooks: seq<Hook>, tasks: seq<TaskOutcome>)
    requires |hooks| == |tasks|
    ensures (forall x :: Named(Records(hooks, tasks), FatesOf(tasks), x) == Times(IdsOf(hooks), x)) <==>
            forall i :: 0 <= i < |hooks| && tasks[i].TimedOut? ==> hooks[i].id == UNKNOWN
  {
    var rs, fates := Records(hooks, tasks), FatesOf(tasks);
    assert rs[..|fates|] == rs;
    forall x ensures Named(rs, fates, x) == Times(ResultIds(rs), x) {
      EveryHookHasOneFate(rs, fates, x);
    }
    assert rs[..|hooks|] == rs && IdsOf(hooks)[..|hooks|] == IdsOf(hooks);
    RecordedNames(hooks, tasks, |hooks|);
    MisnamedIff(hooks, tasks, |hooks|);
    if Misnamed(hooks, tasks, |hooks|) == 0 { SameNames(hooks, tasks, |hooks|); }
    assert Named(rs, fates, UNKNOWN) == Times(ResultIds(rs), UNKNOWN);
  }

  /** How many of the first `n` hooks timed out under another name. */
  function Misnamed(hooks: seq<Hook>, tasks: seq<TaskOutcome>, n: nat): nat
    requires n <= |hooks| == |tasks|
  {
    if n == 0 then 0
    else Misnamed(hooks, tasks, n - 1) + if tasks[n - 1].TimedOut? && hooks[n - 1].id != UNKNOWN then 1 else 0
  }

  lemma MisnamedIff(hooks: seq<Hook>, tasks: seq<TaskOutcome>, n: nat)
    requires n <= |hooks| == |tasks|
    ensures Misnamed(hooks, tasks, n) == 0 <==> forall i :: 0 <= i < n && tasks[i].TimedOut? ==> hooks[i].id == UNKNOWN
  {
    if n > 0 { MisnamedIff(hooks, tasks, n - 1); }
  }

  /** Every misnamed hook adds to what is recorded as unknown. */
  lemma RecordedNames(hooks: seq<Hook>, tasks: seq<TaskOutcome>, n: nat)
    requires n <= |hooks| == |tasks|
    ensures Times(ResultIds(Records(hooks, tasks)[..n]), UNKNOWN) == Times(IdsOf(hooks)[..n], UNKNOWN)
        + Misnamed(hooks, tasks, n)
  {
    if n > 0 {
      var rs, ids := Records(hooks, tasks), IdsOf(hooks);
      RecordedNames(hooks, tasks, n - 1);
      NameAppend(rs, ids, n);
      TimesAppend(ResultIds(rs[..n - 1]), rs[n - 1].hookId, UNKNOWN);
      TimesAppend(ids[..n - 1], ids[n - 1], UNKNOWN);
    }
  }

  lemma NameAppend(rs: seq<HookResult>, ids: seq<Id>, n: nat)
    requires 0 < n <= |rs| == |ids|
    ensures ResultIds(rs[..n]) == ResultIds(rs[..n - 1]) + [rs[n - 1].hookId]
    ensures ids[..n] == ids[..n - 1] + [ids[n - 1]]
  {
    assert rs[..n] == rs[..n - 1] + [rs[n - 1]];
    ResultIdsAppend(rs[..n - 1], rs[n - 1]);
  }

  lemma SameNames(hooks: seq<Hook>, tasks: seq<TaskOutcome>, n: nat)
    requires n <= |hooks| == |tasks| && Misnamed(hooks, tasks, n) == 0
    ensures ResultIds(Records(hooks, tasks)[..n]) == IdsOf(hooks)[..n]
  {
    if n > 0 {
      SameNames(hooks, tasks, n - 1);
      NameAppend(Records(hooks, tasks), IdsOf(hooks), n);
    }
  }

  // ---------------------------------------------------------------- the engine

  /** Reasons to run one hook after the other. */
  ghost predicate TakeTurns(hooks: seq<Hook>, maxParallelHooks: nat, failFast: bool) {
    || failFast
    || maxParallelHooks <= 1
    || |hooks| <= 1
    || (exists h :: h in hooks && h.dependsOn != [])
    || (exists h :: h in hooks && !h.concurrent)
  }

  /** What became of each task of a batch. */
  ghost predicate TaskAccount(tasks: seq<TaskOutcome>, fates: seq<Fate>) {
    && |fates| == |tasks|
    && forall i :: 0 <= i < |tasks| ==>
         && (fates[i] == Broken <==> !tasks[i].Ran?)
         && (fates[i] == Skipped <==> tasks[i].Ran? && tasks[i].skipped)
         && (fates[i] == Passed <==> tasks[i].Ran? && !tasks[i].skipped && tasks[i].success)
  }

  /** At most one hook failed, nothing broke off, and whatever came after the failure was skipped. */
  ghost predicate StoppedAtFailure(fates: seq<Fate>) {
    && Broken !in fates
    && forall i, k :: 0 <= k < i < |fates| && fates[k] == Failed ==> fates[i] == Skipped
  }

  datatype EngineOutcome =
    | Finished(result: ExecutionResult)
    | Unschedulable(error: GraphError)
    | NoEnvironment

  /**
   The whole engine.  A batch that cannot be scheduled does not run.  Hooks that may run side by side do,
   if their environments can be set up; all others run one after the other, in an order that respects
   every dependency.  `outcomes[i]` is what the hook run in position `i` of a sequential run does,
   `tasks[i]` what becomes of the i-th task of a parallel one.
   */
  method ExecuteHooks(hooks: seq<Hook>, maxParallelHooks: nat, failFast: bool, noFiles: bool, environmentsReady: bool,
                      outcomes: seq<Outcome>, tasks: seq<TaskOutcome>)
    returns (r: EngineOutcome, ghost ordered: seq<Hook>, ghost fates: seq<Fate>)
    requires |hooks| <= |outcomes| && |hooks| == |tasks|
    ensures r.Unschedulable? <==> !Schedulable(hooks)
    ensures r.NoEnvironment? <==> !TakeTurns(hooks, maxParallelHooks, failFast) && !environmentsReady
    ensures r.Finished? ==>
        fresh(r.result) && r.result.Valid() && OrdersHooks(hooks, ordered) && |fates| == |ordered| <= |hooks|
    ensures r.Finished? && TakeTurns(hooks, maxParallelHooks, failFast) ==>
              && Account(ordered, failFast, noFiles, outcomes, fates)
              && Reports(r.result, Results(ordered, outcomes), fates)
    ensures r.Finished? && !TakeTurns(hooks, maxParallelHooks, failFast) ==>
              && ordered == hooks && TaskAccount(tasks, fates)
              && ReportsUpTo(r.result, Records(hooks, tasks), fates, |hooks|, |hooks|)
    ensures r.Finished? && failFast ==> StoppedAtFailure(fates)
  {
    ordered, fates := [], [];
    var resolved := ResolveHookDependencies(hooks);
    if resolved.Err? { return Unschedulable(resolved.error), ordered, fates; }
    ordered := resolved.value;
    var hasDependencies := exists i :: 0 <= i < |hooks| && hooks[i].dependsOn != [];
    var hasNonConcurrent := exists i :: 0 <= i < |hooks| && !hooks[i].concurrent;
    var result;
    if maxParallelHooks > 1 && |hooks| > 1 && !failFast && !hasDependencies && !hasNonConcurrent {
      if !environmentsReady { return NoEnvironment, ordered, fates; }
      result := ExecuteHooksParallel(resolved.value, tasks);
      fates := FatesOf(tasks);
    } else {
      result, fates := ExecuteHooksSequential(resolved.value, failFast, noFiles, outcomes);
      if failFast { FailFastAccount(ordered, noFiles, outcomes, fates); }
    }
    r := Finished(result);
  }

  lemma FailFastAccount(hooks: seq<Hook>, noFiles: bool, outcomes: seq<Outcome>, fates: seq<Fate>)
    requires |fates| == |hooks| <= |outcomes| && Account(hooks, true, noFiles, outcomes, fates)
    ensures StoppedAtFailure(fates)
  {
    forall i | 0 <= i < |fates| ensures fates[i] != Broken {
      assert IsAccounted(hooks, true, noFiles, outcomes, fates, i);
    }
    forall i, k | 0 <= k < i < |fates| && fates[k] == Failed ensures fates[i] == Skipped {
      assert IsAccounted(hooks, true, noFiles, outcomes, fates, i);
    }
  }

  /**
   What a complete report holds: the passed results in hook order, the failed ones followed by those that
   broke off, and the names of the skipped.
   */
  lemma ListedMeaning(passed: seq<HookResult>, failed: seq<HookResult>, skipped: seq<Id>, rs: seq<HookResult>,
                      fates: seq<Fate>)
    requires |fates| == |rs| && Listed(passed, failed, skipped, rs, fates, |fates|, |fates|)
    ensures Selects(passed, rs, fates, Passed)
    ensures exists ran, broken :: failed == ran + broken && Selects(ran, rs, fates, Failed)
                                  && Selects(broken, rs, fates, Broken)
    ensures exists without :: Selects(without, rs, fates, Skipped) && skipped == ResultIds(without)
  {
    assert fates[..|fates|] == fates;
    WithFateSelects(rs, fates, Passed);
    WithFateSelects(rs, fates, Failed);
    WithFateSelects(rs, fates, Broken);
    WithFateSelects(rs, fates, Skipped);
  }
}
