/**
 Acquiring several file locks in one global order.  The first half is the order: by level, or by
 path length for paths that have no level; ties keep the order of the request.  The second half is
 why it is there: a system of processes that take exclusive locks in that order cannot deadlock,
 provided no two paths tie, none is requested twice, and each has a lock file of its own; and as soon
 as one of these fails, it can.
 */
module OrderedLocking {
  import opened Wrappers
  import opened StableSorting
  import opened Graphs
  import opened PathNames

  const U32_RANGE: nat := 0x1_0000_0000

  // ---------------------------------------------------------------- the hierarchy

  /** Levels are looked up by components: different spellings of a path have one level. */
  type Levels = map<PathId, nat>

  function LevelOf(levels: Levels, p: Path): Option<nat> {
    var c := Identity(p);
    if c in levels then Some(levels[c]) else None
  }

  /** The level of a listed path; for any other, the length of its spelling cut down to 32 bits. */
  function SortKey(levels: Levels): Path -> nat {
    (p: Path) => var level := LevelOf(levels, p); if level.Some? then level.value else |p| % U32_RANGE
  }

  function LevelOrZero(levels: Levels): Path -> nat {
    (p: Path) => var level := LevelOf(levels, p); if level.Some? then level.value else 0
  }

  /** What a collection of paths that tells them apart by components holds. */
  function AsPaths(s: seq<Path>): set<PathId> {
    set p | p in s :: Identity(p)
  }

  datatype HierarchyViolation = HierarchyViolation(path: Path, level: nat, previousPath: Path, previousLevel: nat)

  datatype Checked = InOrder | Violation(error: HierarchyViolation)

  function LevelsOf(levels: Levels, s: seq<Path>): seq<Option<nat>> {
    seq(|s|, i requires 0 <= i < |s| => LevelOf(levels, s[i]))
  }

  /** The levels of the listed paths never go down; paths without a level do not matter. */
  ghost predicate LevelsInOrder(levels: Levels, s: seq<Path>) {
    InOrderUpTo(LevelsOf(levels, s), |s|)
  }

  ghost predicate InOrderUpTo(ls: seq<Option<nat>>, n: nat)
    requires n <= |ls|
  {
    forall i, j :: 0 <= i < j < n ==> NotHigher(ls[i], ls[j])
  }

  predicate NotHigher(a: Option<nat>, b: Option<nat>) {
    a.Some? && b.Some? ==> a.value <= b.value
  }

  /** Sorting always satisfies the check, whatever paths without a level lie in between. */
  lemma SortedPassesCheck(levels: Levels, s: seq<Path>)
    ensures LevelsInOrder(levels, SortByKey(s, SortKey(levels)))
  {
    SortIsStable(s, SortKey(levels));
  }

  /** At `j` the level drops below that of the listed path before it, and nowhere earlier. */
  ghost predicate Descent(levels: Levels, s: seq<Path>, i: int, j: int, error: HierarchyViolation) {
    && 0 <= i < j < |s|
    && (forall m :: i < m < j ==> LevelsOf(levels, s)[m].None?)
    && InOrderUpTo(LevelsOf(levels, s), j)
    && LevelOf(levels, s[i]) == Some(error.previousLevel) && error.previousPath == s[i]
    && LevelOf(levels, s[j]) == Some(error.level) && error.path == s[j]
    && error.level < error.previousLevel
  }

  /** In order up to `n`; the level met last, if any, is at `last` and is the highest. */
  ghost predicate Climbing(ls: seq<Option<nat>>, n: nat, last: int, level: nat)
    requires n <= |ls|
  {
    && InOrderUpTo(ls, n)
    && (forall m :: 0 <= m < n ==> NotHigher(ls[m], Some(level)))
    && -1 <= last < n && (if last == -1 then level == 0 else ls[last] == Some(level))
    && forall m :: last < m < n ==> ls[m].None?
  }

  lemma ClimbOn(ls: seq<Option<nat>>, n: nat, last: int, level: nat)
    requires n < |ls| && Climbing(ls, n, last, level)
    ensures ls[n].None? ==> Climbing(ls, n + 1, last, level)
    ensures ls[n].Some? && ls[n].value >= level ==> Climbing(ls, n + 1, n, ls[n].value)
  {
  }

  lemma FirstDescent(levels: Levels, s: seq<Path>, n: nat, last: int, level: nat)
    requires n < |s| && Climbing(LevelsOf(levels, s), n, last, level)
    requires LevelOf(levels, s[n]).Some? && LevelOf(levels, s[n]).value < level
    ensures last >= 0 && !LevelsInOrder(levels, s)
    ensures Descent(levels, s, last, n, HierarchyViolation(s[n], LevelOf(levels, s[n]).value, s[last], level))
  {
    var ls := LevelsOf(levels, s);
    assert ls[n] == LevelOf(levels, s[n]) && ls[last] == LevelOf(levels, s[last]);
    assert !NotHigher(ls[last], ls[n]);
  }

  lemma AsPathsAppend(s: seq<Path>, p: Path)
    ensures AsPaths(s + [p]) == AsPaths(s) + {Identity(p)}
  {
    forall q ensures q in s + [p] <==> q in s || q == p {}
  }

  lemma Reordered(s: seq<Path>, key: Path -> nat)
    ensures IsStableSort(SortByKey(s, key), s, key) && AsPaths(SortByKey(s, key)) == AsPaths(s)
  {
    var t := SortByKey(s, key);
    SortIsStable(s, key);
    forall p ensures p in s <==> p in t { assert p in multiset(s) <==> p in multiset(t); }
  }

  /** The ordering lists exactly the paths with a level, by level. */
  ghost predicate Consistent(levels: Levels, ordering: seq<Path>) {
    && (forall c :: c in levels ==> levels[c] < U32_RANGE)
    && AsPaths(ordering) == levels.Keys
    && forall i, j :: 0 <= i < j < |ordering| ==> NotAbove(levels, ordering[i], ordering[j])
  }

  /** Both have a level, and the first one's is not higher. */
  ghost predicate NotAbove(levels: Levels, p: Path, q: Path) {
    var a, b := Identity(p), Identity(q);
    a in levels && b in levels && levels[a] <= levels[b]
  }

  lemma Relevelled(levels: Levels, ordering: seq<Path>, path: Path, level: nat)
    requires Consistent(levels, ordering) && level < U32_RANGE
    ensures var levels' := levels[Identity(path) := level];
            var ordering' := SortByKey(ordering + [path], LevelOrZero(levels'));
            && Consistent(levels', ordering')
            && IsStableSort(ordering', ordering + [path], LevelOrZero(levels'))
  {
    var levels', longer := levels[Identity(path) := level], ordering + [path];
    AsPathsAppend(ordering, path);
    assert AsPaths(longer) == levels'.Keys;
    SortedConsistent(levels', longer);
  }

  lemma SortedConsistent(levels: Levels, s: seq<Path>)
    requires (forall c :: c in levels ==> levels[c] < U32_RANGE) && AsPaths(s) == levels.Keys
    ensures var sorted := SortByKey(s, LevelOrZero(levels));
            Consistent(levels, sorted) && IsStableSort(sorted, s, LevelOrZero(levels))
  {
    Reordered(s, LevelOrZero(levels));
    LevelsNotAbove(levels, SortByKey(s, LevelOrZero(levels)));
  }

  lemma LevelsNotAbove(levels: Levels, s: seq<Path>)
    requires Sorted(s, LevelOrZero(levels)) && AsPaths(s) == levels.Keys
    ensures forall i, j :: 0 <= i < j < |s| ==> NotAbove(levels, s[i], s[j])
  {
    var key := LevelOrZero(levels);
    forall i, j | 0 <= i < j < |s| ensures NotAbove(levels, s[i], s[j]) {
      assert s[i] in s && s[j] in s;
      assert Identity(s[i]) in AsPaths(s) && Identity(s[j]) in AsPaths(s);
      assert key(s[i]) <= key(s[j]);
    }
  }

  /** What a path is sorted by: its level, or else the length of its spelling as a 32-bit number. */
  lemma SortKeyMeaning(levels: Levels, p: Path)
    ensures Identity(p) in levels ==> SortKey(levels)(p) == levels[Identity(p)]
    ensures Identity(p) !in levels ==>
              SortKey(levels)(p) < 0x1_0000_0000 && (|p| - SortKey(levels)(p)) % 0x1_0000_0000 == 0
  {
  }

  class LockHierarchy {
    var levels: Levels
    var ordering: seq<Path>

    ghost predicate Valid()
      reads this
    {
      Consistent(levels, ordering)
    }

    constructor ()
      ensures Valid() && levels == map[] && ordering == []
    {
      levels, ordering := map[], [];
    }

    /** Adding a path again re-levels it and lists it a second time. */
    method AddPath(path: Path, level: nat)
      requires Valid() && level < U32_RANGE
      modifies this
      ensures Valid()
      ensures levels == old(levels)[Identity(path) := level]
      ensures IsStableSort(ordering, old(ordering) + [path], LevelOrZero(levels))
    {
      Relevelled(levels, ordering, path, level);
      levels := levels[Identity(path) := level];
      ordering := SortByKey(ordering + [path], LevelOrZero(levels));
    }

    method GetLevel(path: Path) returns (r: Option<nat>)
      ensures r == LevelOf(levels, path)
    {
      r := if Identity(path) in levels then Some(levels[Identity(path)]) else None;
    }

    /** Passes exactly when the levels are in order; otherwise reports the first descent. */
    method ValidateOrder(locks: seq<Path>) returns (r: Checked)
      ensures r.InOrder? <==> LevelsInOrder(levels, locks)
      ensures r.Violation? ==> exists i, j :: Descent(levels, locks, i, j, r.error)
    {
      var previousLevel := 0;
      var previousPath: Option<Path> := None;
      ghost var last := -1;
      for n := 0 to |locks|
        invariant Climbing(LevelsOf(levels, locks), n, last, previousLevel)
        invariant previousPath == if last == -1 then None else Some(locks[last])
      {
        var path := locks[n];
        var level := GetLevel(path);
        ClimbOn(LevelsOf(levels, locks), n, last, previousLevel);
        if level.Some? {
          if level.value < previousLevel {
            FirstDescent(levels, locks, n, last, previousLevel);
            r := Violation(HierarchyViolation(path, level.value, previousPath.value, previousLevel));
            return;
          }
          previousLevel, previousPath, last := level.value, Some(path), n;
        }
      }
      r := InOrder;
    }

    /** Rearranges the slice in place. */
    method SortByHierarchy(paths: array<Path>)
      modifies paths
      ensures paths[..] == SortByKey(old(paths[..]), SortKey(levels))
      ensures LevelsInOrder(levels, paths[..])
    {
      ghost var before := paths[..];
      var sorted := SortByKey(paths[..], SortKey(levels));
      SortIsStable(before, SortKey(levels));
      SortedPassesCheck(levels, before);
      forall i | 0 <= i < paths.Length { paths[i] := sorted[i]; }
      assert paths[..] == sorted;
    }
  }

  // ---------------------------------------------------------------- acquiring several locks

  datatype Acquired = Acquired(locks: seq<Path>) | Failed(path: Path)

  lemma ReleaseStep(s: seq<Path>, i: nat, held0: multiset<Path>)
    requires i < |s|
    ensures held0 + multiset(s[i..]) - multiset{s[i]} == held0 + multiset(s[i + 1..])
    ensures AsPaths(s[..i + 1]) == AsPaths(s[..i]) + {Identity(s[i])}
  {
    assert s[i..] == [s[i]] + s[i + 1..];
    assert s[..i + 1] == s[..i] + [s[i]];
    AsPathsAppend(s[..i], s[i]);
  }

  lemma NothingReleased(s: seq<Path>)
    ensures s[0..] == s && AsPaths(s[..0]) == {} && s[..|s|] == s && s[|s|..] == []
  {
  }

  /** The first `attempts` attempts were granted. */
  ghost predicate IsTaken(order: seq<Path>, granted: nat -> bool, attempts: nat, acquiredLocks: seq<Path>) {
    && attempts <= |order| && acquiredLocks == order[..attempts]
    && forall i :: 0 <= i < attempts ==> granted(i)
  }

  lemma TakeNothing(order: seq<Path>, granted: nat -> bool)
    ensures IsTaken(order, granted, 0, []) && AsPaths([]) == {}
  {
  }

  lemma TakeOn(order: seq<Path>, granted: nat -> bool, attempts: nat, acquiredLocks: seq<Path>)
    requires attempts < |order| && IsTaken(order, granted, attempts, acquiredLocks)
    ensures granted(attempts) ==> IsTaken(order, granted, attempts + 1, acquiredLocks + [order[attempts]])
  {
    assert order[..attempts + 1] == order[..attempts] + [order[attempts]];
  }

  class FileLockManager {
    const hierarchy: LockHierarchy
    var locks: set<PathId>    // tracked paths, by components
    var held: multiset<Path>     // paths whose lock files the process has open and locked
    var totalAcquisitions: nat
    var activeLocks: nat

    constructor ()
      ensures fresh(hierarchy) && hierarchy.Valid() && hierarchy.levels == map[]
      ensures locks == {} && held == multiset{} && totalAcquisitions == 0 && activeLocks == 0
    {
      hierarchy := new LockHierarchy();
      locks, held, totalAcquisitions, activeLocks := {}, multiset{}, 0, 0;
    }

    /** `granted` says whether the operating system granted the lock before the timeout. */
    method AcquireLock(path: Path, granted: bool) returns (ok: bool)
      modifies this
      ensures ok == granted
      ensures totalAcquisitions == old(totalAcquisitions) + 1
      ensures locks == (if ok then old(locks) + {Identity(path)} else old(locks))
      ensures held == (if ok then old(held) + multiset{path} else old(held))
      ensures activeLocks == (if ok then old(activeLocks) + 1 else old(activeLocks))
    {
      totalAcquisitions := totalAcquisitions + 1;
      ok := granted;
      if ok {
        locks := locks + {Identity(path)};
        held := held + multiset{path};
        activeLocks := activeLocks + 1;
      }
    }

    method ReleaseLock(path: Path)
      modifies this`locks, this`held, this`activeLocks
      ensures locks == old(locks) - {Identity(path)} && held == old(held) - multiset{path}
      ensures activeLocks == if old(activeLocks) == 0 then 0 else old(activeLocks) - 1
    {
      locks := locks - {Identity(path)};
      activeLocks := if activeLocks == 0 then 0 else activeLocks - 1;
      held := held - multiset{path};
    }

    /**
     All or nothing.  `granted(i)` is the outcome of the i-th attempt.  On success every path is held,
     in hierarchy order; after the first refusal nothing taken by the call is still held.  The roll-back
     also forgets tracked paths, even one that had been tracked before.
     */
    method AcquireMultipleOrdered(paths: seq<Path>, granted: nat -> bool) returns (r: Acquired, attempts: nat)
      modifies this
      ensures attempts <= |paths| && forall i :: 0 <= i < attempts ==> granted(i)
      ensures r.Acquired? <==> attempts == |paths|
      ensures r.Acquired? ==>
                && r.locks == SortByKey(paths, SortKey(hierarchy.levels)) && held == old(held) + multiset(paths)
                && locks == old(locks) + AsPaths(r.locks) && activeLocks == old(activeLocks) + |paths|
                && totalAcquisitions == old(totalAcquisitions) + |paths|
      ensures r.Failed? ==> var order := SortByKey(paths, SortKey(hierarchy.levels));
                && |order| == |paths| && !granted(attempts) && r.path == order[attempts] && held == old(held)
                && locks == old(locks) - AsPaths(order[..attempts]) && activeLocks == old(activeLocks)
                && totalAcquisitions == old(totalAcquisitions) + attempts + 1
    {
      var order := OrderPaths(paths);
      r, attempts := AcquireAll(order, granted);
    }

    /** Sorts a copy in place. */
    method OrderPaths(paths: seq<Path>) returns (order: seq<Path>)
      ensures order == SortByKey(paths, SortKey(hierarchy.levels))
      ensures |order| == |paths| && multiset(order) == multiset(paths)
    {
      var sorted := new Path[|paths|](i requires 0 <= i < |paths| => paths[i]);
      assert sorted[..] == paths;
      hierarchy.SortByHierarchy(sorted);
      SortIsStable(paths, SortKey(hierarchy.levels));
      order := sorted[..];
    }

    method AcquireAll(order: seq<Path>, granted: nat -> bool) returns (r: Acquired, attempts: nat)
      modifies this
      ensures attempts <= |order| && forall i :: 0 <= i < attempts ==> granted(i)
      ensures r.Acquired? <==> attempts == |order|
      ensures r.Acquired? ==> r.locks == order && HoldsMore(old(held), old(locks), old(activeLocks), order)
      ensures r.Acquired? ==> totalAcquisitions == old(totalAcquisitions) + |order|
      ensures r.Failed? ==>
                && !granted(attempts) && r.path == order[attempts] && held == old(held)
                && locks == old(locks) - AsPaths(order[..attempts]) && activeLocks == old(activeLocks)
                && totalAcquisitions == old(totalAcquisitions) + attempts + 1
    {
      var acquiredLocks := [];
      attempts := 0;
      TakeNothing(order, granted);
      while attempts < |order|
        invariant IsTaken(order, granted, attempts, acquiredLocks)
        invariant HoldsMore(old(held), old(locks), old(activeLocks), acquiredLocks)
        invariant totalAcquisitions == old(totalAcquisitions) + attempts
      {
        var path := order[attempts];
        TakeOn(order, granted, attempts, acquiredLocks);
        var ok := AcquireNext(acquiredLocks, path, granted(attempts), old(held), old(locks), old(activeLocks));
        if !ok {
          RollBack(acquiredLocks, old(held), old(locks), old(activeLocks));
          r := Failed(path);
          return;
        }
        acquiredLocks := acquiredLocks + [path];
        attempts := attempts + 1;
      }
      assert acquiredLocks == order;
      r := Acquired(acquiredLocks);
    }

    method AcquireNext(acquiredLocks: seq<Path>, path: Path, granted: bool, ghost held0: multiset<Path>,
                       ghost locks0: set<PathId>, ghost active0: nat)
      returns (ok: bool)
      requires HoldsMore(held0, locks0, active0, acquiredLocks)
      modifies this
      ensures ok == granted && totalAcquisitions == old(totalAcquisitions) + 1
      ensures HoldsMore(held0, locks0, active0, if ok then acquiredLocks + [path] else acquiredLocks)
    {
      AsPathsAppend(acquiredLocks, path);
      ok := AcquireLock(path, granted);
    }

    ghost predicate HoldsMore(held0: multiset<Path>, locks0: set<PathId>, active0: nat, acquiredLocks: seq<Path>)
      reads this
    {
      && held == held0 + multiset(acquiredLocks)
      && locks == locks0 + AsPaths(acquiredLocks)
      && activeLocks == active0 + |acquiredLocks|
    }

    method RollBack(acquiredLocks: seq<Path>, ghost held0: multiset<Path>, ghost locks0: set<PathId>,
                    ghost active0: nat)
      requires HoldsMore(held0, locks0, active0, acquiredLocks)
      modifies this`locks, this`held, this`activeLocks
      ensures held == held0 && locks == locks0 - AsPaths(acquiredLocks) && activeLocks == active0
    {
      NothingReleased(acquiredLocks);
      for i := 0 to |acquiredLocks|
        invariant held == held0 + multiset(acquiredLocks[i..])
        invariant locks == locks0 + AsPaths(acquiredLocks) - AsPaths(acquiredLocks[..i])
        invariant activeLocks == active0 + |acquiredLocks| - i
      {
        ReleaseStep(acquiredLocks, i, held0);
        ReleaseLock(acquiredLocks[i]);
      }
    }
  }

  // ---------------------------------------------------------------- many processes

  /** The file that is locked, whatever name it was opened under. */
  type Lock = string

  /** A process works through `plan`, then releases what it took in the same order. */
  datatype Progress = Progress(plan: seq<Lock>, taken: nat, released: nat, releasing: bool) {
    predicate Ok() {
      released <= taken <= |plan| && (!releasing ==> released == 0)
    }

    function Held(): seq<Lock>
      requires Ok()
    {
      plan[released..taken]
    }

    predicate Acquiring() {
      !releasing && taken < |plan|
    }

    function Next(): Lock
      requires Acquiring()
    {
      plan[taken]
    }

    predicate CanRelease() {
      (releasing || taken == |plan|) && released < taken
    }

    predicate Finished() {
      (releasing || taken == |plan|) && released == taken
    }

    /** How many more steps it can make at most. */
    function Budget(): nat
      requires Ok()
    {
      if releasing then taken - released else 2 * |plan| - taken
    }
  }

  type Process = p: Progress | p.Ok() witness Progress([], 0, 0, false)

  function Fresh(plan: seq<Lock>): Process {
    Progress(plan, 0, 0, false)
  }

  datatype Action = Acquire(who: nat) | GiveUp(who: nat) | Release(who: nat)

  type System = seq<Process>

  predicate Free(s: System, p: Lock) {
    forall j :: 0 <= j < |s| ==> p !in s[j].Held()
  }

  predicate Enabled(s: System, a: Action) {
    && a.who < |s|
    && match a
       case Acquire(i) => s[i].Acquiring() && Free(s, s[i].Next())
       case GiveUp(i) => s[i].Acquiring()
       case Release(i) => s[i].CanRelease()
  }

  function Effect(p: Process, a: Action): Process
    requires if a.Release? then p.CanRelease() else p.Acquiring()
  {
    match a
    case Acquire(_) => p.(taken := p.taken + 1)
    case GiveUp(_) => p.(releasing := true)
    case Release(_) => p.(released := p.released + 1, releasing := true)
  }

  function Apply(s: System, a: Action): System
    requires Enabled(s, a)
  {
    s[a.who := Effect(s[a.who], a)]
  }

  ghost predicate IsInitial(s: System) {
    forall i :: 0 <= i < |s| ==> s[i] == Fresh(s[i].plan)
  }

  ghost predicate StepAt(states: seq<System>, acts: seq<Action>, n: nat)
    requires n < |acts| && n + 1 < |states|
  {
    Enabled(states[n], acts[n]) && states[n + 1] == Apply(states[n], acts[n])
  }

  /** A run of any length: each state comes from the one before by an enabled action. */
  ghost predicate IsRun(states: seq<System>, acts: seq<Action>) {
    && |states| == |acts| + 1
    && IsInitial(states[0])
    && forall n {:trigger StepAt(states, acts, n)} :: 0 <= n < |acts| ==> StepAt(states, acts, n)
  }

  ghost predicate Apart(a: seq<Lock>, b: seq<Lock>) {
    forall p :: p in a ==> p !in b
  }

  /** No lock is held twice, neither by two processes nor by one. */
  ghost predicate Exclusive(s: System) {
    && (forall i, j {:trigger Apart(s[i].Held(), s[j].Held())} :: 0 <= i < j < |s| ==> Apart(s[i].Held(), s[j].Held()))
    && forall i {:trigger NoDup(s[i].Held())} :: 0 <= i < |s| ==> NoDup(s[i].Held())
  }

  /** Everyone in `group` waits for a lock that someone in `group` holds; a wait-for cycle is such a group. */
  ghost predicate Deadlocked(s: System, group: set<nat>)
  {
    && group != {}
    && forall i :: i in group ==> i < |s| && s[i].Acquiring() && BlockedBy(s, i, group)
  }

  ghost predicate BlockedBy(s: System, i: nat, group: set<nat>)
    requires i < |s| && s[i].Acquiring()
  {
    exists j: nat :: j in group && j < |s| && s[i].Next() in s[j].Held()
  }

  ghost predicate Ordered(s: System, key: Lock -> nat) {
    forall i :: 0 <= i < |s| ==> StrictlySorted(s[i].plan, key)
  }

  lemma HeldStep(s: System, a: Action, j: nat)
    requires Enabled(s, a) && j < |s|
    ensures Apply(s, a)[j].plan == s[j].plan
    ensures Apply(s, a)[j].Held() ==
            if j != a.who || a.GiveUp? then s[j].Held()
            else if a.Acquire? then s[j].Held() + [s[j].Next()]
            else s[j].Held()[1..]
  {
  }

  lemma StepKeepsExclusive(s: System, a: Action)
    requires Enabled(s, a) && Exclusive(s)
    ensures Exclusive(Apply(s, a))
  {
    var t := Apply(s, a);
    forall i, j {:trigger Apart(t[i].Held(), t[j].Held())} | 0 <= i < j < |s| ensures Apart(t[i].Held(), t[j].Held()) {
      HeldStep(s, a, i);
      HeldStep(s, a, j);
      assert Apart(s[i].Held(), s[j].Held());
    }
    forall i {:trigger NoDup(t[i].Held())} | 0 <= i < |s| ensures NoDup(t[i].Held()) {
      HeldStep(s, a, i);
      assert NoDup(s[i].Held());
      NoDupPairs(s[i].Held());
      NoDupPairs(t[i].Held());
    }
  }

  ghost predicate SamePlans(s: System, t: System) {
    |s| == |t| && forall i :: 0 <= i < |s| ==> t[i].plan == s[i].plan
  }

  lemma {:induction false} RunKeepsPlans(states: seq<System>, acts: seq<Action>, n: nat)
    requires IsRun(states, acts) && n < |states|
    ensures SamePlans(states[0], states[n])
  {
    if n > 0 {
      RunKeepsPlans(states, acts, n - 1);
      assert StepAt(states, acts, n - 1);
    }
  }

  /** In every interleaving, with or without time-outs, no lock is ever held twice. */
  lemma {:induction false} LocksAreExclusive(states: seq<System>, acts: seq<Action>, n: nat)
    requires IsRun(states, acts) && n < |states|
    ensures Exclusive(states[n])
  {
    if n > 0 {
      LocksAreExclusive(states, acts, n - 1);
      assert StepAt(states, acts, n - 1);
      StepKeepsExclusive(states[n - 1], acts[n - 1]);
    } else {
      NobodyHoldsAnything(states[0]);
    }
  }

  lemma NobodyHoldsAnything(s: System)
    requires IsInitial(s)
    ensures Exclusive(s)
  {
    forall i | 0 <= i < |s| ensures s[i].Held() == [] { assert s[i] == Fresh(s[i].plan); }
  }

  function NextKey(s: System, i: nat, key: Lock -> nat): nat
    requires i < |s| && s[i].Acquiring()
  {
    key(s[i].Next())
  }

  /** Whoever blocks a waiting process waits for a later key itself. */
  lemma BlockerIsFurther(s: System, i: nat, j: nat, key: Lock -> nat)
    requires Ordered(s, key) && i < |s| && j < |s|
    requires s[i].Acquiring() && s[j].Acquiring() && s[i].Next() in s[j].Held()
    ensures NextKey(s, i, key) < NextKey(s, j, key)
  {
    var m :| 0 <= m < |s[j].Held()| && s[j].Held()[m] == s[i].Next();
    assert s[j].plan[s[j].released + m] == s[i].Next();
  }

  lemma FurthestOf(s: System, group: set<nat>, key: Lock -> nat) returns (top: nat)
    requires group != {} && forall i :: i in group ==> i < |s| && s[i].Acquiring()
    ensures top in group && forall i :: i in group ==> NextKey(s, i, key) <= NextKey(s, top, key)
    decreases |group|
  {
    var first :| first in group;
    var rest := group - {first};
    top := first;
    if rest != {} {
      var other := FurthestOf(s, rest, key);
      if NextKey(s, first, key) < NextKey(s, other, key) { top := other; }
    }
    forall i | i in group ensures NextKey(s, i, key) <= NextKey(s, top, key) { assert i == first || i in rest; }
  }

  lemma FurthestIsNotBlocked(s: System, group: set<nat>, key: Lock -> nat, top: nat)
    requires Ordered(s, key)
    requires forall i :: i in group ==> i < |s| && s[i].Acquiring()
    requires top in group && forall i :: i in group ==> NextKey(s, i, key) <= NextKey(s, top, key)
    ensures !BlockedBy(s, top, group)
  {
    forall j: nat | j in group && j < |s| ensures s[top].Next() !in s[j].Held() {
      if s[top].Next() in s[j].Held() { BlockerIsFurther(s, top, j, key); }
    }
  }

  /** With everyone's list strictly sorted by one key, no group can be waiting on itself. */
  lemma OrderPreventsDeadlock(s: System, group: set<nat>, key: Lock -> nat)
    requires Ordered(s, key)
    ensures !Deadlocked(s, group)
  {
    if group != {} && forall i :: i in group ==> i < |s| && s[i].Acquiring() {
      var top := FurthestOf(s, group, key);
      FurthestIsNotBlocked(s, group, key, top);
    }
  }

  ghost predicate OnlyGiveUps(s: System)
  {
    forall a :: Enabled(s, a) ==> a.GiveUp?
  }

  function Unfinished(s: System): set<nat> {
    set i: nat | i < |s| && !s[i].Finished()
  }

  lemma AllStuck(s: System)
    requires OnlyGiveUps(s) && Unfinished(s) != {}
    ensures Deadlocked(s, Unfinished(s))
  {
    forall i | i in Unfinished(s) ensures s[i].Acquiring() && BlockedBy(s, i, Unfinished(s)) {
      assert !Enabled(s, Release(i));
      assert !Enabled(s, Acquire(i));
      var j :| 0 <= j < |s| && s[i].Next() in s[j].Held();
      assert j in Unfinished(s);
    }
  }

  /** Unless all are finished, somebody can move on without anybody timing out. */
  lemma SomebodyMoves(s: System, key: Lock -> nat)
    requires Ordered(s, key)
    ensures OnlyGiveUps(s) ==> Unfinished(s) == {}
  {
    if OnlyGiveUps(s) && Unfinished(s) != {} {
      AllStuck(s);
      OrderPreventsDeadlock(s, Unfinished(s), key);
    }
  }

  function TotalBudget(s: System): nat {
    if s == [] then 0 else s[0].Budget() + TotalBudget(s[1..])
  }

  lemma BudgetOfUpdate(s: System, i: nat, p: Process)
    requires i < |s| && p.Budget() < s[i].Budget()
    ensures TotalBudget(s[i := p]) < TotalBudget(s)
  {
    if i == 0 {
      assert s[0 := p][1..] == s[1..];
    } else {
      assert s[i := p][1..] == s[1..][i - 1 := p];
      BudgetOfUpdate(s[1..], i - 1, p);
    }
  }

  function LocksRequested(s: System): nat {
    if s == [] then 0 else |s[0].plan| + LocksRequested(s[1..])
  }

  lemma InitialBudget(s: System)
    requires IsInitial(s)
    ensures TotalBudget(s) == 2 * LocksRequested(s)
  {
    if s != [] {
      assert s[0] == Fresh(s[0].plan);
      forall i | 0 <= i < |s[1..]| ensures s[1..][i] == Fresh(s[1..][i].plan) {
        assert s[i + 1] == Fresh(s[i + 1].plan);
      }
      InitialBudget(s[1..]);
    }
  }

  /** No run is longer than two steps for each lock requested. */
  lemma RunsAreShort(states: seq<System>, acts: seq<Action>)
    requires IsRun(states, acts)
    ensures |acts| <= 2 * LocksRequested(states[0])
  {
    BudgetShrinks(states, acts, |acts|);
    InitialBudget(states[0]);
  }

  lemma {:induction false} BudgetShrinks(states: seq<System>, acts: seq<Action>, n: nat)
    requires IsRun(states, acts) && n < |states|
    ensures n + TotalBudget(states[n]) <= TotalBudget(states[0])
  {
    if n > 0 {
      BudgetShrinks(states, acts, n - 1);
      var s, a := states[n - 1], acts[n - 1];
      assert StepAt(states, acts, n - 1);
      BudgetOfUpdate(s, a.who, Effect(s[a.who], a));
    }
  }

  ghost predicate AllReleasesComplete(s: System) {
    forall i :: 0 <= i < |s| && s[i].releasing ==> s[i].taken == |s[i].plan|
  }

  lemma {:induction false} NobodyGaveUp(states: seq<System>, acts: seq<Action>, n: nat)
    requires IsRun(states, acts) && n < |states|
    requires forall m :: 0 <= m < |acts| ==> !acts[m].GiveUp?
    ensures AllReleasesComplete(states[n])
  {
    if n > 0 {
      NobodyGaveUp(states, acts, n - 1);
      assert StepAt(states, acts, n - 1);
      assert !acts[n - 1].GiveUp?;
    } else {
      assert forall i :: 0 <= i < |states[0]| ==> states[0][i] == Fresh(states[0][i].plan);
    }
  }

  // ---------------------------------------------------------------- the requests of a program

  /**
   Lists of these paths may be requested, with or without repeating one.  Processes sort them by `key`,
   and the lock of a path is `lockOf` of it: two paths may have one lock.
   */
  datatype Rules = Rules(paths: set<Path>, repeats: bool, key: Path -> nat, lockOf: Path -> Lock)

  function Locks(s: seq<Path>, lockOf: Path -> Lock): seq<Lock> {
    seq(|s|, i requires 0 <= i < |s| => lockOf(s[i]))
  }

  ghost predicate PlanFor(plan: seq<Lock>, request: seq<Path>, r: Rules) {
    && plan == Locks(SortByKey(request, r.key), r.lockOf)
    && (!r.repeats ==> NoDup(request))
    && forall p :: p in request ==> p in r.paths
  }

  ghost predicate Requested(plan: seq<Lock>, r: Rules) {
    exists request :: PlanFor(plan, request, r)
  }

  /** Everybody sorts by the same key: the situation the hierarchy creates. */
  ghost predicate SortedFrom(s: System, r: Rules) {
    forall i {:trigger Requested(s[i].plan, r)} :: 0 <= i < |s| ==> Requested(s[i].plan, r)
  }

  ghost predicate OneLockEach(paths: set<Path>, lockOf: Path -> Lock) {
    forall a, b {:trigger lockOf(a), lockOf(b)} :: a in paths && b in paths && lockOf(a) == lockOf(b) ==> a == b
  }

  /**
   What a caller has to look at: no ties, no two paths with one lock, and no repetition unless there is
   nothing to repeat.
   */
  ghost predicate Harmless(r: Rules) {
    && NoTies(r.paths, r.key)
    && OneLockEach(r.paths, r.lockOf)
    && (r.repeats ==> r.paths == {})
  }

  /** The key of the path a lock belongs to. */
  ghost function LockKey(r: Rules, lock: Lock): nat {
    if exists p :: p in r.paths && r.lockOf(p) == lock then
      var p :| p in r.paths && r.lockOf(p) == lock; r.key(p)
    else 0
  }

  ghost function ByLock(r: Rules): Lock -> nat {
    lock => LockKey(r, lock)
  }

  lemma KeyOfLock(r: Rules, p: Path)
    requires OneLockEach(r.paths, r.lockOf) && p in r.paths
    ensures ByLock(r)(r.lockOf(p)) == r.key(p)
  {
  }

  lemma SortedFromOrdered(s: System, r: Rules)
    requires SortedFrom(s, r) && Harmless(r)
    ensures Ordered(s, ByLock(r))
  {
    forall i | 0 <= i < |s| ensures StrictlySorted(s[i].plan, ByLock(r)) {
      assert Requested(s[i].plan, r);
      var request :| PlanFor(s[i].plan, request, r);
      PlanSorted(s[i].plan, request, r);
    }
  }

  lemma PlanSorted(plan: seq<Lock>, request: seq<Path>, r: Rules)
    requires PlanFor(plan, request, r) && Harmless(r)
    ensures StrictlySorted(plan, ByLock(r))
  {
    assert request == [] || request[0] in r.paths;
    SortStrict(request, r.paths, r.key);
    SortKeepsNoDup(request, r.key);
    var sorted := SortByKey(request, r.key);
    forall i | 0 <= i < |sorted| ensures ByLock(r)(plan[i]) == r.key(sorted[i]) {
      assert sorted[i] in Elems(sorted);
      KeyOfLock(r, sorted[i]);
    }
  }

  /**
   Under the rules, in every interleaving: no deadlock at any moment, and a run in which nobody times out
   and nobody can move any more has given every process all its locks and taken them all back.
   */
  lemma OrderedLockingIsLive(states: seq<System>, acts: seq<Action>, r: Rules)
    requires IsRun(states, acts) && SortedFrom(states[0], r) && Harmless(r)
    ensures NeverDeadlocked(states, acts)
    ensures var last := states[|acts|];
            && |last| == |states[0]|
            && ((forall m :: 0 <= m < |acts| ==> !acts[m].GiveUp?) && OnlyGiveUps(last)
                ==> forall i :: 0 <= i < |last| ==> last[i].released == last[i].taken == |states[0][i].plan|)
  {
    var key := ByLock(r);
    SortedFromOrdered(states[0], r);
    forall n | 0 <= n < |states| ensures Ordered(states[n], key) {
      RunKeepsPlans(states, acts, n);
      forall i | 0 <= i < |states[n]|
        ensures StrictlySorted(states[n][i].plan, key)
      {
        assert states[n][i].plan == states[0][i].plan;
      }
    }
    forall n, group | 0 <= n < |states| ensures !Deadlocked(states[n], group) {
      OrderPreventsDeadlock(states[n], group, key);
    }
    var last := states[|acts|];
    RunKeepsPlans(states, acts, |acts|);
    if (forall m :: 0 <= m < |acts| ==> !acts[m].GiveUp?) && OnlyGiveUps(last) {
      NobodyGaveUp(states, acts, |acts|);
      SomebodyMoves(last, key);
      forall i: nat | i < |last| ensures last[i].Finished() { assert i !in Unfinished(last); }
    }
  }

  ghost predicate DeadlockFree(r: Rules) {
    forall states, acts {:trigger IsRun(states, acts)} ::
      IsRun(states, acts) && SortedFrom(states[0], r) ==> NeverDeadlocked(states, acts)
  }

  ghost predicate NeverDeadlocked(states: seq<System>, acts: seq<Action>)
    requires IsRun(states, acts)
  {
    forall n, group :: 0 <= n < |states| ==> !Deadlocked(states[n], group)
  }

  /** One deadlock in one run is enough. */
  lemma DeadlockRefutes(states: seq<System>, acts: seq<Action>, n: nat, group: set<nat>, r: Rules)
    requires IsRun(states, acts) && SortedFrom(states[0], r)
    requires n < |states| && Deadlocked(states[n], group)
    ensures !DeadlockFree(r)
  {
    assert !NeverDeadlocked(states, acts);
  }

  /** Two tied paths keep the order of the request, so opposite requests end in each other's way. */
  lemma TiesDeadlock(a: Path, b: Path, r: Rules)
    requires a in r.paths && b in r.paths && a != b && r.key(a) == r.key(b)
    ensures !DeadlockFree(r)
  {
    if r.lockOf(a) == r.lockOf(b) {
      SharedLockDeadlocks(a, b, r);
    } else {
      TiedRequest(a, b, r);
      TiedRequest(b, a, r);
      CrossingDeadlocks(r.lockOf(a), r.lockOf(b), r);
    }
  }

  lemma CrossingDeadlocks(a: Lock, b: Lock, r: Rules)
    requires a != b && Requested([a, b], r) && Requested([b, a], r)
    ensures !DeadlockFree(r)
  {
    var states, acts := CrossedRun(a, b);
    CrossedRequests(states[0], a, b, r);
    DeadlockRefutes(states, acts, 2, {0, 1}, r);
  }

  lemma CrossedRequests(s: System, a: Lock, b: Lock, r: Rules)
    requires s == [Fresh([a, b]), Fresh([b, a])] && Requested([a, b], r) && Requested([b, a], r)
    ensures SortedFrom(s, r)
  {
    assert s[0].plan == [a, b] && s[1].plan == [b, a];
  }

  lemma TiedRequest(a: Path, b: Path, r: Rules)
    requires a in r.paths && b in r.paths && a != b && r.key(a) == r.key(b)
    ensures Requested([r.lockOf(a), r.lockOf(b)], r)
  {
    SortedPair(a, b, r.key);
    PairIsRequest(a, b, [a, b], r);
  }

  lemma PairIsRequest(a: Path, b: Path, request: seq<Path>, r: Rules)
    requires a in r.paths && b in r.paths && a != b && (request == [a, b] || request == [b, a])
    requires SortByKey(request, r.key) == [a, b]
    ensures PlanFor([r.lockOf(a), r.lockOf(b)], request, r)
  {
    NoDupPairs(request);
    assert Locks([a, b], r.lockOf) == [r.lockOf(a), r.lockOf(b)];
  }

  lemma SortedPair(a: Path, b: Path, key: Path -> nat)
    requires key(a) <= key(b)
    ensures SortByKey([a, b], key) == [a, b]
  {
    assert [a, b][..1] == [a] && [a][..0] == [];
    assert SortByKey([a], key) == [a];
  }

  lemma SortedSwap(a: Path, b: Path, key: Path -> nat)
    requires key(b) < key(a)
    ensures SortByKey([a, b], key) == [b, a]
  {
    assert [a, b][..1] == [a] && [a][..0] == [];
    assert SortByKey([a], key) == [a];
    assert InsertByKey([a], b, key) == InsertByKey([], b, key) + [a];
  }

  lemma TwoSteps(s: System, a: Action, b: Action)
    requires IsInitial(s) && Enabled(s, a) && Enabled(Apply(s, a), b)
    ensures IsRun([s, Apply(s, a), Apply(Apply(s, a), b)], [a, b])
  {
    var states, acts := [s, Apply(s, a), Apply(Apply(s, a), b)], [a, b];
    assert StepAt(states, acts, 0);
    assert StepAt(states, acts, 1);
  }

  /** Each of two processes takes what the other one wants next. */
  lemma CrossedRun(a: Lock, b: Lock) returns (states: seq<System>, acts: seq<Action>)
    requires a != b
    ensures IsRun(states, acts) && |states| == 3 && |acts| == 2
    ensures states[0] == [Fresh([a, b]), Fresh([b, a])]
    ensures Deadlocked(states[2], {0, 1})
  {
    var s: System := [Fresh([a, b]), Fresh([b, a])];
    TakeFirst(s, 0);
    var t := Apply(s, Acquire(0));
    assert t[0].Held() == [a];
    TakeFirst(t, 1);
    var u := Apply(t, Acquire(1));
    states, acts := [s, t, u], [Acquire(0), Acquire(1)];
    TwoSteps(s, Acquire(0), Acquire(1));
    CrossedPair(u, a, b);
  }

  lemma TakeFirst(s: System, i: nat)
    requires i < |s| && s[i] == Fresh(s[i].plan) && s[i].plan != []
    requires forall j :: 0 <= j < |s| && j != i ==> s[i].plan[0] !in s[j].Held()
    ensures Enabled(s, Acquire(i))
    ensures Apply(s, Acquire(i)) == s[i := Progress(s[i].plan, 1, 0, false)]
  {
  }

  lemma CrossedPair(s: System, a: Lock, b: Lock)
    requires s == [Progress([a, b], 1, 0, false), Progress([b, a], 1, 0, false)]
    ensures Deadlocked(s, {0, 1})
  {
    assert s[0].Held() == [a] && s[1].Held() == [b];
    assert a in s[0].Held() && b in s[1].Held();
    assert BlockedBy(s, 0, {0, 1});
    assert BlockedBy(s, 1, {0, 1});
  }

  // ---------------------------------------------------------------- a lock requested twice

  lemma RunGoesOn(states: seq<System>, acts: seq<Action>, a: Action)
    requires IsRun(states, acts) && Enabled(states[|acts|], a)
    ensures IsRun(states + [Apply(states[|acts|], a)], acts + [a])
  {
    var states', acts' := states + [Apply(states[|acts|], a)], acts + [a];
    forall n | 0 <= n < |acts'| ensures StepAt(states', acts', n) {
      if n < |acts| { assert StepAt(states, acts, n); }
    }
  }

  /** A process on its own takes its locks up to the first repetition. */
  lemma {:induction false} TakesAlone(plan: seq<Lock>, j: nat) returns (states: seq<System>, acts: seq<Action>)
    requires j <= |plan| && NoDup(plan[..j])
    ensures IsRun(states, acts) && states[0] == [Fresh(plan)] && states[|acts|] == [Progress(plan, j, 0, false)]
  {
    if j == 0 {
      states, acts := [[Fresh(plan)]], [];
    } else {
      assert plan[..j] == plan[..j - 1] + [plan[j - 1]];
      AppendFresh(plan[..j - 1], plan[j - 1]);
      states, acts := TakesAlone(plan, j - 1);
      var s: System := states[|acts|];
      assert s[0].Held() == plan[..j - 1];
      assert Free(s, s[0].Next());
      RunGoesOn(states, acts, Acquire(0));
      states, acts := states + [Apply(s, Acquire(0))], acts + [Acquire(0)];
    }
  }

  /** The first entry that occurred before. */
  lemma FirstRepetition(plan: seq<Lock>) returns (j: nat)
    requires !NoDup(plan)
    ensures j < |plan| && NoDup(plan[..j]) && plan[j] in plan[..j]
    decreases |plan|
  {
    var n := |plan| - 1;
    assert plan == plan[..n] + [plan[n]];
    AppendFresh(plan[..n], plan[n]);
    if NoDup(plan[..n]) {
      j := n;
    } else {
      j := FirstRepetition(plan[..n]);
      assert plan[..n][..j] == plan[..j];
    }
  }

  lemma RepetitionBlocks(plan: seq<Lock>) returns (states: seq<System>, acts: seq<Action>)
    requires !NoDup(plan)
    ensures IsRun(states, acts) && states[0] == [Fresh(plan)] && Deadlocked(states[|acts|], {0})
  {
    var j := FirstRepetition(plan);
    states, acts := TakesAlone(plan, j);
    var s: System := states[|acts|];
    assert s[0].Held() == plan[..j];
    assert BlockedBy(s, 0, {0});
  }

  lemma NotBlockedAlone(s: System, group: set<nat>)
    requires |s| == 1 && NoDup(s[0].plan)
    ensures !Deadlocked(s, group)
  {
    if s[0].Acquiring() {
      assert s[0].plan[s[0].taken] !in s[0].plan[..s[0].taken];
      assert s[0].Held() == s[0].plan[..s[0].taken];
      assert !BlockedBy(s, 0, group);
    }
    if i :| i in group { assert i == 0 || i >= |s|; }
  }

  lemma LocksRepeatIff(s: seq<Path>, lockOf: Path -> Lock)
    ensures NoDup(Locks(s, lockOf)) <==> NoDup(s) && OneLockEach(Elems(s), lockOf)
  {
    var locks := Locks(s, lockOf);
    NoDupPairs(s);
    NoDupPairs(locks);
    if NoDup(locks) {
      forall a, b | a in Elems(s) && b in Elems(s) && lockOf(a) == lockOf(b) ensures a == b {
        var i, j :| 0 <= i < |s| && 0 <= j < |s| && s[i] == a && s[j] == b;
        assert locks[i] == locks[j];
      }
      forall i, j | 0 <= i < j < |s| ensures s[i] != s[j] { assert locks[i] != locks[j]; }
    } else {
      var i, j :| 0 <= i < j < |s| && locks[i] == locks[j];
      assert s[i] in Elems(s) && s[j] in Elems(s) && lockOf(s[i]) == lockOf(s[j]);
    }
  }

  lemma SortedLocksRepeatIff(request: seq<Path>, key: Path -> nat, lockOf: Path -> Lock)
    ensures NoDup(Locks(SortByKey(request, key), lockOf)) <==> NoDup(Locks(request, lockOf))
  {
    LocksRepeatIff(request, lockOf);
    LocksRepeatIff(SortByKey(request, key), lockOf);
    SortKeepsNoDup(request, key);
  }

  /**
   One process alone is never in its own way, in any run, exactly when no two entries of its request
   have one lock.
   */
  lemma AloneIffNoRepeats(request: seq<Path>, key: Path -> nat, lockOf: Path -> Lock)
    ensures NoDup(Locks(request, lockOf)) <==>
            forall states, acts {:trigger IsRun(states, acts)} ::
              IsRun(states, acts) && states[0] == [Fresh(Locks(SortByKey(request, key), lockOf))]
              ==> NeverDeadlocked(states, acts)
  {
    var plan := Locks(SortByKey(request, key), lockOf);
    SortedLocksRepeatIff(request, key, lockOf);
    if NoDup(plan) {
      forall states, acts | IsRun(states, acts) && states[0] == [Fresh(plan)] ensures NeverDeadlocked(states, acts) {
        AloneNeverBlocked(states, acts, plan);
      }
    } else {
      var states, acts := RepetitionDeadlocks(plan);
    }
  }

  lemma RepetitionDeadlocks(plan: seq<Lock>) returns (states: seq<System>, acts: seq<Action>)
    requires !NoDup(plan)
    ensures IsRun(states, acts) && states[0] == [Fresh(plan)] && !NeverDeadlocked(states, acts)
  {
    states, acts := RepetitionBlocks(plan);
  }

  lemma AloneNeverBlocked(states: seq<System>, acts: seq<Action>, plan: seq<Lock>)
    requires IsRun(states, acts) && states[0] == [Fresh(plan)] && NoDup(plan)
    ensures NeverDeadlocked(states, acts)
  {
    forall n, group | 0 <= n < |states| ensures !Deadlocked(states[n], group) {
      RunKeepsPlans(states, acts, n);
      var s: System, t: System := states[0], states[n];
      assert t[0].plan == s[0].plan;
      NotBlockedAlone(t, group);
    }
  }

  /** A request that names one lock twice, as one path or as two, is enough. */
  lemma RepeatsDeadlock(request: seq<Path>, r: Rules)
    requires (r.repeats || NoDup(request)) && (forall p :: p in request ==> p in r.paths)
    requires !NoDup(Locks(request, r.lockOf))
    ensures !DeadlockFree(r)
  {
    var plan := Locks(SortByKey(request, r.key), r.lockOf);
    SortedLocksRepeatIff(request, r.key, r.lockOf);
    assert PlanFor(plan, request, r);
    assert Requested(plan, r);
    var states, acts := RepetitionBlocks(plan);
    DeadlockRefutes(states, acts, |acts|, {0}, r);
  }

  lemma SharedLockDeadlocks(a: Path, b: Path, r: Rules)
    requires a in r.paths && b in r.paths && (a != b || r.repeats) && r.lockOf(a) == r.lockOf(b)
    ensures !DeadlockFree(r)
  {
    var request := [a, b];
    NoDupPairs(request);
    NoDupPairs(Locks(request, r.lockOf));
    assert Locks(request, r.lockOf)[0] == Locks(request, r.lockOf)[1];
    RepeatsDeadlock(request, r);
  }

  lemma DeadlockFreeIffHarmless(r: Rules)
    ensures DeadlockFree(r) <==> Harmless(r)
  {
    if Harmless(r) {
      forall states, acts | IsRun(states, acts) && SortedFrom(states[0], r) ensures NeverDeadlocked(states, acts) {
        OrderedLockingIsLive(states, acts, r);
      }
    } else if !NoTies(r.paths, r.key) {
      var a, b :| a in r.paths && b in r.paths && r.key(a) == r.key(b) && a != b;
      TiesDeadlock(a, b, r);
    } else if !OneLockEach(r.paths, r.lockOf) {
      var a, b :| a in r.paths && b in r.paths && r.lockOf(a) == r.lockOf(b) && a != b;
      SharedLockDeadlocks(a, b, r);
    } else {
      var p :| p in r.paths;
      SharedLockDeadlocks(p, p, r);
    }
  }

  // ---------------------------------------------------------------- lock files

  /** `fileOf` is the file that the operating system opens under a name. */
  function LocksIn(fileOf: Path -> Lock): Path -> Lock {
    p => fileOf(LockFile(p))
  }

  function ProgramRules(paths: set<Path>, repeats: bool, levels: Levels, fileOf: Path -> Lock): Rules {
    Rules(paths, repeats, SortKey(levels), LocksIn(fileOf))
  }

  /**
   The hierarchy's order prevents deadlock in all runs of all systems with these requests exactly when
   no two of the paths tie, no two have the same lock file, and no request may repeat a path.
   */
  lemma DeadlockFreeIff(paths: set<Path>, repeats: bool, levels: Levels, fileOf: Path -> Lock)
    ensures DeadlockFree(ProgramRules(paths, repeats, levels, fileOf)) <==>
            && NoTies(paths, SortKey(levels))
            && (forall a, b :: a in paths && b in paths && fileOf(LockFile(a)) == fileOf(LockFile(b)) ==> a == b)
            && (repeats ==> paths == {})
  {
    DeadlockFreeIffHarmless(ProgramRules(paths, repeats, levels, fileOf));
    forall a, b ensures LocksIn(fileOf)(a) == LocksIn(fileOf)(b) <==> fileOf(LockFile(a)) == fileOf(LockFile(b)) {}
  }

  /** Where names of one file differ in spelling only, the lock files are told apart by the paths. */
  lemma LockFilesApartIff(paths: set<Path>, fileOf: Path -> Lock)
    requires forall p, q :: fileOf(p) == fileOf(q) <==> Components(p) == Components(q)
    ensures OneLockEach(paths, LocksIn(fileOf)) <==>
            forall a, b :: a in paths && b in paths && a != b ==>
              Components(a) != Components(b) && !StandIn(a, b) && !StandIn(b, a)
  {
    forall a, b
      ensures LocksIn(fileOf)(a) == LocksIn(fileOf)(b) <==>
              Components(a) == Components(b) || StandIn(a, b) || StandIn(b, a)
    {
      SameLockFileIff(a, b);
    }
  }

  /** Without levels only lengths matter. */
  lemma LengthsApart(a: Path, w: Path, b: Path)
    requires |a| < |w| < |b| < U32_RANGE
    ensures var key := SortKey(map[]); NoTies({a, w, b}, key) && key(a) == |a| && key(w) == |w| && key(b) == |b|
  {
    var key := SortKey(map[]);
    KeyIsLength(a);
    KeyIsLength(w);
    KeyIsLength(b);
    KeysApart(a, w, b, key);
  }

  lemma KeyIsLength(p: Path)
    requires |p| < U32_RANGE
    ensures SortKey(map[])(p) == |p|
  {
  }

  lemma KeysApart(a: Path, w: Path, b: Path, key: Path -> nat)
    requires key(a) < key(w) < key(b)
    ensures NoTies({a, w, b}, key)
  {
  }

  /**
   One process asks for a path and its stand-in, such as a and a.tmp: of different lengths, nothing
   repeated, and yet in its own way, because both have the lock file a.tmp.lock.
   */
  lemma StandInBlocksItself(name: Path, fileOf: Path -> Lock)
    requires '/' !in name && '.' !in name && name != "" && |name| < U32_RANGE - 5
    ensures LockFile(name) == LockFile(name + ".tmp") == name + ".tmp" + ".lock"
    ensures var r := ProgramRules({name, name + ".tmp"}, false, map[], fileOf);
            NoTies(r.paths, r.key) && !DeadlockFree(r)
  {
    StandInLock(name);
    LengthsApart(name, name + ".", name + ".tmp");
    SharedLockDeadlocks(name, name + ".tmp", ProgramRules({name, name + ".tmp"}, false, map[], fileOf));
  }

  /**
   One process asks for `a` and `w`, another for `b` and `w`.  If `a` and `b` have one lock file and `w` is
   longer than one spelling and shorter than the other, nothing ties, no request has one lock twice, and
   yet they take the same two files in opposite orders.
   */
  lemma SpellingsCross(a: Path, b: Path, w: Path, fileOf: Path -> Lock)
    requires |a| < |w| < |b| < U32_RANGE
    requires fileOf(LockFile(a)) == fileOf(LockFile(b)) != fileOf(LockFile(w))
    ensures var r := ProgramRules({a, w, b}, false, map[], fileOf);
            && NoTies(r.paths, r.key) && !DeadlockFree(r)
            && NoDup(Locks([a, w], r.lockOf)) && NoDup(Locks([b, w], r.lockOf))
            && exists states, acts :: CrossingRun(states, acts, [a, w], [b, w], r)
  {
    var r := ProgramRules({a, w, b}, false, map[], fileOf);
    LengthsApart(a, w, b);
    SortedPair(a, w, r.key);
    SortedSwap(b, w, r.key);
    PairIsRequest(a, w, [a, w], r);
    PairIsRequest(w, b, [b, w], r);
    CrossingDeadlocks(r.lockOf(a), r.lockOf(w), r);
    LocksApart(a, w, r.lockOf);
    LocksApart(b, w, r.lockOf);
    CrossesIn(a, b, w, r);
  }

  lemma LocksApart(a: Path, b: Path, lockOf: Path -> Lock)
    requires lockOf(a) != lockOf(b)
    ensures NoDup(Locks([a, b], lockOf))
  {
    NoDupPairs(Locks([a, b], lockOf));
  }

  lemma CrossesIn(a: Path, b: Path, w: Path, r: Rules)
    requires SortByKey([a, w], r.key) == [a, w] && SortByKey([b, w], r.key) == [w, b]
    requires r.lockOf(a) == r.lockOf(b) != r.lockOf(w)
    ensures exists states, acts :: CrossingRun(states, acts, [a, w], [b, w], r)
  {
    var states, acts := CrossedRun(r.lockOf(a), r.lockOf(w));
    PairLocks(a, w, r.lockOf);
    PairLocks(w, b, r.lockOf);
    assert CrossingRun(states, acts, [a, w], [b, w], r);
  }

  lemma PairLocks(a: Path, b: Path, lockOf: Path -> Lock)
    ensures Locks([a, b], lockOf) == [lockOf(a), lockOf(b)]
  {
  }

  /** Two processes with these requests end up waiting for each other. */
  ghost predicate CrossingRun(states: seq<System>, acts: seq<Action>, first: seq<Path>, second: seq<Path>, r: Rules) {
    && IsRun(states, acts) && Deadlocked(states[|acts|], {0, 1})
    && states[0] == [Fresh(Locks(SortByKey(first, r.key), r.lockOf)), Fresh(Locks(SortByKey(second, r.key), r.lockOf))]
  }

  /** Two spellings of one path and a path of a length between them, such as a/b, a///b and wxyz. */
  lemma TwoSpellings(dir: Path, name: Path, w: Path, fileOf: Path -> Lock)
    requires dir != "" && '/' !in name && IsName(name) && |w| == |dir| + |name| + 2 < U32_RANGE - 1
    requires (forall p, q :: Components(p) == Components(q) ==> fileOf(p) == fileOf(q))
    requires fileOf(LockFile(w)) != fileOf(LockFile(dir + "/" + name))
    ensures var a, b := dir + "/" + name, dir + "///" + name;
            exists states, acts ::
              CrossingRun(states, acts, [a, w], [b, w], ProgramRules({a, w, b}, false, map[], fileOf))
  {
    SlashesDoNotCount(dir, name);
    SpellingsCross(dir + "/" + name, dir + "///" + name, w, fileOf);
  }
}
