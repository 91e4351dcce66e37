/**
 The change detector: a bounded cache of what each file looked like when it was last recorded.  A
 file counts as changed when it is missing, was reported by the watcher, is not in the cache, or
 differs from its entry in modification time or size.  Each check reads the clock once.
 */
module FileChangeDetectors {
  import opened Wrappers
  import opened Graphs
  import opened StableSorting
  import opened PathNames

  /** A path stands for all its spellings here; `content` is `None` when the file cannot be read. */
  datatype FileState = FileState(mtime: nat, size: nat, content: Option<string>)

  type FileSystem = map<Path, FileState>

  datatype CachedFileInfo = CachedFileInfo(hash: string, mtime: nat, size: nat, cachedAt: nat)

  type Cache = map<Path, CachedFileInfo>

  datatype Config = Config(watchFilesystem: bool, cacheSize: nat, forceRefresh: bool, hashLargeFiles: bool,
                           largeFileThreshold: nat)

  /** The digest of a content, and the one of name, size and time that stands in for it. */
  datatype Digests = Digests(ofContent: string -> string, ofMetadata: (Path, nat, nat) -> string)

  const RETENTION_SECS: nat := 3600

  function Cutoff(now: nat): nat {
    if now >= RETENTION_SECS then now - RETENTION_SECS else 0
  }

  function Young(cache: Cache, now: nat): Cache {
    map p | p in cache && cache[p].cachedAt > Cutoff(now) :: cache[p]
  }

  ghost predicate SubCache(part: Cache, whole: Cache) {
    forall p {:trigger p in part} :: p in part ==> p in whole && part[p] == whole[p]
  }

  /** No entry that is dropped is newer than one that is kept. */
  ghost predicate DropsOldest(before: Cache, after: Cache) {
    forall d, k :: d in before && d !in after && k in after && k in before ==> before[d].cachedAt <= before[k].cachedAt
  }

  /** What eviction may do: nothing up to the limit; above it, drop what is old and then the oldest. */
  ghost predicate Evicted(before: Cache, after: Cache, limit: nat, now: nat) {
    if |before| <= limit then after == before
    else
      && SubCache(after, Young(before, now)) && DropsOldest(before, after)
      && |after| == if |Young(before, now)| <= limit then |Young(before, now)| else limit
  }

  ghost predicate Recorded(before: Cache, file: Path, info: CachedFileInfo, limit: nat, now: nat, after: Cache) {
    exists mid: Cache :: Evicted(before, mid, limit, now) && after == mid[file := info]
  }

  datatype Answer = Changed | Unchanged | Failed

  datatype World = World(config: Config, digests: Digests, fs: FileSystem, watched: set<Path>)

  predicate Matches(info: CachedFileInfo, f: FileState) {
    info.mtime == f.mtime && info.size == f.size
  }

  predicate Watched(w: World, file: Path) {
    w.config.watchFilesystem && file in w.watched
  }

  /** Large files are not read unless the configuration says so. */
  predicate HashesContent(config: Config, f: FileState) {
    config.hashLargeFiles || f.size <= config.largeFileThreshold
  }

  predicate CanDescribe(config: Config, f: FileState) {
    HashesContent(config, f) ==> f.content.Some?
  }

  function InfoOf(config: Config, digests: Digests, file: Path, f: FileState, now: nat): CachedFileInfo
    requires CanDescribe(config, f)
  {
    var hash := if HashesContent(config, f) then digests.ofContent(f.content.value)
                else digests.ofMetadata(file, f.size, f.mtime);
    CachedFileInfo(hash, f.mtime, f.size, now)
  }

  /** One check: its answer and what it does to the cache. */
  ghost predicate Checks(w: World, now: nat, file: Path, before: Cache, r: Answer, after: Cache) {
    if file !in w.fs || Watched(w, file) then r == Changed && after == before
    else if !CanDescribe(w.config, w.fs[file]) then r == Failed && after == before
    else if file in before && Matches(before[file], w.fs[file]) then r == Unchanged && after == before
    else
      var info := InfoOf(w.config, w.digests, file, w.fs[file], now);
      r == Changed && Recorded(before, file, info, w.config.cacheSize, now, after)
  }

  // ---------------------------------------------------------------- one check

  lemma EvictedBound(before: Cache, after: Cache, limit: nat, now: nat)
    requires Evicted(before, after, limit, now)
    ensures |after| <= limit
    ensures SubCache(after, before)
  {
  }

  /** The entries recorded within the last hour. */
  ghost function Fresh(cache: Cache, now: nat): set<Path> {
    set p | p in cache && cache[p].cachedAt > 0 && cache[p].cachedAt + 3600 > now
  }

  /**
   Above the limit nothing older than an hour survives; and if no more than the limit are younger, they
   all do, unchanged.
   */
  lemma FreshSurvive(before: Cache, after: Cache, limit: nat, now: nat)
    requires Evicted(before, after, limit, now) && |before| > limit
    ensures after.Keys <= Fresh(before, now)
    ensures |Fresh(before, now)| <= limit ==>
              after.Keys == Fresh(before, now) && forall p :: p in after ==> after[p] == before[p]
    ensures |Fresh(before, now)| > limit ==> |after| == limit
  {
    var young := Young(before, now);
    assert young.Keys == Fresh(before, now);
    assert |young.Keys| == |young| && |after.Keys| == |after|;
    forall p | p in after ensures p in young && after[p] == young[p] { assert p in after; }
    if |young| <= limit { SubsetCard(after.Keys, young.Keys); }
  }

  lemma RecordedBound(before: Cache, file: Path, info: CachedFileInfo, limit: nat, now: nat, after: Cache)
    requires Recorded(before, file, info, limit, now, after)
    ensures |after| <= limit + 1 && file in after && after[file] == info
    ensures forall p :: p in after && p != file ==> p in before && after[p] == before[p]
  {
    var mid: Cache :| Evicted(before, mid, limit, now) && after == mid[file := info];
    EvictedBound(before, mid, limit, now);
  }

  /** Every entry is what was last recorded for its file. */
  ghost predicate Remembers(recorded: map<Path, (nat, nat)>, cache: Cache) {
    forall p {:trigger cache[p]} :: p in cache ==> p in recorded && recorded[p] == (cache[p].mtime, cache[p].size)
  }

  lemma RecordedRemembers(before: Cache, file: Path, info: CachedFileInfo, limit: nat, now: nat, after: Cache,
                          recorded: map<Path, (nat, nat)>)
    requires Recorded(before, file, info, limit, now, after) && Remembers(recorded, before)
    ensures Remembers(recorded[file := (info.mtime, info.size)], after)
  {
    RecordedBound(before, file, info, limit, now, after);
  }

  /** The bound that really holds is one more than the configured size. */
  lemma CheckKeepsBound(w: World, now: nat, file: Path, before: Cache, r: Answer, after: Cache)
    requires Checks(w, now, file, before, r, after) && |before| <= w.config.cacheSize + 1
    ensures |after| <= w.config.cacheSize + 1
  {
    if after != before {
      RecordedBound(before, file, InfoOf(w.config, w.digests, file, w.fs[file], now), w.config.cacheSize, now, after);
    }
  }

  // ---------------------------------------------------------------- runs over lists of files

  /** The checks of one run, file by file: the cache between them and their answers. */
  datatype Run = Run(caches: seq<Cache>, answers: seq<Answer>)

  ghost predicate CheckAt(w: World, clock: nat -> nat, files: seq<Path>, run: Run, i: nat)
    requires i < |files| && |run.answers| == |files| && |run.caches| == |files| + 1
  {
    Checks(w, clock(i), files[i], run.caches[i], run.answers[i], run.caches[i + 1])
  }

  ghost predicate IsRun(w: World, clock: nat -> nat, files: seq<Path>, run: Run) {
    && |run.answers| == |files| && |run.caches| == |files| + 1
    && forall i {:trigger CheckAt(w, clock, files, run, i)} :: 0 <= i < |files| ==> CheckAt(w, clock, files, run, i)
  }

  function Reported(files: seq<Path>, answers: seq<Answer>): seq<Path>
    requires |files| == |answers|
  {
    if files == [] then []
    else
      var n := |files| - 1;
      var before := Reported(files[..n], answers[..n]);
      if answers[n].Changed? then before + [files[n]] else before
  }

  ghost predicate AllCached(w: World, files: seq<Path>, cache: Cache) {
    forall i {:trigger files[i]} :: 0 <= i < |files| ==>
        files[i] in w.fs && files[i] in cache && Matches(cache[files[i]], w.fs[files[i]])
  }

  /** Nothing that makes a file count as changed whatever the cache holds. */
  predicate Quiet(w: World, files: seq<Path>) {
    forall i {:trigger files[i]} :: 0 <= i < |files| ==> files[i] in w.fs && !Watched(w, files[i])
  }

  predicate NoFailures(run: Run) {
    forall i :: 0 <= i < |run.answers| ==> !run.answers[i].Failed?
  }

  /** While the distinct files fit, a run from the empty cache evicts nothing and records every file. */
  lemma {:induction false} FirstRunRecords(w: World, clock: nat -> nat, files: seq<Path>, run: Run, n: nat)
    requires IsRun(w, clock, files, run) && run.caches[0] == map[] && n <= |files|
    requires Quiet(w, files) && NoFailures(run) && |Elems(files)| <= w.config.cacheSize + 1
    ensures AllCached(w, files[..n], run.caches[n]) && run.caches[n].Keys == Elems(files[..n])
  {
    if n > 0 {
      FirstRunRecords(w, clock, files, run, n - 1);
      assert CheckAt(w, clock, files, run, n - 1);
      OneFileMore(files, n);
      StepRecords(w, clock(n - 1), files, n - 1, run.caches[n - 1], run.answers[n - 1], run.caches[n]);
    }
  }

  lemma OneFileMore(files: seq<Path>, n: nat)
    requires 0 < n <= |files|
    ensures files[..n] == files[..n - 1] + [files[n - 1]]
  {
  }

  lemma StepRecords(w: World, now: nat, files: seq<Path>, i: nat, before: Cache, r: Answer, after: Cache)
    requires i < |files| && Quiet(w, files) && |Elems(files)| <= w.config.cacheSize + 1
    requires Checks(w, now, files[i], before, r, after) && !r.Failed?
    requires AllCached(w, files[..i], before) && before.Keys == Elems(files[..i])
    ensures AllCached(w, files[..i] + [files[i]], after) && after.Keys == Elems(files[..i] + [files[i]])
  {
    var file := files[i];
    assert files[i] in w.fs && !Watched(w, files[i]);
    if file in before {
      var j :| 0 <= j < i && files[..i][j] == file;
      assert Matches(before[file], w.fs[file]);
    } else {
      FitsBefore(files, i);
      assert |before| == |before.Keys|;
      assert after == before[file := InfoOf(w.config, w.digests, file, w.fs[file], now)];
    }
  }

  lemma FitsBefore(files: seq<Path>, i: nat)
    requires i < |files| && files[i] !in files[..i]
    ensures |Elems(files[..i])| < |Elems(files)|
  {
    assert Elems(files[..i]) + {files[i]} <= Elems(files);
    SubsetCard(Elems(files[..i]) + {files[i]}, Elems(files));
  }

  /** A run in which everything is cached changes nothing and reports nothing. */
  lemma {:induction false} QuietRun(w: World, clock: nat -> nat, files: seq<Path>, run: Run, n: nat)
    requires IsRun(w, clock, files, run) && n <= |files| && NoFailures(run)
    requires AllCached(w, files, run.caches[0]) && Quiet(w, files)
    ensures run.caches[n] == run.caches[0] && forall i :: 0 <= i < n ==> run.answers[i] == Unchanged
  {
    if n > 0 {
      QuietRun(w, clock, files, run, n - 1);
      assert CheckAt(w, clock, files, run, n - 1);
      assert files[n - 1] in w.fs;
    }
  }

  /** Conversely, when nothing is reported the cache did not move and held every file. */
  lemma {:induction false} NothingReported(w: World, clock: nat -> nat, files: seq<Path>, run: Run, n: nat)
    requires IsRun(w, clock, files, run) && n <= |files|
    requires forall i :: 0 <= i < |files| ==> run.answers[i] == Unchanged
    ensures run.caches[n] == run.caches[0] && AllCached(w, files[..n], run.caches[0]) && Quiet(w, files[..n])
  {
    if n > 0 {
      NothingReported(w, clock, files, run, n - 1);
      assert CheckAt(w, clock, files, run, n - 1);
      assert files[..n] == files[..n - 1] + [files[n - 1]];
    }
  }

  lemma {:induction false} RunKeepsBound(w: World, clock: nat -> nat, files: seq<Path>, run: Run, n: nat)
    requires IsRun(w, clock, files, run) && n <= |files| && |run.caches[0]| <= w.config.cacheSize + 1
    ensures |run.caches[n]| <= w.config.cacheSize + 1
  {
    if n > 0 {
      RunKeepsBound(w, clock, files, run, n - 1);
      assert CheckAt(w, clock, files, run, n - 1);
      CheckKeepsBound(w, clock(n - 1), files[n - 1], run.caches[n - 1], run.answers[n - 1], run.caches[n]);
    }
  }

  lemma {:induction false} ReportedNothing(files: seq<Path>, answers: seq<Answer>)
    requires |files| == |answers| && forall i :: 0 <= i < |answers| ==> !answers[i].Failed?
    ensures Reported(files, answers) == [] <==> forall i :: 0 <= i < |answers| ==> answers[i] == Unchanged
  {
    if files != [] { ReportedNothing(files[..|files| - 1], answers[..|files| - 1]); }
  }

  /**
   Two runs over the same files, starting from the empty cache, with nothing changed in between: the
   second reports nothing exactly when every file exists, the watcher named none of them, and there are
   at most `cacheSize` + 1 different ones; whatever the clock does.
   */
  lemma SecondRunIsQuiet(w: World, clock1: nat -> nat, clock2: nat -> nat, files: seq<Path>, first: Run, second: Run)
    requires IsRun(w, clock1, files, first) && first.caches[0] == map[] && NoFailures(first)
    requires IsRun(w, clock2, files, second) && second.caches[0] == first.caches[|files|] && NoFailures(second)
    ensures Reported(files, second.answers) == [] <==> Quiet(w, files) && |Elems(files)| <= w.config.cacheSize + 1
  {
    ReportedNothing(files, second.answers);
    assert files[..|files|] == files;
    if Quiet(w, files) && |Elems(files)| <= w.config.cacheSize + 1 {
      FirstRunRecords(w, clock1, files, first, |files|);
      QuietRun(w, clock2, files, second, |files|);
    }
    if forall i :: 0 <= i < |files| ==> second.answers[i] == Unchanged {
      NothingReported(w, clock2, files, second, |files|);
      RunKeepsBound(w, clock1, files, first, |files|);
      var cache := second.caches[0];
      assert Elems(files) <= cache.Keys;
      SubsetCard(Elems(files), cache.Keys);
      assert |cache.Keys| == |cache|;
    }
  }

  // ---------------------------------------------------------------- the detector

  function Age(cache: Cache): Path -> nat {
    (p: Path) => if p in cache then cache[p].cachedAt else 0
  }

  /** Taking the first entries of a list sorted by age leaves nothing older than what was taken. */
  lemma TakingOldest(cache: Cache, sorted: seq<Path>, n: nat, left: Cache)
    requires Sorted(sorted, Age(cache)) && Elems(sorted) == cache.Keys && n <= |sorted|
    requires SubCache(left, cache) && left.Keys == cache.Keys - Elems(sorted[..n])
    ensures DropsOldest(cache, left)
  {
    forall d, k | d in cache && d !in left && k in left && k in cache ensures cache[d].cachedAt <= cache[k].cachedAt {
      assert d in Elems(sorted[..n]) && k in Elems(sorted);
      var i :| 0 <= i < n && sorted[..n][i] == d;
      var j :| 0 <= j < |sorted| && sorted[j] == k;
      assert forall m :: 0 <= m < n ==> sorted[m] in Elems(sorted[..n]);
      assert Age(cache)(sorted[i]) <= Age(cache)(sorted[j]);
    }
  }

  /** Old entries first, then the oldest of the rest: never something newer than what stays. */
  lemma OldThenOldest(before: Cache, now: nat, after: Cache)
    requires SubCache(after, Young(before, now)) && DropsOldest(Young(before, now), after)
    ensures DropsOldest(before, after)
  {
  }

  function Extended(run: Run, answer: Answer, after: Cache): Run {
    Run(run.caches + [after], run.answers + [answer])
  }

  /** A run goes on with one more check, starting from where it stopped. */
  lemma ExtendRun(w: World, clock: nat -> nat, files: seq<Path>, n: nat, run: Run, answer: Answer, after: Cache)
    requires n < |files| && IsRun(w, clock, files[..n], run)
    requires Checks(w, clock(n), files[n], run.caches[n], answer, after)
    ensures IsRun(w, clock, files[..n + 1], Extended(run, answer, after))
    ensures Extended(run, answer, after).caches[n + 1] == after
        && Extended(run, answer, after).caches[0] == run.caches[0]
    ensures Reported(files[..n + 1], Extended(run, answer, after).answers) ==
              if answer.Changed? then Reported(files[..n], run.answers) + [files[n]]
                  else Reported(files[..n], run.answers)
    ensures NoFailures(Extended(run, answer, after)) <==> NoFailures(run) && !answer.Failed?
  {
    var longer, more := Extended(run, answer, after), files[..n + 1];
    assert more[..n] == files[..n] && longer.answers[..n] == run.answers;
    forall i: nat | i < n + 1 ensures CheckAt(w, clock, more, longer, i) {
      if i < n { assert CheckAt(w, clock, files[..n], run, i); }
    }
    assert longer.answers[n] == answer;
    forall i | 0 <= i < n ensures longer.answers[i] == run.answers[i] {}
  }

  // ---------------------------------------------------------------- what "unchanged" says about the content

  /**
   A file is checked for the first time, becomes `state`, and is checked again, with any checks of other
   files in between that leave its entry alone: `between` is the cache when the second check begins.
   */
  datatype TwoChecks = TwoChecks(
    w: World, file: Path, before: Cache, now: nat, first: Cache,
    state: FileState, between: Cache, later: nat, answer: Answer, after: Cache) {
    predicate HasStart() {
      file in w.fs && CanDescribe(w.config, w.fs[file]) && !Watched(w, file) && file !in before
    }

    function Start(): FileState
      requires HasStart()
    {
      w.fs[file]
    }

    ghost predicate Happens() {
      && HasStart() && CanDescribe(w.config, state)
      && Checks(w, now, file, before, Changed, first)
      && file in between && file in first && between[file] == first[file]
      && Checks(w.(fs := w.fs[file := state]), later, file, between, answer, after)
    }
  }

  /** The second check looks at time and size only, whatever became of the content. */
  lemma SecondCheckIgnoresContent(c: TwoChecks)
    requires c.Happens()
    ensures c.answer == if c.state.mtime == c.Start().mtime && c.state.size == c.Start().size then Unchanged
        else Changed
  {
    var info := InfoOf(c.w.config, c.w.digests, c.file, c.Start(), c.now);
    RecordedBound(c.before, c.file, info, c.w.config.cacheSize, c.now, c.first);
  }

  /** Among the states a file may be in and be checked in, time and size tell contents apart. */
  ghost predicate Distinguishes(config: Config, possible: FileState -> bool) {
    forall a, b :: possible(a) && possible(b) && CanDescribe(config, a) && CanDescribe(config, b) ==>
      (a.mtime == b.mtime && a.size == b.size ==> a.content == b.content)
  }

  /** Whichever of these states the file is in at the two checks, "unchanged" is said only of the same content. */
  ghost predicate UnchangedIsRight(config: Config, digests: Digests, possible: FileState -> bool) {
    forall c: TwoChecks {:trigger c.Happens()} ::
      c.Happens() && c.w.config == config && c.w.digests == digests ==>
        (possible(c.Start()) && possible(c.state) && c.answer.Unchanged? ==> c.state.content == c.Start().content)
  }

  /**
   "Unchanged" can be trusted exactly for files that never change content without changing time or size,
   under every configuration: whether the content is hashed makes no difference.
   */
  lemma UnchangedIsRightIff(config: Config, digests: Digests, possible: FileState -> bool)
    ensures UnchangedIsRight(config, digests, possible) <==> Distinguishes(config, possible)
  {
    if Distinguishes(config, possible) {
      forall c: TwoChecks | c.Happens() && c.w.config == config && c.w.digests == digests
        ensures possible(c.Start()) && possible(c.state) && c.answer.Unchanged? ==> c.state.content == c.Start().content
      {
        SecondCheckIgnoresContent(c);
      }
    } else {
      var a, b :| possible(a) && possible(b) && CanDescribe(config, a) && CanDescribe(config, b) &&
                  a.mtime == b.mtime && a.size == b.size && a.content != b.content;
      var c := UnseenChange(config, digests, a, b);
      assert c.Happens() && possible(c.Start()) && possible(c.state);
    }
  }

  /** The content changes, time and size do not, and the second check says "unchanged". */
  lemma UnseenChange(config: Config, digests: Digests, a: FileState, b: FileState) returns (c: TwoChecks)
    requires CanDescribe(config, a) && CanDescribe(config, b) && a.mtime == b.mtime && a.size == b.size
    ensures c.Happens() && c.Start() == a && c.state == b && c.answer.Unchanged?
    ensures c.w.config == config && c.w.digests == digests
  {
    var file := "file";
    var w := World(config, digests, map[file := a], {});
    var empty: Cache := map[];
    var info := InfoOf(config, digests, file, a, 0);
    var first: Cache := map[file := info];
    assert Recorded(empty, file, info, config.cacheSize, 0, first) by {
      assert Evicted(empty, empty, config.cacheSize, 0) && first == empty[file := info];
    }
    c := TwoChecks(w, file, empty, 0, first, b, first, 0, Unchanged, first);
  }

  class FileChangeDetector {
    const config: Config
    const digests: Digests
    var fileCache: Cache
    var changedFiles: set<Path>
    ghost var recorded: map<Path, (nat, nat)>   // time and size at the last recording of each file

    ghost predicate Valid()
      reads this
    {
      && |fileCache| <= config.cacheSize + 1
      && Remembers(recorded, fileCache)
    }

    constructor (config: Config, digests: Digests)
      ensures Valid() && this.config == config && this.digests == digests
      ensures fileCache == map[] && changedFiles == {} && recorded == map[]
    {
      this.config, this.digests := config, digests;
      fileCache, changedFiles, recorded := map[], {}, map[];
    }

    function WorldOf(fs: FileSystem): World
      reads this
    {
      World(config, digests, fs, changedFiles)
    }

    /** Answers as `Checks` says; "unchanged" moreover means: as it was when last recorded. */
    method HasFileChanged(fs: FileSystem, file: Path, now: nat) returns (r: Answer)
      requires Valid()
      modifies this`fileCache, this`recorded
      ensures Valid()
      ensures Checks(WorldOf(fs), now, file, old(fileCache), r, fileCache)
      ensures r.Unchanged? ==>
          file in fs && file in recorded && recorded == old(recorded)
              && recorded[file] == (fs[file].mtime, fs[file].size)
    {
      if file !in fs { return Changed; }
      if config.watchFilesystem && file in changedFiles { return Changed; }
      var described := CreateCachedFileInfo(file, fs[file], now);
      if described.None? { return Failed; }
      var info := described.value;
      if file in fileCache && info.mtime == fileCache[file].mtime && info.size == fileCache[file].size {
        return Unchanged;
      }
      UpdateFileCache(file, info, now);
      r := Changed;
    }

    /** Large files are not read, unless the configuration says so; any other file has to be. */
    method CreateCachedFileInfo(file: Path, f: FileState, now: nat) returns (info: Option<CachedFileInfo>)
      ensures info.Some? <==> CanDescribe(config, f)
      ensures info.Some? ==> info.value == InfoOf(config, digests, file, f, now)
    {
      if config.hashLargeFiles || f.size <= config.largeFileThreshold {
        if f.content.None? { return None; }
        info := Some(CachedFileInfo(digests.ofContent(f.content.value), f.mtime, f.size, now));
      } else {
        info := Some(CachedFileInfo(digests.ofMetadata(file, f.size, f.mtime), f.mtime, f.size, now));
      }
    }

    method UpdateFileCache(file: Path, info: CachedFileInfo, now: nat)
      requires Valid()
      modifies this`fileCache, this`recorded
      ensures Valid()
      ensures Recorded(old(fileCache), file, info, config.cacheSize, now, fileCache)
      ensures recorded == old(recorded)[file := (info.mtime, info.size)]
    {
      if |fileCache| >= config.cacheSize {
        EvictOldEntries(now);
      }
      ghost var mid := fileCache;
      fileCache := fileCache[file := info];
      assert Recorded(old(fileCache), file, info, config.cacheSize, now, fileCache) by {
        assert Evicted(old(fileCache), mid, config.cacheSize, now) && fileCache == mid[file := info];
      }
      RecordedBound(old(fileCache), file, info, config.cacheSize, now, fileCache);
      RecordedRemembers(old(fileCache), file, info, config.cacheSize, now, fileCache, recorded);
      recorded := recorded[file := (info.mtime, info.size)];
    }

    method EvictOldEntries(now: nat)
      modifies this`fileCache
      ensures Evicted(old(fileCache), fileCache, config.cacheSize, now)
      ensures SubCache(fileCache, old(fileCache))
    {
      if |fileCache| <= config.cacheSize { return; }
      DropOld(now);
      if |fileCache| > config.cacheSize {
        RemoveOldest(|fileCache| - config.cacheSize);
        OldThenOldest(old(fileCache), now, fileCache);
      }
    }

    /** Drops what was recorded more than an hour ago. */
    method DropOld(now: nat)
      modifies this`fileCache
      ensures fileCache == Young(old(fileCache), now)
    {
      var cutoff := if now >= 3600 then now - 3600 else 0;
      fileCache := map p | p in fileCache && fileCache[p].cachedAt > cutoff :: fileCache[p];
    }

    method RemoveOldest(count: nat)
      requires count <= |fileCache|
      modifies this`fileCache
      ensures SubCache(fileCache, old(fileCache)) && DropsOldest(old(fileCache), fileCache)
      ensures |fileCache| == |old(fileCache)| - count
    {
      var sorted := PathsByAge();
      ghost var cache := fileCache;
      RemoveFirst(sorted, count);
      TakingOldest(cache, sorted, count, fileCache);
    }

    method RemoveFirst(sorted: seq<Path>, count: nat)
      requires count <= |sorted| && NoDup(sorted) && Elems(sorted) == fileCache.Keys
      modifies this`fileCache
      ensures SubCache(fileCache, old(fileCache)) && fileCache.Keys == old(fileCache).Keys - Elems(sorted[..count])
      ensures |fileCache| == |old(fileCache)| - count
    {
      ghost var cache := fileCache;
      assert Elems(sorted[..0]) == {};
      for i := 0 to count
        invariant SubCache(fileCache, cache) && fileCache.Keys == cache.Keys - Elems(sorted[..i])
        invariant |fileCache| == |cache| - i
      {
        RemoveNext(cache, sorted, i);
      }
    }

    method PathsByAge() returns (sorted: seq<Path>)
      ensures NoDup(sorted) && Elems(sorted) == fileCache.Keys && |sorted| == |fileCache|
      ensures Sorted(sorted, Age(fileCache))
    {
      var entries := Paths();
      sorted := SortByKey(entries, Age(fileCache));
      SortKeepsNoDup(entries, Age(fileCache));
    }

    method RemoveNext(ghost cache: Cache, sorted: seq<Path>, i: nat)
      requires i < |sorted| && NoDup(sorted) && Elems(sorted) == cache.Keys
      requires SubCache(fileCache, cache) && fileCache.Keys == cache.Keys - Elems(sorted[..i])
      modifies this`fileCache
      ensures SubCache(fileCache, cache) && fileCache.Keys == cache.Keys - Elems(sorted[..i + 1])
      ensures |fileCache| == |old(fileCache)| - 1
    {
      assert sorted[i] !in sorted[..i];
      assert sorted[..i + 1] == sorted[..i] + [sorted[i]];
      assert sorted[i] in Elems(sorted) && sorted[i] !in Elems(sorted[..i]);
      assert sorted[i] in fileCache.Keys;
      assert (fileCache - {sorted[i]}).Keys == fileCache.Keys - {sorted[i]};
      assert |fileCache.Keys| == |fileCache|;
      fileCache := fileCache - {sorted[i]};
      assert |fileCache.Keys| == |fileCache|;
    }

    /** The cached paths in an arbitrary order. */
    method Paths() returns (entries: seq<Path>)
      ensures NoDup(entries) && Elems(entries) == fileCache.Keys && |entries| == |fileCache|
    {
      entries := [];
      var todo := fileCache.Keys;
      while todo != {}
        invariant NoDup(entries) && Elems(entries) !! todo && Elems(entries) + todo == fileCache.Keys
      {
        var p :| p in todo;
        todo := todo - {p};
        AppendFresh(entries, p);
        assert Elems(entries + [p]) == Elems(entries) + {p};
        entries := entries + [p];
      }
      DistinctCount(entries);
      assert |fileCache.Keys| == |fileCache|;
    }

    /** The check of the next file, which makes the run one longer. */
    method CheckNext(fs: FileSystem, files: seq<Path>, clock: nat -> nat, n: nat, ghost before: Run)
      returns (answer: Answer, ghost run: Run)
      requires Valid() && n < |files| && IsRun(WorldOf(fs), clock, files[..n], before) && before.caches[n] == fileCache
      modifies this`fileCache, this`recorded
      ensures Valid() && IsRun(WorldOf(fs), clock, files[..n + 1], run)
      ensures run.caches[n + 1] == fileCache && run.caches[0] == before.caches[0]
      ensures |run.answers| == n + 1 && run.answers[n] == answer
      ensures NoFailures(run) <==> NoFailures(before) && !answer.Failed?
      ensures Reported(files[..n + 1], run.answers) ==
                if answer.Changed? then Reported(files[..n], before.answers) + [files[n]]
                else Reported(files[..n], before.answers)
    {
      answer := HasFileChanged(fs, files[n], clock(n));
      ExtendRun(WorldOf(fs), clock, files, n, before, answer, fileCache);
      run := Extended(before, answer, fileCache);
    }

    /** The files that changed, in order, by one check each; the first failure ends the run. */
    method GetChangedFiles(fs: FileSystem, files: seq<Path>, clock: nat -> nat)
      returns (r: Option<seq<Path>>, ghost run: Run, checked: nat)
      requires Valid()
      modifies this`fileCache, this`recorded
      ensures Valid()
      ensures config.forceRefresh ==> r == Some(files) && fileCache == old(fileCache)
      ensures !config.forceRefresh ==>
                && checked <= |files| && IsRun(WorldOf(fs), clock, files[..checked], run)
                && run.caches[0] == old(fileCache) && run.caches[checked] == fileCache
      ensures !config.forceRefresh && r.Some? ==>
          checked == |files| && NoFailures(run) && r.value == Reported(files, run.answers)
      ensures !config.forceRefresh && r.None? ==> checked > 0 && run.answers[checked - 1].Failed?
    {
      run, checked := Run([fileCache], []), 0;
      if config.forceRefresh { return Some(files), run, checked; }
      var changed := [];
      while checked < |files|
        invariant Valid() && checked <= |files| && IsRun(WorldOf(fs), clock, files[..checked], run) && NoFailures(run)
        invariant run.caches[0] == old(fileCache) && run.caches[checked] == fileCache
        invariant changed == Reported(files[..checked], run.answers)
      {
        var answer;
        answer, run := CheckNext(fs, files, clock, checked, run);
        checked := checked + 1;
        if answer.Failed? { return None, run, checked; }
        if answer.Changed? { changed := changed + [files[checked - 1]]; }
      }
      assert files[..checked] == files;
      r := Some(changed);
    }
  }
}
