/**
 The task scheduler with bounded local queues, one shared overflow queue and atomic counters.
 Submitters and workers interleave freely: pushing a task, counting it as pending and counting it as
 submitted are three steps, taking it is one, and counting it off and counting its result are two.
 A token stands for one submission; task ids play no part here and may repeat.  The scheduler does
 not check what is marked, so a task can be marked that nobody holds: such a stray mark gets a
 token of its own.
 */
module LockFreeSchedulers {
  import opened Wrappers
  import opened Graphs

  const WORD: nat := 0x1_0000_0000_0000_0000

  datatype Place =
    | InHand                       // the local queue was full, not yet in the shared queue
    | InLocal(queue: nat)
    | InGlobal
    | Taken(worker: nat)
    | Marking(ok: bool)            // no longer pending, result not yet counted
    | Done(ok: bool)

  /** How far the submission is; `Never` is a stray mark. */
  datatype Submission = Uncounted | PendingCounted | Returned | Never

  datatype Token = Token(submission: Submission, place: Place)

  datatype State = State(
    capacity: nat, tokens: seq<Token>, local: seq<seq<nat>>, global: seq<nat>,
    pending: nat, submitted: nat, completed: nat, failed: nat, wasReset: bool)

  datatype Action =
    | PushLocal(queue: nat)
    | PushFails(queue: nat)
    | PushGlobal(token: nat)
    | CountPending(token: nat)
    | CountSubmitted(token: nat)
    | TakeLocal(queue: nat, worker: nat)
    | TakeGlobal(worker: nat)
    | CountOff(token: nat, ok: bool)
    | StrayMark(ok: bool)
    | CountResult(token: nat)
    | ResetCompleted
    | ResetFailed
    | ResetSubmitted

  function Initial(workers: nat, capacity: nat): State {
    State(capacity, [], seq(workers, _ => []), [], 0, 0, 0, 0, false)
  }

  predicate Enabled(s: State, a: Action) {
    match a
    case PushLocal(q) => q < |s.local| && |s.local[q]| < s.capacity
    case PushFails(q) => q < |s.local| && |s.local[q]| >= s.capacity
    case PushGlobal(t) => t < |s.tokens| && s.tokens[t].place.InHand?
    case CountPending(t) => t < |s.tokens| && s.tokens[t].submission.Uncounted? && !s.tokens[t].place.InHand?
    case CountSubmitted(t) => t < |s.tokens| && s.tokens[t].submission.PendingCounted?
    case TakeLocal(q, w) => q < |s.local| && s.local[q] != []
    case TakeGlobal(w) => s.global != []
    case CountOff(t, _) => t < |s.tokens| && s.tokens[t].place.Taken?
    case StrayMark(_) => true
    case CountResult(t) => t < |s.tokens| && s.tokens[t].place.Marking?
    case ResetCompleted => true
    case ResetFailed => true
    case ResetSubmitted => true
  }

  /** The token an action changes; for a push or a stray mark the new one. */
  function Subject(s: State, a: Action): nat
    requires Enabled(s, a)
  {
    match a
    case PushLocal(_) => |s.tokens|
    case PushFails(_) => |s.tokens|
    case StrayMark(_) => |s.tokens|
    case PushGlobal(t) => t
    case CountPending(t) => t
    case CountSubmitted(t) => t
    case TakeLocal(q, _) => s.local[q][0]
    case TakeGlobal(_) => s.global[0]
    case CountOff(t, _) => t
    case CountResult(t) => t
    case _ => 0
  }

  function Moved(s: State, t: nat, place: Place): seq<Token> {
    if t < |s.tokens| then s.tokens[t := s.tokens[t].(place := place)] else s.tokens
  }

  function Apply(s: State, a: Action): State
    requires Enabled(s, a)
  {
    match a
    case PushLocal(q) =>
      s.(tokens := s.tokens + [Token(Uncounted, InLocal(q))], local := s.local[q := s.local[q] + [|s.tokens|]])
    case PushFails(_) => s.(tokens := s.tokens + [Token(Uncounted, InHand)])
    case PushGlobal(t) => s.(tokens := Moved(s, t, InGlobal), global := s.global + [t])
    case CountPending(t) =>
      s.(tokens := s.tokens[t := s.tokens[t].(submission := PendingCounted)], pending := (s.pending + 1) % WORD)
    case CountSubmitted(t) =>
      s.(tokens := s.tokens[t := s.tokens[t].(submission := Returned)], submitted := (s.submitted + 1) % WORD)
    case TakeLocal(q, w) => s.(tokens := Moved(s, s.local[q][0], Taken(w)), local := s.local[q := s.local[q][1..]])
    case TakeGlobal(w) => s.(tokens := Moved(s, s.global[0], Taken(w)), global := s.global[1..])
    case CountOff(t, ok) => s.(tokens := Moved(s, t, Marking(ok)), pending := (s.pending + WORD - 1) % WORD)
    case StrayMark(ok) =>
      s.(tokens := s.tokens + [Token(Never, Marking(ok))], pending := (s.pending + WORD - 1) % WORD)
    case CountResult(t) =>
      var ok := s.tokens[t].place.ok;
      s.(tokens := Moved(s, t, Done(ok)),
         completed := if ok then (s.completed + 1) % WORD else s.completed,
         failed := if ok then s.failed else (s.failed + 1) % WORD)
    case ResetCompleted => s.(completed := 0, wasReset := true)
    case ResetFailed => s.(failed := 0, wasReset := true)
    case ResetSubmitted => s.(submitted := 0, wasReset := true)
  }

  /** `acts` lead from `s` to `t`, each enabled when it happens. */
  predicate Leads(s: State, acts: seq<Action>, t: State)
    decreases |acts|
  {
    if acts == [] then s == t
    else Enabled(s, acts[0]) && Leads(Apply(s, acts[0]), acts[1..], t)
  }

  // ---------------------------------------------------------------- counting tokens

  function Sum(ts: seq<Token>, w: Token -> int): int {
    if ts == [] then 0 else Sum(ts[..|ts| - 1], w) + w(ts[|ts| - 1])
  }

  lemma SumAppend(ts: seq<Token>, x: Token, w: Token -> int)
    ensures Sum(ts + [x], w) == Sum(ts, w) + w(x)
  {
    assert (ts + [x])[..|ts|] == ts;
  }

  lemma {:induction false} SumUpdate(ts: seq<Token>, i: nat, x: Token, w: Token -> int)
    requires i < |ts|
    ensures Sum(ts[i := x], w) == Sum(ts, w) - w(ts[i]) + w(x)
  {
    var n := |ts| - 1;
    if i == n {
      assert ts[i := x][..n] == ts[..n];
    } else {
      SumUpdate(ts[..n], i, x, w);
      assert ts[i := x][..n] == ts[..n][i := x];
    }
  }

  lemma {:induction false} SumBounds(ts: seq<Token>, w: Token -> int)
    requires forall t :: 0 <= w(t) <= 1
    ensures 0 <= Sum(ts, w) <= |ts|
    ensures Sum(ts, w) == 0 <==> forall i :: 0 <= i < |ts| ==> w(ts[i]) == 0
  {
    if ts != [] { SumBounds(ts[..|ts| - 1], w); }
  }

  function One(b: bool): int { if b then 1 else 0 }

  function Queued(t: Token): int { One(t.place.InLocal? || t.place.InGlobal?) }
  function Unmarked(t: Token): int { One(t.place.Taken?) }
  /** In circulation without having been counted as pending: pushed too recently, or a stray mark. */
  function Uncredited(t: Token): int { One((t.submission.Uncounted? && !t.place.InHand?) || t.submission.Never?) }
  function Pending(t: Token): int {
    One(t.submission.PendingCounted? || t.submission.Returned?) - One(t.place.Marking? || t.place.Done?)
  }
  function Submitted(t: Token): int { One(t.submission.Returned?) }
  function Completed(t: Token): int { One(t.place.Done? && t.place.ok) }
  function Failed(t: Token): int { One(t.place.Done? && !t.place.ok) }

  // ---------------------------------------------------------------- the invariant

  /** A queue lists exactly the tokens that are at `place`, each once. */
  ghost predicate Lists(tokens: seq<Token>, queue: seq<nat>, place: Place) {
    && NoDup(queue)
    && forall t: nat {:trigger t in queue} {:trigger tokens[t]} :: t in queue <==>
        t < |tokens| && tokens[t].place == place
  }

  /** Every token is in exactly the queue its place names, or in no queue. */
  ghost predicate Located(s: State) {
    && (forall q {:trigger s.local[q]} :: 0 <= q < |s.local| ==>
        Lists(s.tokens, s.local[q], InLocal(q)) && |s.local[q]| <= s.capacity)
    && Lists(s.tokens, s.global, InGlobal)
    && forall t {:trigger s.tokens[t]} :: 0 <= t < |s.tokens| ==> TokenOk(s, s.tokens[t])
  }

  predicate TokenOk(s: State, t: Token) {
    (t.place.InLocal? ==> t.place.queue < |s.local|) && Sane(t)
  }

  predicate Sane(t: Token) {
    && (t.place.InHand? ==> t.submission.Uncounted?)
    && (t.submission.Never? ==> t.place.Marking? || t.place.Done?)
  }

  /** The counters are the numbers they stand for, up to the width of a machine word. */
  ghost predicate Counted(s: State) {
    && s.pending == Sum(s.tokens, Pending) % WORD
    && (!s.wasReset ==>
          && s.submitted == Sum(s.tokens, Submitted) % WORD
          && s.completed == Sum(s.tokens, Completed) % WORD
          && s.failed == Sum(s.tokens, Failed) % WORD)
  }

  ghost predicate Inv(s: State) {
    Located(s) && Counted(s)
  }

  lemma ListsPush(tokens: seq<Token>, queue: seq<nat>, place: Place, x: Token)
    requires Lists(tokens, queue, place)
    ensures Lists(tokens + [x], if x.place == place then queue + [|tokens|] else queue, place)
  {
    AppendFresh(queue, |tokens|);
  }

  /** What moving token `t` from one place to another does to the queue of `place`. */
  function Requeued(queue: seq<nat>, place: Place, t: nat, before: Place, after: Place): seq<nat> {
    if before == after then queue
    else if before == place && queue != [] then queue[1..]
    else if after == place then queue + [t]
    else queue
  }

  lemma ListsMove(tokens: seq<Token>, queue: seq<nat>, place: Place, t: nat, x: Token)
    requires Lists(tokens, queue, place) && t < |tokens|
    requires tokens[t].place == place != x.place ==> queue != [] && queue[0] == t
    ensures Lists(tokens[t := x], Requeued(queue, place, t, tokens[t].place, x.place), place)
  {
    var queue' := Requeued(queue, place, t, tokens[t].place, x.place);
    if tokens[t].place == place != x.place {
      NoDupPairs(queue);
      NoDupPairs(queue[1..]);
      assert queue == [t] + queue';
      assert t !in queue';
    } else if tokens[t].place != x.place == place {
      AppendFresh(queue, t);
    }
    forall u: nat ensures u in queue' <==> u < |tokens| && tokens[t := x][u].place == place {
      assert u in queue <==> u < |tokens| && tokens[u].place == place;
    }
  }

  lemma MoveKeepsLocated(s: State, s': State, t: nat, x: Token)
    requires Located(s) && t < |s.tokens| && s'.tokens == s.tokens[t := x] && TokenOk(s, x) && !x.place.InLocal?
    requires |s'.local| == |s.local| && s'.capacity == s.capacity
    requires s.tokens[t].place == InGlobal != x.place ==> s.global != [] && s.global[0] == t
    requires forall q {:trigger s.local[q]} :: 0 <= q < |s.local| && s.tokens[t].place == InLocal(q) ==>
        s.local[q] != [] && s.local[q][0] == t
    requires s'.global == Requeued(s.global, InGlobal, t, s.tokens[t].place, x.place)
    requires forall q {:trigger s'.local[q]} :: 0 <= q < |s.local| ==>
        s'.local[q] == Requeued(s.local[q], InLocal(q), t, s.tokens[t].place, x.place)
    ensures Located(s')
  {
    ListsMove(s.tokens, s.global, InGlobal, t, x);
    forall q | 0 <= q < |s.local| ensures Lists(s'.tokens, s'.local[q], InLocal(q)) && |s'.local[q]| <= s.capacity {
      ListsMove(s.tokens, s.local[q], InLocal(q), t, x);
    }
  }

  lemma PushKeepsLocated(s: State, a: Action)
    requires Located(s) && Enabled(s, a) && (a.PushLocal? || a.PushFails? || a.StrayMark?)
    ensures Located(Apply(s, a))
  {
    var s' := Apply(s, a);
    var x := s'.tokens[|s.tokens|];
    ListsPush(s.tokens, s.global, InGlobal, x);
    forall q | 0 <= q < |s.local| ensures Lists(s'.tokens, s'.local[q], InLocal(q)) && |s'.local[q]| <= s.capacity {
      ListsPush(s.tokens, s.local[q], InLocal(q), x);
    }
  }

  lemma StepKeepsLocated(s: State, a: Action)
    requires Located(s) && Enabled(s, a)
    ensures Located(Apply(s, a))
  {
    var s' := Apply(s, a);
    var t := Subject(s, a);
    match a
    case PushLocal(_) => PushKeepsLocated(s, a);
    case PushFails(_) => PushKeepsLocated(s, a);
    case StrayMark(_) => PushKeepsLocated(s, a);
    case TakeLocal(q, w) =>
      assert t in s.local[q];
      MoveKeepsLocated(s, s', t, s'.tokens[t]);
    case TakeGlobal(w) =>
      assert t in s.global;
      MoveKeepsLocated(s, s', t, s'.tokens[t]);
    case PushGlobal(_) => MoveKeepsLocated(s, s', t, s'.tokens[t]);
    case CountOff(_, _) => MoveKeepsLocated(s, s', t, s'.tokens[t]);
    case CountResult(_) => MoveKeepsLocated(s, s', t, s'.tokens[t]);
    case CountPending(_) => CountingKeepsLocated(s, s', t);
    case CountSubmitted(_) => CountingKeepsLocated(s, s', t);
    case _ =>
  }

  lemma CountingKeepsLocated(s: State, s': State, t: nat)
    requires Located(s) && t < |s.tokens| && s'.local == s.local && s'.global == s.global && s'.capacity == s.capacity
    requires exists c :: s'.tokens == s.tokens[t := s.tokens[t].(submission := c)]
    requires Sane(s'.tokens[t])
    ensures Located(s')
  {
    var c :| s'.tokens == s.tokens[t := s.tokens[t].(submission := c)];
    ListsMove(s.tokens, s.global, InGlobal, t, s'.tokens[t]);
    forall q | 0 <= q < |s.local| ensures Lists(s'.tokens, s.local[q], InLocal(q)) {
      ListsMove(s.tokens, s.local[q], InLocal(q), t, s'.tokens[t]);
    }
  }

  /** What an action does to a sum over the tokens: one term changes, or one is added. */
  lemma SumStep(s: State, a: Action, w: Token -> int)
    requires Located(s) && Enabled(s, a)
    ensures var ts, ts' := s.tokens, Apply(s, a).tokens; var t := Subject(s, a);
            && |ts| <= |ts'|
            && (t < |ts| ==> Sum(ts', w) == Sum(ts, w) - w(ts[t]) + w(ts'[t]))
            && (|ts| <= t < |ts'| ==> Sum(ts', w) == Sum(ts, w) + w(ts'[t]))
            && (|ts'| <= t ==> Sum(ts', w) == Sum(ts, w))
  {
    var ts, ts', t := s.tokens, Apply(s, a).tokens, Subject(s, a);
    if a.PushLocal? || a.PushFails? || a.StrayMark? {
      SumAppend(ts, ts'[t], w);
    } else {
      OneTokenChanges(s, a);
      if t < |ts| { SumUpdate(ts, t, ts'[t], w); }
    }
  }

  lemma OneTokenChanges(s: State, a: Action)
    requires Located(s) && Enabled(s, a) && !a.PushLocal? && !a.PushFails? && !a.StrayMark?
    ensures |Apply(s, a).tokens| == |s.tokens|
    ensures var t := Subject(s, a);
            Apply(s, a).tokens == if t < |s.tokens| then s.tokens[t := Apply(s, a).tokens[t]] else s.tokens
  {
    if a.TakeLocal? || a.TakeGlobal? { TakenWasQueued(s, a); }
  }

  lemma ModStep(a: int)
    ensures (a % WORD + 1) % WORD == (a + 1) % WORD
    ensures (a % WORD + WORD - 1) % WORD == (a - 1) % WORD
  {
  }

  lemma PendingDelta(s: State, a: Action)
    requires Located(s) && Enabled(s, a)
    ensures Sum(Apply(s, a).tokens, Pending)
            == Sum(s.tokens, Pending) + One(a.CountPending?) - One(a.CountOff? || a.StrayMark?)
  {
    SumStep(s, a, Pending);
    if a.TakeLocal? || a.TakeGlobal? { TakenWasQueued(s, a); }
    assert forall t :: 0 <= t < |s.tokens| ==> TokenOk(s, s.tokens[t]);
  }

  lemma StepKeepsPending(s: State, a: Action)
    requires Inv(s) && Enabled(s, a)
    ensures Apply(s, a).pending == Sum(Apply(s, a).tokens, Pending) % WORD
  {
    PendingDelta(s, a);
    if a.CountPending? || a.CountOff? || a.StrayMark? { ModStep(Sum(s.tokens, Pending)); }
  }

  lemma SubmittedDelta(s: State, a: Action)
    requires Located(s) && Enabled(s, a)
    ensures Sum(Apply(s, a).tokens, Submitted) == Sum(s.tokens, Submitted) + One(a.CountSubmitted?)
  {
    SumStep(s, a, Submitted);
    if a.TakeLocal? || a.TakeGlobal? { TakenWasQueued(s, a); }
  }

  lemma StepKeepsSubmitted(s: State, a: Action)
    requires Inv(s) && Enabled(s, a) && !Apply(s, a).wasReset
    ensures Apply(s, a).submitted == Sum(Apply(s, a).tokens, Submitted) % WORD
  {
    SubmittedDelta(s, a);
    if a.CountSubmitted? { ModStep(Sum(s.tokens, Submitted)); }
  }

  lemma StepKeepsCompleted(s: State, a: Action)
    requires Inv(s) && Enabled(s, a) && !Apply(s, a).wasReset
    ensures Apply(s, a).completed == Sum(Apply(s, a).tokens, Completed) % WORD
  {
    SumStep(s, a, Completed);
    if a.CountResult? { ModStep(Sum(s.tokens, Completed)); }
    if a.TakeLocal? || a.TakeGlobal? { TakenWasQueued(s, a); }
  }

  lemma FailedDelta(s: State, a: Action)
    requires Located(s) && Enabled(s, a)
    ensures Sum(Apply(s, a).tokens, Failed)
            == Sum(s.tokens, Failed) + One(a.CountResult? && !s.tokens[a.token].place.ok)
  {
    SumStep(s, a, Failed);
    if a.TakeLocal? || a.TakeGlobal? { TakenWasQueued(s, a); }
  }

  lemma StepKeepsFailed(s: State, a: Action)
    requires Inv(s) && Enabled(s, a) && !Apply(s, a).wasReset
    ensures Apply(s, a).failed == Sum(Apply(s, a).tokens, Failed) % WORD
  {
    FailedDelta(s, a);
    if a.CountResult? { ModStep(Sum(s.tokens, Failed)); }
  }

  lemma TakenWasQueued(s: State, a: Action)
    requires Located(s) && Enabled(s, a) && (a.TakeLocal? || a.TakeGlobal?)
    ensures Subject(s, a) < |s.tokens|
    ensures s.tokens[Subject(s, a)].place == if a.TakeLocal? then InLocal(a.queue) else InGlobal
  {
    if a.TakeLocal? { assert Subject(s, a) in s.local[a.queue]; } else { assert Subject(s, a) in s.global; }
  }

  lemma StepKeepsInv(s: State, a: Action)
    requires Inv(s) && Enabled(s, a)
    ensures Inv(Apply(s, a))
  {
    StepKeepsLocated(s, a);
    StepKeepsPending(s, a);
    if !Apply(s, a).wasReset {
      StepKeepsSubmitted(s, a);
      StepKeepsCompleted(s, a);
      StepKeepsFailed(s, a);
    }
  }

  /** Whatever interleaving led here, tokens are where they should be and the counters add up. */
  lemma {:induction false} RunKeepsInv(s: State, acts: seq<Action>, t: State)
    requires Inv(s) && Leads(s, acts, t)
    ensures Inv(t)
    decreases |acts|
  {
    if acts != [] {
      StepKeepsInv(s, acts[0]);
      RunKeepsInv(Apply(s, acts[0]), acts[1..], t);
    }
  }

  lemma InitialInv(workers: nat, capacity: nat)
    ensures Inv(Initial(workers, capacity))
  {
  }

  predicate IsReset(a: Action) {
    a.ResetCompleted? || a.ResetFailed? || a.ResetSubmitted?
  }

  /** The statistics are those of the whole run unless it resets them. */
  lemma {:induction false} ResetIff(s: State, acts: seq<Action>, s': State)
    requires Leads(s, acts, s')
    ensures s'.wasReset <==> s.wasReset || exists i :: 0 <= i < |acts| && IsReset(acts[i])
    decreases |acts|
  {
    if acts != [] {
      assert acts == [acts[0]] + acts[1..];
      ResetIff(Apply(s, acts[0]), acts[1..], s');
    }
  }

  /** In every interleaving without a reset the statistics count what they say. */
  lemma CountsWithoutReset(workers: nat, capacity: nat, acts: seq<Action>, s: State)
    requires Leads(Initial(workers, capacity), acts, s) && forall i :: 0 <= i < |acts| ==> !IsReset(acts[i])
    ensures s.submitted == Sum(s.tokens, Submitted) % WORD
    ensures s.completed == Sum(s.tokens, Completed) % WORD && s.failed == Sum(s.tokens, Failed) % WORD
  {
    InitialInv(workers, capacity);
    RunKeepsInv(Initial(workers, capacity), acts, s);
    ResetIff(Initial(workers, capacity), acts, s);
  }

  // ---------------------------------------------------------------- conservation

  lemma {:induction false} Balance(ts: seq<Token>)
    requires forall i :: 0 <= i < |ts| ==> Sane(ts[i])
    ensures Sum(ts, Pending) == Sum(ts, Queued) + Sum(ts, Unmarked) - Sum(ts, Uncredited)
  {
    if ts != [] { Balance(ts[..|ts| - 1]); }
  }

  /**
   In every interleaving `pending` is, up to word width, the tasks queued plus those taken and not
   yet marked, minus the submissions that have pushed but not counted.
   */
  lemma PendingIsConserved(workers: nat, capacity: nat, acts: seq<Action>, s: State)
    requires Leads(Initial(workers, capacity), acts, s)
    ensures s.pending == (Sum(s.tokens, Queued) + Sum(s.tokens, Unmarked) - Sum(s.tokens, Uncredited)) % WORD
  {
    InitialInv(workers, capacity);
    RunKeepsInv(Initial(workers, capacity), acts, s);
    assert forall i :: 0 <= i < |s.tokens| ==> TokenOk(s, s.tokens[i]);
    Balance(s.tokens);
  }

  /** Every submitted task has been taken, run and marked. */
  predicate AllDone(s: State) {
    forall i :: 0 <= i < |s.tokens| ==> s.tokens[i].place.Done?
  }

  /** No submission and no marking is in progress. */
  predicate Quiescent(s: State) {
    forall i :: 0 <= i < |s.tokens| ==>
      (s.tokens[i].submission.Returned? || s.tokens[i].submission.Never?) && !s.tokens[i].place.Marking?
  }

  lemma {:induction false} QuiescentBalance(ts: seq<Token>)
    requires forall i :: 0 <= i < |ts| ==>
      Sane(ts[i]) && (ts[i].submission.Returned? || ts[i].submission.Never?) && !ts[i].place.Marking?
    ensures Sum(ts, Submitted) == Sum(ts, Pending) + Sum(ts, Completed) + Sum(ts, Failed)
  {
    if ts != [] { QuiescentBalance(ts[..|ts| - 1]); }
  }

  lemma ModSum(a: int, b: int, c: int)
    ensures (a + b + c) % WORD == (a % WORD + b % WORD + c % WORD) % WORD
  {
  }

  /**
   Between operations, if the statistics were never reset: submitted = pending + completed + failed,
   up to word width, stray marks or not; and without stray marks, with fewer submissions than a word
   can count, `pending` is zero exactly when every task is finished.
   */
  lemma QuiescentConservation(workers: nat, capacity: nat, acts: seq<Action>, s: State)
    requires Leads(Initial(workers, capacity), acts, s) && Quiescent(s)
    ensures !s.wasReset ==> s.submitted == (s.pending + s.completed + s.failed) % WORD
    ensures |s.tokens| < WORD && (forall i :: 0 <= i < |s.tokens| ==> !s.tokens[i].submission.Never?) ==>
              (s.pending == 0 <==> AllDone(s))
  {
    InitialInv(workers, capacity);
    RunKeepsInv(Initial(workers, capacity), acts, s);
    QuiescentCounters(s);
    QuiescentZero(s);
  }

  lemma QuiescentCounters(s: State)
    requires Inv(s) && Quiescent(s)
    ensures !s.wasReset ==> s.submitted == (s.pending + s.completed + s.failed) % WORD
    ensures s.pending == Sum(s.tokens, Pending) % WORD
  {
    assert forall i :: 0 <= i < |s.tokens| ==> TokenOk(s, s.tokens[i]);
    QuiescentBalance(s.tokens);
    ModSum(Sum(s.tokens, Pending), Sum(s.tokens, Completed), Sum(s.tokens, Failed));
  }

  lemma QuiescentZero(s: State)
    requires Quiescent(s) && s.pending == Sum(s.tokens, Pending) % WORD
    ensures |s.tokens| < WORD && (forall i :: 0 <= i < |s.tokens| ==> !s.tokens[i].submission.Never?) ==>
              (s.pending == 0 <==> AllDone(s))
  {
    if forall i :: 0 <= i < |s.tokens| ==> !s.tokens[i].submission.Never? { QuiescentPending(s.tokens); }
  }

  lemma {:induction false} QuiescentPending(ts: seq<Token>)
    requires forall i :: 0 <= i < |ts| ==> ts[i].submission.Returned? && !ts[i].place.Marking?
    ensures 0 <= Sum(ts, Pending) <= |ts|
    ensures Sum(ts, Pending) == 0 <==> forall i :: 0 <= i < |ts| ==> ts[i].place.Done?
  {
    if ts != [] { QuiescentPending(ts[..|ts| - 1]); }
  }

  // ---------------------------------------------------------------- what the pending counter is worth


  /** No task is pushed but uncounted or still in hand, none is being marked, and none was marked astray. */
  predicate AllAccounted(s: State) {
    forall i :: 0 <= i < |s.tokens| ==>
      !s.tokens[i].submission.Uncounted? && !s.tokens[i].submission.Never? && !s.tokens[i].place.Marking?
  }

  /** The counter never counts further than half a word away from zero as long as there are fewer tokens. */
  lemma PendingInWord(workers: nat, capacity: nat, acts: seq<Action>, s: State) returns (p: int)
    requires Leads(Initial(workers, capacity), acts, s) && 2 * |s.tokens| < WORD
    ensures p == Sum(s.tokens, Queued) + Sum(s.tokens, Unmarked) - Sum(s.tokens, Uncredited)
    ensures s.pending == (if p >= 0 then p else p + WORD) && -|s.tokens| <= p <= |s.tokens|
  {
    PendingIsConserved(workers, capacity, acts, s);
    SumBounds(s.tokens, Uncredited);
    WaitingBounds(s.tokens);
    p := Sum(s.tokens, Queued) + Sum(s.tokens, Unmarked) - Sum(s.tokens, Uncredited);
    InWord(p);
  }

  lemma InWord(p: int)
    requires p + WORD > 0 && p < WORD
    ensures p % WORD == if p >= 0 then p else p + WORD
  {
  }

  /** No token is both queued and taken. */
  lemma {:induction false} WaitingBounds(ts: seq<Token>)
    ensures 0 <= Sum(ts, Queued) + Sum(ts, Unmarked) <= |ts|
    ensures Sum(ts, Queued) + Sum(ts, Unmarked) == 0 <==>
            forall i :: 0 <= i < |ts| ==> ts[i].place.InHand? || ts[i].place.Marking? || ts[i].place.Done?
  {
    if ts != [] { WaitingBounds(ts[..|ts| - 1]); }
  }

  /**
   In every interleaving the counter stands below zero, that is in the upper half of the word, exactly
   when more tokens are in circulation uncredited than are queued or taken.
   */
  lemma BelowZeroIff(workers: nat, capacity: nat, acts: seq<Action>, s: State)
    requires Leads(Initial(workers, capacity), acts, s) && 2 * |s.tokens| < WORD
    ensures s.pending >= WORD / 2 <==> Sum(s.tokens, Queued) + Sum(s.tokens, Unmarked) < Sum(s.tokens, Uncredited)
  {
    var p := PendingInWord(workers, capacity, acts, s);
  }

  /**
   In every interleaving, at a moment at which the counter reads zero: everything is finished exactly
   when no submission is between its push and its count, none is in hand, no task is being marked,
   and there was no stray mark.
   */
  lemma ZeroPendingMeaning(workers: nat, capacity: nat, acts: seq<Action>, s: State)
    requires Leads(Initial(workers, capacity), acts, s) && 2 * |s.tokens| < WORD
    requires s.pending == 0
    ensures AllDone(s) <==> AllAccounted(s)
  {
    var p := PendingInWord(workers, capacity, acts, s);
    InitialInv(workers, capacity);
    RunKeepsInv(Initial(workers, capacity), acts, s);
    assert forall i :: 0 <= i < |s.tokens| ==> TokenOk(s, s.tokens[i]);
    SumBounds(s.tokens, Uncredited);
    WaitingBounds(s.tokens);
  }

  /** A state some run leads to. */
  ghost predicate Reachable(s: State) {
    exists workers: nat, capacity: nat, acts :: Leads(Initial(workers, capacity), acts, s)
  }

  /** A shutdown that looks between a push and its count sees nothing pending while a task is queued. */
  lemma ZeroPendingWhileQueued() returns (s: State)
    ensures Leads(Initial(1, 1), [PushLocal(0)], s)
    ensures s.pending == 0 && s.local == [[0]]
  {
    s := Apply(Initial(1, 1), PushLocal(0));
    assert s.local[0] == [0];
    assert Leads(s, [], s);
  }

  /** A task that is finished before its submission has counted it drives the counter below zero. */
  lemma PendingWrapsBelowZero() returns (s: State)
    ensures Leads(Initial(1, 1), [PushLocal(0), TakeLocal(0, 0), CountOff(0, true)], s)
    ensures s.pending == WORD - 1
  {
    var s0 := Initial(1, 1);
    var s1 := Apply(s0, PushLocal(0));
    var s2 := Apply(s1, TakeLocal(0, 0));
    s := Apply(s2, CountOff(0, true));
    assert Leads(s, [], s);
    assert Leads(s2, [CountOff(0, true)], s);
    assert Leads(s1, [TakeLocal(0, 0), CountOff(0, true)], s);
  }

  // ---------------------------------------------------------------- nothing lost, nothing twice

  function Age(p: Place): nat {
    match p
    case InHand => 0
    case InLocal(_) => 1
    case InGlobal => 1
    case Taken(_) => 2
    case Marking(_) => 3
    case Done(_) => 4
  }

  lemma StepAges(s: State, a: Action, t: nat)
    requires Located(s) && Enabled(s, a) && t < |s.tokens|
    ensures var s' := Apply(s, a);
            && t < |s'.tokens| && Age(s.tokens[t].place) <= Age(s'.tokens[t].place)
            && ((a.TakeLocal? || a.TakeGlobal?) && Subject(s, a) == t ==>
                Age(s.tokens[t].place) == 1 && Age(s'.tokens[t].place) == 2)
  {
    if a.TakeLocal? || a.TakeGlobal? { TakenWasQueued(s, a); }
  }

  /** Tokens never disappear and never move back. */
  lemma {:induction false} RunAges(s: State, acts: seq<Action>, s': State, t: nat)
    requires Inv(s) && Leads(s, acts, s') && t < |s.tokens|
    ensures t < |s'.tokens| && Age(s.tokens[t].place) <= Age(s'.tokens[t].place)
    decreases |acts|
  {
    if acts != [] {
      StepAges(s, acts[0], t);
      StepKeepsInv(s, acts[0]);
      RunAges(Apply(s, acts[0]), acts[1..], s', t);
    }
  }

  predicate Hands(s: State, a: Action, t: nat) {
    (a.TakeLocal? || a.TakeGlobal?) && Enabled(s, a) && Subject(s, a) == t
  }

  /** A task once handed to a worker is never handed out again, whatever happens in between. */
  lemma HandedOutOnce(s: State, a: Action, acts: seq<Action>, s': State, b: Action, t: nat)
    requires Inv(s) && Hands(s, a, t) && Leads(Apply(s, a), acts, s')
    ensures !Hands(s', b, t)
  {
    TakenWasQueued(s, a);
    StepAges(s, a, t);
    StepKeepsInv(s, a);
    RunKeepsInv(Apply(s, a), acts, s');
    RunAges(Apply(s, a), acts, s', t);
    if Hands(s', b, t) { StepAges(s', b, t); }
  }

  // ---------------------------------------------------------------- first in, first out

  /** `t` is ahead of `u` in the queue. */
  ghost predicate Ahead(queue: seq<nat>, t: nat, u: nat) {
    exists i, j :: 0 <= i < j < |queue| && queue[i] == t && queue[j] == u
  }

  /** Two tokens that have been queued; the first has left the queue or is still ahead of the second. */
  ghost predicate ServedFirst(s: State, q: nat, t: nat, u: nat) {
    && q < |s.local| && t < |s.tokens| && Age(s.tokens[t].place) > 0
    && (t !in s.local[q] || Ahead(s.local[q], t, u))
  }

  lemma AheadStays(before: seq<nat>, after: seq<nat>, t: nat, u: nat)
    requires Ahead(before, t, u) && NoDup(before) && t in after
    requires after == before || (before != [] && after == before[1..])
             || (|after| > |before| && after[..|before|] == before)
    ensures Ahead(after, t, u)
  {
    var i, j :| 0 <= i < j < |before| && before[i] == t && before[j] == u;
    NoDupPairs(before);
    if before != [] && after == before[1..] {
      forall k | 0 <= k < |after| ensures after[k] == before[k + 1] {}
      assert after[i - 1] == t && after[j - 1] == u;
    } else if |after| > |before| {
      assert after[i] == after[..|before|][i] && after[j] == after[..|before|][j];
    }
  }

  lemma StepServesFirst(s: State, a: Action, q: nat, t: nat, u: nat)
    requires Located(s) && Enabled(s, a) && ServedFirst(s, q, t, u)
    ensures ServedFirst(Apply(s, a), q, t, u)
  {
    var before, after := s.local[q], Apply(s, a).local[q];
    StepAges(s, a, t);
    assert Lists(s.tokens, before, InLocal(q));
    if t in after && after != before + [|s.tokens|] {
      AheadStays(before, after, t, u);
    } else if t in after {
      assert t in before;
      AheadStays(before, after, t, u);
    }
  }

  lemma {:induction false} RunServesFirst(s: State, acts: seq<Action>, s': State, q: nat, t: nat, u: nat)
    requires Inv(s) && Leads(s, acts, s') && ServedFirst(s, q, t, u)
    ensures ServedFirst(s', q, t, u)
    decreases |acts|
  {
    if acts != [] {
      StepKeepsInv(s, acts[0]);
      StepServesFirst(s, acts[0], q, t, u);
      RunServesFirst(Apply(s, acts[0]), acts[1..], s', q, t, u);
    }
  }

  /**
   First in, first out, whoever takes: of two tasks of one local queue the one behind has not left the
   queue before the one ahead, in any interleaving.
   */
  lemma FirstInFirstOut(s: State, acts: seq<Action>, s': State, q: nat, i: nat, j: nat)
    requires Inv(s) && Leads(s, acts, s') && q < |s.local| && i < j < |s.local[q]|
    ensures q < |s'.local| && (s.local[q][j] !in s'.local[q] ==> s.local[q][i] !in s'.local[q])
  {
    var queue := s.local[q];
    assert Lists(s.tokens, queue, InLocal(q));
    assert queue[i] in queue;
    RunServesFirst(s, acts, s', q, queue[i], queue[j]);
  }

  // ---------------------------------------------------------------- the operations, one at a time

  datatype WorkerState = Idle | Working(task: nat) | Stealing

  lemma LeadsThen(s: State, acts: seq<Action>, m: State, more: seq<Action>, t: State)
    requires Leads(s, acts, m) && Leads(m, more, t)
    ensures Leads(s, acts + more, t)
    decreases |acts|
  {
    if acts == [] {
      assert acts + more == more;
    } else {
      assert (acts + more)[1..] == acts[1..] + more;
      LeadsThen(Apply(s, acts[0]), acts[1..], m, more, t);
    }
  }

  /** The queue a lone worker takes from: its own, then the others in order, then the shared one. */
  ghost predicate TakesFrom(s: State, worker: nat, queue: Option<nat>) {
    match queue
    case Some(q) =>
      && q < |s.local| && s.local[q] != []
      && (worker < |s.local| && s.local[worker] != [] ==> q == worker)
      && forall i :: 0 <= i < q && i != worker ==> q == worker || s.local[i] == []
    case None => forall i :: 0 <= i < |s.local| ==> s.local[i] == []
  }

  /** The front of the queue goes to the worker; nothing else moves. */
  ghost predicate FrontTaken(s: State, worker: nat, from: Option<nat>, task: nat, s': State) {
    && task < |s.tokens| && s'.tokens == s.tokens[task := Token(s.tokens[task].submission, Taken(worker))]
    && (match from
        case Some(q) => q < |s.local| && s.local[q] != [] && task == s.local[q][0]
                        && s'.local == s.local[q := s.local[q][1..]] && s'.global == s.global
        case None => s.global != [] && task == s.global[0] && s'.local == s.local && s'.global == s.global[1..])
    && s'.pending == s.pending && s'.submitted == s.submitted
    && s'.completed == s.completed && s'.failed == s.failed
  }

  function TakeAction(worker: nat, from: Option<nat>): Action {
    match from
    case Some(q) => TakeLocal(q, worker)
    case None => TakeGlobal(worker)
  }

  /** The operations perform the steps above; `acts` is the path an operation takes when it runs alone. */
  class LockFreeTaskScheduler {
    var state: State
    var stolen: nat
    var workerStates: map<nat, WorkerState>

    constructor (numWorkers: nat, localQueueCapacity: nat)
      requires localQueueCapacity > 0
      ensures state == Initial(numWorkers, localQueueCapacity) && stolen == 0 && workerStates == map[]
      ensures Quiescent(state)
    {
      state, stolen, workerStates := Initial(numWorkers, localQueueCapacity), 0, map[];
    }

    method Do(a: Action, ghost before: seq<Action>, ghost start: State) returns (ghost acts: seq<Action>)
      requires Leads(start, before, state) && Enabled(state, a)
      modifies this`state
      ensures state == Apply(old(state), a) && acts == before + [a] && Leads(start, acts, state)
    {
      assert Leads(Apply(state, a), [], Apply(state, a));
      LeadsThen(start, before, state, [a], Apply(state, a));
      state := Apply(state, a);
      acts := before + [a];
    }

    /** `worker` is the clock-chosen queue; a full one sends the task to the shared queue. */
    method SubmitTask(worker: nat) returns (task: nat, ghost acts: seq<Action>)
      requires Located(state) && worker < |state.local|
      modifies this`state
      ensures Leads(old(state), acts, state)
      ensures task == |old(state).tokens|
      ensures var s := old(state); var room := |s.local[worker]| < s.capacity;
              && state.tokens == s.tokens + [Token(Returned, if room then InLocal(worker) else InGlobal)]
              && state.local == (if room then s.local[worker := s.local[worker] + [task]] else s.local)
              && state.global == (if room then s.global else s.global + [task])
              && state.pending == (s.pending + 1) % WORD && state.submitted == (s.submitted + 1) % WORD
              && state.completed == s.completed && state.failed == s.failed
      ensures Quiescent(old(state)) ==> Quiescent(state)
    {
      task := |state.tokens|;
      ghost var start := state;
      if |state.local[worker]| < state.capacity {
        acts := Do(PushLocal(worker), [], start);
      } else {
        acts := Do(PushFails(worker), [], start);
        acts := Do(PushGlobal(task), acts, start);
      }
      acts := Do(CountPending(task), acts, start);
      acts := Do(CountSubmitted(task), acts, start);
    }

    /** Takes the front of a local queue, or of the shared one. */
    method Take(worker: nat, from: Option<nat>) returns (task: nat, ghost acts: seq<Action>)
      requires Located(state) && Enabled(state, TakeAction(worker, from))
      modifies this`state, this`workerStates
      ensures state == Apply(old(state), TakeAction(worker, from)) && acts == [TakeAction(worker, from)]
      ensures Leads(old(state), acts, state) && FrontTaken(old(state), worker, from, task, state)
      ensures Hands(old(state), acts[0], task)
      ensures workerStates == old(workerStates)[worker := Working(task)]
    {
      task := if from.Some? then state.local[from.value][0] else state.global[0];
      TakenWasQueued(state, TakeAction(worker, from));
      acts := Do(TakeAction(worker, from), [], state);
      workerStates := workerStates[worker := Working(task)];
    }

    /** Comes back empty-handed exactly when nothing is queued anywhere; `from` is the queue it found. */
    method StealTask(worker: nat) returns (task: Option<nat>, ghost from: Option<nat>, ghost acts: seq<Action>)
      requires Located(state)
      modifies this
      ensures Leads(old(state), acts, state) && TakesFrom(old(state), worker, from)
      ensures task.None? <==> from.None? && old(state).global == []
      ensures task.None? ==> state == old(state) && stolen == old(stolen)
      ensures task.Some? ==>
                && acts == [TakeAction(worker, from)]
                && Enabled(old(state), acts[0]) && state == Apply(old(state), acts[0])
                && FrontTaken(old(state), worker, from, task.value, state)
                && Hands(old(state), acts[0], task.value)
                && stolen == old(stolen) + (if from.Some? && from.value != worker then 1 else 0)
      ensures workerStates == old(workerStates)[worker := if task.Some? then Working(task.value) else Idle]
      ensures Quiescent(old(state)) ==> Quiescent(state)
    {
      workerStates := workerStates[worker := Stealing];
      var taken: nat;
      if worker < |state.local| && state.local[worker] != [] {
        from := Some(worker);
        taken, acts := Take(worker, Some(worker));
        return Some(taken), from, acts;
      }
      for i := 0 to |state.local|
        invariant state == old(state) && stolen == old(stolen)
        invariant workerStates == old(workerStates)[worker := Stealing]
        invariant forall j :: 0 <= j < i ==> state.local[j] == []
      {
        if i != worker && state.local[i] != [] {
          from := Some(i);
          taken, acts := Take(worker, Some(i));
          stolen := stolen + 1;
          return Some(taken), from, acts;
        }
      }
      from, acts := None, [];
      if state.global != [] {
        taken, acts := Take(worker, None);
        return Some(taken), from, acts;
      }
      task := None;
      workerStates := workerStates[worker := Idle];
    }

    /** The statistics start afresh; what is pending stays. */
    method ResetStats() returns (ghost acts: seq<Action>)
      modifies this`state, this`stolen
      ensures Leads(old(state), acts, state) && stolen == 0
      ensures state == old(state).(completed := 0, failed := 0, submitted := 0, wasReset := true)
    {
      ghost var start := state;
      acts := Do(ResetCompleted, [], start);
      acts := Do(ResetFailed, acts, start);
      stolen := 0;
      acts := Do(ResetSubmitted, acts, start);
    }

    /** Any task may be named; only one that a worker holds changes places. */
    method MarkTask(worker: nat, task: nat, ok: bool) returns (ghost acts: seq<Action>)
      modifies this
      ensures Leads(old(state), acts, state)
      ensures var s := old(state); var held := task < |s.tokens| && s.tokens[task].place.Taken?;
              && state.tokens == (if held then s.tokens[task := s.tokens[task].(place := Done(ok))]
                  else s.tokens + [Token(Never, Done(ok))])
              && state.local == s.local && state.global == s.global && state.submitted == s.submitted
              && state.pending == (s.pending + WORD - 1) % WORD
              && state.completed == (if ok then (s.completed + 1) % WORD else s.completed)
              && state.failed == (if ok then s.failed else (s.failed + 1) % WORD)
      ensures stolen == old(stolen) && workerStates == old(workerStates)[worker := Idle]
      ensures Quiescent(old(state)) ==> Quiescent(state)
    {
      ghost var start := state;
      if task < |state.tokens| && state.tokens[task].place.Taken? {
        acts := Do(CountOff(task, ok), [], start);
        acts := Do(CountResult(task), acts, start);
      } else {
        var stray := |state.tokens|;
        acts := Do(StrayMark(ok), [], start);
        acts := Do(CountResult(stray), acts, start);
      }
      workerStates := workerStates[worker := Idle];
    }
  }

  /**
   `looks` are the states in which shutdown reads the counter before its time is up.  It succeeds at
   the first zero, and then everything is finished exactly under the condition of `ZeroPendingMeaning`.
   */
  method Shutdown(looks: seq<State>) returns (ok: bool, polls: nat)
    ensures polls <= |looks| && forall i :: 0 <= i < polls ==> looks[i].pending != 0
    ensures ok ==> polls < |looks| && looks[polls].pending == 0
    ensures !ok ==> polls == |looks|
    ensures ok && Reachable(looks[polls]) && 2 * |looks[polls].tokens| < WORD ==>
              (AllDone(looks[polls]) <==> AllAccounted(looks[polls]))
  {
    polls := 0;
    while polls < |looks|
      invariant polls <= |looks| && forall i :: 0 <= i < polls ==> looks[i].pending != 0
    {
      if looks[polls].pending == 0 {
        ZeroIsTrusted(looks[polls]);
        return true, polls;
      }
      polls := polls + 1;
    }
    ok := false;
  }

  lemma ZeroIsTrusted(s: State)
    requires s.pending == 0
    ensures Reachable(s) && 2 * |s.tokens| < WORD ==> (AllDone(s) <==> AllAccounted(s))
  {
    if Reachable(s) && 2 * |s.tokens| < WORD {
      var workers: nat, capacity: nat, acts :| Leads(Initial(workers, capacity), acts, s);
      ZeroPendingMeaning(workers, capacity, acts, s);
    }
  }
}
