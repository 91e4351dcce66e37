/**
 The work-stealing scheduler: submitters register a result channel and push; each worker loop checks
 for shutdown, looks for a task in its own queue, the shared one and then everybody else's, runs it
 and sends the result.  Every queue operation is one step, steps of different parties interleave
 freely, and an attempt to take from a queue may fail for no reason.  Submissions are numbered;
 result channels are stored under the task's id, which may repeat.
 */
module WorkStealing {
  import opened Wrappers
  import opened Graphs

  const WORD: nat := 0x1_0000_0000_0000_0000

  /** The number of a submission. */
  type Token = nat

  datatype Place = Registered | InLocal(queue: nat) | InGlobal | Executing(worker: nat) | Finished

  /** Where a worker's loop is; a search goes through its sources by position. */
  datatype Phase = NotStarted | AtTop | Searching(position: nat) | Busy(task: Token) | Leaving | Exited

  datatype State = State(
    loadBalancing: bool, next: Token, ids: map<Token, Id>, place: map<Token, Place>,
    local: seq<seq<Token>>, global: seq<Token>, channels: map<Id, Token>,
    workers: seq<Phase>, active: nat, started: bool, shutdown: bool)

  datatype Action =
    | Register(id: Id)
    | Push(token: Token, counter: nat)
    | Start
    | RequestShutdown
    | Check(worker: nat)
    | Take(worker: nat)
    | Miss(worker: nat)
    | Finish(worker: nat)
    | Exit(worker: nat)

  function Initial(workers: nat, loadBalancing: bool): State {
    State(loadBalancing, 0, map[], map[], seq(workers, _ => []), [], map[], seq(workers, _ => NotStarted), 0, false,
        false)
  }

  /** Every third task goes to the first worker, the others round. */
  function TargetWorker(counter: nat, n: nat): (r: nat)
    requires n > 0
    ensures r < n
  {
    if counter % 3 == 0 then 0 else (counter / 3) % n
  }

  /** The queue that the i-th turn of worker `w`'s stealing loop looks at. */
  function StealerIndex(w: nat, n: nat, i: nat): (r: nat)
    requires n > 0
    ensures r < n
  {
    ((w + 1) % n + i) % n
  }

  datatype Source = Shared | OwnedBy(worker: nat) | Nowhere

  /** A search tries the worker's own queue, the shared queue, and the other workers' in rotation. */
  function SourceAt(w: nat, n: nat, position: nat): Source
    requires w < n
  {
    if position == 0 then OwnedBy(w)
    else if position == 1 then Shared
    else if position < n + 2 && StealerIndex(w, n, position - 2) != w then OwnedBy(StealerIndex(w, n, position - 2))
    else Nowhere
  }

  function ContentsOf(s: State, source: Source): seq<Token>
    requires source.OwnedBy? ==> source.worker < |s.local|
  {
    match source
    case Shared => s.global
    case OwnedBy(q) => s.local[q]
    case Nowhere => []
  }

  predicate Looks(s: State, w: nat) {
    |s.workers| == |s.local| && w < |s.workers| && s.workers[w].Searching?
  }

  /** What worker `w` is about to try to take from. */
  function LooksAt(s: State, w: nat): (r: Source)
    requires Looks(s, w)
    ensures r.OwnedBy? ==> r.worker < |s.local|
  {
    SourceAt(w, |s.workers|, s.workers[w].position)
  }

  predicate Enabled(s: State, a: Action) {
    match a
    case Register(_) => true
    case Push(id, _) => id in s.place && s.place[id].Registered?
    case Start => !s.started
    case RequestShutdown => true
    case Check(w) => w < |s.workers| && s.workers[w].AtTop?
    case Take(w) => Looks(s, w) && ContentsOf(s, LooksAt(s, w)) != []
    case Miss(w) => Looks(s, w)
    case Finish(w) => w < |s.workers| && s.workers[w].Busy?
    case Exit(w) => w < |s.workers| && s.workers[w].Leaving?
  }

  /** What `id` going from one place to another does to the queue of `place`. */
  function Requeued(queue: seq<Token>, place: Place, id: Token, before: Place, after: Place): seq<Token> {
    if before == place && queue != [] then queue[1..]
    else if after == place then queue + [id]
    else queue
  }

  function Move(s: State, id: Token, after: Place): State {
    var before := if id in s.place then s.place[id] else Finished;
    s.(place := s.place[id := after],
       local := seq(|s.local|, q requires 0 <= q < |s.local| => Requeued(s.local[q], InLocal(q), id, before, after)),
       global := Requeued(s.global, InGlobal, id, before, after))
  }

  function Target(s: State, counter: nat): Place {
    if s.loadBalancing && |s.local| > 0 then InLocal(TargetWorker(counter, |s.local|)) else InGlobal
  }

  function IdsOf(s: State, t: Token): set<Id> {
    if t in s.ids then {s.ids[t]} else {}
  }

  function Taken(s: State, w: nat): Token
    requires Enabled(s, Take(w))
  {
    ContentsOf(s, LooksAt(s, w))[0]
  }

  /** The state after a step; a queue only ever loses its front and gains at its end. */
  function Apply(s: State, a: Action): State
    requires Enabled(s, a)
  {
    match a
    case Register(id) =>
      s.(next := s.next + 1, ids := s.ids[s.next := id], place := s.place[s.next := Registered],
          channels := s.channels[id := s.next])
    case Push(id, counter) => Move(s, id, Target(s, counter))
    case Start => s.(started := true, active := |s.workers|, workers := seq(|s.workers|, _ => AtTop))
    case RequestShutdown => s.(shutdown := true)
    case Check(w) => s.(workers := s.workers[w := if s.shutdown then Leaving else Searching(0)])
    case Take(w) =>
      var id := Taken(s, w);
      Move(s, id, Executing(w)).(workers := s.workers[w := Busy(id)])
    case Miss(w) =>
      var p := s.workers[w].position;
      s.(workers := s.workers[w := if p <= |s.workers| then Searching(p + 1) else AtTop])
    case Finish(w) =>
      var t := s.workers[w].task;
      s.(place := s.place[t := Finished], channels := s.channels - IdsOf(s, t), workers := s.workers[w := AtTop])
    case Exit(w) => s.(workers := s.workers[w := Exited], active := if s.active > 0 then s.active - 1 else WORD - 1)
  }

  /** `acts` lead from `s` to `t`, each enabled when it happens. */
  predicate Leads(s: State, acts: seq<Action>, t: State)
    decreases |acts|
  {
    if acts == [] then s == t
    else Enabled(s, acts[0]) && Leads(Apply(s, acts[0]), acts[1..], t)
  }

  // ---------------------------------------------------------------- the invariant

  /** A queue lists exactly the tasks that are at `place`, each once. */
  ghost predicate Lists(places: map<Token, Place>, queue: seq<Token>, place: Place) {
    && NoDup(queue)
    && forall id {:trigger id in queue} {:trigger places[id]} :: id in queue <==> id in places && places[id] == place
  }

  ghost predicate Located(s: State) {
    && Lists(s.place, s.global, InGlobal)
    && (forall q {:trigger s.local[q]} :: 0 <= q < |s.local| ==> Lists(s.place, s.local[q], InLocal(q)))
    && forall id {:trigger s.place[id]} :: id in s.place && s.place[id].InLocal? ==> s.place[id].queue < |s.local|
  }

  predicate Unfinished(s: State, t: Token) {
    t in s.place && !s.place[t].Finished?
  }

  /** Whatever the ids: a registered channel belongs to the unfinished submission registered last under its id. */
  ghost predicate ChannelsSane(s: State) {
    && s.ids.Keys == s.place.Keys
    && (forall t {:trigger t in s.place} :: t in s.place ==> t < s.next)
    && forall id {:trigger s.channels[id]} :: id in s.channels ==>
         s.channels[id] in s.ids && s.ids[s.channels[id]] == id && Unfinished(s, s.channels[id])
  }

  /** Every submission that is not finished has its own channel registered. */
  ghost predicate ChannelsMatch(s: State) {
    forall t {:trigger s.ids[t]} :: t in s.ids && Unfinished(s, t) ==>
        s.ids[t] in s.channels && s.channels[s.ids[t]] == t
  }

  /** A worker runs the task that is executing in it, and no other. */
  ghost predicate WorkersMatch(s: State) {
    && |s.workers| == |s.local|
    && (forall w {:trigger s.workers[w]} :: 0 <= w < |s.workers| && s.workers[w].Busy? ==>
          s.workers[w].task in s.place && s.place[s.workers[w].task] == Executing(w))
    && (forall id {:trigger s.place[id]} :: id in s.place && s.place[id].Executing? ==>
          s.place[id].worker < |s.workers| && s.workers[s.place[id].worker] == Busy(id))
  }

  predicate Live(p: Phase) {
    !p.NotStarted? && !p.Exited?
  }

  function LiveCount(workers: seq<Phase>): nat {
    if workers == [] then 0
    else LiveCount(workers[..|workers| - 1]) + if Live(workers[|workers| - 1]) then 1 else 0
  }

  /** `active` counts the loops that have started and not left; nobody leaves without a shutdown. */
  ghost predicate ActiveMatches(s: State) {
    ActiveOk(s.workers, s.active, s.started, s.shutdown)
  }

  ghost predicate ActiveOk(workers: seq<Phase>, active: nat, started: bool, shutdown: bool) {
    active == LiveCount(workers) && forall w {:trigger workers[w]} :: 0 <= w < |workers| ==>
        PhaseOk(workers[w], started, shutdown)
  }

  predicate PhaseOk(p: Phase, started: bool, shutdown: bool) {
    (p.NotStarted? <==> !started) && (p.Leaving? || p.Exited? ==> shutdown)
  }

  ghost predicate Inv(s: State) {
    Located(s) && ChannelsSane(s) && WorkersMatch(s) && ActiveMatches(s)
  }

  lemma ListsMove(places: map<Token, Place>, queue: seq<Token>, place: Place, id: Token, after: Place)
    requires Lists(places, queue, place) && id in places && places[id] != after
    requires places[id] == place ==> queue != [] && queue[0] == id
    ensures Lists(places[id := after], Requeued(queue, place, id, places[id], after), place)
  {
    var queue' := Requeued(queue, place, id, places[id], after);
    if places[id] == place {
      NoDupPairs(queue);
      NoDupPairs(queue');
      assert queue == [id] + queue';
      assert id !in queue';
    } else if after == place {
      AppendFresh(queue, id);
    }
    forall x ensures x in queue' <==> x in places[id := after] && places[id := after][x] == place {
      assert x in queue <==> x in places && places[x] == place;
    }
  }

  lemma MoveKeepsLocated(s: State, id: Token, after: Place)
    requires Located(s) && id in s.place && s.place[id] != after
    requires after.InLocal? ==> after.queue < |s.local|
    requires s.place[id].InGlobal? ==> s.global != [] && s.global[0] == id
    requires s.place[id].InLocal? ==> s.local[s.place[id].queue] != [] && s.local[s.place[id].queue][0] == id
    ensures Located(Move(s, id, after))
  {
    var t := Move(s, id, after);
    ListsMove(s.place, s.global, InGlobal, id, after);
    forall q | 0 <= q < |s.local| ensures Lists(t.place, t.local[q], InLocal(q)) {
      ListsMove(s.place, s.local[q], InLocal(q), id, after);
    }
  }

  lemma TakenIsThere(s: State, w: nat)
    requires Located(s) && Enabled(s, Take(w))
    ensures var id := Taken(s, w);
            && id in s.place
            && s.place[id] == if LooksAt(s, w).OwnedBy? then InLocal(LooksAt(s, w).worker) else InGlobal
  {
    assert Taken(s, w) in ContentsOf(s, LooksAt(s, w));
  }

  lemma UnqueuedKeepsLists(places: map<Token, Place>, queue: seq<Token>, place: Place, id: Token, after: Place)
    requires Lists(places, queue, place) && after != place && (id in places ==> places[id] != place)
    ensures Lists(places[id := after], queue, place)
  {
    forall x ensures x in queue <==> x in places[id := after] && places[id := after][x] == place {
      assert x in queue <==> x in places && places[x] == place;
    }
  }

  lemma UnqueuedKeepsLocated(s: State, id: Token, after: Place, t: State)
    requires Located(s) && !after.InLocal? && !after.InGlobal?
    requires id in s.place ==> !s.place[id].InLocal? && !s.place[id].InGlobal?
    requires t.place == s.place[id := after] && t.local == s.local && t.global == s.global
    ensures Located(t)
  {
    UnqueuedKeepsLists(s.place, s.global, InGlobal, id, after);
    forall q | 0 <= q < |s.local| ensures Lists(t.place, t.local[q], InLocal(q)) {
      UnqueuedKeepsLists(s.place, s.local[q], InLocal(q), id, after);
    }
  }

  lemma StepKeepsLocated(s: State, a: Action)
    requires Inv(s) && Enabled(s, a)
    ensures Located(Apply(s, a))
  {
    match a
    case Register(_) => UnqueuedKeepsLocated(s, s.next, Registered, Apply(s, a));
    case Push(id, counter) => MoveKeepsLocated(s, id, Target(s, counter));
    case Take(w) =>
      TakenIsThere(s, w);
      MoveKeepsLocated(s, Taken(s, w), Executing(w));
    case Finish(w) => UnqueuedKeepsLocated(s, s.workers[w].task, Finished, Apply(s, a));
    case _ =>
  }

  lemma StepKeepsChannels(s: State, a: Action)
    requires Inv(s) && Enabled(s, a)
    ensures ChannelsSane(Apply(s, a))
  {
    if a.Take? { TakenIsThere(s, a.worker); }
  }

  lemma StepKeepsWorkers(s: State, a: Action)
    requires Inv(s) && Enabled(s, a)
    ensures WorkersMatch(Apply(s, a))
  {
    match a
    case Take(w) => TakeKeepsWorkers(s, w);
    case Finish(w) => FinishKeepsWorkers(s, w);
    case _ =>
  }

  lemma TakeKeepsWorkers(s: State, w: nat)
    requires Inv(s) && Enabled(s, Take(w))
    ensures WorkersMatch(Apply(s, Take(w)))
  {
    TakenIsThere(s, w);
  }

  lemma FinishKeepsWorkers(s: State, w: nat)
    requires Inv(s) && Enabled(s, Finish(w))
    ensures WorkersMatch(Apply(s, Finish(w)))
  {
  }

  lemma {:induction false} LiveUpdate(workers: seq<Phase>, w: nat, p: Phase)
    requires w < |workers|
    ensures LiveCount(workers[w := p]) == LiveCount(workers) - (if Live(workers[w]) then 1 else 0)
        + (if Live(p) then 1 else 0)
  {
    var n := |workers| - 1;
    if w == n {
      assert workers[w := p][..n] == workers[..n];
    } else {
      LiveUpdate(workers[..n], w, p);
      assert workers[w := p][..n] == workers[..n][w := p];
    }
  }

  lemma {:induction false} AllLive(workers: seq<Phase>)
    ensures LiveCount(workers) <= |workers|
    ensures (forall w :: 0 <= w < |workers| ==> Live(workers[w])) ==> LiveCount(workers) == |workers|
    ensures LiveCount(workers) == 0 <==> forall w :: 0 <= w < |workers| ==> !Live(workers[w])
  {
    if workers != [] { AllLive(workers[..|workers| - 1]); }
  }

  lemma PhaseChange(s: State, w: nat, p: Phase)
    requires ActiveMatches(s) && w < |s.workers| && Live(s.workers[w]) && PhaseOk(p, s.started, s.shutdown)
    ensures s.active > 0
    ensures ActiveOk(s.workers[w := p], if Live(p) then s.active else s.active - 1, s.started, s.shutdown)
  {
    AllLive(s.workers);
    LiveUpdate(s.workers, w, p);
  }

  lemma StepKeepsActive(s: State, a: Action)
    requires Inv(s) && Enabled(s, a)
    ensures ActiveMatches(Apply(s, a))
  {
    var t := Apply(s, a);
    match a
    case Start => AllLive(t.workers);
    case Check(w) => PhaseChange(s, w, t.workers[w]);
    case Take(w) => PhaseChange(s, w, t.workers[w]);
    case Miss(w) => PhaseChange(s, w, t.workers[w]);
    case Finish(w) => PhaseChange(s, w, t.workers[w]);
    case Exit(w) => PhaseChange(s, w, Exited);
    case _ =>
  }

  lemma StepKeepsInv(s: State, a: Action)
    requires Inv(s) && Enabled(s, a)
    ensures Inv(Apply(s, a))
  {
    StepKeepsLocated(s, a);
    StepKeepsChannels(s, a);
    StepKeepsWorkers(s, a);
    StepKeepsActive(s, a);
  }

  lemma {:induction false} RunKeepsInv(s: State, acts: seq<Action>, t: State)
    requires Inv(s) && Leads(s, acts, t)
    ensures Inv(t)
    decreases |acts|
  {
    if acts != [] {
      StepKeepsInv(s, acts[0]);
      RunKeepsInv(Apply(s, acts[0]), acts[1..], t);
    }
  }

  lemma InitialInv(workers: nat, loadBalancing: bool)
    ensures Inv(Initial(workers, loadBalancing))
  {
    AllLive(Initial(workers, loadBalancing).workers);
  }

  // ---------------------------------------------------------------- what every run guarantees

  /**
   In every interleaving, each submission is in one place: one queue, one worker, finished, or on its
   way into a queue; it is listed nowhere else, and no queue lists it twice.
   */
  lemma EveryTaskInOnePlace(workers: nat, loadBalancing: bool, acts: seq<Action>, s: State, t: Token)
    requires Leads(Initial(workers, loadBalancing), acts, s) && t in s.place
    ensures t in s.global <==> s.place[t].InGlobal?
    ensures forall q :: 0 <= q < |s.local| ==> (t in s.local[q] <==> s.place[t] == InLocal(q))
    ensures forall w :: 0 <= w < |s.workers| ==> (s.workers[w] == Busy(t) <==> s.place[t] == Executing(w))
    ensures NoDup(s.global) && forall q :: 0 <= q < |s.local| ==> NoDup(s.local[q])
    ensures s.place[t].InLocal? ==> s.place[t].queue < |s.local|
    ensures s.place[t].Executing? ==> s.place[t].worker < |s.workers|
  {
    InitialInv(workers, loadBalancing);
    RunKeepsInv(Initial(workers, loadBalancing), acts, s);
    assert forall q {:trigger s.local[q]} :: 0 <= q < |s.local| ==> Lists(s.place, s.local[q], InLocal(q));
  }

  // ---------------------------------------------------------------- result channels

  /** Registering keeps every channel exactly when no unfinished submission uses the id; nothing else loses one. */
  lemma ChannelsKeptIff(s: State, a: Action)
    requires Inv(s) && ChannelsMatch(s) && Enabled(s, a)
    ensures ChannelsMatch(Apply(s, a)) <==> !(a.Register? && a.id in s.channels)
  {
    if a.Register? {
      RegisterChannels(s, a.id);
    } else if a.Finish? {
      FinishChannels(s, a.worker);
    } else if a.Take? {
      TakenIsThere(s, a.worker);
    }
  }

  lemma RegisterChannels(s: State, id: Id)
    requires Inv(s) && ChannelsMatch(s) && Enabled(s, Register(id))
    ensures ChannelsMatch(Apply(s, Register(id))) <==> id !in s.channels
  {
    var s' := Apply(s, Register(id));
    if id in s.channels {
      var t := s.channels[id];
      assert s'.ids[t] == id && Unfinished(s', t) && s'.channels[id] == s.next != t;
    }
  }

  lemma FinishChannels(s: State, w: nat)
    requires Inv(s) && ChannelsMatch(s) && Enabled(s, Finish(w))
    ensures ChannelsMatch(Apply(s, Finish(w)))
  {
    var s', t := Apply(s, Finish(w)), s.workers[w].task;
    forall u | u in s'.ids && Unfinished(s', u) ensures s'.ids[u] in s'.channels && s'.channels[s'.ids[u]] == u {
      assert s.channels[s.ids[u]] == u && Unfinished(s, t) && s.channels[s.ids[t]] == t;
    }
  }

  /** At every registration, no channel is registered under its id. */
  predicate FreshIds(s: State, acts: seq<Action>)
    decreases |acts|
  {
    acts == [] || (Enabled(s, acts[0]) && !(acts[0].Register? && acts[0].id in s.channels)
        && FreshIds(Apply(s, acts[0]), acts[1..]))
  }

  ghost predicate AlwaysMatch(s: State, acts: seq<Action>)
    decreases |acts|
  {
    ChannelsMatch(s) && (acts == [] || (Enabled(s, acts[0]) && AlwaysMatch(Apply(s, acts[0]), acts[1..])))
  }

  /**
   In a run, a channel is registered for exactly the unfinished submissions at every moment if and
   only if no submission reuses an id under which a channel is still registered.
   */
  lemma {:induction false} ChannelsExactIff(s: State, acts: seq<Action>, t: State)
    requires Inv(s) && ChannelsMatch(s) && Leads(s, acts, t)
    ensures AlwaysMatch(s, acts) <==> FreshIds(s, acts)
    ensures FreshIds(s, acts) ==> forall u :: u in t.ids ==>
              (Unfinished(t, u) <==> t.ids[u] in t.channels && t.channels[t.ids[u]] == u)
    decreases |acts|
  {
    if acts != [] {
      StepKeepsInv(s, acts[0]);
      ChannelsKeptIff(s, acts[0]);
      if ChannelsMatch(Apply(s, acts[0])) {
        ChannelsExactIff(Apply(s, acts[0]), acts[1..], t);
      } else {
        assert !AlwaysMatch(Apply(s, acts[0]), acts[1..]);
      }
    }
  }

  /** Two submissions under one id: the first has no channel any more, so nobody will learn of its result. */
  lemma SharedIdLosesChannel(id: Id) returns (s: State)
    ensures Leads(Initial(1, false), [Register(id), Register(id)], s)
    ensures s.ids == map[0 := id, 1 := id] && Unfinished(s, 0) && s.channels == map[id := 1]
  {
    var s1 := Apply(Initial(1, false), Register(id));
    s := Apply(s1, Register(id));
    assert Leads(s, [], s);
    assert Leads(s1, [Register(id)], s);
  }

  function Age(p: Place): nat {
    match p
    case Registered => 0
    case InLocal(_) => 1
    case InGlobal => 1
    case Executing(_) => 2
    case Finished => 3
  }

  lemma StepAges(s: State, a: Action, id: Token)
    requires Inv(s) && Enabled(s, a) && id in s.place
    ensures var t := Apply(s, a);
            && id in t.place && Age(s.place[id]) <= Age(t.place[id])
            && (a.Take? && Taken(s, a.worker) == id ==> Age(s.place[id]) == 1 && Age(t.place[id]) == 2)
  {
    if a.Take? { TakenIsThere(s, a.worker); }
  }

  lemma {:induction false} RunAges(s: State, acts: seq<Action>, t: State, id: Token)
    requires Inv(s) && Leads(s, acts, t) && id in s.place
    ensures id in t.place && Age(s.place[id]) <= Age(t.place[id])
    decreases |acts|
  {
    if acts != [] {
      StepAges(s, acts[0], id);
      StepKeepsInv(s, acts[0]);
      RunAges(Apply(s, acts[0]), acts[1..], t, id);
    }
  }

  /** No task is lost, and none is executed twice, whatever happens between the two attempts. */
  lemma ExecutedOnce(s: State, v: nat, acts: seq<Action>, t: State, w: nat)
    requires Inv(s) && Enabled(s, Take(v)) && Leads(Apply(s, Take(v)), acts, t) && Enabled(t, Take(w))
    ensures Taken(t, w) != Taken(s, v)
  {
    var id := Taken(s, v);
    TakenIsThere(s, v);
    StepAges(s, Take(v), id);
    StepKeepsInv(s, Take(v));
    RunKeepsInv(Apply(s, Take(v)), acts, t);
    RunAges(Apply(s, Take(v)), acts, t, id);
    StepAges(t, Take(w), id);
  }

  ghost predicate AllGone(s: State) {
    s.started && forall w {:trigger s.workers[w]} :: 0 <= w < |s.workers| ==> s.workers[w].Exited?
  }

  /** After `start`, the counter is zero exactly when every worker loop has exited. */
  lemma ActiveCounterMeaning(workers: nat, loadBalancing: bool, acts: seq<Action>, s: State)
    requires Leads(Initial(workers, loadBalancing), acts, s) && s.started
    ensures s.active == 0 <==> AllGone(s)
    ensures s.active == LiveCount(s.workers) <= |s.workers|
  {
    InitialInv(workers, loadBalancing);
    RunKeepsInv(Initial(workers, loadBalancing), acts, s);
    AllLive(s.workers);
    forall w | 0 <= w < |s.workers| ensures Live(s.workers[w]) <==> !s.workers[w].Exited? {}
  }

  /** Once it is zero it stays zero, and no task that is not already finished will ever be taken. */
  lemma {:induction false} NothingTakenAfterZero(s: State, acts: seq<Action>, t: State)
    requires Inv(s) && AllGone(s) && Leads(s, acts, t)
    ensures AllGone(t) && t.active == 0 && forall w :: !Enabled(t, Take(w))
    ensures forall id :: id in s.place ==> id in t.place && (s.place[id].Finished? <==> t.place[id].Finished?)
    decreases |acts|
  {
    AllLive(s.workers);
    if acts != [] {
      StepKeepsInv(s, acts[0]);
      GoneStep(s, acts[0]);
      NothingTakenAfterZero(Apply(s, acts[0]), acts[1..], t);
    }
  }

  lemma GoneStep(s: State, a: Action)
    requires Inv(s) && AllGone(s) && Enabled(s, a)
    ensures AllGone(Apply(s, a))
    ensures forall id :: id in s.place ==>
        id in Apply(s, a).place && (s.place[id].Finished? <==> Apply(s, a).place[id].Finished?)
  {
  }

  // ---------------------------------------------------------------- the stealing rotation

  lemma RotationClosedForm(w: nat, n: nat, i: nat)
    requires w < n && i < n
    ensures StealerIndex(w, n, i) == if w + 1 + i < n then w + 1 + i else w + 1 + i - n
  {
    ModUnique(w + 1, n);
    ModUnique((w + 1) % n + i, n);
  }

  lemma ModUnique(x: nat, n: nat)
    requires 0 < n && x < 2 * n
    ensures x % n == if x < n then x else x - n
  {
    if x >= n {
      assert x == 1 * n + (x - n);
      DivMod(x - n, n);
    }
  }

  lemma DivMod(r: nat, n: nat)
    requires r < n
    ensures (n + r) % n == r
  {
  }

  /** One of the turns before the last looks at worker `v`. */
  ghost predicate Visited(w: nat, n: nat, v: nat)
    requires w < n
  {
    exists i :: 0 <= i < n - 1 && StealerIndex(w, n, i) == v
  }

  /** The rotation looks at every other worker exactly once; its last turn is the worker itself. */
  lemma RotationVisitsOthersOnce(w: nat, n: nat)
    requires w < n
    ensures StealerIndex(w, n, n - 1) == w
    ensures forall i :: 0 <= i < n - 1 ==> StealerIndex(w, n, i) != w
    ensures forall v: nat {:trigger Visited(w, n, v)} :: v < n && v != w ==> Visited(w, n, v)
    ensures forall i, j :: 0 <= i < j < n ==> StealerIndex(w, n, i) != StealerIndex(w, n, j)
  {
    forall i | 0 <= i < n ensures StealerIndex(w, n, i) == if w + 1 + i < n then w + 1 + i else w + 1 + i - n {
      RotationClosedForm(w, n, i);
    }
    forall v: nat {:trigger Visited(w, n, v)} | v < n && v != w ensures Visited(w, n, v) {
      var i := if v > w then v - w - 1 else v + n - w - 1;
      assert StealerIndex(w, n, i) == v;
    }
  }

  /** Worker `w` gains nothing at the given position: the queue is empty, or the attempt fails anyway. */
  predicate NothingAt(s: State, w: nat, position: nat, fails: Source -> bool)
    requires w < |s.workers| == |s.local|
  {
    var source := SourceAt(w, |s.workers|, position);
    ContentsOf(s, source) == [] || fails(source)
  }

  /** Nothing gained at any position before `position`. */
  predicate NothingBefore(s: State, w: nat, position: nat, fails: Source -> bool)
    requires w < |s.workers| == |s.local|
  {
    position == 0 || (NothingBefore(s, w, position - 1, fails) && NothingAt(s, w, position - 1, fails))
  }

  lemma {:induction false} NothingBeforeAt(s: State, w: nat, position: nat, fails: Source -> bool, p: nat)
    requires w < |s.workers| == |s.local| && NothingBefore(s, w, position, fails) && p < position
    ensures NothingAt(s, w, p, fails)
  {
    if p < position - 1 { NothingBeforeAt(s, w, position - 1, fails, p); }
  }

  /** A search without spurious failures that gains nothing at any position has looked at every queue. */
  lemma SearchCoversAll(s: State, w: nat, fails: Source -> bool)
    requires w < |s.workers| == |s.local|
    requires NothingBefore(s, w, |s.workers| + 2, fails) && forall source: Source :: !fails(source)
    ensures s.global == [] && forall q :: 0 <= q < |s.local| ==> s.local[q] == []
  {
    var n := |s.workers|;
    NothingBeforeAt(s, w, n + 2, fails, 0);
    NothingBeforeAt(s, w, n + 2, fails, 1);
    forall q: nat | q < n && q != w ensures s.local[q] == [] {
      var i := TurnFor(w, n, q);
      NothingBeforeAt(s, w, n + 2, fails, i + 2);
    }
  }

  lemma TurnFor(w: nat, n: nat, v: nat) returns (i: nat)
    requires w < n && v < n && v != w
    ensures i < n - 1 && StealerIndex(w, n, i) == v
  {
    RotationVisitsOthersOnce(w, n);
    assert Visited(w, n, v);
    i :| 0 <= i < n - 1 && StealerIndex(w, n, i) == v;
  }

  // ---------------------------------------------------------------- who gets a submission

  /** How many of the counter values below `c` choose worker `w`. */
  function Chosen(n: nat, w: nat, c: nat): nat
    requires n > 0
  {
    if c == 0 then 0 else Chosen(n, w, c - 1) + if TargetWorker(c - 1, n) == w then 1 else 0
  }

  /** How many of the numbers below `k` leave the remainder `w`. */
  function Turns(n: nat, w: nat, k: nat): nat
    requires n > 0
  {
    if k == 0 then 0 else Turns(n, w, k - 1) + if (k - 1) % n == w then 1 else 0
  }

  lemma {:induction false} ChosenByThrees(n: nat, w: nat, k: nat)
    requires n > 0
    ensures Chosen(n, w, 3 * k) == 2 * Turns(n, w, k) + if w == 0 then k else 0
  {
    if k > 0 {
      ChosenByThrees(n, w, k - 1);
      ThreeMore(n, w, k - 1);
    }
  }

  /** The first worker, and then the next one round twice. */
  lemma ThreeChoices(n: nat, k: nat)
    requires n > 0
    ensures TargetWorker(3 * k, n) == 0 && TargetWorker(3 * k + 1, n) == TargetWorker(3 * k + 2, n) == k % n
  {
    assert (3 * k + 1) / 3 == (3 * k + 2) / 3 == k && (3 * k) % 3 == 0;
    assert (3 * k + 1) % 3 == 1 && (3 * k + 2) % 3 == 2;
  }

  lemma ThreeMore(n: nat, w: nat, k: nat)
    requires n > 0
    ensures Chosen(n, w, 3 * k + 3) ==
            Chosen(n, w, 3 * k) + (if w == 0 then 1 else 0) + (if k % n == w then 2 else 0)
  {
    var c := 3 * k;
    ThreeChoices(n, k);
    assert Chosen(n, w, c + 1) == Chosen(n, w, c) + if w == 0 then 1 else 0;
    assert Chosen(n, w, c + 2) == Chosen(n, w, c + 1) + if k % n == w then 1 else 0;
    assert Chosen(n, w, c + 3) == Chosen(n, w, c + 2) + if k % n == w then 1 else 0;
  }

  lemma {:induction false} TurnsInRounds(n: nat, w: nat, m: nat, j: nat)
    requires w < n && j <= n
    ensures Turns(n, w, n * m + j) == m + if w < j then 1 else 0
    decreases m, j
  {
    if j > 0 {
      TurnsInRounds(n, w, m, j - 1);
      RemainderOf(n, m, j - 1);
    } else if m > 0 {
      TurnsInRounds(n, w, m - 1, n);
      OneRoundMore(n, m);
    }
  }

  lemma OneRoundMore(n: nat, m: nat)
    requires m > 0
    ensures n * m == n * (m - 1) + n
  {
  }

  lemma RemainderOf(n: nat, m: nat, j: nat)
    requires j < n
    ensures (n * m + j) % n == j
  {
    var x := n * m + j;
    var d := x / n - m;
    assert n * d == j - x % n;
    FarFromZero(n, d);
  }

  lemma FarFromZero(n: int, d: int)
    requires n > 0
    ensures d >= 1 ==> n * d >= n
    ensures d <= -1 ==> n * d <= -n
  {
    if d >= 1 {
      assert n * d == n + n * (d - 1) && n * (d - 1) >= 0;
    } else if d <= -1 {
      assert n * d == -n + n * (d + 1) && n * (d + 1) <= 0;
    }
  }

  /**
   Of any whole number of rounds, three submissions for each worker, every worker gets two a round, and
   the first worker another one for each three submissions.
   */
  lemma SubmissionsPerWorker(n: nat, w: nat, rounds: nat)
    requires w < n
    ensures Chosen(n, w, 3 * (n * rounds)) == 2 * rounds + if w == 0 then n * rounds else 0
  {
    ChosenByThrees(n, w, n * rounds);
    TurnsInRounds(n, w, rounds, 0);
    assert n * rounds + 0 == n * rounds;
  }

  // ---------------------------------------------------------------- first in, first out

  /** `t` is ahead of `u` in the queue. */
  ghost predicate Ahead(queue: seq<Token>, t: Token, u: Token) {
    exists i, j :: 0 <= i < j < |queue| && queue[i] == t && queue[j] == u
  }

  /** `t` has been queued, and it has left the queue or is still ahead of `u`. */
  ghost predicate ServedFirst(s: State, queue: seq<Token>, t: Token, u: Token) {
    && t in s.place && u in s.place && Age(s.place[t]) > 0 && Age(s.place[u]) > 0
    && (t !in queue || Ahead(queue, t, u))
  }

  /** A queue loses its front, or gains something that was nowhere before, or stays. */
  lemma QueueStep(s: State, a: Action, q: nat)
    requires Inv(s) && Enabled(s, a) && q < |s.local|
    ensures var before, after := s.local[q], Apply(s, a).local[q];
            after == before || (before != [] && after == before[1..])
            || (a.Push? && s.place[a.token] == Registered && after == before + [a.token])
  {
    if a.Take? { TakenIsThere(s, a.worker); }
  }

  lemma StepServesFirst(s: State, a: Action, q: nat, t: Token, u: Token)
    requires Inv(s) && Enabled(s, a) && q < |s.local| && ServedFirst(s, s.local[q], t, u)
    ensures ServedFirst(Apply(s, a), Apply(s, a).local[q], t, u)
  {
    var before, after := s.local[q], Apply(s, a).local[q];
    QueueStep(s, a, q);
    StepAges(s, a, t);
    StepAges(s, a, u);
    assert Lists(s.place, before, InLocal(q));
    if t in after {
      if a.Push? && after == before + [a.token] { assert t in before; }
      AheadStays(before, after, t, u);
    }
  }

  lemma AheadStays(before: seq<Token>, after: seq<Token>, t: Token, u: Token)
    requires Ahead(before, t, u) && NoDup(before) && t in after
    requires after == before || (before != [] && after == before[1..])
             || (|after| > |before| && after[..|before|] == before)
    ensures Ahead(after, t, u)
  {
    var i, j :| 0 <= i < j < |before| && before[i] == t && before[j] == u;
    NoDupPairs(before);
    if before != [] && after == before[1..] {
      forall k | 0 <= k < |after| ensures after[k] == before[k + 1] {}
      assert after[i - 1] == t && after[j - 1] == u;
    } else if |after| > |before| {
      assert after[i] == after[..|before|][i] && after[j] == after[..|before|][j];
    }
  }

  lemma {:induction false} RunServesFirst(s: State, acts: seq<Action>, s': State, q: nat, t: Token, u: Token)
    requires Inv(s) && Leads(s, acts, s') && q < |s.local| && ServedFirst(s, s.local[q], t, u)
    ensures |s'.local| == |s.local| && ServedFirst(s', s'.local[q], t, u)
    decreases |acts|
  {
    if acts != [] {
      StepKeepsInv(s, acts[0]);
      StepServesFirst(s, acts[0], q, t, u);
      RunServesFirst(Apply(s, acts[0]), acts[1..], s', q, t, u);
    }
  }

  /**
   First in, first out, whoever takes: of two tasks of one queue the one behind has not left the queue
   before the one ahead, in any interleaving.
   */
  lemma FirstInFirstOut(s: State, acts: seq<Action>, s': State, q: nat, i: nat, j: nat)
    requires Inv(s) && Leads(s, acts, s') && q < |s.local| && i < j < |s.local[q]|
    ensures |s'.local| == |s.local| && (s.local[q][j] !in s'.local[q] ==> s.local[q][i] !in s'.local[q])
  {
    var queue := s.local[q];
    assert Lists(s.place, queue, InLocal(q));
    assert queue[i] in queue && queue[j] in queue;
    RunServesFirst(s, acts, s', q, queue[i], queue[j]);
  }

  // ---------------------------------------------------------------- what a search finds

  /** Something can be taken from worker `q`'s queue. */
  predicate Yields(s: State, fails: Source -> bool, q: nat) {
    q < |s.local| && s.local[q] != [] && !fails(OwnedBy(q))
  }

  /** How far worker `v` is from worker `w`, going upwards and round. */
  function Distance(w: nat, v: nat, n: nat): int {
    if v > w then v - w else v + n - w
  }

  /** The nearest other worker whose queue yields. */
  ghost predicate IsNearest(s: State, w: nat, fails: Source -> bool, v: nat) {
    && v != w && Yields(s, fails, v)
    && forall u: nat {:trigger Yields(s, fails, u)} :: u != w && Yields(s, fails, u) ==>
         Distance(w, v, |s.local|) <= Distance(w, u, |s.local|)
  }

  /** The worker's own queue comes first, then the shared one, then the nearest other worker's; always the front. */
  ghost predicate Serves(s: State, w: nat, fails: Source -> bool, task: Option<Token>)
    requires w < |s.local|
  {
    if Yields(s, fails, w) then task == Some(s.local[w][0])
    else if s.global != [] && !fails(Shared) then task == Some(s.global[0])
    else if task.Some? then exists v: nat :: IsNearest(s, w, fails, v) && task.value == s.local[v][0]
    else forall v: nat :: !Yields(s, fails, v)
  }

  /** Attempts on other workers' queues: none if the own or the shared queue yields, else as far as needed. */
  ghost function StealAttempts(s: State, w: nat, fails: Source -> bool): int
    requires w < |s.local|
  {
    if Yields(s, fails, w) || (s.global != [] && !fails(Shared)) then 0
    else if v: nat :| IsNearest(s, w, fails, v) then Distance(w, v, |s.local|)
    else |s.local| - 1
  }

  /** The positions of a search in terms of the queues. */
  lemma PositionOf(s: State, w: nat, fails: Source -> bool, v: nat) returns (p: nat)
    requires w < |s.workers| == |s.local| && v < |s.local| && v != w
    ensures p == Distance(w, v, |s.local|) + 1 && 2 <= p < |s.local| + 1
    ensures SourceAt(w, |s.workers|, p) == OwnedBy(v) && (NothingAt(s, w, p, fails) <==> !Yields(s, fails, v))
  {
    var n := |s.local|;
    p := Distance(w, v, n) + 1;
    RotationClosedForm(w, n, p - 2);
  }

  lemma WorkerAt(s: State, w: nat, fails: Source -> bool, p: nat) returns (v: nat)
    requires w < |s.workers| == |s.local| && 2 <= p < |s.workers| + 2 && !NothingAt(s, w, p, fails)
    ensures v != w && Yields(s, fails, v) && p == Distance(w, v, |s.local|) + 1
    ensures SourceAt(w, |s.workers|, p) == OwnedBy(v)
  {
    v := StealerIndex(w, |s.workers|, p - 2);
    RotationClosedForm(w, |s.workers|, p - 2);
  }

  lemma HitServes(s: State, w: nat, position: nat, fails: Source -> bool, task: Token)
    requires w < |s.workers| == |s.local| && position < |s.workers| + 2
    requires NothingBefore(s, w, position, fails) && !NothingAt(s, w, position, fails)
    requires task == ContentsOf(s, SourceAt(w, |s.workers|, position))[0]
    ensures Serves(s, w, fails, Some(task))
    ensures StealAttempts(s, w, fails) == AttemptsBefore(position + 1, |s.workers|)
  {
    if position > 0 { NothingBeforeAt(s, w, position, fails, 0); }
    if position > 1 {
      NothingBeforeAt(s, w, position, fails, 1);
      var v := WorkerAt(s, w, fails, position);
      forall u: nat | u != w && Yields(s, fails, u) ensures Distance(w, v, |s.local|) <= Distance(w, u, |s.local|) {
        var p := PositionOf(s, w, fails, u);
        if p < position { NothingBeforeAt(s, w, position, fails, p); }
      }
      assert IsNearest(s, w, fails, v);
      NearestOnce(s, w, fails, v);
    }
  }

  lemma SameQueuesServe(s: State, t: State, w: nat, fails: Source -> bool)
    requires w < |s.local| && t.local == s.local && t.global == s.global
    ensures forall task :: Serves(s, w, fails, task) <==> Serves(t, w, fails, task)
  {
    forall v: nat ensures Yields(s, fails, v) <==> Yields(t, fails, v) {}
    forall v: nat ensures IsNearest(s, w, fails, v) <==> IsNearest(t, w, fails, v) {}
  }

  lemma NearestOnce(s: State, w: nat, fails: Source -> bool, v: nat)
    requires w < |s.local| && IsNearest(s, w, fails, v)
    ensures forall u: nat :: IsNearest(s, w, fails, u) ==> Distance(w, u, |s.local|) == Distance(w, v, |s.local|)
  {
  }

  lemma MissServes(s: State, w: nat, fails: Source -> bool)
    requires w < |s.workers| == |s.local| && NothingBefore(s, w, |s.workers| + 2, fails)
    ensures Serves(s, w, fails, None) && StealAttempts(s, w, fails) == |s.local| - 1
  {
    var n := |s.workers|;
    NothingBeforeAt(s, w, n + 2, fails, 0);
    NothingBeforeAt(s, w, n + 2, fails, 1);
    forall v: nat ensures !Yields(s, fails, v) {
      if v < n && v != w {
        var p := PositionOf(s, w, fails, v);
        NothingBeforeAt(s, w, n + 2, fails, p);
      }
    }
  }

  // ---------------------------------------------------------------- the operations, one at a time

  lemma LeadsThen(s: State, acts: seq<Action>, m: State, more: seq<Action>, t: State)
    requires Leads(s, acts, m) && Leads(m, more, t)
    ensures Leads(s, acts + more, t)
    decreases |acts|
  {
    if acts == [] {
      assert acts + more == more;
    } else {
      assert (acts + more)[1..] == acts[1..] + more;
      LeadsThen(Apply(s, acts[0]), acts[1..], m, more, t);
    }
  }

  /** The state `s` except for where worker `w` is. */
  function AtPhase(s: State, w: nat, phase: Phase): State
    requires w < |s.workers|
  {
    s.(workers := s.workers[w := phase])
  }

  /** How many other workers' queues the positions before `position` cover. */
  function AttemptsBefore(position: nat, n: nat): nat
    requires n > 0
  {
    if position < 2 then 0 else if position < n + 2 then position - 2 else n - 1
  }

  lemma AttemptsAt(w: nat, n: nat, position: nat)
    requires w < n && position < n + 2
    ensures AttemptsBefore(position + 1, n) == AttemptsBefore(position, n) + if position >= 2
        && SourceAt(w, n, position).OwnedBy? then 1 else 0
  {
    RotationVisitsOthersOnce(w, n);
  }

  lemma SubmitEffect(s: State, id: Id, counter: nat)
    requires Inv(s)
    ensures var t := Apply(s, Register(id));
            && Enabled(t, Push(s.next, counter))
            && var u := Apply(t, Push(s.next, counter));
               && u.channels == s.channels[id := s.next] && u.ids == s.ids[s.next := id]
               && u.place == s.place[s.next := Target(s, counter)] && u.loadBalancing == s.loadBalancing
               && if s.loadBalancing && |s.local| > 0
                  then var q := TargetWorker(counter, |s.local|);
                       u.local == s.local[q := s.local[q] + [s.next]] && u.global == s.global
                  else u.local == s.local && u.global == s.global + [s.next]
  {
    PushEffect(Apply(s, Register(id)), s.next, counter);
  }

  /** A push appends to the chosen worker's queue or to the shared one. */
  lemma PushEffect(s: State, t: Token, counter: nat)
    requires Enabled(s, Push(t, counter))
    ensures var u := Apply(s, Push(t, counter));
            && u.place == s.place[t := Target(s, counter)] && u.channels == s.channels && u.ids == s.ids
            && u.loadBalancing == s.loadBalancing
            && if s.loadBalancing && |s.local| > 0
               then var q := TargetWorker(counter, |s.local|);
                    u.local == s.local[q := s.local[q] + [t]] && u.global == s.global
               else u.local == s.local && u.global == s.global + [t]
  {
  }

  lemma SubmitChannels(s: State, id: Id, counter: nat)
    requires Inv(s) && Enabled(Apply(s, Register(id)), Push(s.next, counter))
    ensures ChannelsMatch(s) ==>
              (ChannelsMatch(Apply(Apply(s, Register(id)), Push(s.next, counter))) <==> id !in s.channels)
  {
    if ChannelsMatch(s) {
      StepKeepsInv(s, Register(id));
      ChannelsKeptIff(s, Register(id));
      PushMovesNoChannel(Apply(s, Register(id)), s.next, counter);
    }
  }

  lemma PushMovesNoChannel(s: State, t: Token, counter: nat)
    requires Inv(s) && Enabled(s, Push(t, counter))
    ensures ChannelsMatch(Apply(s, Push(t, counter))) <==> ChannelsMatch(s)
  {
    var s' := Apply(s, Push(t, counter));
    forall u | u in s.ids ensures Unfinished(s, u) <==> Unfinished(s', u) {}
    if ChannelsMatch(s') {
      forall u | u in s.ids && Unfinished(s, u) ensures s.ids[u] in s.channels && s.channels[s.ids[u]] == u {
        assert s'.ids[u] == s.ids[u];
      }
    }
  }

  /** The front of the source at `position` of `s` was there to take, and in `t` worker `w` runs it. */
  predicate Found(s: State, w: nat, position: nat, fails: Source -> bool, id: Token, t: State)
    requires w < |s.workers| == |s.local|
  {
    && !NothingAt(s, w, position, fails)
    && id == ContentsOf(s, SourceAt(w, |s.workers|, position))[0]
    && IsAt(t, w, Busy(id)) && t.channels == s.channels && t.ids == s.ids
    && t.place == s.place[id := Executing(w)]
  }

  predicate IsAt(s: State, w: nat, phase: Phase) {
    w < |s.workers| && s.workers[w] == phase
  }

  /** Where a search of `n` workers' queues is after trying the first `position` positions in vain. */
  function SearchPhase(position: nat, n: nat): Phase {
    if position < n + 2 then Searching(position) else AtTop
  }

  lemma SamePlaceElsewhere(s: State, w: nat, p: Phase, q: Phase, position: nat, fails: Source -> bool)
    requires w < |s.workers| == |s.local|
    ensures AtPhase(AtPhase(s, w, p), w, q) == AtPhase(s, w, q)
    ensures NothingAt(s, w, position, fails) <==> NothingAt(AtPhase(s, w, p), w, position, fails)
  {
  }

  /** The search of worker `w` that began in `start` has reached `position` with nothing, and this is the state. */
  ghost predicate Searched(start: State, w: nat, position: nat, attempts: nat, fails: Source -> bool, s: State) {
    && w < |start.workers| == |start.local|
    && s == AtPhase(start, w, SearchPhase(position, |start.workers|))
    && attempts == AttemptsBefore(position, |start.workers|)
    && NothingBefore(start, w, position, fails)
  }

  lemma SearchGoesOn(start: State, w: nat, position: nat, attempts: nat, fails: Source -> bool, s: State)
    requires Searched(start, w, position, attempts, fails, s) && position < |start.workers| + 2
    ensures Looks(s, w) && s.workers[w].position == position && |s.workers| == |s.local| == |start.workers|
    ensures NothingAt(s, w, position, fails) <==> NothingAt(start, w, position, fails)
    ensures var more := if position >= 2 && SourceAt(w, |start.workers|, position).OwnedBy? then attempts + 1
        else attempts;
            && more == AttemptsBefore(position + 1, |start.workers|)
            && (NothingAt(s, w, position, fails) ==>
                  Searched(start, w, position + 1, more, fails,
                      AtPhase(s, w, SearchPhase(position + 1, |start.workers|))))
  {
    var n := |start.workers|;
    AttemptsAt(w, n, position);
    SamePlaceElsewhere(start, w, SearchPhase(position, n), SearchPhase(position + 1, n), position, fails);
  }

  /** Trying positions in vain is a path of misses. */
  lemma {:induction false} MissPath(s: State, w: nat, position: nat) returns (acts: seq<Action>)
    requires |s.workers| == |s.local| && IsAt(s, w, Searching(0)) && position <= |s.workers| + 2
    ensures Leads(s, acts, AtPhase(s, w, SearchPhase(position, |s.workers|)))
  {
    var n := |s.workers|;
    if position == 0 {
      acts := [];
      assert AtPhase(s, w, Searching(0)) == s;
    } else {
      var before := AtPhase(s, w, SearchPhase(position - 1, n));
      acts := MissPath(s, w, position - 1);
      acts := OneMore(s, acts, before, Miss(w));
      assert Apply(before, Miss(w)) == AtPhase(s, w, SearchPhase(position, n));
    }
  }

  lemma OneMore(s: State, acts: seq<Action>, m: State, a: Action) returns (r: seq<Action>)
    requires Leads(s, acts, m) && Enabled(m, a)
    ensures Leads(s, r, Apply(m, a))
  {
    assert Leads(Apply(m, a), [], Apply(m, a));
    LeadsThen(s, acts, m, [a], Apply(m, a));
    r := acts + [a];
  }

  /** Misses up to a position and then a hit: where the search ends and what it has done. */
  lemma FoundPath(s: State, w: nat, position: nat, fails: Source -> bool) returns (acts: seq<Action>)
    requires Inv(s) && IsAt(s, w, Searching(0)) && position < |s.workers| + 2 && !NothingAt(s, w, position, fails)
    ensures var m := AtPhase(s, w, Searching(position));
            && Enabled(m, Take(w)) && Leads(s, acts, Apply(m, Take(w)))
            && Found(s, w, position, fails, Taken(m, w), Apply(m, Take(w)))
  {
    var m := AtPhase(s, w, Searching(position));
    acts := MissPath(s, w, position);
    acts := OneMore(s, acts, m, Take(w));
  }

  /** A search that hits at `position`: how it gets there and whose task it finds. */
  lemma SearchHits(s: State, w: nat, position: nat, fails: Source -> bool) returns (acts: seq<Action>)
    requires Inv(s) && IsAt(s, w, Searching(0)) && position < |s.workers| + 2
    requires NothingBefore(s, w, position, fails) && !NothingAt(s, w, position, fails)
    ensures var m := AtPhase(s, w, Searching(position));
            && Enabled(m, Take(w)) && Leads(s, acts, Apply(m, Take(w)))
            && Found(s, w, position, fails, Taken(m, w), Apply(m, Take(w)))
            && Serves(s, w, fails, Some(Taken(m, w)))
    ensures StealAttempts(s, w, fails) == AttemptsBefore(position + 1, |s.workers|)
  {
    acts := FoundPath(s, w, position, fails);
    HitServes(s, w, position, fails, Taken(AtPhase(s, w, Searching(position)), w));
  }

  lemma SearchMisses(s: State, w: nat, fails: Source -> bool) returns (acts: seq<Action>)
    requires Inv(s) && IsAt(s, w, Searching(0)) && NothingBefore(s, w, |s.workers| + 2, fails)
    ensures Leads(s, acts, AtPhase(s, w, AtTop))
    ensures Serves(s, w, fails, None) && StealAttempts(s, w, fails) == |s.workers| - 1
  {
    acts := MissPath(s, w, |s.workers| + 2);
    MissServes(s, w, fails);
  }

  /** What finishing a task that was just found does. */
  lemma FinishEffect(s: State, w: nat, position: nat, fails: Source -> bool, id: Token, t: State)
    requires w < |s.workers| == |s.local| && Found(s, w, position, fails, id, t)
    ensures Enabled(t, Finish(w))
    ensures var u := Apply(t, Finish(w));
            IsAt(u, w, AtTop) && u.place == s.place[id := Finished] && u.channels == s.channels - IdsOf(s, id)
  {
    assert s.place[id := Executing(w)][id := Finished] == s.place[id := Finished];
  }

  class WorkStealingScheduler {
    var state: State
    var counter: nat

    constructor (numWorkers: nat, loadBalancing: bool)
      ensures state == Initial(numWorkers, loadBalancing) && Inv(state) && counter == 0
      ensures !state.started && !state.shutdown && state.active == 0 && |state.local| == |state.workers| == numWorkers
    {
      InitialInv(numWorkers, loadBalancing);
      state, counter := Initial(numWorkers, loadBalancing), 0;
    }

    method Do(a: Action, ghost before: seq<Action>, ghost start: State) returns (ghost acts: seq<Action>)
      requires Leads(start, before, state) && Inv(state) && Enabled(state, a)
      modifies this`state
      ensures state == Apply(old(state), a) && Leads(start, acts, state) && Inv(state)
    {
      StepKeepsInv(state, a);
      acts := OneMore(start, before, state, a);
      state := Apply(state, a);
    }

    /** All loops begin; starting again changes nothing. */
    method Start() returns (ghost acts: seq<Action>)
      requires Inv(state)
      modifies this`state
      ensures Leads(old(state), acts, state) && Inv(state) && state.started
      ensures old(state).started ==> state == old(state)
      ensures !old(state).started ==> state.active == |state.workers| && forall w :: 0 <= w < |state.workers| ==>
                state.workers[w] == AtTop
      ensures state.local == old(state).local && state.global == old(state).global && state.place == old(state).place
    {
      acts := [];
      if !state.started { acts := Do(Action.Start, [], state); }
    }

    /** From now on every loop leaves when it comes back to its top. */
    method RequestShutdown() returns (ghost acts: seq<Action>)
      requires Inv(state)
      modifies this`state
      ensures Leads(old(state), acts, state) && Inv(state) && state == old(state).(shutdown := true)
    {
      acts := Do(Action.RequestShutdown, [], state);
    }

    /**
     The channel is registered before the task can be seen in a queue.  Under an id that is in use it
     takes the place of the older submission's channel.
     */
    method SubmitTask(id: Id) returns (ghost acts: seq<Action>)
      requires Inv(state)
      modifies this
      ensures Leads(old(state), acts, state) && Inv(state)
      ensures var s := old(state);
              && state.channels == s.channels[id := s.next] && state.ids == s.ids[s.next := id]
              && state.place == s.place[s.next := Target(s, old(counter))]
      ensures var s := old(state);
              if s.loadBalancing && |s.local| > 0
              then var q := TargetWorker(old(counter), |s.local|);
                   state.local == s.local[q := s.local[q] + [s.next]] && state.global == s.global
              else state.local == s.local && state.global == s.global + [s.next]
      ensures counter == old(counter) + (if state.loadBalancing then 1 else 0)
      ensures ChannelsMatch(old(state)) ==> (ChannelsMatch(state) <==> id !in old(state).channels)
    {
      SubmitEffect(state, id, counter);
      SubmitChannels(state, id, counter);
      var t := state.next;
      acts := Do(Register(id), [], state);
      var c := counter;
      if state.loadBalancing { counter := counter + 1; }
      acts := Do(Push(t, c), acts, old(state));
    }

    /** One attempt of a search: the front of the source if it yields, else on to the next position. */
    method TryAt(w: nat, position: nat, fails: Source -> bool) returns (task: Option<Token>)
      requires Inv(state) && Looks(state, w) && state.workers[w].position == position
      modifies this`state
      ensures Inv(state)
      ensures task.None? <==> NothingAt(old(state), w, position, fails)
      ensures task.None? ==> state == AtPhase(old(state), w, SearchPhase(position + 1, |old(state).workers|))
      ensures task.Some? ==>
          Enabled(old(state), Take(w)) && state == Apply(old(state), Take(w)) && task.value == Taken(old(state), w)
    {
      var source := SourceAt(w, |state.workers|, position);
      var queue := ContentsOf(state, source);
      if queue != [] && !fails(source) {
        StepKeepsInv(state, Take(w));
        state := Apply(state, Take(w));
        task := Some(queue[0]);
      } else {
        StepKeepsInv(state, Miss(w));
        state := Apply(state, Miss(w));
        task := None;
      }
    }

    /** One position of a search that has found nothing so far; an attempt on another worker's queue is counted. */
    method TryNext(w: nat, position: nat, attempts0: nat, fails: Source -> bool, ghost start: State)
      returns (task: Option<Token>, attempts: nat, ghost acts: seq<Action>)
      requires Inv(start) && Looks(start, w) && start.workers[w] == Searching(0) && Inv(state)
      requires Searched(start, w, position, attempts0, fails, state) && position < |start.workers| + 2
      modifies this`state
      ensures Inv(state) && attempts == AttemptsBefore(position + 1, |start.workers|)
      ensures task.None? ==> Searched(start, w, position + 1, attempts, fails, state)
      ensures task.Some? ==>
                && Leads(start, acts, state) && Found(start, w, position, fails, task.value, state)
                && Serves(start, w, fails, task) && attempts == StealAttempts(start, w, fails)
    {
      SearchGoesOn(start, w, position, attempts0, fails, state);
      attempts := attempts0;
      if position >= 2 && SourceAt(w, |state.workers|, position).OwnedBy? { attempts := attempts + 1; }
      task := TryAt(w, position, fails);
      acts := [];
      if task.Some? { acts := SearchHits(start, w, position, fails); }
    }

    /**
     One search.  It takes the front of the first source that yields anything; coming back empty-handed
     it has changed nothing and made one attempt on each other worker.  `fails(source)` says that the
     attempt on `source` fails although there may be something.
     */
    method FindTask(w: nat, fails: Source -> bool)
      returns (task: Option<Token>, position: nat, attempts: nat, ghost acts: seq<Action>)
      requires Inv(state) && Looks(state, w) && state.workers[w] == Searching(0)
      modifies this`state
      ensures Leads(old(state), acts, state) && Inv(state)
      ensures NothingBefore(old(state), w, position, fails)
      ensures task.None? ==> position == |old(state).workers| + 2 && attempts == |old(state).workers| - 1
      ensures task.None? ==> state == AtPhase(old(state), w, AtTop)
      ensures task.Some? ==> Found(old(state), w, position, fails, task.value, state)
      ensures task.Some? ==>
          position < |old(state).workers| + 2 && attempts == AttemptsBefore(position + 1, |old(state).workers|)
      ensures Serves(old(state), w, fails, task) && attempts == StealAttempts(old(state), w, fails)
    {
      var n := |state.workers|;
      ghost var start := state;
      position, attempts := 0, 0;
      assert AtPhase(start, w, Searching(0)) == start;
      while position < n + 2
        invariant position <= n + 2 && |start.workers| == n && Inv(state)
        invariant Searched(start, w, position, attempts, fails, state)
      {
        task, attempts, acts := TryNext(w, position, attempts, fails, start);
        if task.Some? { return; }
        position := position + 1;
      }
      task := None;
      acts := SearchMisses(start, w, fails);
    }

    /** Looks for a task and, if it finds one, runs it and sends its result. */
    method SearchAndRun(w: nat, fails: Source -> bool) returns (ran: Option<Token>, ghost acts: seq<Action>)
      requires Inv(state) && IsAt(state, w, Searching(0))
      modifies this`state
      ensures Leads(old(state), acts, state) && Inv(state) && IsAt(state, w, AtTop)
      ensures ran.Some? ==>
          state.place == old(state).place[ran.value := Finished]
              && state.channels == old(state).channels - IdsOf(old(state), ran.value)
      ensures ran.None? ==> state == AtPhase(old(state), w, AtTop)
      ensures Serves(old(state), w, fails, ran)
    {
      var position, attempts;
      ran, position, attempts, acts := FindTask(w, fails);
      if ran.Some? {
        FinishEffect(old(state), w, position, fails, ran.value, state);
        acts := Do(Finish(w), acts, old(state));
      }
    }

    /** One turn of the worker's loop, from the top: leave on shutdown, or search and run. */
    method WorkerTurn(w: nat, fails: Source -> bool) returns (ran: Option<Token>, ghost acts: seq<Action>)
      requires Inv(state) && IsAt(state, w, AtTop)
      modifies this`state
      ensures Leads(old(state), acts, state) && Inv(state)
      ensures old(state).shutdown ==>
          ran.None? && IsAt(state, w, Exited) && state.active == old(state).active - 1
              && state.place == old(state).place
      ensures !old(state).shutdown ==> IsAt(state, w, AtTop)
      ensures ran.Some? ==>
          state.place == old(state).place[ran.value := Finished]
              && state.channels == old(state).channels - IdsOf(old(state), ran.value)
      ensures ran.None? ==> state.place == old(state).place && state.channels == old(state).channels
      ensures !old(state).shutdown ==> |old(state).workers| == |old(state).local| && Serves(old(state), w, fails, ran)
    {
      acts := Do(Check(w), [], state);
      if state.workers[w].Leaving? {
        AllLive(state.workers);
        acts := Do(Exit(w), acts, old(state));
        ran := None;
      } else {
        ghost var before, more := state, [];
        SameQueuesServe(old(state), state, w, fails);
        ran, more := SearchAndRun(w, fails);
        LeadsThen(old(state), acts, before, more, state);
        acts := acts + more;
      }
    }
  }
}
