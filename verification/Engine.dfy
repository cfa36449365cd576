/** The build engine: groups of builds one after another, the builds of a group concurrently, each
    possibly asking for leadership, a shared store of container IDs, and process exit on an error or
    a requested stop. */
module Engine {
  import opened Seqs

  /** Adding IDs to a store puts them behind those it holds. */
  function Appended(ids: seq<string>, more: seq<string>): seq<string> { ids + more }

  /** The shared store of IDs. */
  class IDStore {
    var ids: seq<string>

    constructor ()
      ensures ids == []
    {
      ids := [];
    }

    method Add(more: seq<string>)
      modifies this
      ensures ids == old(ids) + more
    {
      ids := ids + more;
    }

    method Get() returns (all: seq<string>)
      ensures all == ids
    {
      all := ids;
    }
  }

  /** What running a build will do: the IDs it reports, whether it fails or asks to stop, and how
      often it calls Leader on the way. */
  datatype Build = Build(ids: seq<string>, fails: bool, stops: bool, leaderCalls: nat)

  type Groups = seq<seq<Build>>

  /** A build goroutine's program counter; `calls` counts the calls of Leader still to be completed. */
  datatype Pc =
    | Sleeping
    | Working(calls: nat)
    | Blocked(calls: nat)
    | Leading(calls: nat)
    | Storing
    | Leaving
    | Gone

  /** `ran` counts the functions the goroutine has run as or after a leader. */
  datatype Thread = Thread(group: nat, index: nat, pc: Pc, ran: nat)

  datatype MainPc = Spawning(group: nat, next: nat) | Waiting(group: nat) | Finished

  /** `order` is the order in which goroutines stored their IDs. */
  datatype State = State(
    main: MainPc,
    threads: seq<Thread>,
    waitGroup: nat,
    lock: Option<nat>,
    ids: seq<string>,
    order: seq<nat>,
    exited: Option<nat>)

  const INIT := State(Spawning(0, 0), [], 0, None, [], [], None)

  datatype Action =
    | Spawn
    | StartWaiting
    | NextGroup
    | FinishEngine
    | Wake(thread: nat)
    | CallLeader(thread: nat, acquired: bool)
    | Acquire(thread: nat)
    | RunAndRelease(thread: nat)
    | Complete(thread: nat)
    | Store(thread: nat)
    | Leave(thread: nat)

  predicate InRange(groups: Groups, t: Thread) {
    t.group < |groups| && t.index < |groups[t.group]|
  }

  function BuildOf(groups: Groups, t: Thread): Build
    requires InRange(groups, t)
  {
    groups[t.group][t.index]
  }

  function At(s: State, k: nat, pc: Pc): State
    requires k < |s.threads|
  {
    s.(threads := s.threads[k := s.threads[k].(pc := pc)])
  }

  /** TryLock may succeed only when the lock is free, but may fail at any time. */
  function StepCall(s: State, k: nat, acquired: bool): Option<State>
    requires k < |s.threads|
  {
    match s.threads[k].pc
    case Working(calls) =>
      if calls == 0 then None
      else if !acquired then Some(At(s, k, Blocked(calls)))
      else if s.lock == None then Some(At(s, k, Leading(calls)).(lock := Some(k)))
      else None
    case _ => None
  }

  function StepAcquire(s: State, k: nat): Option<State>
    requires k < |s.threads|
  {
    match s.threads[k].pc
    case Blocked(calls) => if s.lock == None then Some(At(s, k, Leading(calls)).(lock := Some(k))) else None
    case _ => None
  }

  /** The function runs while the lock is held, whether it was tried or waited for. */
  function StepRelease(s: State, k: nat): Option<State>
    requires k < |s.threads|
  {
    match s.threads[k].pc
    case Leading(calls) =>
      if calls == 0 then None
      else
        var t := s.threads[k];
        Some(s.(threads := s.threads[k := t.(pc := Working(calls - 1), ran := t.ran + 1)], lock := None))
    case _ => None
  }

  /** An error ends the process with status 1, a requested stop with status 0. */
  function StepComplete(groups: Groups, s: State, k: nat): Option<State>
    requires k < |s.threads|
  {
    if s.threads[k].pc != Working(0) || !InRange(groups, s.threads[k]) then None else
      var b := BuildOf(groups, s.threads[k]);
      if b.fails then Some(s.(exited := Some(1)))
      else if b.stops then Some(s.(exited := Some(0)))
      else Some(At(s, k, Storing))
  }

  function StepStore(groups: Groups, s: State, k: nat): Option<State>
    requires k < |s.threads|
  {
    if s.threads[k].pc.Storing? && InRange(groups, s.threads[k])
    then Some(At(s, k, Leaving).(ids := Appended(s.ids, BuildOf(groups, s.threads[k]).ids), order := s.order + [k]))
    else None
  }

  function StepThread(groups: Groups, s: State, a: Action, k: nat): Option<State>
    requires k < |s.threads|
  {
    match a
    case Wake(_) =>
      if s.threads[k].pc.Sleeping? && InRange(groups, s.threads[k])
      then Some(At(s, k, Working(BuildOf(groups, s.threads[k]).leaderCalls)))
      else None
    case CallLeader(_, acquired) => StepCall(s, k, acquired)
    case Acquire(_) => StepAcquire(s, k)
    case RunAndRelease(_) => StepRelease(s, k)
    case Complete(_) => StepComplete(groups, s, k)
    case Store(_) => StepStore(groups, s, k)
    case Leave(_) =>
      if s.threads[k].pc.Leaving? && s.waitGroup > 0
      then Some(At(s, k, Gone).(waitGroup := s.waitGroup - 1))
      else None
    case _ => None
  }

  function StepMain(groups: Groups, s: State, a: Action): Option<State> {
    match (a, s.main)
    case (Spawn, Spawning(g, i)) =>
      if g < |groups| && i < |groups[g]|
      then Some(s.(threads := s.threads + [Thread(g, i, Sleeping, 0)], waitGroup := s.waitGroup + 1,
                   main := Spawning(g, i + 1)))
      else None
    case (StartWaiting, Spawning(g, i)) =>
      if g < |groups| && i == |groups[g]| then Some(s.(main := Waiting(g))) else None
    case (NextGroup, Waiting(g)) =>
      if s.waitGroup == 0 then Some(s.(main := Spawning(g + 1, 0))) else None
    case (FinishEngine, Spawning(g, i)) =>
      if g == |groups| then Some(s.(main := Finished)) else None
    case _ => None
  }

  function ThreadOf(a: Action): Option<nat> {
    match a
    case Wake(k) => Some(k)
    case CallLeader(k, _) => Some(k)
    case Acquire(k) => Some(k)
    case RunAndRelease(k) => Some(k)
    case Complete(k) => Some(k)
    case Store(k) => Some(k)
    case Leave(k) => Some(k)
    case _ => None
  }

  function Step(groups: Groups, s: State, a: Action): Option<State> {
    if s.exited.Some? then None else
      match ThreadOf(a)
      case Some(k) => if k < |s.threads| then StepThread(groups, s, a, k) else None
      case None => StepMain(groups, s, a)
  }

  function Run(groups: Groups, s: State, trace: seq<Action>): Option<State>
    decreases |trace|
  {
    if trace == [] then Some(s) else
      match Step(groups, s, trace[0])
      case None => None
      case Some(s') => Run(groups, s', trace[1..])
  }

  // ---------- the invariant ----------

  /** How many builds the groups before `g` hold. */
  function Before(groups: Groups, g: nat): nat
    requires g <= |groups|
  {
    if g == 0 then 0 else Before(groups, g - 1) + |groups[g - 1]|
  }

  function Live(t: Thread): bool { !t.pc.Gone? }

  predicate HasStored(t: Thread) { t.pc.Leaving? || t.pc.Gone? }

  /** The group being spawned or waited for. */
  function Current(groups: Groups, s: State): nat {
    match s.main case Spawning(g, _) => g case Waiting(g) => g case Finished => |groups|
  }

  /** Goroutines are spawned group by group, in order. */
  predicate SpawnedInOrder(groups: Groups, s: State) {
    && Current(groups, s) <= |groups|
    && (match s.main
        case Spawning(g, i) =>
          (g < |groups| ==> i <= |groups[g]|) && (g == |groups| ==> i == 0) && |s.threads| == Before(groups, g) + i
        case Waiting(g) => g < |groups| && |s.threads| == Before(groups, g) + |groups[g]|
        case Finished => |s.threads| == Before(groups, |groups|))
    && forall k :: 0 <= k < |s.threads| ==>
         && InRange(groups, s.threads[k])
         && s.threads[k].group <= Current(groups, s)
         && k == Before(groups, s.threads[k].group) + s.threads[k].index
  }

  /** Only the current group has running builds. */
  predicate Barrier(groups: Groups, s: State) {
    && s.waitGroup == Count(s.threads, Live)
    && forall k :: 0 <= k < |s.threads| && Live(s.threads[k]) ==> s.threads[k].group == Current(groups, s)
  }

  predicate ThreadOk(b: Build, t: Thread) {
    match t.pc
    case Sleeping => t.ran == 0
    case Working(calls) => t.ran + calls == b.leaderCalls
    case Blocked(calls) => calls > 0 && t.ran + calls == b.leaderCalls
    case Leading(calls) => calls > 0 && t.ran + calls == b.leaderCalls
    case _ => t.ran == b.leaderCalls && !b.fails && !b.stops
  }

  predicate ThreadsOk(groups: Groups, s: State) {
    forall k :: 0 <= k < |s.threads| ==>
      InRange(groups, s.threads[k]) && ThreadOk(BuildOf(groups, s.threads[k]), s.threads[k])
  }

  /** The lock is held by exactly the goroutine that is leading. */
  predicate Exclusive(s: State) {
    forall k :: 0 <= k < |s.threads| ==> (s.threads[k].pc.Leading? <==> s.lock == Some(k))
  }

  function StoredIds(groups: Groups, threads: seq<Thread>, order: seq<nat>): seq<string>
    requires forall i :: 0 <= i < |order| ==> order[i] < |threads| && InRange(groups, threads[order[i]])
  {
    if order == [] then [] else
      StoredIds(groups, threads, order[..|order| - 1]) + BuildOf(groups, threads[order[|order| - 1]]).ids
  }

  /** Every goroutine stores once; earlier groups store before later ones. */
  predicate OrderOk(groups: Groups, s: State) {
    && NoDuplicates(s.order)
    && (forall i :: 0 <= i < |s.order| ==>
          s.order[i] < |s.threads| && InRange(groups, s.threads[s.order[i]]) && HasStored(s.threads[s.order[i]]))
    && (forall k :: 0 <= k < |s.threads| && HasStored(s.threads[k]) ==> k in s.order)
    && (forall i, j :: 0 <= i < j < |s.order| ==> s.threads[s.order[i]].group <= s.threads[s.order[j]].group)
  }

  predicate StoreOk(groups: Groups, s: State)
    requires OrderOk(groups, s)
  {
    s.ids == StoredIds(groups, s.threads, s.order)
  }

  /** The process exits only because of a running build that failed or asked to stop. */
  predicate ExitOk(groups: Groups, s: State) {
    s.exited.Some? ==> exists k :: 0 <= k < |s.threads| && EndedBy(groups, s.threads[k], s.exited.value)
  }

  /** The goroutine has run its build and is looking at a result that ends the process. */
  predicate EndedBy(groups: Groups, t: Thread, code: nat) {
    InRange(groups, t) && t.pc == Working(0) && Culprit(BuildOf(groups, t), code)
  }

  predicate Culprit(b: Build, code: nat) {
    (code == 1 && b.fails) || (code == 0 && b.stops && !b.fails)
  }

  predicate Inv(groups: Groups, s: State) {
    && SpawnedInOrder(groups, s)
    && Barrier(groups, s)
    && ThreadsOk(groups, s)
    && Exclusive(s)
    && (s.lock.Some? ==> s.lock.value < |s.threads|)
    && OrderOk(groups, s)
    && StoreOk(groups, s)
    && ExitOk(groups, s)
  }

  // ---------- preservation ----------

  /** What a step of goroutine `k` leaves alone. */
  ghost predicate OnlyThread(s: State, k: nat, s': State) {
    && k < |s.threads| == |s'.threads|
    && (forall i :: 0 <= i < |s.threads| && i != k ==> s'.threads[i] == s.threads[i])
    && s'.threads[k].group == s.threads[k].group && s'.threads[k].index == s.threads[k].index
    && s'.main == s.main
  }

  lemma ThreadFrame(groups: Groups, s: State, a: Action, k: nat, s': State)
    requires k < |s.threads| && StepThread(groups, s, a, k) == Some(s')
    ensures OnlyThread(s, k, s')
    ensures s'.threads == s.threads[k := s'.threads[k]]
    ensures !a.Leave? ==> s'.waitGroup == s.waitGroup && (Live(s.threads[k]) ==> Live(s'.threads[k]))
    ensures a.Leave? ==> s'.waitGroup == s.waitGroup - 1 && Live(s.threads[k]) && !Live(s'.threads[k])
    ensures Live(s.threads[k])
    ensures !a.Store? ==> s'.order == s.order && s'.ids == s.ids && HasStored(s'.threads[k]) == HasStored(s.threads[k])
  {
  }

  lemma ThreadKeepsSpawned(groups: Groups, s: State, k: nat, s': State)
    requires SpawnedInOrder(groups, s) && OnlyThread(s, k, s')
    ensures SpawnedInOrder(groups, s')
  {
  }

  lemma ThreadKeepsBarrier(groups: Groups, s: State, a: Action, k: nat, s': State)
    requires Barrier(groups, s) && k < |s.threads| && StepThread(groups, s, a, k) == Some(s')
    ensures Barrier(groups, s')
  {
    ThreadFrame(groups, s, a, k, s');
    CountUpdate(s.threads, Live, k, s'.threads[k]);
  }

  lemma ThreadKeepsThreads(groups: Groups, s: State, a: Action, k: nat, s': State)
    requires ThreadsOk(groups, s) && k < |s.threads| && StepThread(groups, s, a, k) == Some(s')
    ensures ThreadsOk(groups, s')
  {
    assert ThreadOk(BuildOf(groups, s.threads[k]), s.threads[k]);
  }

  lemma ThreadKeepsExclusive(groups: Groups, s: State, a: Action, k: nat, s': State)
    requires Exclusive(s) && (s.lock.Some? ==> s.lock.value < |s.threads|)
    requires k < |s.threads| && StepThread(groups, s, a, k) == Some(s')
    ensures Exclusive(s') && (s'.lock.Some? ==> s'.lock.value < |s'.threads|)
  {
  }

  /** A goroutine that stores is of the current group, so it comes after all that stored before. */
  lemma StoreKeepsOrder(groups: Groups, s: State, k: nat, s': State)
    requires SpawnedInOrder(groups, s) && Barrier(groups, s) && OrderOk(groups, s)
    requires k < |s.threads| && StepStore(groups, s, k) == Some(s')
    ensures OrderOk(groups, s')
  {
    assert !HasStored(s.threads[k]);
    assert k !in s.order;
    assert Live(s.threads[k]) && s.threads[k].group == Current(groups, s);
    assert s'.order[|s.order|] == k;
    forall i | 0 <= i < |s'.threads| && HasStored(s'.threads[i])
      ensures i in s'.order
    {
      if i != k {
        assert HasStored(s.threads[i]);
      }
    }
  }

  lemma QuietKeepsOrder(groups: Groups, s: State, k: nat, s': State)
    requires OrderOk(groups, s) && OnlyThread(s, k, s') && s'.order == s.order
    requires HasStored(s'.threads[k]) == HasStored(s.threads[k])
    ensures OrderOk(groups, s')
  {
  }

  lemma {:induction false} StoredIdsFrame(groups: Groups, threads: seq<Thread>, threads': seq<Thread>, order: seq<nat>)
    requires |threads| <= |threads'|
    requires forall i :: 0 <= i < |order| ==> order[i] < |threads| && InRange(groups, threads[order[i]])
    requires forall i :: 0 <= i < |threads| ==>
               threads'[i].group == threads[i].group && threads'[i].index == threads[i].index
    ensures forall i :: 0 <= i < |order| ==> order[i] < |threads'| && InRange(groups, threads'[order[i]])
    ensures StoredIds(groups, threads', order) == StoredIds(groups, threads, order)
  {
    if order != [] {
      StoredIdsFrame(groups, threads, threads', order[..|order| - 1]);
    }
  }

  lemma StoredIdsSnoc(groups: Groups, threads: seq<Thread>, order: seq<nat>, k: nat)
    requires forall i :: 0 <= i < |order| ==> order[i] < |threads| && InRange(groups, threads[order[i]])
    requires k < |threads| && InRange(groups, threads[k])
    ensures forall i :: 0 <= i < |order + [k]| ==>
              (order + [k])[i] < |threads| && InRange(groups, threads[(order + [k])[i]])
    ensures StoredIds(groups, threads, order + [k]) ==
            StoredIds(groups, threads, order) + BuildOf(groups, threads[k]).ids
  {
    assert (order + [k])[..|order|] == order;
  }

  lemma ThreadKeepsStore(groups: Groups, s: State, a: Action, k: nat, s': State)
    requires OrderOk(groups, s) && StoreOk(groups, s) && OrderOk(groups, s')
    requires k < |s.threads| && StepThread(groups, s, a, k) == Some(s')
    ensures StoreOk(groups, s')
  {
    ThreadFrame(groups, s, a, k, s');
    StoredIdsFrame(groups, s.threads, s'.threads, s.order);
    if a.Store? {
      StoredIdsSnoc(groups, s'.threads, s.order, k);
    }
  }

  lemma ThreadKeepsExit(groups: Groups, s: State, a: Action, k: nat, s': State)
    requires s.exited.None? && k < |s.threads| && StepThread(groups, s, a, k) == Some(s')
    ensures ExitOk(groups, s')
  {
    if a.Complete? && s'.exited.Some? {
      assert EndedBy(groups, s'.threads[k], s'.exited.value);
    }
  }

  lemma ThreadStepKeeps(groups: Groups, s: State, a: Action, k: nat, s': State)
    requires Inv(groups, s) && s.exited.None? && k < |s.threads| && StepThread(groups, s, a, k) == Some(s')
    ensures Inv(groups, s')
  {
    ThreadFrame(groups, s, a, k, s');
    ThreadKeepsSpawned(groups, s, k, s');
    ThreadKeepsBarrier(groups, s, a, k, s');
    ThreadKeepsThreads(groups, s, a, k, s');
    ThreadKeepsExclusive(groups, s, a, k, s');
    if a.Store? {
      StoreKeepsOrder(groups, s, k, s');
    } else {
      QuietKeepsOrder(groups, s, k, s');
    }
    ThreadKeepsStore(groups, s, a, k, s');
    ThreadKeepsExit(groups, s, a, k, s');
  }

  /** What spawning does. */
  ghost predicate Spawned(groups: Groups, s: State, s': State) {
    && s.main.Spawning? && s.main.group < |groups| && s.main.next < |groups[s.main.group]|
    && s' == s.(threads := s.threads + [Thread(s.main.group, s.main.next, Sleeping, 0)],
                waitGroup := s.waitGroup + 1, main := Spawning(s.main.group, s.main.next + 1))
  }

  lemma SpawnKeepsSpawned(groups: Groups, s: State, s': State)
    requires SpawnedInOrder(groups, s) && Spawned(groups, s, s')
    ensures SpawnedInOrder(groups, s')
  {
  }

  lemma SpawnKeepsBarrier(groups: Groups, s: State, s': State)
    requires Barrier(groups, s) && Spawned(groups, s, s')
    ensures Barrier(groups, s')
  {
    CountSnoc(s.threads, Live, Thread(s.main.group, s.main.next, Sleeping, 0));
  }

  lemma SpawnKeepsThreads(groups: Groups, s: State, s': State)
    requires ThreadsOk(groups, s) && Exclusive(s) && (s.lock.Some? ==> s.lock.value < |s.threads|)
    requires Spawned(groups, s, s')
    ensures ThreadsOk(groups, s') && Exclusive(s') && (s'.lock.Some? ==> s'.lock.value < |s'.threads|)
  {
  }

  lemma SpawnKeepsOrder(groups: Groups, s: State, s': State)
    requires OrderOk(groups, s) && StoreOk(groups, s) && Spawned(groups, s, s')
    ensures OrderOk(groups, s') && StoreOk(groups, s')
  {
    StoredIdsFrame(groups, s.threads, s'.threads, s.order);
  }

  lemma SpawnKeeps(groups: Groups, s: State, s': State)
    requires Inv(groups, s) && s.exited.None? && StepMain(groups, s, Spawn) == Some(s')
    ensures Inv(groups, s')
  {
    SpawnKeepsSpawned(groups, s, s');
    SpawnKeepsBarrier(groups, s, s');
    SpawnKeepsThreads(groups, s, s');
    SpawnKeepsOrder(groups, s, s');
  }

  lemma NextGroupKeeps(groups: Groups, s: State, s': State)
    requires Inv(groups, s) && StepMain(groups, s, NextGroup) == Some(s')
    ensures Inv(groups, s')
  {
    CountZero(s.threads, Live);
  }

  lemma OtherMainKeeps(groups: Groups, s: State, a: Action, s': State)
    requires Inv(groups, s) && (a.StartWaiting? || a.FinishEngine?) && StepMain(groups, s, a) == Some(s')
    ensures Inv(groups, s')
  {
  }

  lemma StepKeeps(groups: Groups, s: State, a: Action, s': State)
    requires Inv(groups, s) && Step(groups, s, a) == Some(s')
    ensures Inv(groups, s')
  {
    match ThreadOf(a)
    case Some(k) => ThreadStepKeeps(groups, s, a, k, s');
    case None =>
      if a.Spawn? {
        SpawnKeeps(groups, s, s');
      } else if a.NextGroup? {
        NextGroupKeeps(groups, s, s');
      } else {
        OtherMainKeeps(groups, s, a, s');
      }
  }

  lemma {:induction false} RunKeeps(groups: Groups, s: State, trace: seq<Action>)
    requires Inv(groups, s)
    ensures Run(groups, s, trace).Some? ==> Inv(groups, Run(groups, s, trace).value)
    decreases |trace|
  {
    if trace != [] && Step(groups, s, trace[0]).Some? {
      StepKeeps(groups, s, trace[0], Step(groups, s, trace[0]).value);
      RunKeeps(groups, Step(groups, s, trace[0]).value, trace[1..]);
    }
  }

  ghost predicate Reachable(groups: Groups, s: State) {
    exists trace :: Run(groups, INIT, trace) == Some(s)
  }

  lemma {:induction false} RunOn(groups: Groups, s: State, trace: seq<Action>, a: Action, t: State)
    requires Run(groups, s, trace).Some? && Step(groups, Run(groups, s, trace).value, a) == Some(t)
    ensures Run(groups, s, trace + [a]) == Some(t)
    decreases |trace|
  {
    if trace == [] {
      assert trace + [a] == [a];
      assert [a][1..] == [];
    } else {
      assert (trace + [a])[1..] == trace[1..] + [a];
      RunOn(groups, Step(groups, s, trace[0]).value, trace[1..], a, t);
    }
  }

  /** The states the theorems speak of: the initial one and those one more step leads to. */
  lemma ReachableByStep(groups: Groups, s: State, a: Action, t: State)
    ensures Reachable(groups, INIT)
    ensures Reachable(groups, s) && Step(groups, s, a) == Some(t) ==> Reachable(groups, t)
  {
    assert Run(groups, INIT, []) == Some(INIT);
    if Reachable(groups, s) && Step(groups, s, a) == Some(t) {
      var trace :| Run(groups, INIT, trace) == Some(s);
      RunOn(groups, INIT, trace, a, t);
    }
  }

  lemma InitInv(groups: Groups)
    ensures Inv(groups, INIT)
  {
  }

  lemma ReachableInv(groups: Groups, s: State)
    requires Reachable(groups, s)
    ensures Inv(groups, s)
  {
    InitInv(groups);
    var trace :| Run(groups, INIT, trace) == Some(s);
    RunKeeps(groups, INIT, trace);
  }

  // ---------- what holds over whole runs ----------

  lemma {:induction false} BeforeGrows(groups: Groups, g: nat, h: nat)
    requires g < h <= |groups|
    ensures Before(groups, g) + |groups[g]| <= Before(groups, h)
  {
    if g + 1 < h {
      BeforeGrows(groups, g, h - 1);
    }
  }

  /** Build `i` of group `g` has run to its end: its goroutine is gone, without error or stop. */
  predicate RanToEnd(groups: Groups, s: State, g: nat, i: nat)
    requires g < |groups| && i < |groups[g]|
  {
    && Before(groups, g) + i < |s.threads|
    && s.threads[Before(groups, g) + i].group == g && s.threads[Before(groups, g) + i].index == i
    && s.threads[Before(groups, g) + i].pc.Gone?
    && !groups[g][i].fails && !groups[g][i].stops
  }

  /** Positions determine groups and indices. */
  lemma {:induction false} PositionUnique(groups: Groups, g: nat, i: nat, h: nat, j: nat)
    requires g < |groups| && i < |groups[g]| && h < |groups| && j < |groups[h]|
    requires Before(groups, g) + i == Before(groups, h) + j
    ensures g == h && i == j
  {
    if g < h {
      BeforeGrows(groups, g, h);
    } else if h < g {
      BeforeGrows(groups, h, g);
    }
  }

  lemma EarlierGroupsRanToEnd(groups: Groups, s: State, g: nat, i: nat)
    requires Inv(groups, s) && g < Current(groups, s) && i < |groups[g]|
    ensures RanToEnd(groups, s, g, i)
  {
    var k := Before(groups, g) + i;
    BeforeGrows(groups, g, Current(groups, s));
    assert k < |s.threads|;
    var t := s.threads[k];
    PositionUnique(groups, g, i, t.group, t.index);
    assert ThreadOk(BuildOf(groups, t), t);
  }

  /** The group barrier: once any build of a group has started, every build of every earlier group
      has finished, with no error and no stop. */
  lemma GroupBarrier(groups: Groups, s: State, k: nat, g: nat, i: nat)
    requires Reachable(groups, s) && k < |s.threads|
    requires g < s.threads[k].group && g < |groups| && i < |groups[g]|
    ensures RanToEnd(groups, s, g, i)
    ensures !groups[g][i].fails && !groups[g][i].stops
    ensures exists j :: 0 <= j < |s.threads| && s.threads[j].group == g && s.threads[j].index == i &&
                        s.threads[j].pc == Gone && j in s.order
  {
    ReachableInv(groups, s);
    EarlierGroupsRanToEnd(groups, s, g, i);
    var j := Before(groups, g) + i;
    assert HasStored(s.threads[j]);
  }

  /** The store holds exactly the IDs of the builds that stored theirs: each once, contiguous and in
      the build's own order, earlier groups before later ones. */
  lemma StoreHoldsWhatWasStored(groups: Groups, s: State)
    requires Reachable(groups, s)
    ensures OrderOk(groups, s) && s.ids == StoredIds(groups, s.threads, s.order)
  {
    ReachableInv(groups, s);
  }

  /** The same, spelled out: one part for each build that stored, in the order in which they did. */
  lemma StoreSpelledOut(groups: Groups, s: State) returns (parts: seq<seq<string>>)
    requires Reachable(groups, s)
    ensures s.ids == Flatten(parts) && |parts| == |s.order|
    ensures forall i :: 0 <= i < |parts| ==>
              && s.order[i] < |s.threads|
              && var t := s.threads[s.order[i]];
              && t.group < |groups| && t.index < |groups[t.group]|
              && parts[i] == groups[t.group][t.index].ids
    ensures forall i, j :: 0 <= i < j < |parts| ==> s.threads[s.order[i]].group <= s.threads[s.order[j]].group
    ensures forall k :: 0 <= k < |s.threads| ==>
              (k in s.order <==> s.threads[k].pc == Leaving || s.threads[k].pc == Gone)
  {
    ReachableInv(groups, s);
    parts := PartsOf(groups, s.threads, s.order);
  }

  lemma {:induction false} PartsOf(groups: Groups, threads: seq<Thread>, order: seq<nat>)
    returns (parts: seq<seq<string>>)
    requires forall i :: 0 <= i < |order| ==> order[i] < |threads| && InRange(groups, threads[order[i]])
    ensures StoredIds(groups, threads, order) == Flatten(parts) && |parts| == |order|
    ensures forall i :: 0 <= i < |parts| ==>
              parts[i] == groups[threads[order[i]].group][threads[order[i]].index].ids
  {
    parts := [];
    if order != [] {
      var n := |order| - 1;
      var before := PartsOf(groups, threads, order[..n]);
      FlattenSnoc(before, BuildOf(groups, threads[order[n]]).ids);
      parts := before + [BuildOf(groups, threads[order[n]]).ids];
    }
  }

  /** When the engine finishes, every build of every group ran to its end and stored its IDs; so it
      cannot finish when some build fails or asks to stop. */
  lemma FinishedMeansAllBuilt(groups: Groups, s: State)
    requires Reachable(groups, s) && s.main.Finished?
    ensures forall g, i :: 0 <= g < |groups| && 0 <= i < |groups[g]| ==> RanToEnd(groups, s, g, i)
    ensures |s.order| == |s.threads| == Before(groups, |groups|)
    ensures forall k :: 0 <= k < |s.threads| ==> k in s.order
  {
    ReachableInv(groups, s);
    forall g, i | 0 <= g < |groups| && 0 <= i < |groups[g]|
      ensures RanToEnd(groups, s, g, i)
    {
      EarlierGroupsRanToEnd(groups, s, g, i);
    }
    forall k | 0 <= k < |s.threads|
      ensures k in s.order
    {
      assert !Live(s.threads[k]);
      assert HasStored(s.threads[k]);
    }
    Covers(s.order, |s.threads|);
    Pigeonhole(s.order, |s.threads|);
  }

  /** The process only ends early because of a build of the current group that has been running:
      status 1 for one that failed, status 0 for one that asked to stop without failing. */
  lemma ExitHasACulprit(groups: Groups, s: State)
    requires Reachable(groups, s) && s.exited.Some?
    ensures exists k :: 0 <= k < |s.threads| && s.threads[k].group == Current(groups, s)
                        && EndedBy(groups, s.threads[k], s.exited.value)
    ensures forall k :: 0 <= k < |s.threads| && EndedBy(groups, s.threads[k], s.exited.value) ==>
              var t := s.threads[k];
              && t.pc == Working(0) && t.group < |groups| && t.index < |groups[t.group]|
              && var b := groups[t.group][t.index];
              (s.exited.value == 1 && b.fails) || (s.exited.value == 0 && b.stops && !b.fails)
  {
    ReachableInv(groups, s);
    var k :| 0 <= k < |s.threads| && EndedBy(groups, s.threads[k], s.exited.value);
    assert Live(s.threads[k]);
  }

  /** The calls of Leader a build has yet to complete. */
  function CallsLeft(t: Thread): nat {
    match t.pc case Working(calls) => calls case Blocked(calls) => calls case Leading(calls) => calls case _ => 0
  }

  /** At most one function passed to Leader runs at any time, whoever got in by trying and whoever
      by waiting, and every completed call has run its function exactly once. */
  lemma LeadershipIsExclusive(groups: Groups, s: State)
    requires Reachable(groups, s)
    ensures forall j, k :: 0 <= j < |s.threads| && 0 <= k < |s.threads| ==>
              s.threads[j].pc.Leading? && s.threads[k].pc.Leading? ==> j == k
    ensures forall k :: 0 <= k < |s.threads| && !s.threads[k].pc.Sleeping? ==>
              && InRange(groups, s.threads[k])
              && s.threads[k].ran + CallsLeft(s.threads[k]) == BuildOf(groups, s.threads[k]).leaderCalls
  {
    ReachableInv(groups, s);
  }

  /** Calling Leader: trying for the lock can succeed exactly when it is free and may fail at any time; who
      failed waits until it is free. */
  lemma LeaderIsTriedThenAwaited(groups: Groups, s: State, k: nat, calls: nat)
    requires s.exited.None? && k < |s.threads| && calls > 0
    ensures s.threads[k].pc == Working(calls) ==>
              && (Step(groups, s, CallLeader(k, true)).Some? <==> s.lock == None)
              && Step(groups, s, CallLeader(k, false)) ==
                 Some(s.(threads := s.threads[k := s.threads[k].(pc := Blocked(calls))]))
    ensures s.threads[k].pc == Working(calls) && s.lock == None ==>
              Step(groups, s, CallLeader(k, true)) ==
              Some(s.(threads := s.threads[k := s.threads[k].(pc := Leading(calls))], lock := Some(k)))
    ensures s.threads[k].pc == Blocked(calls) ==>
              Step(groups, s, Acquire(k)) ==
              if s.lock.Some? then None
              else Some(s.(threads := s.threads[k := s.threads[k].(pc := Leading(calls))], lock := Some(k)))
  {
  }

  ghost predicate CanStep(groups: Groups, s: State, a: Action) { Step(groups, s, a).Some? }

  /** Until the engine finishes or the process exits, somebody can step. */
  lemma NeverDeadlocks(groups: Groups, s: State) returns (a: Action)
    requires Reachable(groups, s) && !s.main.Finished? && s.exited.None?
    ensures Step(groups, s, a).Some?
  {
    ReachableInv(groups, s);
    match s.main {
      case Spawning(g, i) =>
        a := if g == |groups| then FinishEngine else if i < |groups[g]| then Spawn else StartWaiting;
      case Waiting(g) =>
        CountZero(s.threads, Live);
        if k :| 0 <= k < |s.threads| && Live(s.threads[k]) {
          a := SomeThreadCanStep(groups, s, k);
        } else {
          a := NextGroup;
        }
    }
  }

  lemma SomeThreadCanStep(groups: Groups, s: State, k: nat) returns (a: Action)
    requires ThreadsOk(groups, s) && Exclusive(s) && (s.lock.Some? ==> s.lock.value < |s.threads|)
    requires s.waitGroup == Count(s.threads, Live)
    requires s.exited.None? && k < |s.threads| && Live(s.threads[k])
    ensures CanStep(groups, s, a)
  {
    assert ThreadOk(BuildOf(groups, s.threads[k]), s.threads[k]);
    match s.threads[k].pc {
      case Sleeping => a := Wake(k);
      case Working(calls) => a := if calls == 0 then Complete(k) else CallLeader(k, false);
      case Leading(_) => a := RunAndRelease(k);
      case Storing => a := Store(k);
      case Leaving =>
        CountZero(s.threads, Live);
        a := Leave(k);
      case Blocked(_) =>
        if s.lock.None? {
          a := Acquire(k);
        } else {
          assert ThreadOk(BuildOf(groups, s.threads[s.lock.value]), s.threads[s.lock.value]);
          a := RunAndRelease(s.lock.value);
        }
    }
  }

  // ---------- every run is finite ----------

  /** How many steps a build goroutine still has ahead of it, at most. */
  function Rank(groups: Groups, t: Thread): nat {
    match t.pc
    case Sleeping => if InRange(groups, t) then 3 * BuildOf(groups, t).leaderCalls + 5 else 0
    case Working(calls) => 3 * calls + 4
    case Blocked(calls) => 3 * calls + 3
    case Leading(calls) => 3 * calls + 2
    case Storing => 3
    case Leaving => 2
    case Gone => 0
  }

  function Ranks(groups: Groups, threads: seq<Thread>): nat {
    if threads == [] then 0
    else Ranks(groups, threads[..|threads| - 1]) + Rank(groups, threads[|threads| - 1])
  }

  lemma {:induction false} RanksUpdate(groups: Groups, threads: seq<Thread>, k: nat, t: Thread)
    requires k < |threads|
    ensures Ranks(groups, threads[k := t]) == Ranks(groups, threads) - Rank(groups, threads[k]) + Rank(groups, t)
  {
    var n := |threads| - 1;
    if k < n {
      assert threads[k := t][..n] == threads[..n][k := t];
      RanksUpdate(groups, threads[..n], k, t);
    } else {
      assert threads[k := t][..n] == threads[..n];
    }
  }

  /** The steps of the builds of a group from the `i`-th on, spawning included. */
  function GroupWork(group: seq<Build>, i: nat): nat
    requires i <= |group|
    decreases |group| - i
  {
    if i == |group| then 0 else 3 * group[i].leaderCalls + 6 + GroupWork(group, i + 1)
  }

  function Rest(groups: Groups, g: nat): nat
    requires g <= |groups|
    decreases |groups| - g
  {
    if g == |groups| then 0 else GroupWork(groups[g], 0) + 3 + Rest(groups, g + 1)
  }

  function MainRank(groups: Groups, main: MainPc): nat {
    match main
    case Spawning(g, i) =>
      if g < |groups| && i <= |groups[g]| then GroupWork(groups[g], i) + 3 + Rest(groups, g + 1) else 1
    case Waiting(g) => if g < |groups| then 2 + Rest(groups, g + 1) else 0
    case Finished => 0
  }

  function Measure(groups: Groups, s: State): nat {
    MainRank(groups, s.main) + Ranks(groups, s.threads) + if s.exited.None? then 1 else 0
  }

  lemma ThreadRankDrops(groups: Groups, s: State, a: Action, k: nat, s': State)
    requires s.exited.None? && k < |s.threads| && StepThread(groups, s, a, k) == Some(s')
    ensures s'.main == s.main && s'.threads == s.threads[k := s'.threads[k]]
    ensures Rank(groups, s'.threads[k]) < Rank(groups, s.threads[k]) ||
            (s'.exited.Some? && s'.threads[k] == s.threads[k])
  {
  }

  lemma MainRankDrops(groups: Groups, s: State, a: Action, s': State)
    requires SpawnedInOrder(groups, s) && s.exited.None? && StepMain(groups, s, a) == Some(s')
    ensures s'.exited.None?
    ensures MainRank(groups, s'.main) + Ranks(groups, s'.threads) <
            MainRank(groups, s.main) + Ranks(groups, s.threads)
  {
    if a.Spawn? {
      assert s'.threads[..|s.threads|] == s.threads;
    }
  }

  lemma StepDecreases(groups: Groups, s: State, a: Action, s': State)
    requires Inv(groups, s) && Step(groups, s, a) == Some(s')
    ensures Measure(groups, s') < Measure(groups, s)
  {
    match ThreadOf(a)
    case Some(k) =>
      ThreadRankDrops(groups, s, a, k, s');
      RanksUpdate(groups, s.threads, k, s'.threads[k]);
    case None => MainRankDrops(groups, s, a, s');
  }

  /** No run is longer than its measure; with `NeverDeadlocks`, every run that goes on ends with the
      engine finished or the process exited. */
  lemma {:induction false} RunsAreBounded(groups: Groups, s: State, trace: seq<Action>)
    requires Inv(groups, s) && Run(groups, s, trace).Some?
    ensures |trace| <= Measure(groups, s)
    decreases |trace|
  {
    if trace != [] {
      var s' := Step(groups, s, trace[0]).value;
      StepKeeps(groups, s, trace[0], s');
      StepDecreases(groups, s, trace[0], s');
      RunsAreBounded(groups, s', trace[1..]);
    }
  }
}
