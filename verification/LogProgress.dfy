/** The log pipeline moves on: it is never stuck, its runs are bounded by what producers send, and
    what a shutdown makes it lose. */
module LogProgress {
  import opened Seqs
  import opened LogBatcher
  import opened LogStore
  import opened LogPipeline
  import opened LogTheorems

  // ---------- never stuck ----------

  ghost predicate CanStep(s: State, a: Action) { Step(s, a).Some? }

  /** Neither a producer nor the batcher's receive, the runtime or a display pass. */
  predicate Draining(a: Action) {
    !a.Send? && !a.ReceiveMessage? && !a.DropPooled? && !a.DisplayClear?
  }

  /** After the shutdown signal the pipeline never gets stuck before every worker has finished. */
  lemma NeverStuck(workers: nat, s: State) returns (a: Action)
    requires Reachable(workers, s) && workers > 0 && s.shutdown && s.crash == NoCrash && !AllFinished(s)
    ensures CanStep(s, a) && Draining(a)
  {
    ReachableInv(workers, s);
    WorkersStay(workers, s);
    a := SomeStep(s);
  }

  lemma SomeStep(s: State) returns (a: Action)
    requires Ownership(s.config) && Closes(s) && s.shutdown && s.crash == NoCrash
    requires s.config.workers != [] && !AllFinished(s)
    ensures CanStep(s, a) && Draining(a)
  {
    var w :| 0 <= w < |s.config.workers| && !s.config.workers[w].Finished?;
    if !s.config.workers[w].Idle? {
      BusyWorkerSteps(s.config, w);
      a := WorkOn(w, None);
    } else if s.processChannel != [] {
      a := Take(w);
    } else {
      a := IdleSteps(s, w);
    }
  }

  lemma BusyWorkerSteps(c: Config, w: nat)
    requires Ownership(c) && w < |c.workers| && !c.workers[w].Idle? && !c.workers[w].Finished?
    ensures Work(c, w, None).Some?
  {
    assert WorkerOk(c.store, c.workers[w]);
  }

  lemma IdleSteps(s: State, w: nat) returns (a: Action)
    requires Closes(s) && s.shutdown && s.crash == NoCrash
    requires w < |s.config.workers| && s.config.workers[w].Idle? && s.processChannel == []
    ensures CanStep(s, a) && Draining(a)
  {
    match s.batcher.pc {
      case Selecting => a := SeeShutdown;
      case HandingOver(_) => a := HandOver;
      case Closing(_) => a := CloseProcess;
      case Exited(_) => a := Action.Leave(w);
    }
  }

  // ---------- runs are bounded ----------

  /** The steps a worker may still take, and the room it leaves for what its steps make possible. */
  function Rank(w: Worker): nat {
    match w
    case Idle => 1
    case Finished => 0
    case Loading(todo) => 7 * |todo| + 7
    case Getting(todo) => 7 * |todo| + 6
    case Storing(todo, _) => 7 * |todo| + 5
    case Returning(todo, _, _) => 7 * |todo| + 4
    case Adding(todo, _) => 7 * |todo| + 2
    case Marking(todo, _) => 7 * |todo| + 1
  }

  function Ranks(ws: seq<Worker>): nat {
    if ws == [] then 0 else Ranks(ws[..|ws| - 1]) + Rank(ws[|ws| - 1])
  }

  lemma {:induction false} RanksUpdate(ws: seq<Worker>, i: nat, w: Worker)
    requires i < |ws|
    ensures Ranks(ws[i := w]) == Ranks(ws) - Rank(ws[i]) + Rank(w)
  {
    var n := |ws| - 1;
    if i < n {
      assert ws[i := w][..n] == ws[..n][i := w];
      RanksUpdate(ws[..n], i, w);
    } else {
      assert ws[i := w][..n] == ws[..n];
    }
  }

  function BatcherRank(b: Batcher): nat {
    16 * |b.batch| + (if b.timer then 1 else 0) +
    match b.pc case Selecting => 3 case HandingOver(_) => 2 case Closing(_) => 1 case Exited(_) => 0
  }

  function QueueRank(batches: seq<seq<Msg>>): nat {
    7 * |Flatten(batches)| + 7 * |batches|
  }

  function SignalRank(s: State): nat {
    (match s.flush case NotCalled => 3 case ShutdownClosed => 2 case AwaitingDisplay => 1 case Returned => 0) +
    (match s.display case Ticking => 3 case FinalPass => 2 case Signalling => 1 case Gone => 0) +
    (if s.crash == NoCrash then 1 else 0)
  }

  const SEND_COST: nat := 18

  function Measure(s: State): nat {
    SEND_COST * |s.logChannel| + BatcherRank(s.batcher) + QueueRank(s.processChannel) + Ranks(s.config.workers)
    + |s.config.store.pool| + SignalRank(s)
  }

  lemma WorkerRankDrops(st: Store, w: Worker, who: nat, choice: Option<Ref>)
    requires WorkerStep(st, w, who, choice).Some?
    ensures var (st', w', es) := WorkerStep(st, w, who, choice).value;
            Rank(w') + |st'.pool| < Rank(w) + |st.pool|
  {
  }

  lemma WorkDecreases(s: State, w: nat, choice: Option<Ref>, t: State)
    requires Step(s, WorkOn(w, choice)) == Some(t)
    ensures Measure(t) < Measure(s)
  {
    WorkerRankDrops(s.config.store, s.config.workers[w], w, choice);
    RanksUpdate(s.config.workers, w, t.config.workers[w]);
  }

  lemma TakeDecreases(s: State, w: nat, t: State)
    requires Step(s, Take(w)) == Some(t)
    ensures Measure(t) < Measure(s)
  {
    FlattenHead(s.processChannel);
    RanksUpdate(s.config.workers, w, t.config.workers[w]);
  }

  lemma HandedOverRank(b: Batcher)
    requires Valid(b) && b.pc.HandingOver?
    ensures BatcherRank(OnHandedOver(b)) + 7 * |b.batch| + 7 < BatcherRank(b)
  {
  }

  lemma ReceivedRank(b: Batcher, m: Msg)
    requires b.pc.Selecting?
    ensures BatcherRank(OnMessage(b, m)) < BatcherRank(b) + SEND_COST
  {
  }

  lemma QueuedRank(batches: seq<seq<Msg>>, b: seq<Msg>)
    ensures QueueRank(batches + [b]) == QueueRank(batches) + 7 * |b| + 7
  {
    FlattenSnoc(batches, b);
  }

  lemma HandOverDecreases(s: State, t: State)
    requires Valid(s.batcher) && StepHandOver(s) == Some(t)
    ensures s.crash == NoCrash ==> Measure(t) < Measure(s)
  {
    if !s.processClosed {
      QueuedRank(s.processChannel, s.batcher.batch);
      HandedOverRank(s.batcher);
      assert t.processChannel == s.processChannel + [s.batcher.batch] && t.batcher == OnHandedOver(s.batcher);
    }
  }

  lemma ReceiveDecreases(s: State, t: State)
    requires Step(s, ReceiveMessage) == Some(t)
    ensures Measure(t) < Measure(s)
  {
    ReceivedRank(s.batcher, s.logChannel[0]);
  }

  /** The batcher's other select cases. */
  lemma SelectDecreases(s: State, a: Action, t: State)
    requires a.SeeInputClosed? || a.SeeTimer? || a.SeeShutdown? || a.CloseProcess?
    requires Step(s, a) == Some(t)
    ensures Measure(t) < Measure(s)
  {
  }

  lemma SignalDecreases(s: State, a: Action, t: State)
    requires a.BeginFinalPass? || a.EndFinalPass? || a.CloseShutdown? || a.CloseLog? || a.SignalFlush? || a.DropPooled?
    requires Step(s, a) == Some(t)
    ensures Measure(t) < Measure(s)
  {
  }

  lemma LeaveDecreases(s: State, w: nat, t: State)
    requires Step(s, Action.Leave(w)) == Some(t)
    ensures Measure(t) < Measure(s)
  {
    RanksUpdate(s.config.workers, w, t.config.workers[w]);
  }

  lemma SendGains(s: State, a: Action, t: State)
    requires a.Send? && Step(s, a) == Some(t)
    ensures if s.logClosed then Measure(t) < Measure(s) else Measure(t) == Measure(s) + SEND_COST
  {
  }

  lemma ClearIsFree(s: State, a: Action, t: State)
    requires a.DisplayClear? && Step(s, a) == Some(t)
    ensures Measure(t) == Measure(s)
  {
  }

  /** Every action decreases the measure, except that a send to the open channel may add to it and a
      display pass leaves it alone. */
  lemma StepDecreases(s: State, a: Action, t: State)
    requires Valid(s.batcher) && Step(s, a) == Some(t)
    ensures if a.DisplayClear? then Measure(t) == Measure(s)
            else if a.Send? && !s.logClosed then Measure(t) == Measure(s) + SEND_COST
            else Measure(t) < Measure(s)
  {
    match a
    case WorkOn(w, choice) => WorkDecreases(s, w, choice, t);
    case Take(w) => TakeDecreases(s, w, t);
    case Leave(w) => LeaveDecreases(s, w, t);
    case HandOver => HandOverDecreases(s, t);
    case ReceiveMessage => ReceiveDecreases(s, t);
    case Send(_) => SendGains(s, a, t);
    case DisplayClear(_) => ClearIsFree(s, a, t);
    case SeeInputClosed => SelectDecreases(s, a, t);
    case SeeTimer => SelectDecreases(s, a, t);
    case SeeShutdown => SelectDecreases(s, a, t);
    case CloseProcess => SelectDecreases(s, a, t);
    case _ => SignalDecreases(s, a, t);
  }

  function Sends(trace: seq<Action>): nat {
    if trace == [] then 0 else Sends(trace[1..]) + if trace[0].Send? then 1 else 0
  }

  /** The steps of a run that are not display passes clearing a window. */
  function Moves(trace: seq<Action>): nat {
    if trace == [] then 0 else Moves(trace[1..]) + if trace[0].DisplayClear? then 0 else 1
  }

  /** The two counts, spelled out. */
  lemma MovesAndSends(trace: seq<Action>)
    ensures Moves(trace) == |set i | 0 <= i < |trace| && !trace[i].DisplayClear?|
    ensures Sends(trace) == |set i | 0 <= i < |trace| && trace[i].Send?|
  {
    CountsAre(trace, 0);
    assert trace[0..] == trace;
    assert (set i | 0 <= i < |trace| && !trace[i].DisplayClear?) == MovesFrom(trace, 0);
    assert (set i | 0 <= i < |trace| && trace[i].Send?) == SendsFrom(trace, 0);
  }

  function MovesFrom(trace: seq<Action>, k: nat): set<int> { set i | k <= i < |trace| && !trace[i].DisplayClear? }

  function SendsFrom(trace: seq<Action>, k: nat): set<int> { set i | k <= i < |trace| && trace[i].Send? }

  lemma {:induction false} CountsAre(trace: seq<Action>, k: nat)
    requires k <= |trace|
    ensures Moves(trace[k..]) == |MovesFrom(trace, k)| && Sends(trace[k..]) == |SendsFrom(trace, k)|
    decreases |trace| - k
  {
    if k < |trace| {
      CountsAre(trace, k + 1);
      assert trace[k..][1..] == trace[k + 1..];
      assert MovesFrom(trace, k) == MovesFrom(trace, k + 1) + if trace[k].DisplayClear? then {} else {k};
      assert SendsFrom(trace, k) == SendsFrom(trace, k + 1) + if trace[k].Send? then {k} else {};
    } else {
      assert MovesFrom(trace, k) == {} && SendsFrom(trace, k) == {};
    }
  }

  lemma OneMove(s: State, a: Action, t: State)
    requires Valid(s.batcher) && Step(s, a) == Some(t)
    ensures s.logClosed ==> t.logClosed
    ensures (if a.DisplayClear? then 0 else 1) + Measure(t) <= Measure(s) + (if a.Send? then SEND_COST + 1 else 0)
    ensures s.logClosed ==> (if a.DisplayClear? then 0 else 1) + Measure(t) <= Measure(s)
  {
    StepDecreases(s, a, t);
    StepExtends(s, a, t);
  }

  lemma RunStart(s: State, trace: seq<Action>) returns (next: State)
    requires trace != [] && Run(s, trace).Some?
    ensures Step(s, trace[0]) == Some(next) && Run(next, trace[1..]) == Run(s, trace)
  {
    next := Step(s, trace[0]).value;
  }

  /** A run has no more moves than the measure and the cost of its sends allow; once the log channel
      is closed the sends do not matter, and no run has more moves than the measure. */
  lemma {:induction false} RunsAreBounded(s: State, trace: seq<Action>)
    requires PipelineInv(s) && Run(s, trace).Some?
    ensures Moves(trace) + Measure(Run(s, trace).value) <= Measure(s) + (SEND_COST + 1) * Sends(trace)
    ensures s.logClosed ==> Moves(trace) + Measure(Run(s, trace).value) <= Measure(s)
    decreases |trace|
  {
    if trace != [] {
      var next := RunStart(s, trace);
      StepKeeps(s, trace[0], next);
      OneMove(s, trace[0], next);
      RunsAreBounded(next, trace[1..]);
    }
  }

  lemma ReachableRunsAreBounded(workers: nat, s: State, trace: seq<Action>)
    requires Reachable(workers, s) && Run(s, trace).Some?
    ensures Moves(trace) <= Measure(s) + (SEND_COST + 1) * Sends(trace)
    ensures s.logClosed ==> Moves(trace) <= Measure(s)
  {
    ReachableInv(workers, s);
    RunsAreBounded(s, trace);
  }

  // ---------- what a shutdown loses ----------

  lemma DrainingFrame(s: State, a: Action, t: State)
    requires s.crash == NoCrash && Draining(a) && Step(s, a) == Some(t)
    ensures t.accepted == s.accepted && t.received == s.received && t.crash != SendOnClosedLog
    ensures |t.config.workers| == |s.config.workers| && (s.shutdown ==> t.shutdown)
  {
  }

  lemma DrainingStep(s: State, a: Action, t: State)
    requires PipelineInv(s) && s.crash == NoCrash && Draining(a) && Step(s, a) == Some(t)
    ensures PipelineInv(t) && t.crash == NoCrash && Measure(t) < Measure(s)
    ensures t.accepted == s.accepted && t.received == s.received
    ensures |t.config.workers| == |s.config.workers| && (s.shutdown ==> t.shutdown)
  {
    StepKeeps(s, a, t);
    StepDecreases(s, a, t);
    DrainingFrame(s, a, t);
  }

  /** After the shutdown signal there is a schedule on which the batcher receives nothing more and all
      workers finish. */
  lemma {:induction false} Drain(s: State) returns (trace: seq<Action>, t: State)
    requires PipelineInv(s) && s.shutdown && s.crash == NoCrash && s.config.workers != []
    ensures Run(s, trace) == Some(t) && AllFinished(t)
    ensures PipelineInv(t) && t.accepted == s.accepted && t.received == s.received
    decreases Measure(s)
  {
    if AllFinished(s) {
      return [], s;
    }
    var a := SomeStep(s);
    var next := Step(s, a).value;
    DrainingStep(s, a, next);
    var rest;
    rest, t := Drain(next);
    trace := [a] + rest;
    Cons(s, a, rest);
  }

  /** Once the workers are done they have added exactly what the batcher received. */
  lemma AddedIsReceived(s: State)
    requires PipelineInv(s) && AllFinished(s)
    ensures multiset(AddedMessages(s.config.events)) == multiset(s.received)
  {
    OnlyTheLogChannelIsLeft(s);
    EverythingSomewhere(s);
    MultisetConcat(s.received, s.logChannel);
    Cancel(multiset(AddedMessages(s.config.events)), multiset(s.received), multiset(s.logChannel));
  }

  /** However the run goes on from `s`, once the workers are done they have added everything accepted
      so far. */
  ghost predicate NeverLoses(s: State) {
    forall trace :: Run(s, trace).Some? && AllFinished(Run(s, trace).value) ==>
      multiset(s.accepted) <= multiset(AddedMessages(Run(s, trace).value.config.events))
  }

  lemma PrefixIsSubset<T>(a: seq<T>, b: seq<T>)
    requires a <= b
    ensures multiset(a) <= multiset(b)
  {
    assert b == a + b[|a|..];
  }

  lemma SomethingLeft<T>(a: seq<T>, b: seq<T>)
    requires b != []
    ensures !(multiset(a + b) <= multiset(a))
  {
    MultisetConcat(a, b);
    UnionAbsorbed(multiset(a), multiset(b));
    assert b[0] in multiset(b);
  }

  /** Called in `s`, Flush loses no line accepted before the call, under any schedule, exactly when
      the log channel is empty at the call. */
  lemma FlushLosesNothingIff(workers: nat, s: State)
    requires workers > 0 && Reachable(workers, s) && s.flush.NotCalled? && s.crash == NoCrash
    ensures NeverLoses(s) <==> s.logChannel == []
  {
    ReachableInv(workers, s);
    WorkersStay(workers, s);
    if s.logChannel == [] {
      NilRight(s.received);
      forall trace | Run(s, trace).Some? && AllFinished(Run(s, trace).value)
        ensures multiset(s.accepted) <= multiset(AddedMessages(Run(s, trace).value.config.events))
      {
        RunKeeps(s, trace);
        RunExtends(s, trace);
        AddedIsReceived(Run(s, trace).value);
        PrefixIsSubset(s.received, Run(s, trace).value.received);
      }
    } else {
      var trace, t := LosingRun(s);
      SomethingLeft(s.received, s.logChannel);
    }
  }

  lemma CloseShutdownStep(s: State) returns (t: State)
    requires PipelineInv(s) && s.flush.NotCalled? && s.crash == NoCrash
    ensures Step(s, CloseShutdown) == Some(t) && PipelineInv(t) && t.shutdown && t.crash == NoCrash
    ensures t.config == s.config && t.accepted == s.accepted && t.received == s.received
  {
    t := s.(shutdown := true, flush := ShutdownClosed);
    DrainingStep(s, CloseShutdown, t);
  }

  /** The schedule on which the batcher sees the shutdown signal before it receives anything more. */
  lemma LosingRun(s: State) returns (trace: seq<Action>, t: State)
    requires PipelineInv(s) && s.flush.NotCalled? && s.crash == NoCrash && s.config.workers != []
    ensures Run(s, trace) == Some(t) && AllFinished(t) && t.accepted == s.accepted
    ensures multiset(AddedMessages(t.config.events)) == multiset(s.received)
  {
    var s1 := CloseShutdownStep(s);
    var rest;
    rest, t := Drain(s1);
    trace := [CloseShutdown] + rest;
    Cons(s, CloseShutdown, rest);
    AddedIsReceived(t);
  }

  /** One line sent, and nothing else done. */
  lemma OneSent(workers: nat, m: Msg) returns (s: State)
    ensures Reachable(workers, s) && PipelineInv(s) && s.flush.NotCalled? && s.crash == NoCrash
    ensures s.accepted == [m] && s.received == [] && s.logChannel == [m]
    ensures |s.config.workers| == workers && s.config.events == [] && s.display.Ticking?
  {
    var s0 := Init(workers);
    assert Run(s0, []) == Some(s0);
    s := s0.(accepted := [m], logChannel := [m]);
    assert [] + [m] == [m];
    assert Step(s0, Send(m)) == Some(s);
    Cons(s0, Send(m), []);
    ReachFurther(workers, s0, [Send(m)], s);
    ReachableInv(workers, s);
  }

  /** Any single line can be lost: accepted, and still not added when all workers have finished. */
  lemma ALineCanBeLost(workers: nat, m: Msg) returns (t: State)
    requires workers > 0
    ensures Reachable(workers, t) && AllFinished(t)
    ensures t.accepted == [m] && AddedMessages(t.config.events) == []
  {
    var s1 := OneSent(workers, m);
    var trace;
    trace, t := LosingRun(s1);
    ReachFurther(workers, s1, trace, t);
    assert |multiset(AddedMessages(t.config.events))| == 0;
  }

  /** One line sent and Flush called: Flush can return before the line is added. */
  lemma FlushCanReturnEarly(workers: nat, m: Msg) returns (s: State, t: State)
    ensures Reachable(workers, s) && s.flush.NotCalled? && s.accepted == [m]
    ensures Run(s, FLUSH_ALONE) == Some(t) && t.flush.Returned? && AddedMessages(t.config.events) == []
    ensures !FlushWaitsForAll(s)
  {
    s := OneSent(workers, m);
    FlushAloneReturns(s);
    t := Run(s, FLUSH_ALONE).value;
    assert m in multiset(s.accepted);
  }
}
