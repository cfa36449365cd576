/** The order in which lines are added: send order with one worker, and with more of them exactly for
    senders that wait. */
module LogOrder {
  import opened Seqs
  import opened LogBatcher
  import opened LogStore
  import opened LogPipeline
  import opened LogTheorems
  import opened LogProgress

  // ---------- one worker ----------

  ghost predicate OneWorker(s: State) {
    && |s.config.workers| == 1
    && AddedBy(s.config.events, 0) == AddedMessages(s.config.events)
    && TakenBy(s.taken, 0) == Flatten(TakenBatches(s.taken))
  }

  lemma EventsOfOneWorker(events: seq<LogEvent>, es: seq<LogEvent>)
    requires AddedBy(events, 0) == AddedMessages(events)
    requires es == [] || (|es| == 1 && (es[0].Added? ==> es[0].worker == 0))
    ensures AddedBy(events + es, 0) == AddedMessages(events + es)
  {
    if es == [] {
      NilRight(events);
    } else {
      assert es == [es[0]];
      AddedSnoc(events, es[0]);
    }
  }

  /** Each action adds at most one event, and a worker signs its own. */
  lemma StepEvents(s: State, a: Action, t: State) returns (es: seq<LogEvent>)
    requires |s.config.workers| == 1 && Step(s, a) == Some(t)
    ensures t.config.events == s.config.events + es && |t.config.workers| == 1
    ensures es == [] || (|es| == 1 && (es[0].Added? ==> es[0].worker == 0))
  {
    match a
    case WorkOn(w, choice) => es := WorkerStep(s.config.store, s.config.workers[w], w, choice).value.2;
    case DisplayClear(id) => es := [Cleared(id)];
    case _ => es := [];
  }

  lemma StepTaken(s: State, a: Action, t: State)
    requires |s.config.workers| == 1 && Step(s, a) == Some(t)
    ensures if a.Take? && s.processChannel != [] then t.taken == s.taken + [Delivery(0, s.processChannel[0])]
            else t.taken == s.taken
  {
  }

  lemma TakenByOneWorker(taken: seq<Delivery>, batch: seq<Msg>)
    requires TakenBy(taken, 0) == Flatten(TakenBatches(taken))
    ensures TakenBy(taken + [Delivery(0, batch)], 0) == Flatten(TakenBatches(taken + [Delivery(0, batch)]))
  {
    TakenSnoc(taken, Delivery(0, batch));
    FlattenSnoc(TakenBatches(taken), batch);
  }

  lemma StepKeepsOneWorker(s: State, a: Action, t: State)
    requires OneWorker(s) && Step(s, a) == Some(t)
    ensures OneWorker(t)
  {
    var es := StepEvents(s, a, t);
    EventsOfOneWorker(s.config.events, es);
    StepTaken(s, a, t);
    if t.taken != s.taken {
      TakenByOneWorker(s.taken, s.processChannel[0]);
    }
  }

  lemma {:induction false} RunKeepsOneWorker(s: State, trace: seq<Action>)
    requires OneWorker(s)
    ensures Run(s, trace).Some? ==> OneWorker(Run(s, trace).value)
    decreases |trace|
  {
    if trace != [] && Step(s, trace[0]).Some? {
      var next := Step(s, trace[0]).value;
      StepKeepsOneWorker(s, trace[0], next);
      RunKeepsOneWorker(next, trace[1..]);
    }
  }

  /** With a single worker the pipeline is first in, first out end to end. */
  lemma OneWorkerIsFifo(s: State)
    requires Reachable(1, s)
    ensures |s.config.workers| == 1
    ensures s.accepted ==
            AddedMessages(s.config.events) + Unprocessed(s.config.workers[0]) + Flatten(s.processChannel)
            + s.batcher.batch + s.logChannel
  {
    ReachableInv(1, s);
    var trace :| Run(Init(1), trace) == Some(s);
    RunKeepsOneWorker(Init(1), trace);
    FifoSoFar(s);
  }

  lemma FifoSoFar(s: State)
    requires Intake(s) && InOrder(s.config, s.taken) && OneWorker(s)
    ensures s.accepted ==
            AddedMessages(s.config.events) + Unprocessed(s.config.workers[0]) + Flatten(s.processChannel)
            + s.batcher.batch + s.logChannel
  {
    FlattenConcat(TakenBatches(s.taken), s.processChannel);
    assert InOrderFor(s.config.events, s.config.workers[0], s.taken, 0);
  }

  // ---------- carrying on with one worker held back ----------

  /** Steps that carry accepted lines on, without worker `held`. */
  predicate Forward(a: Action, held: nat) {
    match a
    case WorkOn(w, _) => w != held
    case Take(w) => w != held
    case HandOver => true
    case SeeTimer => true
    case ReceiveMessage => true
    case _ => false
  }

  /** Nothing is left to carry on, except in the hands of worker `held`. */
  predicate Quiet(s: State, held: nat) {
    && s.batcher.pc.Selecting? && s.batcher.batch == []
    && s.processChannel == [] && s.logChannel == []
    && forall w :: 0 <= w < |s.config.workers| && w != held ==> s.config.workers[w].Idle?
  }

  /** Before Flush is called nobody has left. */
  ghost predicate Open(s: State) {
    PipelineInv(s) && s.flush.NotCalled? && s.crash == NoCrash
  }

  lemma LeavingHasAReason(pc: BatcherPc)
    ensures pc.Closing? || pc.Exited? ==> LeavingBy(pc, InputClosed) || LeavingBy(pc, ShutdownSeen)
  {
    match pc
    case Closing(why) => assert why == InputClosed || why == ShutdownSeen;
    case Exited(how) => assert how == InputClosed || how == ShutdownSeen;
    case _ =>
  }

  lemma NobodyLeft(s: State)
    requires Open(s)
    ensures !s.logClosed && !s.processClosed && NoneFinished(s.config.workers)
    ensures s.batcher.pc.Selecting? || s.batcher.pc.HandingOver?
  {
    LeavingHasAReason(s.batcher.pc);
  }

  lemma ForwardExists(s: State, held: nat, other: nat) returns (a: Action)
    requires Open(s) && !Quiet(s, held) && other < |s.config.workers| && other != held
    ensures CanStep(s, a) && Forward(a, held)
  {
    NobodyLeft(s);
    if w :| 0 <= w < |s.config.workers| && w != held && !s.config.workers[w].Idle? {
      BusyWorkerSteps(s.config, w);
      a := WorkOn(w, None);
    } else if s.processChannel != [] {
      a := Take(other);
    } else if s.batcher.pc.HandingOver? {
      a := HandOver;
    } else if s.batcher.batch != [] {
      a := SeeTimer;
    } else {
      a := ReceiveMessage;
    }
  }

  lemma ForwardFrame(s: State, a: Action, held: nat, t: State)
    requires Forward(a, held) && s.crash == NoCrash && Step(s, a) == Some(t)
    ensures t.accepted == s.accepted && t.flush == s.flush && t.crash != SendOnClosedLog
    ensures |t.config.workers| == |s.config.workers|
    ensures held < |s.config.workers| ==> t.config.workers[held] == s.config.workers[held]
  {
  }

  lemma ForwardKeeps(s: State, a: Action, held: nat, t: State)
    requires Open(s) && Forward(a, held) && Step(s, a) == Some(t)
    ensures Open(t) && Measure(t) < Measure(s)
    ensures t.accepted == s.accepted && |t.config.workers| == |s.config.workers|
    ensures held < |s.config.workers| ==> t.config.workers[held] == s.config.workers[held]
  {
    StepKeeps(s, a, t);
    StepDecreases(s, a, t);
    ForwardFrame(s, a, held, t);
  }

  /** With one worker held back the others can still finish everything that reaches them. */
  lemma {:induction false} Settle(s: State, held: nat, other: nat) returns (trace: seq<Action>, t: State)
    requires Open(s) && other < |s.config.workers| && other != held
    ensures Run(s, trace) == Some(t) && Open(t) && Quiet(t, held)
    ensures t.accepted == s.accepted && |t.config.workers| == |s.config.workers|
    ensures held < |s.config.workers| ==> t.config.workers[held] == s.config.workers[held]
    decreases Measure(s)
  {
    if Quiet(s, held) {
      return [], s;
    }
    var a := ForwardExists(s, held, other);
    var next := Step(s, a).value;
    ForwardKeeps(s, a, held, next);
    var rest;
    rest, t := Settle(next, held, other);
    trace := [a] + rest;
    Cons(s, a, rest);
  }

  predicate Holds(c: Config, w: nat, p: Msg) {
    w < |c.workers| && p in Unprocessed(c.workers[w])
  }

  lemma {:induction false} SomeoneHolds(ws: seq<Worker>, p: Msg) returns (w: nat)
    requires p in InHands(ws)
    ensures w < |ws| && p in Unprocessed(ws[w])
  {
    var n := |ws| - 1;
    if p in Unprocessed(ws[n]) {
      w := n;
    } else {
      w := SomeoneHolds(ws[..n], p);
    }
  }

  lemma {:induction false} HeldIsInHands(ws: seq<Worker>, w: nat)
    requires w < |ws|
    ensures multiset(Unprocessed(ws[w])) <= InHands(ws)
  {
    if w < |ws| - 1 {
      HeldIsInHands(ws[..|ws| - 1], w);
    }
  }

  lemma AddsWhatItHolds(st: Store, w: Worker, who: nat, choice: Option<Ref>)
    requires WorkerStep(st, w, who, choice).Some?
    ensures var es := WorkerStep(st, w, who, choice).value.2;
            es == [] || (|es| == 1 && (es[0].Added? ==> es[0].msg in Unprocessed(w)))
  {
  }

  lemma OthersNotAdded(events: seq<LogEvent>, es: seq<LogEvent>, p: Msg)
    requires es == [] || (|es| == 1 && (es[0].Added? ==> es[0].msg != p))
    ensures multiset(AddedMessages(events + es))[p] == multiset(AddedMessages(events))[p]
  {
    if es == [] {
      NilRight(events);
    } else {
      assert es == [es[0]];
      AddedSnoc(events, es[0]);
    }
  }

  lemma QuietStep(s: State, a: Action, held: nat, t: State)
    requires Forward(a, held) && !a.WorkOn? && s.crash == NoCrash && Step(s, a) == Some(t)
    ensures t.config.events == s.config.events
  {
  }

  /** A line nobody holds is not added by the next step. */
  lemma NotAddedYet(s: State, a: Action, held: nat, t: State, p: Msg)
    requires s.crash == NoCrash && Forward(a, held) && Step(s, a) == Some(t)
    requires forall w: nat :: !Holds(s.config, w, p)
    ensures multiset(AddedMessages(t.config.events))[p] == multiset(AddedMessages(s.config.events))[p]
  {
    if a.WorkOn? {
      var c, w := s.config, a.worker;
      assert !Holds(c, w, p);
      AddsWhatItHolds(c.store, c.workers[w], w, a.choice);
      OthersNotAdded(c.events, WorkerStep(c.store, c.workers[w], w, a.choice).value.2, p);
    } else {
      QuietStep(s, a, held, t);
    }
  }

  lemma PendingCount(s: State, p: Msg)
    requires PipelineInv(s)
    ensures multiset(s.accepted)[p] == multiset(AddedMessages(s.config.events))[p] + Pending(s)[p]
  {
    EverythingSomewhere(s);
  }

  /** Carrying on brings any pending line into the hands of some worker. */
  lemma {:induction false} IntoHands(s: State, p: Msg) returns (trace: seq<Action>, t: State, w: nat)
    requires Open(s) && s.config.workers != [] && p in Pending(s)
    ensures Run(s, trace) == Some(t) && Open(t) && Holds(t.config, w, p)
    ensures t.accepted == s.accepted && |t.config.workers| == |s.config.workers|
    decreases Measure(s)
  {
    if v: nat :| Holds(s.config, v, p) {
      return [], s, v;
    }
    var none := |s.config.workers|;
    if Quiet(s, none) {
      NothingPending(s);
    }
    var a := ForwardExists(s, none, 0);
    var next := Step(s, a).value;
    ForwardKeeps(s, a, none, next);
    NotAddedYet(s, a, none, next, p);
    PendingCount(s, p);
    PendingCount(next, p);
    var rest;
    rest, t, w := IntoHands(next, p);
    trace := [a] + rest;
    Cons(s, a, rest);
  }

  /** When only worker `held` is not quiet, what is pending is what it holds. */
  lemma OnlyHeldPending(s: State, held: nat, x: Msg)
    requires Quiet(s, held) && x in Pending(s)
    ensures Holds(s.config, held, x)
  {
    assert x in InHands(s.config.workers);
    var w := SomeoneHolds(s.config.workers, x);
  }

  lemma HeldIsPending(s: State, w: nat, p: Msg)
    requires Holds(s.config, w, p)
    ensures p in Pending(s)
  {
    HeldIsInHands(s.config.workers, w);
    assert p in multiset(Unprocessed(s.config.workers[w]));
  }

  /** What the worker held back keeps pending while a new line goes round it. */
  lemma NewLineIsAdded(s: State, held: nat, q: Msg, t: State)
    requires PipelineInv(s) && PipelineInv(t) && t.accepted == s.accepted + [q] && q !in s.accepted
    requires held < |s.config.workers| == |t.config.workers| && t.config.workers[held] == s.config.workers[held]
    requires Quiet(t, held)
    ensures q in AddedMessages(t.config.events)
  {
    if Holds(t.config, held, q) {
      HeldIsPending(s, held, q);
      PendingCount(s, q);
    }
    if q in Pending(t) {
      OnlyHeldPending(t, held, q);
    }
    PendingCount(t, q);
    assert t.accepted[|s.accepted|] == q;
    assert q in multiset(t.accepted);
  }

  lemma OvertakeHeld(s: State, w: nat, p: Msg, q: Msg) returns (trace: seq<Action>, t: State)
    requires Open(s) && |s.config.workers| >= 2 && Holds(s.config, w, p) && q !in s.accepted
    ensures Run(s, trace) == Some(t) && Open(t) && t.accepted == s.accepted + [q]
    ensures |t.config.workers| == |s.config.workers|
    ensures q in AddedMessages(t.config.events) && p in Pending(t)
  {
    var other := if w == 0 then 1 else 0;
    var before, s1 := Settle(s, w, other);
    NobodyLeft(s1);
    var s2 := SendStep(s1, q);
    var after;
    after, t := Settle(s2, w, other);
    HeldIsPending(t, w, p);
    NewLineIsAdded(s1, w, q, t);
    trace := before + ([Send(q)] + after);
    Cons(s1, Send(q), after);
    RunConcat(s, before, [Send(q)] + after);
  }

  /** With two workers or more, a line sent now can be added before any line still pending: hold back
      the worker that gets the pending line and let the others carry on. */
  lemma Overtake(s: State, p: Msg, q: Msg) returns (trace: seq<Action>, t: State)
    requires Open(s) && |s.config.workers| >= 2 && p in Pending(s) && q !in s.accepted
    ensures Run(s, trace) == Some(t) && Open(t) && t.accepted == s.accepted + [q]
    ensures |t.config.workers| == |s.config.workers|
    ensures q in AddedMessages(t.config.events) && p in Pending(t)
  {
    var first, s1, w := IntoHands(s, p);
    var second;
    second, t := OvertakeHeld(s1, w, p, q);
    trace := first + second;
    RunConcat(s, first, second);
  }

  lemma SendStep(s: State, q: Msg) returns (t: State)
    requires Open(s) && !s.logClosed && s.logChannel == []
    ensures Step(s, Send(q)) == Some(t) && Open(t) && t.accepted == s.accepted + [q] && t.config == s.config
  {
    t := Step(s, Send(q)).value;
    StepKeeps(s, Send(q), t);
  }

  // ---------- when order is kept ----------

  /** Letting everybody carry on, the line overtaken is added last. */
  lemma FirstComesLast(s: State, first: Msg, second: Msg) returns (trace: seq<Action>, t: State)
    requires Open(s) && s.config.workers != [] && s.accepted == [first, second]
    requires AddedMessages(s.config.events) == [second]
    ensures Run(s, trace) == Some(t) && t.accepted == [first, second]
    ensures AddedMessages(t.config.events) == [second, first]
  {
    trace, t := Settle(s, |s.config.workers|, 0);
    RunExtends(s, trace);
    AllAdded(t, |s.config.workers|);
    AddedPrefix(s.config.events, t.config.events);
    SecondThenFirst(AddedMessages(t.config.events), first, second);
  }

  lemma ReachOvertaken(workers: nat, s: State, p: Msg, q: Msg) returns (t: State)
    requires Reachable(workers, s) && Open(s) && |s.config.workers| >= 2 && p in Pending(s) && q !in s.accepted
    ensures Reachable(workers, t) && Open(t) && t.config.workers != [] && t.accepted == s.accepted + [q]
    ensures q in AddedMessages(t.config.events) && p in Pending(t)
  {
    var trace;
    trace, t := Overtake(s, p, q);
    ReachFurther(workers, s, trace, t);
  }

  lemma QueuedIsPending(s: State, m: Msg)
    requires m in s.logChannel
    ensures m in Pending(s)
  {
  }

  lemma SecondOvertakes(workers: nat, first: Msg, second: Msg) returns (s: State)
    requires workers >= 2 && first != second
    ensures Reachable(workers, s) && Open(s) && s.config.workers != [] && s.accepted == [first, second]
    ensures AddedMessages(s.config.events) == [second]
  {
    var s0 := OneSent(workers, first);
    QueuedIsPending(s0, first);
    assert [first] + [second] == [first, second];
    assert second !in [first];
    s := ReachOvertaken(workers, s0, first, second);
    OnlySecond(s, first, second);
  }

  /** With two workers, or more, any two lines can change places: sent one after the other, even for
      one routine, and added the other way round. */
  lemma TwoWorkersCanReorder(workers: nat, first: Msg, second: Msg) returns (t: State)
    requires workers >= 2 && first != second
    ensures Reachable(workers, t) && t.accepted == [first, second]
    ensures AddedMessages(t.config.events) == [second, first]
  {
    var s := SecondOvertakes(workers, first, second);
    var trace;
    trace, t := FirstComesLast(s, first, second);
    ReachFurther(workers, s, trace, t);
  }

  /** Nothing pending: everything accepted is added. */
  lemma AllAdded(t: State, held: nat)
    requires PipelineInv(t) && Quiet(t, held) && held >= |t.config.workers|
    ensures multiset(t.accepted) == multiset(AddedMessages(t.config.events))
  {
    forall x: Msg
      ensures multiset(t.accepted)[x] == multiset(AddedMessages(t.config.events))[x]
    {
      PendingCount(t, x);
      if x in Pending(t) {
        OnlyHeldPending(t, held, x);
      }
    }
  }

  lemma OneElement(lines: seq<Msg>, m: Msg)
    requires multiset(lines) == multiset{m}
    ensures lines == [m]
  {
    assert |lines| == |multiset(lines)| == 1;
    assert lines[0] in multiset(lines);
  }

  lemma CountOfPair(first: Msg, second: Msg, x: Msg)
    ensures multiset([first, second])[x] == (if x == first then 1 else 0) + if x == second then 1 else 0
  {
    assert multiset([first, second]) == multiset{first, second};
  }

  lemma SecondAlone(s: State, first: Msg, second: Msg, x: Msg)
    requires PipelineInv(s) && first != second && s.accepted == [first, second]
    requires second in multiset(AddedMessages(s.config.events)) && first in Pending(s)
    ensures multiset(AddedMessages(s.config.events))[x] == if x == second then 1 else 0
  {
    PendingCount(s, x);
    CountOfPair(first, second, x);
  }

  lemma OnlySecond(s: State, first: Msg, second: Msg)
    requires PipelineInv(s) && first != second && s.accepted == [first, second]
    requires second in AddedMessages(s.config.events) && first in Pending(s)
    ensures AddedMessages(s.config.events) == [second]
  {
    var added := AddedMessages(s.config.events);
    assert second in multiset(added);
    forall x: Msg
      ensures multiset(added)[x] == multiset{second}[x]
    {
      SecondAlone(s, first, second, x);
    }
    OneElement(added, second);
  }

  lemma {:induction false} AddedPrefix(a: seq<LogEvent>, b: seq<LogEvent>)
    requires a <= b
    ensures AddedMessages(a) <= AddedMessages(b)
  {
    if a != b {
      AddedPrefix(a, b[..|b| - 1]);
    }
  }

  lemma SecondThenFirst(added: seq<Msg>, first: Msg, second: Msg)
    requires [second] <= added && multiset(added) == multiset([first, second])
    ensures added == [second, first]
  {
    assert |added| == |multiset(added)| == 2;
    assert added == [second, added[1]];
    assert multiset([second, added[1]])[first] == multiset([first, second])[first];
  }

  /** Lines are added in the order in which they are sent, in every reachable state, exactly when
      there is a single worker. */
  lemma AddedInSendOrderIff(workers: nat)
    requires workers > 0
    ensures (forall s :: Reachable(workers, s) ==> AddedMessages(s.config.events) <= s.accepted) <==> workers == 1
  {
    if workers == 1 {
      forall s | Reachable(workers, s)
        ensures AddedMessages(s.config.events) <= s.accepted
      {
        AddedIsPrefix(s);
      }
    } else {
      var t := TwoWorkersCanReorder(workers, FIRST, SECOND);
      assert AddedMessages(t.config.events)[0] != t.accepted[0];
    }
  }

  const FIRST := Msg("job", "first", false, false)
  const SECOND := Msg("job", "second", false, false)

  lemma AddedIsPrefix(s: State)
    requires Reachable(1, s)
    ensures AddedMessages(s.config.events) <= s.accepted
  {
    OneWorkerIsFifo(s);
    var c := s.config;
    assert s.accepted == AddedMessages(c.events) +
      (Unprocessed(c.workers[0]) + Flatten(s.processChannel) + s.batcher.batch + s.logChannel);
  }

  // ---------- what a sender can rely on ----------

  /** The lines of one routine. */
  function OfRoutine(lines: seq<Msg>, id: string): seq<Msg> {
    if lines == [] then [] else
      OfRoutine(lines[..|lines| - 1], id) + if lines[|lines| - 1].id == id then [lines[|lines| - 1]] else []
  }

  lemma {:induction false} OfRoutineCount(lines: seq<Msg>, id: string, m: Msg)
    ensures multiset(OfRoutine(lines, id))[m] == if m.id == id then multiset(lines)[m] else 0
  {
    if lines != [] {
      var init, last := lines[..|lines| - 1], lines[|lines| - 1];
      OfRoutineCount(init, id, m);
      assert lines == init + [last];
      MultisetSnoc(init, last);
      MultisetSnoc(OfRoutine(init, id), last);
      NilRight(OfRoutine(init, id));
    }
  }

  /** In `t`, no line of the routine sent after `s` has been added before all those sent by then:
      either all the earlier ones are added, or only earlier ones are. */
  ghost predicate EarlierFirst(s: State, t: State, id: string) {
    || multiset(OfRoutine(s.accepted, id)) <= multiset(AddedMessages(t.config.events))
    || multiset(OfRoutine(AddedMessages(t.config.events), id)) <= multiset(OfRoutine(s.accepted, id))
  }

  /** Under every schedule, lines of the routine sent from now on are added after those sent before. */
  ghost predicate LaterLinesWait(s: State, id: string) {
    forall trace :: Run(s, trace).Some? ==> EarlierFirst(s, Run(s, trace).value, id)
  }

  ghost predicate NonePending(s: State, id: string) {
    forall m :: m in Pending(s) ==> m.id != id
  }

  lemma WaitingSenderIsSafe(s: State, trace: seq<Action>, id: string)
    requires PipelineInv(s) && NonePending(s, id) && Run(s, trace).Some?
    ensures EarlierFirst(s, Run(s, trace).value, id)
  {
    var t := Run(s, trace).value;
    RunExtends(s, trace);
    AddedGrows(s.config.events, t.config.events);
    forall m: Msg
      ensures multiset(OfRoutine(s.accepted, id))[m] <= multiset(AddedMessages(t.config.events))[m]
    {
      OfRoutineCount(s.accepted, id, m);
      PendingCount(s, m);
      assert m.id == id ==> m !in Pending(s);
    }
  }

  /** With one worker what is added is always a prefix of what is sent. */
  lemma OneWorkerKeepsOrder(s: State, trace: seq<Action>, id: string)
    requires Reachable(1, s) && Run(s, trace).Some?
    ensures EarlierFirst(s, Run(s, trace).value, id)
  {
    var t := Run(s, trace).value;
    ReachFurther(1, s, trace, t);
    AddedIsPrefix(t);
    RunExtends(s, trace);
    var added := AddedMessages(t.config.events);
    if |added| <= |s.accepted| {
      PrefixIsSubset(added, s.accepted);
      forall m: Msg
        ensures multiset(OfRoutine(added, id))[m] <= multiset(OfRoutine(s.accepted, id))[m]
      {
        OfRoutineCount(added, id, m);
        OfRoutineCount(s.accepted, id, m);
      }
    } else {
      PrefixIsSubset(s.accepted, added);
      forall m: Msg
        ensures multiset(OfRoutine(s.accepted, id))[m] <= multiset(added)[m]
      {
        OfRoutineCount(s.accepted, id, m);
      }
    }
  }

  /** A line that was not sent before. */
  lemma {:induction false} FreshLine(lines: seq<Msg>, id: string) returns (q: Msg)
    ensures q.id == id && q !in lines
    ensures forall m :: m in lines ==> |m.text| < |q.text|
  {
    if lines == [] {
      q := Msg(id, "", false, false);
    } else {
      var n := |lines| - 1;
      var r := FreshLine(lines[..n], id);
      var last := lines[n];
      q := Msg(id, r.text + last.text + "x", false, false);
    }
  }

  lemma OvertakenLineIsLate(s: State, t: State, p: Msg, q: Msg, id: string)
    requires PipelineInv(t) && t.accepted == s.accepted + [q] && q !in s.accepted && p in s.accepted
    requires p.id == id && q.id == id && q in AddedMessages(t.config.events) && p in Pending(t)
    ensures !EarlierFirst(s, t, id)
  {
    var added := AddedMessages(t.config.events);
    assert multiset(OfRoutine(s.accepted, id))[p] > multiset(added)[p] by {
      PendingCount(t, p);
      MultisetSnoc(s.accepted, q);
      OfRoutineCount(s.accepted, id, p);
    }
    assert multiset(OfRoutine(added, id))[q] > multiset(OfRoutine(s.accepted, id))[q] by {
      OfRoutineCount(s.accepted, id, q);
      OfRoutineCount(added, id, q);
      assert q in multiset(added);
    }
  }

  /** Lines of a routine sent from now on are added after those sent before, under every schedule,
      exactly when there is one worker or none of the routine's lines is pending now. */
  lemma SenderKeepsOrderIff(workers: nat, s: State, id: string)
    requires workers > 0 && Reachable(workers, s) && s.flush.NotCalled? && s.crash == NoCrash
    ensures LaterLinesWait(s, id) <==> workers == 1 || NonePending(s, id)
  {
    ReachableInv(workers, s);
    WorkersStay(workers, s);
    if NonePending(s, id) {
      forall trace | Run(s, trace).Some?
        ensures EarlierFirst(s, Run(s, trace).value, id)
      {
        WaitingSenderIsSafe(s, trace, id);
      }
    } else if workers == 1 {
      forall trace | Run(s, trace).Some?
        ensures EarlierFirst(s, Run(s, trace).value, id)
      {
        OneWorkerKeepsOrder(s, trace, id);
      }
    } else {
      var p :| p in Pending(s) && p.id == id;
      PendingCount(s, p);
      var q := FreshLine(s.accepted, id);
      var trace, t := Overtake(s, p, q);
      OvertakenLineIsLate(s, t, p, q, id);
    }
  }
}
