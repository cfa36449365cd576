/** The whole log pipeline as one state machine: any number of producers, the batching goroutine,
    any number of workers, the display goroutine and a caller of Flush, interleaved arbitrarily.
    Channels are bounded sequences with a closed flag. */
module LogPipeline {
  import opened Seqs
  import opened LogBatcher
  import opened LogStore

  const LOG_CAPACITY: nat := 1000
  const PROCESS_CAPACITY: nat := 100

  datatype FlushPc = NotCalled | ShutdownClosed | AwaitingDisplay | Returned
  datatype DisplayPc = Ticking | FinalPass | Signalling | Gone

  /** Go panics on these. */
  datatype Crash = NoCrash | SendOnClosedLog | SendOnClosedProcess | CloseOfClosedProcess

  datatype Delivery = Delivery(worker: nat, batch: seq<Msg>)

  /** `accepted`, `received`, `emitted` and `taken` are histories: what producers sent, what the
      batcher received, what it sent on, and which worker took which batch. */
  datatype State = State(
    accepted: seq<Msg>,
    logChannel: seq<Msg>,
    logClosed: bool,
    shutdown: bool,
    received: seq<Msg>,
    batcher: Batcher,
    emitted: seq<seq<Msg>>,
    processChannel: seq<seq<Msg>>,
    processClosed: bool,
    taken: seq<Delivery>,
    config: Config,
    flush: FlushPc,
    display: DisplayPc,
    crash: Crash)

  function Init(workers: nat): State {
    State([], [], false, false, [], NEW_BATCHER, [], [], false, [],
          Config(Store(map[], multiset{}, []), seq(workers, _ => Idle), []), NotCalled, Ticking, NoCrash)
  }

  datatype Action =
    | Send(msg: Msg)
    | ReceiveMessage
    | SeeInputClosed
    | SeeTimer
    | SeeShutdown
    | HandOver
    | CloseProcess
    | Take(worker: nat)
    | Leave(worker: nat)
    | WorkOn(worker: nat, choice: Option<Ref>)
    | DropPooled(ref: Ref)
    | DisplayClear(id: string)
    | BeginFinalPass
    | EndFinalPass
    | CloseShutdown
    | CloseLog
    | SignalFlush

  /** A producer's send: it blocks while the channel is full and panics once it is closed. */
  function StepSend(s: State, m: Msg): Option<State> {
    if s.logClosed then Some(s.(crash := SendOnClosedLog))
    else if |s.logChannel| < LOG_CAPACITY
    then Some(s.(accepted := s.accepted + [m], logChannel := s.logChannel + [m]))
    else None
  }

  function StepReceive(s: State): Option<State> {
    if s.batcher.pc.Selecting? && s.logChannel != []
    then Some(s.(logChannel := s.logChannel[1..], received := s.received + [s.logChannel[0]],
                 batcher := OnMessage(s.batcher, s.logChannel[0])))
    else None
  }

  /** A send on the process channel blocks while it is full and panics when it is closed. */
  function StepHandOver(s: State): Option<State> {
    if !s.batcher.pc.HandingOver? then None
    else if s.processClosed then Some(s.(crash := SendOnClosedProcess))
    else if |s.processChannel| < PROCESS_CAPACITY
    then Some(s.(processChannel := s.processChannel + [s.batcher.batch], emitted := s.emitted + [s.batcher.batch],
                 batcher := OnHandedOver(s.batcher)))
    else None
  }

  function StepCloseProcess(s: State): Option<State> {
    if !s.batcher.pc.Closing? then None
    else if s.processClosed then Some(s.(crash := CloseOfClosedProcess))
    else Some(s.(processClosed := true, batcher := s.batcher.(pc := Exited(s.batcher.pc.why))))
  }

  function StepTake(s: State, w: nat): Option<State> {
    if w < |s.config.workers| && s.config.workers[w].Idle? && s.processChannel != []
    then Some(s.(processChannel := s.processChannel[1..], taken := s.taken + [Delivery(w, s.processChannel[0])],
                 config := s.config.(workers := s.config.workers[w := Begin(s.processChannel[0])])))
    else None
  }

  function StepLeave(s: State, w: nat): Option<State> {
    if w < |s.config.workers| && s.config.workers[w].Idle? && s.processChannel == [] && s.processClosed
    then Some(s.(config := s.config.(workers := s.config.workers[w := Finished])))
    else None
  }

  function WithConfig(s: State, c: Option<Config>): Option<State> {
    match c case None => None case Some(c') => Some(s.(config := c'))
  }

  function Guarded(enabled: bool, s: State): Option<State> {
    if enabled then Some(s) else None
  }

  function Step(s: State, a: Action): Option<State> {
    if s.crash != NoCrash then None else
      match a
      case Send(m) => StepSend(s, m)
      case ReceiveMessage => StepReceive(s)
      case SeeInputClosed =>
        Guarded(s.batcher.pc.Selecting? && s.logChannel == [] && s.logClosed,
                s.(batcher := OnExit(s.batcher, InputClosed)))
      case SeeTimer => Guarded(s.batcher.pc.Selecting? && s.batcher.timer, s.(batcher := OnTimer(s.batcher)))
      case SeeShutdown =>
        Guarded(s.batcher.pc.Selecting? && s.shutdown, s.(batcher := OnExit(s.batcher, ShutdownSeen)))
      case HandOver => StepHandOver(s)
      case CloseProcess => StepCloseProcess(s)
      case Take(w) => StepTake(s, w)
      case Leave(w) => StepLeave(s, w)
      case WorkOn(w, choice) => WithConfig(s, Work(s.config, w, choice))
      case DropPooled(r) => WithConfig(s, Drop(s.config, r))
      case DisplayClear(id) =>
        if s.display.Ticking? || s.display.FinalPass? then WithConfig(s, ClearDone(s.config, id)) else None
      case BeginFinalPass => Guarded(s.display.Ticking? && s.shutdown, s.(display := FinalPass))
      case EndFinalPass => Guarded(s.display.FinalPass?, s.(display := Signalling))
      case CloseShutdown => Guarded(s.flush.NotCalled?, s.(shutdown := true, flush := ShutdownClosed))
      case CloseLog => Guarded(s.flush.ShutdownClosed?, s.(logClosed := true, flush := AwaitingDisplay))
      case SignalFlush =>
        Guarded(s.display.Signalling? && s.flush.AwaitingDisplay?, s.(display := Gone, flush := Returned))
  }

  function Run(s: State, trace: seq<Action>): Option<State>
    decreases |trace|
  {
    if trace == [] then Some(s) else
      match Step(s, trace[0])
      case None => None
      case Some(s') => Run(s', trace[1..])
  }

  // ---------- what the messages add up to ----------

  function AddedMessages(events: seq<LogEvent>): seq<Msg> {
    if events == [] then [] else
      AddedMessages(events[..|events| - 1]) +
      (match events[|events| - 1] case Added(_, m) => [m] case _ => [])
  }

  function AddedBy(events: seq<LogEvent>, worker: nat): seq<Msg> {
    if events == [] then [] else
      AddedBy(events[..|events| - 1], worker) +
      (match events[|events| - 1] case Added(w, m) => (if w == worker then [m] else []) case _ => [])
  }

  function TakenBatches(taken: seq<Delivery>): seq<seq<Msg>> {
    if taken == [] then [] else TakenBatches(taken[..|taken| - 1]) + [taken[|taken| - 1].batch]
  }

  function TakenBy(taken: seq<Delivery>, worker: nat): seq<Msg> {
    if taken == [] then [] else
      TakenBy(taken[..|taken| - 1], worker) +
      (if taken[|taken| - 1].worker == worker then taken[|taken| - 1].batch else [])
  }

  function InHands(workers: seq<Worker>): multiset<Msg> {
    if workers == [] then multiset{}
    else InHands(workers[..|workers| - 1]) + multiset(Unprocessed(workers[|workers| - 1]))
  }

  lemma InHandsSnoc(ws: seq<Worker>, w: Worker)
    ensures InHands(ws + [w]) == InHands(ws) + multiset(Unprocessed(w))
  {
    assert (ws + [w])[..|ws|] == ws;
  }

  /** Replacing one worker exchanges what it holds. */
  lemma {:induction false} InHandsUpdate(ws: seq<Worker>, i: nat, w: Worker)
    requires i < |ws|
    ensures InHands(ws[i := w]) + multiset(Unprocessed(ws[i])) == InHands(ws) + multiset(Unprocessed(w))
  {
    var n := |ws| - 1;
    var init, last := ws[..n], ws[n];
    assert ws == init + [last];
    InHandsSnoc(init, last);
    if i < n {
      assert ws[i := w] == init[i := w] + [last];
      InHandsSnoc(init[i := w], last);
      InHandsUpdate(init, i, w);
      Exchange(InHands(init[i := w]), InHands(init), multiset(Unprocessed(last)),
               multiset(Unprocessed(ws[i])), multiset(Unprocessed(w)));
    } else {
      assert ws[i := w] == init + [w];
      InHandsSnoc(init, w);
      Swap(InHands(init), multiset(Unprocessed(w)), multiset(Unprocessed(last)));
    }
  }

  lemma Swap(a: multiset<Msg>, b: multiset<Msg>, c: multiset<Msg>)
    ensures (a + b) + c == (a + c) + b
  {
  }

  lemma Exchange(after: multiset<Msg>, before: multiset<Msg>, rest: multiset<Msg>, gone: multiset<Msg>,
                 come: multiset<Msg>)
    requires after + gone == before + come
    ensures (after + rest) + gone == (before + rest) + come
  {
    forall m
      ensures ((after + rest) + gone)[m] == ((before + rest) + come)[m]
    {
      assert (after + gone)[m] == (before + come)[m];
    }
  }

  lemma InHandsSame(ws: seq<Worker>, i: nat, w: Worker)
    requires i < |ws| && Unprocessed(w) == Unprocessed(ws[i])
    ensures InHands(ws[i := w]) == InHands(ws)
  {
    InHandsUpdate(ws, i, w);
    Cancel(InHands(ws[i := w]), InHands(ws), multiset(Unprocessed(w)));
  }

  lemma InHandsFromNothing(ws: seq<Worker>, i: nat, w: Worker)
    requires i < |ws| && Unprocessed(ws[i]) == []
    ensures InHands(ws[i := w]) == InHands(ws) + multiset(Unprocessed(w))
  {
    InHandsUpdate(ws, i, w);
  }

  lemma {:induction false} InHandsIdle(ws: seq<Worker>)
    ensures (forall i :: 0 <= i < |ws| ==> Unprocessed(ws[i]) == []) <==> InHands(ws) == multiset{}
  {
    if ws != [] {
      var n := |ws| - 1;
      InHandsIdle(ws[..n]);
      assert forall i :: 0 <= i < n ==> ws[..n][i] == ws[i];
      if InHands(ws) == multiset{} {
        assert |InHands(ws[..n])| + |Unprocessed(ws[n])| == |InHands(ws)| == 0;
      }
    }
  }

  lemma AddedSnoc(events: seq<LogEvent>, e: LogEvent)
    ensures AddedMessages(events + [e]) == AddedMessages(events) + (match e case Added(_, m) => [m] case _ => [])
    ensures forall w: nat :: AddedBy(events + [e], w) ==
                        AddedBy(events, w) + (match e case Added(v, m) => (if v == w then [m] else []) case _ => [])
  {
    assert (events + [e])[..|events|] == events;
  }

  // ---------- the invariant ----------

  /** First in, first out up to the process channel; bounded channels; the close discipline. */
  ghost predicate Intake(s: State) {
    && s.accepted == s.received + s.logChannel
    && |s.logChannel| <= LOG_CAPACITY
    && s.received == Flatten(s.emitted) + s.batcher.batch
    && s.emitted == TakenBatches(s.taken) + s.processChannel
    && |s.processChannel| <= PROCESS_CAPACITY
    && (forall b :: b in s.emitted ==> 1 <= |b| <= BATCH_SIZE)
    && Valid(s.batcher)
  }

  predicate LeavingBy(pc: BatcherPc, why: Exit) {
    || pc == HandingOver(After.Leave(why))
    || pc == Closing(why)
    || pc == Exited(why)
  }

  predicate NoneFinished(workers: seq<Worker>) {
    forall w :: 0 <= w < |workers| ==> !workers[w].Finished?
  }

  predicate Closes(s: State) {
    && (s.processClosed <==> s.batcher.pc.Exited?)
    && (LeavingBy(s.batcher.pc, InputClosed) ==> s.logClosed && s.logChannel == [])
    && (LeavingBy(s.batcher.pc, ShutdownSeen) ==> s.shutdown)
    && (s.shutdown <==> !s.flush.NotCalled?)
    && (s.logClosed <==> s.flush.AwaitingDisplay? || s.flush.Returned?)
    && (!s.display.Ticking? ==> s.shutdown)
    && (s.flush.Returned? <==> s.display.Gone?)
    && ((s.processClosed && s.processChannel == []) || NoneFinished(s.config.workers))
    && s.crash != SendOnClosedProcess
    && s.crash != CloseOfClosedProcess
    && (s.crash == SendOnClosedLog ==> s.logClosed)
  }

  /** Each worker has added, in order, what it took, up to what it still holds. */
  ghost predicate InOrder(config: Config, taken: seq<Delivery>) {
    forall w: nat :: w < |config.workers| ==> InOrderFor(config.events, config.workers[w], taken, w)
  }

  ghost predicate InOrderFor(events: seq<LogEvent>, worker: Worker, taken: seq<Delivery>, w: nat) {
    AddedBy(events, w) + Unprocessed(worker) == TakenBy(taken, w)
  }

  /** Every message taken by some worker is added or still in a worker's hands. */
  ghost predicate Conserved(config: Config, taken: seq<Delivery>) {
    multiset(Flatten(TakenBatches(taken))) == multiset(AddedMessages(config.events)) + InHands(config.workers)
  }

  ghost predicate Delivered(s: State) {
    InOrder(s.config, s.taken) && Conserved(s.config, s.taken)
  }

  ghost predicate PipelineInv(s: State) {
    && Intake(s)
    && Closes(s)
    && Delivered(s)
    && LogStore.Inv(s.config)
  }

  // ---------- preservation ----------

  lemma InitDelivered(workers: nat)
    ensures Delivered(Init(workers))
  {
    InHandsIdle(seq(workers, _ => Idle));
  }

  lemma InitOwnership(workers: nat)
    ensures LogStore.Inv(Init(workers).config)
  {
  }

  lemma InitInv(workers: nat)
    ensures PipelineInv(Init(workers))
  {
    InitDelivered(workers);
    InitOwnership(workers);
  }

  /** FIFO up to the process channel, action by action. */
  lemma SendKeepsIntake(s: State, m: Msg, s': State)
    requires Intake(s) && StepSend(s, m) == Some(s')
    ensures Intake(s')
  {
    Assoc(s.received, s.logChannel, [m]);
  }

  lemma ReceiveKeepsIntake(s: State, s': State)
    requires Intake(s) && StepReceive(s) == Some(s')
    ensures Intake(s')
  {
    var m := s.logChannel[0];
    HeadTail(s.logChannel);
    Assoc(s.received, [m], s.logChannel[1..]);
    Assoc(Flatten(s.emitted), s.batcher.batch, [m]);
    assert Valid(OnMessage(s.batcher, m));
  }

  lemma HandOverKeepsIntake(s: State, s': State)
    requires Intake(s) && StepHandOver(s) == Some(s')
    ensures Intake(s')
  {
    if !s.processClosed {
      FlattenSnoc(s.emitted, s.batcher.batch);
      NilRight(Flatten(s'.emitted));
      Assoc(TakenBatches(s.taken), s.processChannel, [s.batcher.batch]);
      assert Valid(OnHandedOver(s.batcher));
    }
  }

  lemma TakenSnoc(taken: seq<Delivery>, d: Delivery)
    ensures TakenBatches(taken + [d]) == TakenBatches(taken) + [d.batch]
    ensures forall w: nat :: TakenBy(taken + [d], w) == TakenBy(taken, w) + (if d.worker == w then d.batch else [])
  {
    assert (taken + [d])[..|taken|] == taken;
  }

  lemma TakeKeepsIntake(s: State, w: nat, s': State)
    requires Intake(s) && StepTake(s, w) == Some(s')
    ensures Intake(s')
  {
    var batch := s.processChannel[0];
    TakenSnoc(s.taken, Delivery(w, batch));
    HeadTail(s.processChannel);
    Assoc(TakenBatches(s.taken), [batch], s.processChannel[1..]);
  }

  lemma QuietKeepsIntake(s: State, a: Action, s': State)
    requires Intake(s) && Step(s, a) == Some(s') && !a.Send? && !a.ReceiveMessage? && !a.HandOver? && !a.Take?
    ensures Intake(s')
  {
  }

  lemma StepKeepsIntake(s: State, a: Action, s': State)
    requires Intake(s) && Step(s, a) == Some(s')
    ensures Intake(s')
  {
    match a
    case Send(m) => SendKeepsIntake(s, m, s');
    case ReceiveMessage => ReceiveKeepsIntake(s, s');
    case HandOver => HandOverKeepsIntake(s, s');
    case Take(w) => TakeKeepsIntake(s, w, s');
    case _ => QuietKeepsIntake(s, a, s');
  }

  /** The close discipline, action by action. */
  lemma WorkerStays(c: Config, who: nat, choice: Option<Ref>, c': Config)
    requires Work(c, who, choice) == Some(c') && NoneFinished(c.workers)
    ensures NoneFinished(c'.workers)
  {
  }

  lemma StepKeepsCloses(s: State, a: Action, s': State)
    requires Valid(s.batcher) && Closes(s) && Step(s, a) == Some(s')
    ensures Closes(s')
  {
    match a
    case Take(w) => assert NoneFinished(s'.config.workers);
    case WorkOn(w, choice) =>
      if NoneFinished(s.config.workers) {
        WorkerStays(s.config, w, choice, s'.config);
      }
    case Send(_) => 
    case CloseLog => 
    case _ => FlagStepKeepsCloses(s, a, s');
  }

  lemma FlagStepKeepsCloses(s: State, a: Action, s': State)
    requires Valid(s.batcher) && Closes(s) && Step(s, a) == Some(s')
    requires !a.Take? && !a.WorkOn? && !a.Send? && !a.CloseLog?
    ensures Closes(s')
  {
    match a
    case DisplayClear(_) => assert s'.config.workers == s.config.workers;
    case DropPooled(_) => assert s'.config.workers == s.config.workers;
    case _ =>
  }

  /** What workers took and what they added, action by action. */
  lemma TakeKeepsInOrder(c: Config, taken: seq<Delivery>, w: nat, batch: seq<Msg>)
    requires InOrder(c, taken) && w < |c.workers| && c.workers[w].Idle?
    ensures InOrder(c.(workers := c.workers[w := Begin(batch)]), taken + [Delivery(w, batch)])
  {
    var workers', taken' := c.workers[w := Begin(batch)], taken + [Delivery(w, batch)];
    TakenSnoc(taken, Delivery(w, batch));
    forall i: nat | i < |workers'|
      ensures InOrderFor(c.events, workers'[i], taken', i)
    {
      assert InOrderFor(c.events, c.workers[i], taken, i);
      NilRight(AddedBy(c.events, i));
      NilRight(TakenBy(taken, i));
    }
  }

  lemma TakeKeepsConserved(c: Config, taken: seq<Delivery>, w: nat, batch: seq<Msg>)
    requires Conserved(c, taken) && w < |c.workers| && c.workers[w].Idle?
    ensures Conserved(c.(workers := c.workers[w := Begin(batch)]), taken + [Delivery(w, batch)])
  {
    TakenSnoc(taken, Delivery(w, batch));
    FlattenSnoc(TakenBatches(taken), batch);
    InHandsFromNothing(c.workers, w, Begin(batch));
    MultisetConcat(Flatten(TakenBatches(taken)), batch);
    AssocMultiset(multiset(AddedMessages(c.events)), InHands(c.workers), multiset(batch));
  }

  lemma AssocMultiset(a: multiset<Msg>, b: multiset<Msg>, c: multiset<Msg>)
    ensures (a + b) + c == a + (b + c)
  {
  }

  lemma LeaveKeepsDelivered(s: State, w: nat, s': State)
    requires Delivered(s) && StepLeave(s, w) == Some(s')
    ensures Delivered(s')
  {
    InHandsSame(s.config.workers, w, Finished);
    forall i: nat | i < |s.config.workers|
      ensures InOrderFor(s.config.events, s'.config.workers[i], s.taken, i)
    {
      assert InOrderFor(s.config.events, s.config.workers[i], s.taken, i);
    }
  }

  /** A worker's own step moves at most one message, from its hands to the log. */
  lemma WorkerMoves(st: Store, w: Worker, who: nat, choice: Option<Ref>, st': Store, w': Worker, es: seq<LogEvent>)
    requires WorkerOk(st, w) && WorkerStep(st, w, who, choice) == Some((st', w', es))
    ensures !w'.Finished?
    ensures
      || (es == [] && Unprocessed(w') == Unprocessed(w))
      || (w.Adding? && es == [Added(who, w.todo[0])] && Unprocessed(w) == [w.todo[0]] + Unprocessed(w'))
      || (w.Marking? && es == [Marked(who, w.todo[0])] && Unprocessed(w') == Unprocessed(w))
  {
  }

  lemma WorkKeepsConserved(c: Config, taken: seq<Delivery>, who: nat, choice: Option<Ref>, c': Config)
    requires who < |c.workers| && WorkerOk(c.store, c.workers[who])
    requires Conserved(c, taken) && Work(c, who, choice) == Some(c')
    ensures Conserved(c', taken)
  {
    var w := c.workers[who];
    var (st', w', es) := WorkerStep(c.store, w, who, choice).value;
    WorkerMoves(c.store, w, who, choice, st', w', es);
    if w.Adding? {
      InHandsUpdate(c.workers, who, w');
      AddConserves(c, taken, who, c', w.todo[0], w');
    } else {
      InHandsSame(c.workers, who, w');
      QuietEvents(c.events, es);
    }
  }

  lemma QuietEvents(events: seq<LogEvent>, es: seq<LogEvent>)
    requires es == [] || (|es| == 1 && !es[0].Added?)
    ensures AddedMessages(events + es) == AddedMessages(events)
  {
    if es == [] {
      NilRight(events);
    } else {
      assert es == [es[0]];
      AddedSnoc(events, es[0]);
    }
  }

  lemma AddConserves(c: Config, taken: seq<Delivery>, who: nat, c': Config, m: Msg, w': Worker)
    requires Conserved(c, taken)
    requires c'.events == c.events + [Added(who, m)]
    requires InHands(c'.workers) + multiset([m] + Unprocessed(w')) == InHands(c.workers) + multiset(Unprocessed(w'))
    ensures Conserved(c', taken)
  {
    AddedSnoc(c.events, Added(who, m));
    MultisetConcat([m], Unprocessed(w'));
    MultisetConcat(AddedMessages(c.events), [m]);
    MoveOne(multiset(AddedMessages(c.events)), InHands(c.workers), InHands(c'.workers), multiset(Unprocessed(w')), m);
  }

  lemma WorkKeepsInOrder(c: Config, taken: seq<Delivery>, who: nat, choice: Option<Ref>, c': Config)
    requires who < |c.workers| && WorkerOk(c.store, c.workers[who])
    requires InOrder(c, taken) && Work(c, who, choice) == Some(c')
    ensures InOrder(c', taken)
  {
    var (st', w', es) := WorkerStep(c.store, c.workers[who], who, choice).value;
    WorkerMoves(c.store, c.workers[who], who, choice, st', w', es);
    forall i: nat | i < |c.workers|
      ensures InOrderFor(c'.events, c'.workers[i], taken, i)
    {
      assert InOrderFor(c.events, c.workers[i], taken, i);
      OneMove(c.events, es, who, c.workers[i], c'.workers[i], taken, i);
    }
  }

  lemma OneMove(events: seq<LogEvent>, es: seq<LogEvent>, who: nat, w: Worker, w': Worker, taken: seq<Delivery>, i: nat)
    requires InOrderFor(events, w, taken, i)
    requires |es| <= 1
    requires es != [] && es[0].Added? ==> es[0].worker == who
    requires i == who && es != [] && es[0].Added? ==> Unprocessed(w) == [es[0].msg] + Unprocessed(w')
    requires !(i == who && es != [] && es[0].Added?) ==> Unprocessed(w) == Unprocessed(w')
    ensures InOrderFor(events + es, w', taken, i)
  {
    if es == [] {
      NilRight(events);
    } else {
      assert es == [es[0]];
      AddedSnoc(events, es[0]);
      NilRight(AddedBy(events, i));
      if es[0].Added? {
        Assoc(AddedBy(events, i), [es[0].msg], Unprocessed(w'));
      }
    }
  }

  lemma MoveOne(added: multiset<Msg>, hands: multiset<Msg>, hands': multiset<Msg>, rest: multiset<Msg>, m: Msg)
    requires hands' + (multiset{m} + rest) == hands + rest
    ensures (added + multiset{m}) + hands' == added + hands
  {
    forall x
      ensures ((added + multiset{m}) + hands')[x] == (added + hands)[x]
    {
      assert (hands' + (multiset{m} + rest))[x] == (hands + rest)[x];
    }
  }

  lemma WorkKeepsDelivered(c: Config, taken: seq<Delivery>, who: nat, choice: Option<Ref>, c': Config)
    requires LogStore.Inv(c) && InOrder(c, taken) && Conserved(c, taken) && Work(c, who, choice) == Some(c')
    ensures InOrder(c', taken) && Conserved(c', taken)
  {
    assert WorkerOk(c.store, c.workers[who]);
    WorkKeepsInOrder(c, taken, who, choice, c');
    WorkKeepsConserved(c, taken, who, choice, c');
  }

  lemma StepKeepsDelivered(s: State, a: Action, s': State)
    requires Delivered(s) && LogStore.Inv(s.config) && Step(s, a) == Some(s')
    ensures Delivered(s')
  {
    match a
    case Take(w) =>
      TakeKeepsInOrder(s.config, s.taken, w, s.processChannel[0]);
      TakeKeepsConserved(s.config, s.taken, w, s.processChannel[0]);
    case Leave(w) => LeaveKeepsDelivered(s, w, s');
    case WorkOn(w, choice) => WorkKeepsDelivered(s.config, s.taken, w, choice, s'.config);
    case DisplayClear(id) => ClearKeepsDelivered(s, id, s');
    case _ =>
  }

  lemma ClearKeepsDelivered(s: State, id: string, s': State)
    requires Delivered(s) && ClearDone(s.config, id) == Some(s'.config) && s'.taken == s.taken
    ensures Delivered(s')
  {
    var events := s.config.events;
    AddedSnoc(events, Cleared(id));
    NilRight(AddedMessages(events));
    forall i: nat | i < |s.config.workers|
      ensures InOrderFor(s'.config.events, s.config.workers[i], s.taken, i)
    {
      assert InOrderFor(events, s.config.workers[i], s.taken, i);
      OneMove(events, [Cleared(id)], 0, s.config.workers[i], s.config.workers[i], s.taken, i);
    }
  }

  lemma IdleChangeKeepsStore(c: Config, w: nat, to: Worker)
    requires LogStore.Inv(c) && w < |c.workers| && c.workers[w].Idle?
    requires to.Finished? || (to.Loading? && to.todo != []) || to.Idle?
    ensures LogStore.Inv(c.(workers := c.workers[w := to]))
  {
    var ws := c.workers[w := to];
    forall i | 0 <= i < |ws|
      ensures WorkerOk(c.store, ws[i])
    {
      assert WorkerOk(c.store, c.workers[i]);
    }
  }

  lemma StepKeepsStore(s: State, a: Action, s': State)
    requires LogStore.Inv(s.config) && Step(s, a) == Some(s')
    ensures LogStore.Inv(s'.config)
  {
    match a
    case Take(w) => IdleChangeKeepsStore(s.config, w, Begin(s.processChannel[0]));
    case Leave(w) => IdleChangeKeepsStore(s.config, w, Finished);
    case WorkOn(w, choice) => WorkKeeps(s.config, w, choice, s'.config);
    case DisplayClear(id) => ClearKeeps(s.config, id, s'.config);
    case DropPooled(r) => DropKeeps(s.config, r, s'.config);
    case _ =>
  }

  /** The invariant survives every action of every goroutine. */
  lemma StepKeeps(s: State, a: Action, s': State)
    requires PipelineInv(s) && Step(s, a) == Some(s')
    ensures PipelineInv(s')
  {
    StepKeepsIntake(s, a, s');
    StepKeepsCloses(s, a, s');
    StepKeepsDelivered(s, a, s');
    StepKeepsStore(s, a, s');
  }

  lemma {:induction false} RunKeeps(s: State, trace: seq<Action>)
    requires PipelineInv(s)
    ensures Run(s, trace).Some? ==> PipelineInv(Run(s, trace).value)
    decreases |trace|
  {
    if trace != [] && Step(s, trace[0]).Some? {
      StepKeeps(s, trace[0], Step(s, trace[0]).value);
      RunKeeps(Step(s, trace[0]).value, trace[1..]);
    }
  }

  /** `s` is what some interleaving leads to from the start with `workers` workers. */
  ghost predicate Reachable(workers: nat, s: State) {
    exists trace :: Run(Init(workers), trace) == Some(s)
  }

  lemma ReachableInv(workers: nat, s: State)
    requires Reachable(workers, s)
    ensures PipelineInv(s)
  {
    var trace :| Run(Init(workers), trace) == Some(s);
    InitInv(workers);
    RunKeeps(Init(workers), trace);
  }
}
