/** The batching loop of the log aggregator: one goroutine that selects over the log channel,
    a batch timer and the shutdown signal, and hands full or timed-out batches on. */
module LogBatcher {
  import opened Seqs

  /** One log line, with the routine it belongs to. */
  datatype Msg = Msg(id: string, text: string, isDone: bool, isFailed: bool)

  const BATCH_SIZE: nat := 10

  /** Why the loop is about to return. */
  datatype Exit = InputClosed | ShutdownSeen

  /** Where the goroutine stands. `HandingOver` is the (blocking) send of the current batch;
      its argument says what follows the send. */
  datatype BatcherPc =
    | Selecting
    | HandingOver(after: After)
    | Closing(why: Exit)
    | Exited(how: Exit)

  datatype After = Continue(stopTimer: bool) | Leave(exit: Exit)

  /** `timer` holds while the batch timer is armed or has fired without being received.
      Timer channels are synchronous here, so Stop and Reset leave no stale tick behind. */
  datatype Batcher = Batcher(batch: seq<Msg>, timer: bool, pc: BatcherPc)

  const NEW_BATCHER := Batcher([], false, Selecting)

  /** A message arrives from the log channel. */
  function OnMessage(b: Batcher, m: Msg): Batcher {
    var batch := b.batch + [m];
    Batcher(batch,
            b.timer || |batch| == 1,
            if |batch| >= BATCH_SIZE then HandingOver(Continue(true)) else Selecting)
  }

  /** The batch timer is received. */
  function OnTimer(b: Batcher): Batcher {
    Batcher(b.batch, false, if |b.batch| > 0 then HandingOver(Continue(false)) else Selecting)
  }

  /** The log channel is closed and drained, or the shutdown signal is seen. */
  function OnExit(b: Batcher, why: Exit): Batcher {
    b.(pc := if |b.batch| > 0 then HandingOver(Leave(why)) else Closing(why))
  }

  /** The pending send of the current batch completes. */
  function OnHandedOver(b: Batcher): Batcher
    requires b.pc.HandingOver?
  {
    match b.pc.after
    case Continue(stop) => Batcher([], b.timer && !stop, Selecting)
    case Leave(why) => Batcher([], b.timer, Closing(why))
  }

  /** What every state of the loop satisfies: a waiting batch is short, and the timer runs exactly while
      one waits; a batch is only ever handed over non-empty, and full unless the timer or an exit called
      for it; and nothing is left once the loop closes. */
  predicate Valid(b: Batcher) {
    && |b.batch| <= BATCH_SIZE
    && match b.pc
       case Selecting => |b.batch| < BATCH_SIZE && (b.batch != [] <==> b.timer)
       case HandingOver(Continue(stop)) => b.batch != [] && (stop <==> b.timer) && (stop ==> |b.batch| == BATCH_SIZE)
       case HandingOver(Leave(_)) => b.batch != []
       case Closing(_) => b.batch == []
       case Exited(_) => b.batch == []
  }

  // ---------- the loop over a script of ready select cases ----------

  datatype Ready = Message(msg: Msg) | Closed | Tick | Shutdown

  /** What the loop has done: the batches sent so far and whether it closed the process channel. */
  datatype Progress = Progress(loop: Batcher, emitted: seq<seq<Msg>>)

  predicate Finished(p: Progress) { p.loop.pc.Closing? }

  /** Completing a send, when there is one, before the next select. */
  function Settle(p: Progress): Progress {
    if p.loop.pc.HandingOver?
    then Progress(OnHandedOver(p.loop), p.emitted + [p.loop.batch])
    else p
  }

  /** One turn of the loop; a tick is only ready while the timer is pending. */
  function Turn(p: Progress, r: Ready): Progress {
    if Finished(p) then p else
      match r
      case Message(m) => Settle(p.(loop := OnMessage(p.loop, m)))
      case Closed => Settle(p.(loop := OnExit(p.loop, InputClosed)))
      case Shutdown => Settle(p.(loop := OnExit(p.loop, ShutdownSeen)))
      case Tick => if p.loop.timer then Settle(p.(loop := OnTimer(p.loop))) else p
  }

  function Turns(script: seq<Ready>): Progress {
    if script == [] then Progress(NEW_BATCHER, [])
    else Turn(Turns(script[..|script| - 1]), script[|script| - 1])
  }

  /** The messages the loop takes in before it leaves. */
  function Consumed(script: seq<Ready>): seq<Msg> {
    if script == [] then [] else
      var prefix := script[..|script| - 1];
      var last := script[|script| - 1];
      if !Finished(Turns(prefix)) && last.Message? then Consumed(prefix) + [last.msg] else Consumed(prefix)
  }

  /** The loop itself. The channel `processChan` is the sequence of batches sent on it. */
  method Start(script: seq<Ready>) returns (processChan: seq<seq<Msg>>, closed: bool, batch: seq<Msg>, timer: bool)
    ensures Progress(Batcher(batch, timer, Turns(script).loop.pc), processChan) == Turns(script)
    ensures closed == Finished(Turns(script))
  {
    processChan, closed, batch, timer := [], false, [], false;
    var i := 0;
    while i < |script| && !closed
      invariant 0 <= i <= |script|
      invariant closed ==> Turns(script[..i]).loop.pc.Closing?
      invariant !closed ==> Turns(script[..i]).loop.pc.Selecting?
      invariant Turns(script[..i]) == Progress(Batcher(batch, timer, Turns(script[..i]).loop.pc), processChan)
    {
      assert script[..i + 1][..i] == script[..i];
      match script[i] {
        case Message(m) =>
          batch := batch + [m];
          if |batch| == 1 {
            timer := true;
          }
          if |batch| >= BATCH_SIZE {
            processChan := processChan + [batch];
            batch := [];
            timer := false;
          }
        case Tick =>
          if timer {
            timer := false;
            if |batch| > 0 {
              processChan := processChan + [batch];
              batch := [];
            }
          }
        case Closed =>
          if |batch| > 0 {
            processChan := processChan + [batch];
            batch := [];
          }
          closed := true;
        case Shutdown =>
          if |batch| > 0 {
            processChan := processChan + [batch];
            batch := [];
          }
          closed := true;
      }
      i := i + 1;
    }
    assert script[..|script|] == script;
    FinishedStays(script, i);
  }

  lemma {:induction false} FinishedStays(script: seq<Ready>, i: nat)
    requires i <= |script|
    requires i == |script| || Finished(Turns(script[..i]))
    ensures Turns(script) == Turns(script[..i])
  {
    if i == |script| {
      assert script[..i] == script;
    } else {
      var prefix := script[..|script| - 1];
      assert prefix[..i] == script[..i];
      FinishedStays(prefix, i);
    }
  }

  ghost predicate Accounted(p: Progress, input: seq<Msg>) {
    && Flatten(p.emitted) + p.loop.batch == input
    && (forall b :: b in p.emitted ==> 1 <= |b| <= BATCH_SIZE)
    && Valid(p.loop)
  }

  lemma SettleAccounted(p: Progress, input: seq<Msg>)
    requires Accounted(p, input)
    requires !p.loop.pc.Exited?
    ensures Accounted(Settle(p), input)
    ensures Settle(p).loop.pc.Selecting? || Settle(p).loop.pc.Closing?
  {
    if p.loop.pc.HandingOver? {
      FlattenSnoc(p.emitted, p.loop.batch);
    }
  }

  lemma TurnAccounted(p: Progress, r: Ready, input: seq<Msg>)
    requires Accounted(p, input)
    requires p.loop.pc.Selecting?
    ensures Accounted(Turn(p, r), if r.Message? then input + [r.msg] else input)
    ensures Turn(p, r).loop.pc.Selecting? || Turn(p, r).loop.pc.Closing?
  {
    match r
    case Message(m) => SettleAccounted(p.(loop := OnMessage(p.loop, m)), input + [m]);
    case Closed => SettleAccounted(p.(loop := OnExit(p.loop, InputClosed)), input);
    case Shutdown => SettleAccounted(p.(loop := OnExit(p.loop, ShutdownSeen)), input);
    case Tick => if p.loop.timer { SettleAccounted(p.(loop := OnTimer(p.loop)), input); }
  }

  /** For every script of select cases: the batches sent, followed by the batch still being filled,
      are exactly the messages taken in, in order; every batch sent holds between one and
      ten messages; a batch being filled has its timer pending; and nothing is held back
      when the loop leaves. */
  lemma {:induction false} BatchesPartitionTheInput(script: seq<Ready>)
    ensures var p := Turns(script);
            && Flatten(p.emitted) + p.loop.batch == Consumed(script)
            && (forall b :: b in p.emitted ==> 1 <= |b| <= 10)
            && Valid(p.loop)
            && (p.loop.pc.Selecting? || p.loop.pc.Closing?)
  {
    if script != [] {
      var prefix := script[..|script| - 1];
      BatchesPartitionTheInput(prefix);
      if !Finished(Turns(prefix)) {
        TurnAccounted(Turns(prefix), script[|script| - 1], Consumed(prefix));
      }
    }
  }

  // ---------- when a batch is sent ----------

  lemma TurnsSnoc(script: seq<Ready>, r: Ready)
    ensures Turns(script + [r]) == Turn(Turns(script), r)
  {
    assert (script + [r])[..|script|] == script;
  }

  /** One more turn, after any script: a message completes a batch exactly when it is its tenth, a tick
      sends what waits, closing or shutdown sends what waits and ends the loop, and nothing else is sent. */
  lemma WhenBatchesAreSent(script: seq<Ready>, r: Ready)
    ensures var p, q := Turns(script), Turns(script + [r]);
            if p.loop.pc.Closing? then q == p else
            match r
            case Message(m) =>
              && q.loop.pc == Selecting && |p.loop.batch| < 10
              && if |p.loop.batch| == 9 then q.emitted == p.emitted + [p.loop.batch + [m]] && q.loop.batch == []
                 else q.emitted == p.emitted && q.loop.batch == p.loop.batch + [m]
            case Tick =>
              && q.loop.pc == Selecting && q.loop.batch == []
              && q.emitted == if p.loop.batch == [] then p.emitted else p.emitted + [p.loop.batch]
            case Closed =>
              && q.loop.pc == Closing(InputClosed) && q.loop.batch == []
              && q.emitted == if p.loop.batch == [] then p.emitted else p.emitted + [p.loop.batch]
            case Shutdown =>
              && q.loop.pc == Closing(ShutdownSeen) && q.loop.batch == []
              && q.emitted == if p.loop.batch == [] then p.emitted else p.emitted + [p.loop.batch]
  {
    BatchesPartitionTheInput(script);
    TurnsSnoc(script, r);
  }

  /** Over messages alone every batch sent holds ten of them, as many batches as there are tens, and the
      rest waits with its timer pending. */
  lemma {:induction false} MessagesAlone(script: seq<Ready>)
    requires forall i :: 0 <= i < |script| ==> script[i].Message?
    ensures var p := Turns(script);
            && p.loop.pc == Selecting
            && |p.emitted| == |script| / 10 && |p.loop.batch| == |script| % 10
            && forall b :: b in p.emitted ==> |b| == 10
  {
    if script != [] {
      var prefix, last := script[..|script| - 1], script[|script| - 1];
      MessagesAlone(prefix);
      WhenBatchesAreSent(prefix, last);
      assert prefix + [last] == script;
    }
  }
}
