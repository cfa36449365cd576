/** What holds of the log pipeline over whole runs. */
module LogTheorems {
  import opened Seqs
  import opened LogBatcher
  import opened LogStore
  import opened LogPipeline

  // ---------- conservation ----------

  /** Whatever the interleaving, every accepted message is in exactly one place: added to an entry,
      in a worker's hands, in a queued batch, in the batch being filled, or still in the log channel. */
  lemma NothingLostOrDuplicated(workers: nat, s: State)
    requires Reachable(workers, s)
    ensures multiset(s.accepted) ==
            multiset(AddedMessages(s.config.events)) + InHands(s.config.workers) + multiset(Flatten(s.processChannel))
            + multiset(s.batcher.batch) + multiset(s.logChannel)
  {
    ReachableInv(workers, s);
    EverythingSomewhere(s);
  }

  lemma EverythingSomewhere(s: State)
    requires PipelineInv(s)
    ensures multiset(s.accepted) ==
            multiset(AddedMessages(s.config.events)) + InHands(s.config.workers) + multiset(Flatten(s.processChannel))
            + multiset(s.batcher.batch) + multiset(s.logChannel)
  {
    var taken := TakenBatches(s.taken);
    FlattenConcat(taken, s.processChannel);
    MultisetConcat(Flatten(taken), Flatten(s.processChannel));
    MultisetConcat(Flatten(s.emitted), s.batcher.batch);
    MultisetConcat(s.received, s.logChannel);
  }

  predicate AllFinished(s: State) {
    s.config.workers != [] && forall w :: 0 <= w < |s.config.workers| ==> s.config.workers[w].Finished?
  }

  /** The messages on their way, in whatever place. */
  function Pending(s: State): multiset<Msg> {
    InHands(s.config.workers) + multiset(Flatten(s.processChannel)) + multiset(s.batcher.batch) + multiset(s.logChannel)
  }

  lemma AcceptedIsAddedAndPending(workers: nat, s: State)
    requires Reachable(workers, s)
    ensures multiset(s.accepted) == multiset(AddedMessages(s.config.events)) + Pending(s)
  {
    NothingLostOrDuplicated(workers, s);
  }

  lemma UnionAbsorbed<T>(a: multiset<T>, b: multiset<T>)
    ensures (a + b <= a) <==> b == multiset{}
    ensures a + b == a <==> b == multiset{}
  {
    if a + b <= a {
      forall x
        ensures b[x] == 0
      {
        assert (a + b)[x] <= a[x];
      }
    }
  }

  /** When the workers are done, the missing messages are exactly those left in the log channel;
      an exit on the closed channel leaves none, so every message was then added exactly once. */
  lemma WhatTheWorkersAdded(workers: nat, s: State)
    requires Reachable(workers, s) && AllFinished(s)
    ensures s.batcher.pc.Exited?
    ensures multiset(s.accepted) == multiset(AddedMessages(s.config.events)) + multiset(s.logChannel)
    ensures s.batcher.pc.how.InputClosed? ==> multiset(s.accepted) == multiset(AddedMessages(s.config.events))
    ensures multiset(s.accepted) == multiset(AddedMessages(s.config.events)) <==> s.logChannel == []
  {
    ReachableInv(workers, s);
    AcceptedIsAddedAndPending(workers, s);
    OnlyTheLogChannelIsLeft(s);
    UnionAbsorbed(multiset(AddedMessages(s.config.events)), multiset(s.logChannel));
    assert s.logChannel != [] ==> s.logChannel[0] in multiset(s.logChannel);
  }

  lemma OnlyTheLogChannelIsLeft(s: State)
    requires Intake(s) && Closes(s) && AllFinished(s)
    ensures s.batcher.pc.Exited?
    ensures s.batcher.pc.how.InputClosed? ==> s.logChannel == []
    ensures Pending(s) == multiset(s.logChannel)
  {
    InHandsIdle(s.config.workers);
    assert s.config.workers[0].Finished?;
  }

  /** Every batch a worker receives holds between one and ten messages; the batches sent, in sending
      order, are a prefix of what the producers sent; the timer is pending exactly while a batch waits,
      and a batch handed over with the timer still pending holds ten messages. */
  lemma BatchesFollowTheSendOrder(workers: nat, s: State)
    requires Reachable(workers, s)
    ensures Flatten(s.emitted) <= s.accepted
    ensures forall b :: b in s.emitted ==> 1 <= |b| <= 10
    ensures s.batcher.pc.Selecting? ==> |s.batcher.batch| < 10 && (s.batcher.batch != [] <==> s.batcher.timer)
    ensures s.batcher.pc == HandingOver(Continue(true)) ==> |s.batcher.batch| == 10
  {
    ReachableInv(workers, s);
    EmittedIsAPrefix(s);
  }

  lemma EmittedIsAPrefix(s: State)
    requires Intake(s)
    ensures Flatten(s.emitted) <= s.accepted
  {
    assert s.accepted == Flatten(s.emitted) + (s.batcher.batch + s.logChannel);
  }

  /** The log channel holds up to a thousand messages and the process channel up to a hundred batches. A
      producer's send blocks exactly when the log channel is open and full, handing a batch over exactly
      when the process channel is full. */
  lemma SendsBlockIffFull(workers: nat, s: State, m: Msg)
    requires Reachable(workers, s) && s.crash == NoCrash
    ensures |s.logChannel| <= 1000 && |s.processChannel| <= 100
    ensures Step(s, Send(m)).None? <==> !s.logClosed && |s.logChannel| == 1000
    ensures s.batcher.pc.HandingOver? ==> (Step(s, HandOver).None? <==> |s.processChannel| == 100)
  {
    ReachableInv(workers, s);
  }

  // ---------- the close discipline ----------

  /** The batcher never sends on the closed process channel and never closes it twice; the only
      possible panic is a producer that sends after Flush closed the log channel. */
  lemma OnlyLateProducersPanic(workers: nat, s: State)
    requires Reachable(workers, s)
    ensures s.crash == NoCrash || (s.crash == SendOnClosedLog && s.logClosed && !s.flush.NotCalled?)
    ensures s.processClosed <==> s.batcher.pc.Exited?
  {
    ReachableInv(workers, s);
  }

  /** A send on a closed channel and a second close panic, in any state whatever. */
  lemma ClosedChannelsPanic(s: State, m: Msg)
    requires s.crash == NoCrash
    ensures s.logClosed ==> Step(s, Send(m)) == Some(s.(crash := SendOnClosedLog))
    ensures s.processClosed && s.batcher.pc.HandingOver? ==>
              Step(s, HandOver) == Some(s.(crash := SendOnClosedProcess))
    ensures s.processClosed && s.batcher.pc.Closing? ==>
              Step(s, CloseProcess) == Some(s.(crash := CloseOfClosedProcess))
  {
  }

  /** The batcher leaves by the closed channel exactly when that is closed and empty, and by the shutdown
      signal exactly when that is given; what waits is handed over before. */
  lemma LeavesByItsCause(s: State)
    requires s.crash == NoCrash && s.batcher.pc.Selecting?
    ensures Step(s, SeeInputClosed).Some? <==> s.logClosed && s.logChannel == []
    ensures Step(s, SeeShutdown).Some? <==> s.shutdown
    ensures Step(s, SeeInputClosed).Some? ==>
              Step(s, SeeInputClosed).value.batcher.pc ==
              if s.batcher.batch == [] then Closing(InputClosed) else HandingOver(After.Leave(InputClosed))
    ensures Step(s, SeeShutdown).Some? ==>
              Step(s, SeeShutdown).value.batcher.pc ==
              if s.batcher.batch == [] then Closing(ShutdownSeen) else HandingOver(After.Leave(ShutdownSeen))
  {
  }

  /** Flush gives the shutdown signal, then closes the log channel, then waits until the display, which saw
      the signal, has made its last pass. */
  lemma FlushWaitsForTheLastPass(s: State)
    requires s.crash == NoCrash
    ensures Step(s, CloseShutdown).Some? <==> s.flush == NotCalled
    ensures Step(s, CloseLog).Some? <==> s.flush == ShutdownClosed
    ensures Step(s, BeginFinalPass).Some? <==> s.display == Ticking && s.shutdown
    ensures Step(s, EndFinalPass).Some? <==> s.display == FinalPass
    ensures Step(s, EndFinalPass).Some? ==> Step(s, EndFinalPass).value.display == Signalling
    ensures Step(s, SignalFlush).Some? <==> s.display == Signalling && s.flush == AwaitingDisplay
  {
  }

  lemma ClearsDuringPasses(s: State, id: string)
    requires s.crash == NoCrash
    ensures Step(s, DisplayClear(id)).Some? <==>
            (s.display == Ticking || s.display == FinalPass) && ClearDone(s.config, id).Some?
  {
  }

  // ---------- entries ----------

  /** Two workers racing through load, pool get and load-or-store never share a spare entry, never
      pool a published one, never publish one twice, and write only where the map points. Each
      published window is the last five lines added for its routine since it was last cleared, and its
      outcome is that of the routine's last mark. */
  lemma EntriesAreOwnedAndLinear(workers: nat, s: State)
    requires Reachable(workers, s)
    ensures Ownership(s.config)
    ensures forall id :: id in s.config.store.logMap ==>
              s.config.store.entries[s.config.store.logMap[id]] == Replay(s.config.events, id)
    ensures forall id :: id in s.config.store.logMap ==>
              s.config.store.entries[s.config.store.logMap[id]].messages == LastK(5, Since(s.config.events, id))
    ensures var events := s.config.events;
            forall id :: id in s.config.store.logMap ==>
              var e := s.config.store.entries[s.config.store.logMap[id]];
              && (e.isDone <==> exists i :: 0 <= i < |events| && events[i].Marked? && events[i].msg.id == id)
              && forall i :: 0 <= i < |events| && events[i].Marked? && events[i].msg.id == id &&
                             (forall j :: i < j < |events| && events[j].Marked? ==> events[j].msg.id != id) ==>
                             e.isFailed == events[i].msg.isFailed
  {
    ReachableInv(workers, s);
    forall id | id in s.config.store.logMap
      ensures s.config.store.entries[s.config.store.logMap[id]].messages == LastK(5, Since(s.config.events, id))
    {
      ReplayIsAWindow(s.config.events, id);
    }
    forall id
      ensures OutcomeRight(s.config.events, id, Replay(s.config.events, id))
    {
      ReplayOutcome(s.config.events, id);
    }
    assert forall id :: id in s.config.store.logMap ==>
             OutcomeRight(s.config.events, id, s.config.store.entries[s.config.store.logMap[id]]);
  }

  ghost predicate OutcomeRight(events: seq<LogEvent>, id: string, e: Entry) {
    && (e.isDone <==> exists i :: 0 <= i < |events| && events[i].Marked? && events[i].msg.id == id)
    && forall i :: 0 <= i < |events| && events[i].Marked? && events[i].msg.id == id &&
                   (forall j :: i < j < |events| && events[j].Marked? ==> events[j].msg.id != id) ==>
                   e.isFailed == events[i].msg.isFailed
  }

  /** From then on: histories only grow and a published entry stays the one for its routine. */
  ghost predicate Extends(s: State, t: State) {
    && s.accepted <= t.accepted
    && s.received <= t.received
    && (s.logClosed ==> t.logClosed)
    && s.config.events <= t.config.events
    && |t.config.workers| == |s.config.workers|
    && forall id :: id in s.config.store.logMap ==> Published(t.config.store, id, s.config.store.logMap[id])
  }

  lemma StepExtends(s: State, a: Action, t: State)
    requires Step(s, a) == Some(t)
    ensures Extends(s, t)
  {
  }

  lemma {:induction false} RunExtends(s: State, trace: seq<Action>)
    ensures Run(s, trace).Some? ==> Extends(s, Run(s, trace).value)
    decreases |trace|
  {
    if trace != [] && Step(s, trace[0]).Some? {
      var next := Step(s, trace[0]).value;
      StepExtends(s, trace[0], next);
      RunExtends(next, trace[1..]);
    }
  }

  lemma {:induction false} RunConcat(s: State, first: seq<Action>, second: seq<Action>)
    requires Run(s, first).Some?
    ensures Run(s, first + second) == Run(Run(s, first).value, second)
    decreases |first|
  {
    if first == [] {
      assert first + second == second;
    } else {
      assert (first + second)[1..] == first[1..] + second;
      RunConcat(Step(s, first[0]).value, first[1..], second);
    }
  }

  lemma Cons(s: State, a: Action, rest: seq<Action>)
    requires Step(s, a).Some?
    ensures Run(s, [a] + rest) == Run(Step(s, a).value, rest)
  {
    assert ([a] + rest)[1..] == rest;
  }

  lemma ReachFurther(workers: nat, s: State, trace: seq<Action>, t: State)
    requires Reachable(workers, s) && Run(s, trace) == Some(t)
    ensures Reachable(workers, t)
  {
    var before :| Run(Init(workers), before) == Some(s);
    RunConcat(Init(workers), before, trace);
  }

  /** The states the theorems speak of: the initial one and those one more step leads to. */
  lemma ReachableByStep(workers: nat, s: State, a: Action, t: State)
    ensures Reachable(workers, Init(workers))
    ensures Reachable(workers, s) && Step(s, a) == Some(t) ==> Reachable(workers, t)
  {
    assert Run(Init(workers), []) == Some(Init(workers));
    if Reachable(workers, s) && Step(s, a) == Some(t) {
      assert [a] + [] == [a];
      Cons(s, a, []);
      ReachFurther(workers, s, [a], t);
    }
  }

  lemma WorkersStay(workers: nat, s: State)
    requires Reachable(workers, s)
    ensures |s.config.workers| == workers
  {
    var trace :| Run(Init(workers), trace) == Some(s);
    RunExtends(Init(workers), trace);
  }

  /** A line about to be added goes to the entry the map holds for its routine now and in every
      later state, even when that entry was published by another worker. */
  lemma AddsLandInTheFinalEntry(workers: nat, s: State, w: nat, trace: seq<Action>)
    requires Reachable(workers, s) && w < |s.config.workers| && s.config.workers[w].Adding?
    requires Run(s, trace).Some?
    ensures var todo := s.config.workers[w].todo;
            todo != [] && Published(Run(s, trace).value.config.store, todo[0].id, s.config.workers[w].entry)
  {
    ReachableInv(workers, s);
    assert WorkerOk(s.config.store, s.config.workers[w]);
    RunExtends(s, trace);
  }

  // ---------- Flush ----------

  /** Nothing accepted is still on its way. */
  predicate AllProcessed(s: State) {
    && s.logChannel == []
    && s.batcher.batch == []
    && s.processChannel == []
    && forall w :: 0 <= w < |s.config.workers| ==> Unprocessed(s.config.workers[w]) == []
  }

  /** Flush called in `s` returns, under every schedule, only after every message accepted before
      the call has been added to its entry. */
  ghost predicate FlushWaitsForAll(s: State) {
    forall trace :: Run(s, trace).Some? && Run(s, trace).value.flush.Returned? ==>
      multiset(s.accepted) <= multiset(AddedMessages(Run(s, trace).value.config.events))
  }

  const FLUSH_ALONE: seq<Action> := [CloseShutdown, CloseLog, BeginFinalPass, EndFinalPass, SignalFlush]

  lemma FlushCloses(s: State)
    requires s.crash == NoCrash && s.flush.NotCalled? && s.display.Ticking?
    ensures Run(s, FLUSH_ALONE) ==
            Run(s.(shutdown := true, logClosed := true, flush := AwaitingDisplay), FLUSH_ALONE[2..])
  {
    var s1 := Step(s, CloseShutdown).value;
    Cons(s1, CloseLog, FLUSH_ALONE[2..]);
    Cons(s, CloseShutdown, FLUSH_ALONE[1..]);
  }

  lemma DisplayFinishes(s: State)
    requires s.crash == NoCrash && s.flush.AwaitingDisplay? && s.shutdown && s.display.Ticking?
    ensures Run(s, FLUSH_ALONE[2..]) == Some(s.(flush := Returned, display := Gone))
  {
    var s3 := Step(s, BeginFinalPass).value;
    var s4 := Step(s3, EndFinalPass).value;
    Cons(s4, SignalFlush, []);
    Cons(s3, EndFinalPass, [SignalFlush]);
    Cons(s, BeginFinalPass, FLUSH_ALONE[3..]);
  }

  lemma FlushAloneReturns(s: State)
    requires s.crash == NoCrash && s.flush.NotCalled? && s.display.Ticking?
    ensures Run(s, FLUSH_ALONE) == Some(s.(shutdown := true, logClosed := true, flush := Returned, display := Gone))
  {
    FlushCloses(s);
    DisplayFinishes(s.(shutdown := true, logClosed := true, flush := AwaitingDisplay));
  }

  lemma {:induction false} AddedGrows(a: seq<LogEvent>, b: seq<LogEvent>)
    requires a <= b
    ensures multiset(AddedMessages(a)) <= multiset(AddedMessages(b))
  {
    if a == b {
    } else {
      AddedGrows(a, b[..|b| - 1]);
    }
  }

  lemma {:induction false} FlattenEmpty<T>(ss: seq<seq<T>>)
    requires forall x :: x in ss ==> x != []
    ensures Flatten(ss) == [] <==> ss == []
  {
    if ss != [] {
      assert ss[|ss| - 1] in ss;
    }
  }

  /** Nothing pending is the same as everything accepted being added. */
  lemma AllProcessedIffAllAdded(workers: nat, s: State)
    requires Reachable(workers, s)
    ensures AllProcessed(s) <==> multiset(s.accepted) <= multiset(AddedMessages(s.config.events))
  {
    ReachableInv(workers, s);
    AcceptedIsAddedAndPending(workers, s);
    UnionAbsorbed(multiset(AddedMessages(s.config.events)), Pending(s));
    NothingPending(s);
  }

  lemma NothingPending(s: State)
    requires Intake(s)
    ensures AllProcessed(s) <==> Pending(s) == multiset{}
  {
    InHandsIdle(s.config.workers);
    forall b | b in s.processChannel
      ensures b != []
    {
      assert b in s.emitted;
    }
    FlattenEmpty(s.processChannel);
    assert |Pending(s)| ==
      |InHands(s.config.workers)| + |Flatten(s.processChannel)| + |s.batcher.batch| + |s.logChannel|;
    assert Pending(s) == multiset{} <==> |Pending(s)| == 0;
    assert InHands(s.config.workers) == multiset{} <==> |InHands(s.config.workers)| == 0;
  }

  /** Flush is documented to wait for all messages to be processed. It waits for the display
      goroutine alone, so it does so exactly when nothing was pending at the call. */
  lemma FlushWaitsIffNothingPending(workers: nat, s: State)
    requires Reachable(workers, s) && s.flush.NotCalled? && s.crash == NoCrash
    ensures FlushWaitsForAll(s) <==> AllProcessed(s)
  {
    AllProcessedIffAllAdded(workers, s);
    ReachableInv(workers, s);
    FlushAloneReturns(s);
    if FlushWaitsForAll(s) {
      assert Run(s, FLUSH_ALONE).value.flush.Returned?;
    }
    if AllProcessed(s) {
      forall trace | Run(s, trace).Some? && Run(s, trace).value.flush.Returned?
        ensures multiset(s.accepted) <= multiset(AddedMessages(Run(s, trace).value.config.events))
      {
        RunExtends(s, trace);
        AddedGrows(s.config.events, Run(s, trace).value.config.events);
      }
    }
  }
}
