/** What the pipeline finally records of a routine's outcome, in terms of the messages it accepted. */
module LogOutcome {
  import opened Seqs
  import opened LogBatcher
  import opened LogStore
  import opened LogPipeline
  import opened LogTheorems

  /** `m` is marked somewhere in the history. */
  ghost predicate HasMark(events: seq<LogEvent>, m: Msg) {
    exists i :: 0 <= i < |events| && events[i].Marked? && events[i].msg == m
  }

  /** Worker `w` has added `m` and is about to see to its outcome. */
  predicate AboutToMark(w: Worker, m: Msg) {
    w.Marking? && w.todo != [] && w.todo[0] == m
  }

  /** Only done messages that were added are marked, and each of them is marked unless its worker is
      about to. */
  ghost predicate MarksFollow(events: seq<LogEvent>, workers: seq<Worker>) {
    && (forall m :: HasMark(events, m) ==> m.isDone && m in AddedMessages(events))
    && (forall w, m :: 0 <= w < |workers| && AboutToMark(workers[w], m) ==> m in AddedMessages(events))
    && (forall m :: m in AddedMessages(events) && m.isDone ==>
          HasMark(events, m) || exists w :: 0 <= w < |workers| && AboutToMark(workers[w], m))
  }

  lemma HasMarkSnoc(events: seq<LogEvent>, e: LogEvent, m: Msg)
    ensures HasMark(events + [e], m) <==> HasMark(events, m) || (e.Marked? && e.msg == m)
  {
    assert (events + [e])[|events|] == e;
    if HasMark(events, m) {
      var i :| 0 <= i < |events| && events[i].Marked? && events[i].msg == m;
      assert (events + [e])[i] == events[i];
    }
  }

  lemma AddedHas(events: seq<LogEvent>, e: LogEvent, m: Msg)
    ensures m in AddedMessages(events + [e]) <==> m in AddedMessages(events) || (e.Added? && e.msg == m)
  {
    AddedSnoc(events, e);
  }

  /** A worker that is not about to mark anything may become another such worker. */
  lemma QuietChange(events: seq<LogEvent>, workers: seq<Worker>, w: nat, to: Worker)
    requires MarksFollow(events, workers) && w < |workers|
    requires !workers[w].Marking? && !to.Marking?
    ensures MarksFollow(events, workers[w := to])
  {
    var ws := workers[w := to];
    forall m | m in AddedMessages(events) && m.isDone && !HasMark(events, m)
      ensures exists v :: 0 <= v < |ws| && AboutToMark(ws[v], m)
    {
      var v :| 0 <= v < |workers| && AboutToMark(workers[v], m);
      assert AboutToMark(ws[v], m);
    }
  }

  lemma AddingChange(events: seq<LogEvent>, workers: seq<Worker>, w: nat, m: Msg, to: Worker)
    requires MarksFollow(events, workers) && w < |workers|
    requires !workers[w].Marking? && AboutToMark(to, m)
    ensures MarksFollow(events + [Added(w, m)], workers[w := to])
  {
    var ws := workers[w := to];
    assert AboutToMark(ws[w], m);
    forall x
      ensures x in AddedMessages(events + [Added(w, m)]) <==> x in AddedMessages(events) || x == m
      ensures HasMark(events + [Added(w, m)], x) <==> HasMark(events, x)
    {
      AddedHas(events, Added(w, m), x);
      HasMarkSnoc(events, Added(w, m), x);
    }
    forall x | x in AddedMessages(events) && x.isDone && !HasMark(events, x)
      ensures exists v :: 0 <= v < |ws| && AboutToMark(ws[v], x)
    {
      var v :| 0 <= v < |workers| && AboutToMark(workers[v], x);
      assert AboutToMark(ws[v], x);
    }
  }

  lemma MarkingChange(events: seq<LogEvent>, es: seq<LogEvent>, workers: seq<Worker>, w: nat, m: Msg, to: Worker)
    requires MarksFollow(events, workers) && w < |workers| && AboutToMark(workers[w], m) && !to.Marking?
    requires es == if m.isDone then [Marked(w, m)] else []
    ensures MarksFollow(events + es, workers[w := to])
  {
    var ws := workers[w := to];
    NilRight(events);
    forall x
      ensures x in AddedMessages(events + es) <==> x in AddedMessages(events)
      ensures HasMark(events + es, x) <==> HasMark(events, x) || (m.isDone && x == m)
    {
      AddedHas(events, Marked(w, m), x);
      HasMarkSnoc(events, Marked(w, m), x);
    }
    forall x | x in AddedMessages(events) && x.isDone && !HasMark(events, x) && x != m
      ensures exists v :: 0 <= v < |ws| && AboutToMark(ws[v], x)
    {
      var v :| 0 <= v < |workers| && AboutToMark(workers[v], x);
      assert AboutToMark(ws[v], x);
    }
  }

  lemma ClearingChange(events: seq<LogEvent>, workers: seq<Worker>, id: string)
    requires MarksFollow(events, workers)
    ensures MarksFollow(events + [Cleared(id)], workers)
  {
    forall x
      ensures x in AddedMessages(events + [Cleared(id)]) <==> x in AddedMessages(events)
      ensures HasMark(events + [Cleared(id)], x) <==> HasMark(events, x)
    {
      AddedHas(events, Cleared(id), x);
      HasMarkSnoc(events, Cleared(id), x);
    }
  }

  lemma WorkKeepsMarks(c: Config, who: nat, choice: Option<Ref>, c': Config)
    requires MarksFollow(c.events, c.workers) && Work(c, who, choice) == Some(c')
    ensures MarksFollow(c'.events, c'.workers)
  {
    var w, w' := c.workers[who], c'.workers[who];
    NilRight(c.events);
    match w
    case Adding(todo, _) => AddingChange(c.events, c.workers, who, todo[0], w');
    case Marking(todo, _) =>
      MarkingChange(c.events, if todo[0].isDone then [Marked(who, todo[0])] else [], c.workers, who, todo[0], w');
    case _ => QuietChange(c.events, c.workers, who, w');
  }

  /** A line is only ever added to a published entry. */
  ghost predicate AddedArePublished(c: Config) {
    forall m :: m in AddedMessages(c.events) ==> m.id in c.store.logMap
  }

  lemma WorkKeepsPublishing(c: Config, who: nat, choice: Option<Ref>, c': Config)
    requires LogStore.Inv(c) && AddedArePublished(c) && Work(c, who, choice) == Some(c')
    ensures AddedArePublished(c')
  {
    var w := c.workers[who];
    assert WorkerOk(c.store, w);
    WorkKeepsPublished(c, who, choice, c');
    NilRight(c.events);
    forall m
      ensures m in AddedMessages(c'.events) ==> m in AddedMessages(c.events) || (w.Adding? && m == w.todo[0])
    {
      if w.Adding? {
        AddedHas(c.events, Added(who, w.todo[0]), m);
      } else if w.Marking? && w.todo[0].isDone {
        AddedHas(c.events, Marked(who, w.todo[0]), m);
      }
    }
  }

  ghost predicate Recorded(c: Config) {
    LogStore.Inv(c) && MarksFollow(c.events, c.workers) && AddedArePublished(c)
  }

  lemma StepKeepsRecorded(s: State, a: Action, t: State)
    requires Recorded(s.config) && Step(s, a) == Some(t)
    ensures Recorded(t.config)
  {
    var c := s.config;
    StepKeepsStore(s, a, t);
    match a
    case Take(w) => QuietChange(c.events, c.workers, w, Begin(s.processChannel[0]));
    case Leave(w) => QuietChange(c.events, c.workers, w, Finished);
    case WorkOn(w, choice) =>
      WorkKeepsMarks(c, w, choice, t.config);
      WorkKeepsPublishing(c, w, choice, t.config);
    case DisplayClear(id) =>
      ClearingChange(c.events, c.workers, id);
      AddedSnoc(c.events, Cleared(id));
      NilRight(AddedMessages(c.events));
    case _ =>
  }

  lemma {:induction false} RunKeepsRecorded(s: State, trace: seq<Action>)
    requires Recorded(s.config)
    ensures Run(s, trace).Some? ==> Recorded(Run(s, trace).value.config)
    decreases |trace|
  {
    if trace != [] && Step(s, trace[0]).Some? {
      StepKeepsRecorded(s, trace[0], Step(s, trace[0]).value);
      RunKeepsRecorded(Step(s, trace[0]).value, trace[1..]);
    }
  }

  lemma ReachableRecorded(workers: nat, s: State)
    requires Reachable(workers, s)
    ensures Recorded(s.config)
  {
    var trace :| Run(Init(workers), trace) == Some(s);
    InitOwnership(workers);
    RunKeepsRecorded(Init(workers), trace);
  }

  // ---------- at rest ----------

  /** Nobody works on anything, and nothing is on its way. */
  predicate AtRest(s: State) {
    && s.logChannel == [] && s.batcher.batch == [] && s.processChannel == []
    && forall w :: 0 <= w < |s.config.workers| ==> s.config.workers[w].Idle? || s.config.workers[w].Finished?
  }

  lemma AtRestAllAdded(workers: nat, s: State, m: Msg)
    requires Reachable(workers, s) && AtRest(s)
    ensures m in s.accepted <==> m in AddedMessages(s.config.events)
  {
    AllProcessedIffAllAdded(workers, s);
    AcceptedIsAddedAndPending(workers, s);
    assert m in s.accepted <==> m in multiset(s.accepted);
    assert m in AddedMessages(s.config.events) <==> m in multiset(AddedMessages(s.config.events));
  }

  /** At rest the marked messages are the done ones that were accepted. */
  lemma AtRestMarks(workers: nat, s: State, m: Msg)
    requires Reachable(workers, s) && AtRest(s)
    ensures HasMark(s.config.events, m) <==> m in s.accepted && m.isDone
  {
    ReachableRecorded(workers, s);
    AtRestAllAdded(workers, s, m);
    assert forall w :: 0 <= w < |s.config.workers| ==> !AboutToMark(s.config.workers[w], m);
  }

  /** The last mark of a routine. */
  lemma {:induction false} LastMark(events: seq<LogEvent>, id: string) returns (i: nat)
    requires Replay(events, id).isDone
    ensures i < |events| && events[i].Marked? && events[i].msg.id == id
    ensures Replay(events, id).isFailed == events[i].msg.isFailed
  {
    var n := |events| - 1;
    if events[n].Marked? && events[n].msg.id == id {
      i := n;
    } else {
      i := LastMark(events[..n], id);
    }
  }

  lemma OutcomeIsAMark(events: seq<LogEvent>, id: string)
    ensures Replay(events, id).isDone <==> exists m :: HasMark(events, m) && m.id == id
    ensures Replay(events, id).isDone ==>
              exists m :: HasMark(events, m) && m.id == id && m.isFailed == Replay(events, id).isFailed
    ensures Replay(events, id).isFailed ==> Replay(events, id).isDone
  {
    ReplayOutcome(events, id);
    if Replay(events, id).isDone {
      var i := LastMark(events, id);
      assert HasMark(events, events[i].msg);
    }
    if m :| HasMark(events, m) && m.id == id {
      var i :| 0 <= i < |events| && events[i].Marked? && events[i].msg == m;
    }
  }

  /** Once everything accepted is dealt with, under whatever schedule, every routine that sent a line
      has an entry. It is done exactly when some accepted message of the routine was, and whether it
      failed is what one of those messages says. */
  lemma OutcomeIsTheMessages(workers: nat, s: State, id: string)
    requires Reachable(workers, s) && AtRest(s)
    ensures (exists m :: m in s.accepted && m.id == id) ==> id in s.config.store.logMap
    ensures id in s.config.store.logMap ==>
              s.config.store.logMap[id] < |s.config.store.entries| &&
              var e := s.config.store.entries[s.config.store.logMap[id]];
              && (e.isDone <==> exists m :: m in s.accepted && m.id == id && m.isDone)
              && (e.isDone ==> exists m :: m in s.accepted && m.id == id && m.isDone && m.isFailed == e.isFailed)
              && (e.isFailed ==> e.isDone)
  {
    var events := s.config.events;
    ReachableRecorded(workers, s);
    OutcomeIsAMark(events, id);
    forall m
      ensures HasMark(events, m) <==> m in s.accepted && m.isDone
      ensures m in s.accepted ==> m in AddedMessages(events)
    {
      AtRestMarks(workers, s, m);
      AtRestAllAdded(workers, s, m);
    }
  }
}
