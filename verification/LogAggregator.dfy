/** The aggregator's entries as objects, updated in place by one worker and one display pass at a
    time: the five-line window, the processing of a batch, and the redraw of the screen. */
module LogAggregator {
  import opened Seqs
  import opened LogBatcher
  import opened LogStore

  /** One routine's window of lines and its outcome. */
  class LogEntry {
    var messages: seq<string>
    var isDone: bool
    var isFailed: bool

    function View(): Entry
      reads this
    {
      Entry(messages, isDone, isFailed)
    }

    constructor ()
      ensures View() == BLANK
    {
      messages := [];
      isDone, isFailed := false, false;
    }

    /** A full window shifts down by one, slot by slot, and gives up its last slot; then the line is
        appended. */
    method AddMessage(msg: string)
      modifies this
      ensures View() == old(View()).(messages := Push(old(messages), msg))
    {
      if |messages| >= MAX_LOG_LINES {
        var i := 0;
        while i + 1 < |messages|
          invariant i < |messages| == |old(messages)| && isDone == old(isDone) && isFailed == old(isFailed)
          invariant forall k :: 0 <= k < i ==> messages[k] == old(messages)[k + 1]
          invariant forall k :: i <= k < |messages| ==> messages[k] == old(messages)[k]
        {
          messages := messages[i := messages[i + 1]];
          i := i + 1;
        }
        messages := messages[..MAX_LOG_LINES - 1];
        assert messages == old(messages)[1..MAX_LOG_LINES];
      }
      messages := messages + [msg];
    }

    /** The window of a completed routine is replaced by an empty one. */
    method Clear()
      modifies this
      ensures View() == old(View()).(messages := [])
    {
      messages := [];
    }
  }

  /** A drawn line. */
  datatype Line = Title | Completed(id: string) | Failed(id: string) | Running(id: string) | Text(text: string)

  class LogAggregator {
    var logMap: map<string, LogEntry>
    var routineOrder: seq<string>
    ghost var events: seq<LogEvent>
    /** The entries are distinct objects, and each is what replaying the events for its routine gives. */
    ghost predicate Coherent()
      reads this, logMap.Values
    {
      && (forall i, j :: i in logMap && j in logMap && i != j ==> logMap[i] != logMap[j])
      && (forall id :: id in logMap ==> logMap[id].View() == Replay(events, id))
      && (forall id :: id !in logMap ==> Replay(events, id) == BLANK)
    }

    /** Routines keep the entry they got first. */
    ghost predicate Kept(was: map<string, LogEntry>)
      reads this
    {
      forall id :: id in was ==> id in logMap && logMap[id] == was[id]
    }

    ghost predicate Valid()
      reads this, logMap.Values
    {
      && Coherent()
      && NoDuplicates(routineOrder)
      && Elements(routineOrder) == logMap.Keys
    }

    constructor ()
      ensures Valid() && events == [] && logMap == map[]
    {
      logMap := map[];
      routineOrder := [];
      events := [];
    }

    /** The load-or-create part of processing: without a race the pool only makes new entries. */
    method EntryFor(id: string) returns (entry: LogEntry)
      requires Coherent()
      modifies this`logMap
      ensures Coherent() && fresh(logMap.Values - old(logMap.Values))
      ensures id in logMap && logMap[id] == entry && logMap.Keys == old(logMap).Keys + {id}
      ensures Kept(old(logMap))
    {
      if id in logMap {
        entry := logMap[id];
      } else {
        entry := new LogEntry();
        logMap := logMap[id := entry];
      }
    }

    /** Recording one event leaves the other routines' entries as they were. */
    lemma Recorded(was: seq<LogEvent>, event: LogEvent, id: string)
      requires events == was + [event] && About(event, id)
      ensures Replay(events, id) == Apply(Replay(was, id), event, id)
      ensures forall other :: other != id ==> Replay(events, other) == Replay(was, other)
    {
      assert events[..|was|] == was;
    }

    method Process(m: Msg)
      requires Coherent()
      modifies this, logMap.Values
      ensures Coherent() && fresh(logMap.Values - old(logMap.Values))
      ensures events == old(events) + MessageEvents(m)
      ensures routineOrder == old(routineOrder) && logMap.Keys == old(logMap).Keys + {m.id}
      ensures Kept(old(logMap))
    {
      var entry := EntryFor(m.id);
      AddLine(entry, m);
      if m.isDone {
        MarkDone(entry, m);
      }
    }

    method AddLine(entry: LogEntry, m: Msg)
      requires Coherent() && m.id in logMap && logMap[m.id] == entry
      modifies this, logMap.Values
      ensures Coherent() && fresh(logMap.Values - old(logMap.Values))
      ensures events == old(events) + [Added(0, m)]
      ensures logMap == old(logMap) && routineOrder == old(routineOrder)
    {
      entry.AddMessage(m.text);
      events := events + [Added(0, m)];
      Recorded(old(events), Added(0, m), m.id);
    }

    method MarkDone(entry: LogEntry, m: Msg)
      requires Coherent() && m.id in logMap && logMap[m.id] == entry && m.isDone
      modifies this, logMap.Values
      ensures Coherent()
      ensures events == old(events) + [Marked(0, m)]
      ensures logMap == old(logMap) && routineOrder == old(routineOrder)
    {
      entry.isDone := m.isDone;
      entry.isFailed := m.isFailed;
      events := events + [Marked(0, m)];
      Recorded(old(events), Marked(0, m), m.id);
    }

    /** One batch, message by message, then the routines it touched join the display order in
        whatever order the map iteration yields them. */
    method ProcessBatch(batch: seq<Msg>)
      requires Valid()
      modifies this, logMap.Values
      ensures Valid() && fresh(logMap.Values - old(logMap.Values))
      ensures events == old(events) + BatchEvents(batch)
      ensures logMap.Keys == old(logMap).Keys + Routines(batch)
      ensures Kept(old(logMap)) && old(routineOrder) <= routineOrder
    {
      var touched := ProcessMessages(batch);
      NoteRoutines(touched);
    }

    method ProcessNext(batch: seq<Msg>, i: nat, ghost start: seq<LogEvent>)
      requires Coherent() && i < |batch| && events == start + BatchEvents(batch[..i])
      modifies this, logMap.Values
      ensures Coherent() && fresh(logMap.Values - old(logMap.Values))
      ensures events == start + BatchEvents(batch[..i + 1])
      ensures Routines(batch[..i + 1]) == Routines(batch[..i]) + {batch[i].id}
      ensures logMap.Keys == old(logMap).Keys + {batch[i].id}
      ensures Kept(old(logMap)) && routineOrder == old(routineOrder)
    {
      BatchSnoc(start, batch, i);
      Process(batch[i]);
    }

    method ProcessMessages(batch: seq<Msg>) returns (touched: set<string>)
      requires Coherent()
      modifies this, logMap.Values
      ensures Coherent() && fresh(logMap.Values - old(logMap.Values))
      ensures events == old(events) + BatchEvents(batch)
      ensures touched == Routines(batch) && logMap.Keys == old(logMap).Keys + touched
      ensures Kept(old(logMap)) && routineOrder == old(routineOrder)
    {
      touched := {};
      var i := 0;
      NilRight(events);
      while i < |batch|
        invariant 0 <= i <= |batch|
        invariant Coherent() && fresh(logMap.Values - old(logMap.Values))
        invariant events == old(events) + BatchEvents(batch[..i])
        invariant touched == Routines(batch[..i]) && logMap.Keys == old(logMap).Keys + touched
        invariant Kept(old(logMap)) && routineOrder == old(routineOrder)
      {
        ProcessNext(batch, i, old(events));
        touched := touched + {batch[i].id};
        i := i + 1;
      }
      assert batch[..i] == batch;
    }

    method NoteRoutines(touched: set<string>)
      requires Coherent() && NoDuplicates(routineOrder)
      requires Elements(routineOrder) + touched == logMap.Keys
      modifies this`routineOrder
      ensures Valid() && old(routineOrder) <= routineOrder
    {
      var rest := touched;
      while rest != {}
        invariant NoDuplicates(routineOrder) && old(routineOrder) <= routineOrder
        invariant Elements(routineOrder) + rest == logMap.Keys
        decreases rest
      {
        var id :| id in rest;
        rest := rest - {id};
        NoteRoutine(id);
      }
    }

    method NoteRoutine(id: string)
      requires NoDuplicates(routineOrder)
      modifies this`routineOrder
      ensures NoDuplicates(routineOrder) && old(routineOrder) <= routineOrder
      ensures Elements(routineOrder) == Elements(old(routineOrder)) + {id}
    {
      var found := Listed(id);
      if !found {
        ElementsSnoc(routineOrder, id);
        routineOrder := routineOrder + [id];
      }
    }

    method Listed(id: string) returns (found: bool)
      ensures found <==> id in Elements(routineOrder)
    {
      found := false;
      var i := 0;
      while i < |routineOrder| && !found
        invariant 0 <= i <= |routineOrder|
        invariant found <==> id in routineOrder[..i]
      {
        found := routineOrder[i] == id;
        i := i + 1;
      }
      assert routineOrder == routineOrder[..i] + routineOrder[i..];
    }

    /** A display pass: completed routines first, each losing its window unless it failed, then the
        ones still running. */
    method UpdateDisplay() returns (lines: seq<Line>)
      requires Valid()
      modifies this, logMap.Values
      ensures Valid() && fresh(logMap.Values - old(logMap.Values))
      ensures lines == [Title] + DoneLines(old(events), routineOrder) + RunningLines(old(events), routineOrder)
      ensures events == old(events) + ClearEvents(old(events), routineOrder)
      ensures routineOrder == old(routineOrder) && logMap == old(logMap)
    {
      var done := DrawAllDone();
      ghost var order := routineOrder;
      RunningAfterClears(old(events), order, order);
      var running := DrawRunning();
      lines := [Title] + done + running;
    }

    method DrawAllDone() returns (lines: seq<Line>)
      requires Valid()
      modifies this, logMap.Values
      ensures Valid() && fresh(logMap.Values - old(logMap.Values))
      ensures lines == DoneLines(old(events), routineOrder)
      ensures events == old(events) + ClearEvents(old(events), routineOrder)
      ensures routineOrder == old(routineOrder) && logMap == old(logMap)
    {
      lines := [];
      ghost var was, order := events, routineOrder;
      NilRight(was);
      var i := 0;
      while i < |routineOrder|
        invariant 0 <= i <= |order|
        invariant Valid() && fresh(logMap.Values - old(logMap.Values))
        invariant routineOrder == order && logMap == old(logMap)
        invariant events == was + ClearEvents(was, order[..i])
        invariant lines == DoneLines(was, order[..i])
        invariant forall k :: i <= k < |order| ==> Replay(events, order[k]) == Replay(was, order[k])
      {
        var id := routineOrder[i];
        assert id in Elements(routineOrder);
        DoneUpTo(was, order, i);
        var block := DrawDone(id);
        lines := lines + block;
        i := i + 1;
      }
      assert order[..i] == order;
    }

    method DrawRunning() returns (lines: seq<Line>)
      requires Valid()
      ensures lines == RunningLines(events, routineOrder)
    {
      lines := [];
      var i := 0;
      while i < |routineOrder|
        invariant 0 <= i <= |routineOrder|
        invariant lines == RunningLines(events, routineOrder[..i])
      {
        var id := routineOrder[i];
        assert id in Elements(routineOrder);
        assert routineOrder[..i + 1][..i] == routineOrder[..i];
        var entry := logMap[id];
        assert entry.View() == Replay(events, id);
        if !entry.isDone {
          lines := lines + ([Running(id)] + Texts(entry.messages));
        } else {
          NilRight(lines);
        }
        i := i + 1;
      }
      assert routineOrder[..i] == routineOrder;
    }

    method DrawDone(id: string) returns (block: seq<Line>)
      requires Valid() && id in logMap
      modifies this, logMap.Values
      ensures Valid() && fresh(logMap.Values - old(logMap.Values))
      ensures routineOrder == old(routineOrder) && logMap == old(logMap)
      ensures block == DoneBlock(Replay(old(events), id), id)
      ensures events == old(events) + ClearEvent(old(events), id)
      ensures forall other :: other != id ==> Replay(events, other) == Replay(old(events), other)
    {
      var entry := logMap[id];
      block := [];
      if entry.isDone {
        if !entry.isFailed {
          entry.Clear();
          events := events + [Cleared(id)];
          Recorded(old(events), Cleared(id), id);
          block := [Completed(id)];
        } else {
          block := [Failed(id)] + Texts(LastK(5, entry.messages));
        }
      }
    }
  }

  // ---------- what the methods compute ----------

  function MessageEvents(m: Msg): seq<LogEvent> {
    [Added(0, m)] + if m.isDone then [Marked(0, m)] else []
  }

  function BatchEvents(batch: seq<Msg>): seq<LogEvent> {
    if batch == [] then [] else BatchEvents(batch[..|batch| - 1]) + MessageEvents(batch[|batch| - 1])
  }

  function Routines(batch: seq<Msg>): set<string> {
    if batch == [] then {} else Routines(batch[..|batch| - 1]) + {batch[|batch| - 1].id}
  }

  lemma BatchSnoc(was: seq<LogEvent>, batch: seq<Msg>, i: nat)
    requires i < |batch|
    ensures was + BatchEvents(batch[..i + 1]) == (was + BatchEvents(batch[..i])) + MessageEvents(batch[i])
    ensures Routines(batch[..i + 1]) == Routines(batch[..i]) + {batch[i].id}
  {
    assert batch[..i + 1][..i] == batch[..i];
    Assoc(was, BatchEvents(batch[..i]), MessageEvents(batch[i]));
  }

  lemma ElementsSnoc(order: seq<string>, id: string)
    ensures Elements(order + [id]) == Elements(order) + {id}
  {
  }

  lemma DoneUpTo(events: seq<LogEvent>, order: seq<string>, i: nat)
    requires i < |order|
    ensures DoneLines(events, order[..i + 1]) ==
            DoneLines(events, order[..i]) + DoneBlock(Replay(events, order[i]), order[i])
    ensures events + ClearEvents(events, order[..i + 1]) ==
            (events + ClearEvents(events, order[..i])) + ClearEvent(events, order[i])
  {
    assert order[..i + 1] == order[..i] + [order[i]];
    DoneSnoc(events, order[..i], order[i]);
    Assoc(events, ClearEvents(events, order[..i]), ClearEvent(events, order[i]));
  }

  lemma DoneSnoc(events: seq<LogEvent>, order: seq<string>, id: string)
    ensures DoneLines(events, order + [id]) == DoneLines(events, order) + DoneBlock(Replay(events, id), id)
    ensures ClearEvents(events, order + [id]) == ClearEvents(events, order) + ClearEvent(events, id)
  {
    assert (order + [id])[..|order|] == order;
  }

  function Texts(messages: seq<string>): seq<Line> {
    seq(|messages|, i requires 0 <= i < |messages| => Text(messages[i]))
  }

  function DoneBlock(e: Entry, id: string): seq<Line> {
    if !e.isDone then []
    else if !e.isFailed then [Completed(id)]
    else [Failed(id)] + Texts(LastK(5, e.messages))
  }

  function DoneLines(events: seq<LogEvent>, order: seq<string>): seq<Line> {
    if order == [] then [] else
      var id := order[|order| - 1];
      DoneLines(events, order[..|order| - 1]) + DoneBlock(Replay(events, id), id)
  }

  function RunningLines(events: seq<LogEvent>, order: seq<string>): seq<Line> {
    if order == [] then [] else
      var id := order[|order| - 1];
      var e := Replay(events, id);
      RunningLines(events, order[..|order| - 1]) + if e.isDone then [] else [Running(id)] + Texts(e.messages)
  }

  function ClearEvent(events: seq<LogEvent>, id: string): seq<LogEvent> {
    var e := Replay(events, id);
    if e.isDone && !e.isFailed then [Cleared(id)] else []
  }

  function ClearEvents(events: seq<LogEvent>, order: seq<string>): seq<LogEvent> {
    if order == [] then [] else ClearEvents(events, order[..|order| - 1]) + ClearEvent(events, order[|order| - 1])
  }

  // ---------- what the screen shows ----------

  /** A display pass clears exactly the windows of the listed routines that completed without failing,
      and leaves all other windows and all flags alone. */
  lemma {:induction false} ClearsOnlyDone(events: seq<LogEvent>, order: seq<string>, id: string)
    ensures var e := Replay(events, id);
            Replay(events + ClearEvents(events, order), id) ==
            if id in order && e.isDone && !e.isFailed then e.(messages := []) else e
  {
    if order == [] {
      NilRight(events);
    } else {
      var init, last := order[..|order| - 1], order[|order| - 1];
      assert order == init + [last];
      ClearsOnlyDone(events, init, id);
      var so := events + ClearEvents(events, init);
      Assoc(events, ClearEvents(events, init), ClearEvent(events, last));
      if ClearEvent(events, last) == [] {
        NilRight(so);
      } else {
        ReplaySnoc(so, Cleared(last), id);
      }
    }
  }

  /** So the second half of a pass draws what the entries showed before it. */
  lemma {:induction false} RunningAfterClears(events: seq<LogEvent>, cleared: seq<string>, order: seq<string>)
    ensures RunningLines(events + ClearEvents(events, cleared), order) == RunningLines(events, order)
  {
    if order != [] {
      RunningAfterClears(events, cleared, order[..|order| - 1]);
      ClearsOnlyDone(events, cleared, order[|order| - 1]);
    }
  }

  /** The routines named by the header lines, in screen order. */
  function Headers(lines: seq<Line>): seq<string> {
    if lines == [] then [] else
      Headers(lines[..|lines| - 1]) +
      (match lines[|lines| - 1]
       case Completed(id) => [id]
       case Failed(id) => [id]
       case Running(id) => [id]
       case _ => [])
  }

  lemma {:induction false} HeadersConcat(a: seq<Line>, b: seq<Line>)
    ensures Headers(a + b) == Headers(a) + Headers(b)
  {
    if b == [] {
      NilRight(a);
      NilRight(Headers(a));
    } else {
      assert (a + b)[..|a + b| - 1] == a + b[..|b| - 1];
      HeadersConcat(a, b[..|b| - 1]);
    }
  }

  lemma {:induction false} TextsHaveNoHeaders(messages: seq<string>)
    ensures Headers(Texts(messages)) == []
  {
    if messages != [] {
      assert Texts(messages)[..|messages| - 1] == Texts(messages[..|messages| - 1]);
      TextsHaveNoHeaders(messages[..|messages| - 1]);
    }
  }

  lemma BlockHeader(head: Line, id: string, messages: seq<string>)
    requires head == Completed(id) || head == Failed(id) || head == Running(id)
    ensures Headers([head] + Texts(messages)) == [id]
  {
    HeadersConcat([head], Texts(messages));
    TextsHaveNoHeaders(messages);
    assert [head][..0] == [];
    NilRight([id]);
  }

  /** The finished and the unfinished routines of an order. */
  function Select(events: seq<LogEvent>, order: seq<string>, done: bool): seq<string> {
    if order == [] then [] else
      Select(events, order[..|order| - 1], done) +
      if Replay(events, order[|order| - 1]).isDone == done then [order[|order| - 1]] else []
  }

  lemma {:induction false} DoneHeaders(events: seq<LogEvent>, order: seq<string>)
    ensures Headers(DoneLines(events, order)) == Select(events, order, true)
  {
    if order != [] {
      var init, id := order[..|order| - 1], order[|order| - 1];
      DoneHeaders(events, init);
      var e := Replay(events, id);
      HeadersConcat(DoneLines(events, init), DoneBlock(e, id));
      if e.isDone {
        if e.isFailed {
          BlockHeader(Failed(id), id, LastK(5, e.messages));
        } else {
          BlockHeader(Completed(id), id, []);
          NilRight([Completed(id)]);
        }
      }
    }
  }

  lemma {:induction false} RunningHeaders(events: seq<LogEvent>, order: seq<string>)
    ensures Headers(RunningLines(events, order)) == Select(events, order, false)
  {
    if order != [] {
      var init, id := order[..|order| - 1], order[|order| - 1];
      RunningHeaders(events, init);
      var e := Replay(events, id);
      if !e.isDone {
        HeadersConcat(RunningLines(events, init), [Running(id)] + Texts(e.messages));
        BlockHeader(Running(id), id, e.messages);
      } else {
        NilRight(RunningLines(events, init));
      }
    }
  }

  lemma {:induction false} SelectSplits(events: seq<LogEvent>, order: seq<string>)
    ensures multiset(Select(events, order, true)) + multiset(Select(events, order, false)) == multiset(order)
  {
    if order != [] {
      var init, id := order[..|order| - 1], order[|order| - 1];
      SelectSplits(events, init);
      assert order == init + [id];
      MultisetSnoc(init, id);
      var isDone := Replay(events, id).isDone;
      MultisetSnoc(Select(events, init, isDone), id);
      NilRight(Select(events, init, !isDone));
    }
  }

  /** Every screen names each routine of the order exactly once: the finished ones first, in order,
      then the ones still running, in order. */
  lemma EachRoutineOnce(events: seq<LogEvent>, order: seq<string>)
    ensures var shown := Headers([Title] + DoneLines(events, order) + RunningLines(events, order));
            && shown == Select(events, order, true) + Select(events, order, false)
            && multiset(shown) == multiset(order)
  {
    var done, running := DoneLines(events, order), RunningLines(events, order);
    HeadersConcat([Title] + done, running);
    HeadersConcat([Title], done);
    TitleIsNoHeader(Headers(done));
    DoneHeaders(events, order);
    RunningHeaders(events, order);
    SelectSplits(events, order);
    MultisetConcat(Select(events, order, true), Select(events, order, false));
  }

  lemma TitleIsNoHeader(rest: seq<string>)
    ensures Headers([Title]) + rest == rest
  {
    assert Headers([Title][..0]) == [];
  }

  // ---------- one routine on the screen ----------

  lemma TextsAreTexts(messages: seq<string>, line: Line)
    requires line in Texts(messages)
    ensures line.Text?
  {
  }

  lemma BlockShows(e: Entry, id: string, other: string)
    ensures Completed(other) in DoneBlock(e, id) <==> other == id && e.isDone && !e.isFailed
    ensures Failed(other) in DoneBlock(e, id) <==> other == id && e.isDone && e.isFailed
    ensures Running(other) !in DoneBlock(e, id)
  {
  }

  lemma RunningShows(e: Entry, id: string, other: string)
    ensures Running(other) in [Running(id)] + Texts(e.messages) <==> other == id
    ensures Completed(other) !in [Running(id)] + Texts(e.messages)
    ensures Failed(other) !in [Running(id)] + Texts(e.messages)
  {
  }

  lemma InSnoc(order: seq<string>, id: string)
    requires order != []
    ensures id in order <==> id in order[..|order| - 1] || id == order[|order| - 1]
  {
    assert order == order[..|order| - 1] + [order[|order| - 1]];
  }

  lemma {:induction false} DoneHeader(events: seq<LogEvent>, order: seq<string>, id: string)
    ensures Completed(id) in DoneLines(events, order) <==>
            id in order && Replay(events, id).isDone && !Replay(events, id).isFailed
    ensures Failed(id) in DoneLines(events, order) <==>
            id in order && Replay(events, id).isDone && Replay(events, id).isFailed
    ensures Running(id) !in DoneLines(events, order)
  {
    if order != [] {
      var last := order[|order| - 1];
      DoneHeader(events, order[..|order| - 1], id);
      BlockShows(Replay(events, last), last, id);
      InSnoc(order, id);
    }
  }

  lemma {:induction false} RunningHeader(events: seq<LogEvent>, order: seq<string>, id: string)
    ensures Running(id) in RunningLines(events, order) <==> id in order && !Replay(events, id).isDone
    ensures Completed(id) !in RunningLines(events, order) && Failed(id) !in RunningLines(events, order)
  {
    if order != [] {
      var last := order[|order| - 1];
      RunningHeader(events, order[..|order| - 1], id);
      RunningShows(Replay(events, last), last, id);
      InSnoc(order, id);
    }
  }

  /** A screen shows a listed routine as completed, failed or running by its outcome. */
  lemma ScreenHeader(events: seq<LogEvent>, order: seq<string>, id: string)
    ensures var screen, e := [Title] + DoneLines(events, order) + RunningLines(events, order), Replay(events, id);
            && (Completed(id) in screen <==> id in order && e.isDone && !e.isFailed)
            && (Failed(id) in screen <==> id in order && e.isDone && e.isFailed)
            && (Running(id) in screen <==> id in order && !e.isDone)
  {
    DoneHeader(events, order, id);
    RunningHeader(events, order, id);
  }

  /** At `at` stands `head` with exactly `messages` below it. */
  ghost predicate BlockAt(lines: seq<Line>, at: nat, head: Line, messages: seq<string>) {
    && at + |messages| < |lines| && lines[at] == head
    && (forall k :: 0 <= k < |messages| ==> lines[at + 1 + k] == Text(messages[k]))
    && (at + 1 + |messages| < |lines| ==> !lines[at + 1 + |messages|].Text?)
  }

  lemma BlockStays(a: seq<Line>, b: seq<Line>, at: nat, head: Line, messages: seq<string>)
    requires BlockAt(a, at, head, messages) && (b == [] || !b[0].Text?)
    ensures BlockAt(a + b, at, head, messages)
  {
  }

  lemma BlockShifts(a: seq<Line>, b: seq<Line>, at: nat, head: Line, messages: seq<string>)
    requires BlockAt(b, at, head, messages)
    ensures BlockAt(a + b, |a| + at, head, messages)
  {
    assert forall k :: 0 <= k < |b| ==> (a + b)[|a| + k] == b[k];
  }

  lemma BlockItself(head: Line, messages: seq<string>)
    ensures BlockAt([head] + Texts(messages), 0, head, messages)
  {
  }

  /** The lines of a failed routine. */
  lemma {:induction false} FailedBlock(events: seq<LogEvent>, order: seq<string>, id: string) returns (at: nat)
    requires id in order && Replay(events, id).isDone && Replay(events, id).isFailed
    ensures BlockAt(DoneLines(events, order), at, Failed(id), Replay(events, id).messages)
  {
    var init, last := order[..|order| - 1], order[|order| - 1];
    InSnoc(order, id);
    if last == id {
      ReplayIsAWindow(events, id);
      BlockItself(Failed(id), Replay(events, id).messages);
      BlockShifts(DoneLines(events, init), DoneBlock(Replay(events, id), id), 0, Failed(id),
                  Replay(events, id).messages);
      at := |DoneLines(events, init)|;
    } else {
      at := FailedBlock(events, init, id);
      BlockStays(DoneLines(events, init), DoneBlock(Replay(events, last), last), at, Failed(id),
                 Replay(events, id).messages);
    }
  }

  lemma {:induction false} RunningBlock(events: seq<LogEvent>, order: seq<string>, id: string) returns (at: nat)
    requires id in order && !Replay(events, id).isDone
    ensures BlockAt(RunningLines(events, order), at, Running(id), Replay(events, id).messages)
  {
    var init, last := order[..|order| - 1], order[|order| - 1];
    var e := Replay(events, last);
    InSnoc(order, id);
    if last == id {
      BlockItself(Running(id), e.messages);
      BlockShifts(RunningLines(events, init), [Running(id)] + Texts(e.messages), 0, Running(id), e.messages);
      at := |RunningLines(events, init)|;
    } else {
      at := RunningBlock(events, init, id);
      BlockStays(RunningLines(events, init), if e.isDone then [] else [Running(last)] + Texts(e.messages), at,
                 Running(id), Replay(events, id).messages);
    }
  }

  lemma {:induction false} RunningStarts(events: seq<LogEvent>, order: seq<string>)
    ensures RunningLines(events, order) == [] || !RunningLines(events, order)[0].Text?
  {
    if order != [] {
      RunningStarts(events, order[..|order| - 1]);
    }
  }

  lemma FailedOnScreen(events: seq<LogEvent>, order: seq<string>, id: string) returns (at: nat)
    requires id in order && Replay(events, id).isDone && Replay(events, id).isFailed
    ensures BlockAt([Title] + DoneLines(events, order) + RunningLines(events, order), at, Failed(id),
                    Replay(events, id).messages)
  {
    var done, messages := DoneLines(events, order), Replay(events, id).messages;
    at := FailedBlock(events, order, id);
    RunningStarts(events, order);
    BlockShifts([Title], done, at, Failed(id), messages);
    BlockStays([Title] + done, RunningLines(events, order), at + 1, Failed(id), messages);
    at := at + 1;
  }

  lemma RunningOnScreen(events: seq<LogEvent>, order: seq<string>, id: string) returns (at: nat)
    requires id in order && !Replay(events, id).isDone
    ensures BlockAt([Title] + DoneLines(events, order) + RunningLines(events, order), at, Running(id),
                    Replay(events, id).messages)
  {
    var done := DoneLines(events, order);
    at := RunningBlock(events, order, id);
    BlockShifts([Title] + done, RunningLines(events, order), at, Running(id), Replay(events, id).messages);
    at := at + 1 + |done|;
  }

  lemma BlockMeans(lines: seq<Line>, at: nat, head: Line, messages: seq<string>)
    requires BlockAt(lines, at, head, messages)
    ensures at + |messages| < |lines| && lines[at] == head
    ensures forall k :: 0 <= k < |messages| ==> lines[at + 1 + k] == Text(messages[k])
    ensures at + 1 + |messages| < |lines| ==> !lines[at + 1 + |messages|].Text?
  {
  }

  /** Below the header of a failed routine stand exactly the lines of its window, in order: the last five
      added since it was cleared. */
  lemma FailedText(events: seq<LogEvent>, order: seq<string>, id: string, messages: seq<string>, screen: seq<Line>)
    returns (at: nat)
    requires screen == [Title] + DoneLines(events, order) + RunningLines(events, order)
    requires id in order && Replay(events, id).isDone && Replay(events, id).isFailed
    requires messages == Replay(events, id).messages
    ensures at + |messages| < |screen| && screen[at] == Failed(id)
    ensures forall k :: 0 <= k < |messages| ==> screen[at + 1 + k] == Text(messages[k])
    ensures at + 1 + |messages| < |screen| ==> !screen[at + 1 + |messages|].Text?
  {
    at := FailedOnScreen(events, order, id);
    BlockMeans(screen, at, Failed(id), messages);
  }

  /** Likewise below the header of a running one. */
  lemma RunningText(events: seq<LogEvent>, order: seq<string>, id: string, messages: seq<string>, screen: seq<Line>)
    returns (at: nat)
    requires screen == [Title] + DoneLines(events, order) + RunningLines(events, order)
    requires id in order && !Replay(events, id).isDone && messages == Replay(events, id).messages
    ensures at + |messages| < |screen| && screen[at] == Running(id)
    ensures forall k :: 0 <= k < |messages| ==> screen[at + 1 + k] == Text(messages[k])
    ensures at + 1 + |messages| < |screen| ==> !screen[at + 1 + |messages|].Text?
  {
    at := RunningOnScreen(events, order, id);
    BlockMeans(screen, at, Running(id), messages);
  }

  // ---------- what a batch records ----------

  /** After a batch a routine is done when it was or when a message of the batch says so, and its outcome
      is that of the last such message; its window has gained the batch's lines. */
  lemma {:induction false} BatchOutcome(was: seq<LogEvent>, batch: seq<Msg>, id: string)
    ensures var before, after := Replay(was, id), Replay(was + BatchEvents(batch), id);
            && (after.isDone <==> before.isDone || exists i :: 0 <= i < |batch| && batch[i].id == id && batch[i].isDone)
            && ((forall i :: 0 <= i < |batch| && batch[i].id == id ==> !batch[i].isDone) ==>
                  after.isFailed == before.isFailed)
            && forall i :: 0 <= i < |batch| && batch[i].id == id && batch[i].isDone &&
                           (forall j :: i < j < |batch| && batch[j].id == id ==> !batch[j].isDone) ==>
                           after.isFailed == batch[i].isFailed
  {
    if batch == [] {
      NilRight(was);
    } else {
      var n := |batch| - 1;
      BatchOutcome(was, batch[..n], id);
      MessageOutcome(was + BatchEvents(batch[..n]), batch[n], id);
      assert batch[..n + 1] == batch;
      BatchSnoc(was, batch, n);
      assert forall i :: 0 <= i < n ==> batch[..n][i] == batch[i];
    }
  }

  lemma MessageOutcome(was: seq<LogEvent>, m: Msg, id: string)
    ensures var before, after := Replay(was, id), Replay(was + MessageEvents(m), id);
            && after.messages == (if m.id == id then Push(before.messages, m.text) else before.messages)
            && after.isDone == (before.isDone || (m.id == id && m.isDone))
            && after.isFailed == (if m.id == id && m.isDone then m.isFailed else before.isFailed)
  {
    ReplaySnoc(was, Added(0, m), id);
    if m.isDone {
      Assoc(was, [Added(0, m)], [Marked(0, m)]);
      ReplaySnoc(was + [Added(0, m)], Marked(0, m), id);
    } else {
      NilRight([Added(0, m)]);
    }
  }
}
