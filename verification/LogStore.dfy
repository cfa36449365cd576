/** The state the log workers share: the map from routine to log entry, the pool of spare entries
    and the entries themselves, together with the workers that race on them.

    An entry is a five-line window. Every worker step below is one atomic action of the code:
    a map load, a pool get, a load-or-store, a pool put, a locked append, a locked flag update. */
module LogStore {
  import opened Seqs
  import opened LogBatcher

  const MAX_LOG_LINES: nat := 5

  /** The identity of an entry: its position in the heap of entries. */
  type Ref = nat

  datatype Entry = Entry(messages: seq<string>, isDone: bool, isFailed: bool)

  const BLANK := Entry([], false, false)

  /** The window after one more line: a full window loses its oldest line first. */
  function Push(messages: seq<string>, text: string): seq<string> {
    (if |messages| >= MAX_LOG_LINES then messages[1..MAX_LOG_LINES] else messages) + [text]
  }

  /** The pool is a multiset: nothing in a pool itself prevents putting the same entry twice. */
  datatype Store = Store(logMap: map<string, Ref>, pool: multiset<Ref>, entries: seq<Entry>)

  /** A worker's program counter, with its locals: the unprocessed tail of its batch, a private
      entry it got from the pool, and the entry it is going to write to. */
  datatype Worker =
    | Idle
    | Loading(todo: seq<Msg>)
    | Getting(todo: seq<Msg>)
    | Storing(todo: seq<Msg>, mine: Ref)
    | Returning(todo: seq<Msg>, mine: Ref, entry: Ref)
    | Adding(todo: seq<Msg>, entry: Ref)
    | Marking(todo: seq<Msg>, entry: Ref)
    | Finished

  /** What has happened to entries, in the order in which it happened. */
  datatype LogEvent =
    | Added(worker: nat, msg: Msg)
    | Marked(worker: nat, msg: Msg)
    | Cleared(id: string)

  datatype Config = Config(store: Store, workers: seq<Worker>, events: seq<LogEvent>)

  function Begin(batch: seq<Msg>): Worker {
    if batch == [] then Idle else Loading(batch)
  }

  /** The messages a worker has taken but not yet added to an entry. */
  function Unprocessed(w: Worker): seq<Msg> {
    match w
    case Idle => []
    case Finished => []
    case Marking(todo, _) => if todo == [] then [] else todo[1..]
    case _ => w.todo
  }

  /** The entry only this worker knows of. */
  function Private(w: Worker): Option<Ref> {
    match w
    case Storing(_, mine) => Some(mine)
    case Returning(_, mine, _) => Some(mine)
    case _ => None
  }

  // ---------- the workers' atomic actions ----------

  /** The pool hands out `choice`, or a fresh entry; either way the worker resets it. */
  function GetEntry(st: Store, todo: seq<Msg>, choice: Option<Ref>): Option<(Store, Worker)> {
    match choice
    case None => Some((st.(entries := st.entries + [BLANK]), Storing(todo, |st.entries|)))
    case Some(r) =>
      if r in st.pool && r < |st.entries|
      then Some((st.(pool := st.pool - multiset{r}, entries := st.entries[r := BLANK]), Storing(todo, r)))
      else None
  }

  /** The step worker `w` takes next. `choice` is only looked at by a pool get. */
  function WorkerStep(st: Store, w: Worker, who: nat, choice: Option<Ref>): Option<(Store, Worker, seq<LogEvent>)> {
    match w
    case Idle => None
    case Finished => None
    case Loading(todo) =>
      if todo == [] then None
      else if todo[0].id in st.logMap then Some((st, Adding(todo, st.logMap[todo[0].id]), []))
      else Some((st, Getting(todo), []))
    case Getting(todo) =>
      (match GetEntry(st, todo, choice)
       case None => None
       case Some((st', w')) => Some((st', w', [])))
    case Storing(todo, mine) =>
      if todo == [] then None
      else if todo[0].id in st.logMap then Some((st, Returning(todo, mine, st.logMap[todo[0].id]), []))
      else Some((st.(logMap := st.logMap[todo[0].id := mine]), Adding(todo, mine), []))
    case Returning(todo, mine, entry) =>
      Some((st.(pool := st.pool + multiset{mine}), Adding(todo, entry), []))
    case Adding(todo, entry) =>
      if todo == [] || entry >= |st.entries| then None
      else
        var e := st.entries[entry];
        Some((st.(entries := st.entries[entry := e.(messages := Push(e.messages, todo[0].text))]),
              Marking(todo, entry), [Added(who, todo[0])]))
    case Marking(todo, entry) =>
      if todo == [] || entry >= |st.entries| then None
      else if todo[0].isDone then
        var e := st.entries[entry];
        Some((st.(entries := st.entries[entry := e.(isDone := true, isFailed := todo[0].isFailed)]),
              Begin(todo[1..]), [Marked(who, todo[0])]))
      else Some((st, Begin(todo[1..]), []))
  }

  function Work(c: Config, who: nat, choice: Option<Ref>): Option<Config> {
    if who >= |c.workers| then None else
      match WorkerStep(c.store, c.workers[who], who, choice)
      case None => None
      case Some((st, w, es)) => Some(Config(st, c.workers[who := w], c.events + es))
  }

  /** The runtime may drop a pooled entry at any time. */
  function Drop(c: Config, r: Ref): Option<Config> {
    if r in c.store.pool then Some(c.(store := c.store.(pool := c.store.pool - multiset{r}))) else None
  }

  /** A display pass empties the window of a routine that completed without failing. */
  function ClearDone(c: Config, id: string): Option<Config> {
    if id !in c.store.logMap || c.store.logMap[id] >= |c.store.entries| then None else
      var r := c.store.logMap[id];
      var e := c.store.entries[r];
      if e.isDone && !e.isFailed
      then Some(c.(store := c.store.(entries := c.store.entries[r := e.(messages := [])]),
                   events := c.events + [Cleared(id)]))
      else None
  }

  // ---------- the sequential meaning of an event log ----------

  /** What one event does to the entry of routine `id`. */
  function Apply(e: Entry, event: LogEvent, id: string): Entry {
    match event
    case Added(_, m) => if m.id == id then e.(messages := Push(e.messages, m.text)) else e
    case Marked(_, m) => if m.id == id then e.(isDone := true, isFailed := m.isFailed) else e
    case Cleared(i) => if i == id then e.(messages := []) else e
  }

  /** The entry of routine `id` when the events are carried out one at a time, by nobody in particular. */
  function Replay(events: seq<LogEvent>, id: string): Entry {
    if events == [] then BLANK else Apply(Replay(events[..|events| - 1], id), events[|events| - 1], id)
  }

  lemma ReplaySnoc(events: seq<LogEvent>, event: LogEvent, id: string)
    ensures Replay(events + [event], id) == Apply(Replay(events, id), event, id)
  {
    assert (events + [event])[..|events|] == events;
  }

  /** The lines added for routine `id` since its window was last cleared. */
  function Since(events: seq<LogEvent>, id: string): seq<string> {
    if events == [] then [] else
      var lines := Since(events[..|events| - 1], id);
      match events[|events| - 1]
      case Added(_, m) => if m.id == id then lines + [m.text] else lines
      case Marked(_, _) => lines
      case Cleared(i) => if i == id then [] else lines
  }

  /** A window is the last five lines added since the last clear. */
  lemma {:induction false} ReplayIsAWindow(events: seq<LogEvent>, id: string)
    ensures Replay(events, id).messages == LastK(5, Since(events, id))
  {
    if events != [] {
      ReplayIsAWindow(events[..|events| - 1], id);
    }
  }

  /** The outcome of a routine: it is done once some done message of its was marked, and failed exactly
      when the last such message says so. */
  lemma {:induction false} ReplayOutcome(events: seq<LogEvent>, id: string)
    ensures Replay(events, id).isDone <==>
            exists i :: 0 <= i < |events| && events[i].Marked? && events[i].msg.id == id
    ensures forall i :: 0 <= i < |events| && events[i].Marked? && events[i].msg.id == id &&
                        (forall j :: i < j < |events| && events[j].Marked? ==> events[j].msg.id != id) ==>
                        Replay(events, id).isFailed == events[i].msg.isFailed
    ensures !Replay(events, id).isDone ==> !Replay(events, id).isFailed
  {
    if events != [] {
      var n := |events| - 1;
      ReplayOutcome(events[..n], id);
      assert forall i :: 0 <= i < n ==> events[..n][i] == events[i];
    }
  }

  /** The window of a routine, by the positions of its lines: those added for it with no clearing of it
      after them, in order, up to the last five. */
  lemma LinesSinceCleared(events: seq<LogEvent>, id: string) returns (at: seq<nat>)
    ensures |at| == |Since(events, id)|
    ensures forall k :: 0 <= k < |at| ==> at[k] < |events| && events[at[k]].Added? &&
                                          Since(events, id)[k] == events[at[k]].msg.text
    ensures forall k, l :: 0 <= k < l < |at| ==> at[k] < at[l]
    ensures forall i: nat :: i in at <==>
              i < |events| && events[i].Added? && events[i].msg.id == id &&
              forall j :: i < j < |events| && events[j].Cleared? ==> events[j].id != id
  {
    at := LastingAt(events, id);
    assert forall i: nat :: i in at <==> Lasting(events, id, i);
  }

  /** The lines of the window are those at `at`, which are the positions of the lines that last. */
  ghost predicate PlacedAt(events: seq<LogEvent>, id: string, lines: seq<string>, at: seq<nat>) {
    && |at| == |lines|
    && (forall k :: 0 <= k < |at| ==> at[k] < |events| && events[at[k]].Added? && lines[k] == events[at[k]].msg.text)
    && (forall k, l :: 0 <= k < l < |at| ==> at[k] < at[l])
    && forall i: nat :: i in at <==> Lasting(events, id, i)
  }

  lemma {:induction false} LastingAt(events: seq<LogEvent>, id: string) returns (at: seq<nat>)
    ensures PlacedAt(events, id, Since(events, id), at)
  {
    if events == [] {
      return [];
    }
    var n := |events| - 1;
    at := LastingAt(events[..n], id);
    if events[n] == Cleared(id) {
      at := [];
      NothingLasts(events, id);
    } else if events[n].Added? && events[n].msg.id == id {
      OneMoreLasts(events, id, Since(events[..n], id), at);
      at := at + [n];
    } else {
      SameLast(events, id, Since(events[..n], id), at);
    }
  }

  lemma NothingLasts(events: seq<LogEvent>, id: string)
    requires events != [] && events[|events| - 1] == Cleared(id)
    ensures PlacedAt(events, id, [], [])
  {
    forall i: nat
      ensures !Lasting(events, id, i)
    {
      LastingSnoc(events, id, i);
    }
  }

  lemma SameLast(events: seq<LogEvent>, id: string, lines: seq<string>, at: seq<nat>)
    requires events != [] && PlacedAt(events[..|events| - 1], id, lines, at)
    requires var last := events[|events| - 1]; last != Cleared(id) && !(last.Added? && last.msg.id == id)
    ensures PlacedAt(events, id, lines, at)
  {
    var n := |events| - 1;
    assert forall k :: 0 <= k < |at| ==> events[..n][at[k]] == events[at[k]];
    forall i: nat
      ensures i in at <==> Lasting(events, id, i)
    {
      LastingSnoc(events, id, i);
      assert i in at <==> Lasting(events[..n], id, i);
    }
  }

  lemma OneMoreLasts(events: seq<LogEvent>, id: string, lines: seq<string>, at: seq<nat>)
    requires events != [] && PlacedAt(events[..|events| - 1], id, lines, at)
    requires var last := events[|events| - 1]; last.Added? && last.msg.id == id
    ensures PlacedAt(events, id, lines + [events[|events| - 1].msg.text], at + [|events| - 1])
  {
    var n := |events| - 1;
    assert forall k :: 0 <= k < |at| ==> events[..n][at[k]] == events[at[k]];
    forall i: nat
      ensures i in at + [n] <==> Lasting(events, id, i)
    {
      LastingSnoc(events, id, i);
      assert i in at <==> Lasting(events[..n], id, i);
      assert i in at + [n] <==> i in at || i == n;
    }
  }

  ghost predicate Lasting(events: seq<LogEvent>, id: string, i: nat) {
    && i < |events| && events[i].Added? && events[i].msg.id == id
    && forall j :: i < j < |events| && events[j].Cleared? ==> events[j].id != id
  }

  lemma LastingSnoc(events: seq<LogEvent>, id: string, i: nat)
    requires events != []
    ensures var n := |events| - 1;
            Lasting(events, id, i) <==>
            if i < n then Lasting(events[..n], id, i) && events[n] != Cleared(id)
            else i == n && events[n].Added? && events[n].msg.id == id
  {
    var n := |events| - 1;
    assert forall j :: 0 <= j < n ==> events[..n][j] == events[j];
  }

  // ---------- the ownership invariant ----------

  /** Entry `r` is the one the map holds for `id`. */
  predicate Published(st: Store, id: string, r: Ref) {
    id in st.logMap && st.logMap[id] == r
  }

  predicate Owned(st: Store, r: Ref) {
    && r < |st.entries|
    && st.pool[r] == 0
    && forall id :: id in st.logMap ==> st.logMap[id] != r
  }

  predicate WorkerOk(st: Store, w: Worker) {
    match w
    case Idle => true
    case Finished => true
    case Loading(todo) => todo != []
    case Getting(todo) => todo != []
    case Storing(todo, mine) => todo != [] && Owned(st, mine) && st.entries[mine] == BLANK
    case Returning(todo, mine, entry) => todo != [] && Owned(st, mine) && Published(st, todo[0].id, entry)
    case Adding(todo, entry) => todo != [] && Published(st, todo[0].id, entry)
    case Marking(todo, entry) => todo != [] && Published(st, todo[0].id, entry)
  }

  predicate StoreOk(st: Store) {
    && (forall id :: id in st.logMap ==> st.logMap[id] < |st.entries| && st.pool[st.logMap[id]] == 0)
    && (forall i, j :: i in st.logMap && j in st.logMap && i != j ==> st.logMap[i] != st.logMap[j])
    && (forall r :: r in st.pool ==> r < |st.entries| && st.pool[r] == 1)
  }

  predicate PrivateDistinct(ws: seq<Worker>) {
    forall i, j :: 0 <= i < j < |ws| && Private(ws[i]).Some? && Private(ws[j]).Some? ==>
      Private(ws[i]) != Private(ws[j])
  }

  /** Pooled, worker-private and published entries are disjoint, no entry is pooled twice or
      published for two routines, and workers only write to the published entry of their message. */
  predicate Ownership(c: Config) {
    && StoreOk(c.store)
    && (forall i :: 0 <= i < |c.workers| ==> WorkerOk(c.store, c.workers[i]))
    && PrivateDistinct(c.workers)
  }

  /** Each published entry is what replaying the events one at a time gives; nothing has happened
      to a routine without one. */
  ghost predicate Linear(c: Config)
    requires StoreOk(c.store)
  {
    && (forall id :: id in c.store.logMap ==> c.store.entries[c.store.logMap[id]] == Replay(c.events, id))
    && (forall id :: id !in c.store.logMap ==> Replay(c.events, id) == BLANK)
  }

  ghost predicate Inv(c: Config) {
    && Ownership(c)
    && Linear(c)
  }

  // ---------- every action keeps it ----------

  /** The actions of other workers never take away what a worker relies on. */
  lemma WorkerUndisturbed(st: Store, st': Store, w: Worker)
    requires WorkerOk(st, w)
    requires forall id :: id in st.logMap ==> id in st'.logMap && st'.logMap[id] == st.logMap[id]
    requires Private(w).Some? ==> Owned(st', Private(w).value)
    requires w.Storing? ==> st'.entries[w.mine] == BLANK
    ensures WorkerOk(st', w)
  {
  }

  lemma GetKeeps(c: Config, who: nat, choice: Option<Ref>, c': Config)
    requires Inv(c) && who < |c.workers| && c.workers[who].Getting?
    requires Work(c, who, choice) == Some(c')
    ensures Inv(c')
    ensures c'.workers[who].Storing? && c'.events == c.events && c'.store.logMap == c.store.logMap
    ensures c'.workers[who].mine == if choice.Some? then choice.value else |c.store.entries|
    ensures c'.store.entries[c'.workers[who].mine] == Entry([], false, false)
  {
    var st, st' := c.store, c'.store;
    assert WorkerOk(st, c.workers[who]);
    var mine := c'.workers[who].mine;
    GetIsPrivate(st, c.workers[who].todo, choice, st', mine);
    forall i | 0 <= i < |c.workers| && i != who
      ensures WorkerOk(st', c'.workers[i])
      ensures Private(c'.workers[i]).Some? ==> Private(c'.workers[i]).value != mine
    {
      assert WorkerOk(st, c.workers[i]);
      WorkerUndisturbed(st, st', c.workers[i]);
    }
    NilRight(c.events);
  }

  lemma GetIsPrivate(st: Store, todo: seq<Msg>, choice: Option<Ref>, st': Store, mine: Ref)
    requires StoreOk(st) && GetEntry(st, todo, choice) == Some((st', Storing(todo, mine)))
    ensures StoreOk(st') && Owned(st', mine) && st'.entries[mine] == BLANK
    ensures forall r: nat :: Owned(st, r) ==> Owned(st', r) && r != mine && st'.entries[r] == st.entries[r]
    ensures st'.logMap == st.logMap
    ensures forall id :: id in st.logMap ==> st'.entries[st.logMap[id]] == st.entries[st.logMap[id]]
  {
    if choice == None {
      assert |st.entries| !in st.pool;
    } else {
      assert st.pool[mine] == 1;
    }
  }

  lemma StoreKeeps(c: Config, who: nat, choice: Option<Ref>, c': Config)
    requires Inv(c) && who < |c.workers| && c.workers[who].Storing?
    requires Work(c, who, choice) == Some(c')
    ensures Inv(c')
    ensures var todo, mine := c.workers[who].todo, c.workers[who].mine;
            && todo != [] && c'.events == c.events && c'.store.entries == c.store.entries
            && c'.store.pool == c.store.pool
            && if todo[0].id in c.store.logMap
               then c'.store.logMap == c.store.logMap
                    && c'.workers[who] == Returning(todo, mine, c.store.logMap[todo[0].id])
               else c'.store.logMap == c.store.logMap[todo[0].id := mine] && c'.workers[who] == Adding(todo, mine)
  {
    NilRight(c.events);
    assert WorkerOk(c.store, c.workers[who]);
    var id := c.workers[who].todo[0].id;
    if id in c.store.logMap {
      forall i | 0 <= i < |c'.workers|
        ensures WorkerOk(c'.store, c'.workers[i])
      {
        assert WorkerOk(c.store, c.workers[i]);
      }
    } else {
      PublishKeeps(c, who, id, c');
    }
  }

  lemma PublishKeeps(c: Config, who: nat, id: string, c': Config)
    requires Inv(c) && who < |c.workers| && c.workers[who].Storing? && WorkerOk(c.store, c.workers[who])
    requires id == c.workers[who].todo[0].id && id !in c.store.logMap
    requires c' == Config(c.store.(logMap := c.store.logMap[id := c.workers[who].mine]),
                          c.workers[who := Adding(c.workers[who].todo, c.workers[who].mine)], c.events)
    ensures Inv(c')
  {
    var mine := c.workers[who].mine;
    forall i | 0 <= i < |c.workers| && i != who
      ensures WorkerOk(c'.store, c'.workers[i])
    {
      assert WorkerOk(c.store, c.workers[i]);
      assert Private(c.workers[i]).Some? ==> Private(c.workers[i]).value != mine;
      WorkerUndisturbed(c.store, c'.store, c.workers[i]);
    }
    PublishKeepsStoreOk(c.store, id, mine);
  }

  lemma PublishKeepsStoreOk(st: Store, id: string, mine: Ref)
    requires StoreOk(st) && Owned(st, mine) && id !in st.logMap
    ensures StoreOk(st.(logMap := st.logMap[id := mine]))
  {
  }

  lemma ReturnKeeps(c: Config, who: nat, choice: Option<Ref>, c': Config)
    requires Inv(c) && who < |c.workers| && c.workers[who].Returning?
    requires Work(c, who, choice) == Some(c')
    ensures Inv(c')
    ensures c'.events == c.events && c'.store.logMap == c.store.logMap && c'.store.entries == c.store.entries
    ensures c'.store.pool == c.store.pool + multiset{c.workers[who].mine}
    ensures c'.workers[who] == Adding(c.workers[who].todo, c.workers[who].entry)
  {
    var st, st' := c.store, c'.store;
    assert WorkerOk(st, c.workers[who]);
    forall i | 0 <= i < |c.workers| && i != who
      ensures WorkerOk(st', c'.workers[i])
    {
      assert WorkerOk(st, c.workers[i]);
      WorkerUndisturbed(st, st', c.workers[i]);
    }
    assert c'.events == c.events;
  }

  predicate About(event: LogEvent, id: string) {
    match event case Added(_, m) => m.id == id case Marked(_, m) => m.id == id case Cleared(i) => i == id
  }

  /** The published entry of `id` is written as `event` says, the event is recorded, and no other entry,
      no map entry and no pooled entry changes. */
  predicate WritesOnly(c: Config, c': Config, id: string, event: LogEvent) {
    && id in c.store.logMap && c.store.logMap[id] < |c.store.entries|
    && c'.events == c.events + [event]
    && var r := c.store.logMap[id];
    c'.store == c.store.(entries := c.store.entries[r := Apply(c.store.entries[r], event, id)])
  }

  /** Writing a published entry and recording the event keeps the log and the entries in step. */
  lemma PublishedWriteKeeps(c: Config, id: string, event: LogEvent, c': Config)
    requires Inv(c) && About(event, id) && WritesOnly(c, c', id, event)
    ensures StoreOk(c'.store) && Linear(c')
    ensures forall i :: 0 <= i < |c.workers| ==> WorkerOk(c'.store, c.workers[i])
  {
    forall other
      ensures Replay(c'.events, other) == Apply(Replay(c.events, other), event, other)
    {
      ReplaySnoc(c.events, event, other);
    }
    forall i | 0 <= i < |c.workers|
      ensures WorkerOk(c'.store, c.workers[i])
    {
      assert WorkerOk(c.store, c.workers[i]);
      WorkerUndisturbed(c.store, c'.store, c.workers[i]);
    }
  }

  lemma AddWrites(c: Config, who: nat, choice: Option<Ref>, c': Config)
    requires who < |c.workers| && c.workers[who].Adding? && WorkerOk(c.store, c.workers[who])
    requires Work(c, who, choice) == Some(c')
    ensures var todo, entry := c.workers[who].todo, c.workers[who].entry;
            && WritesOnly(c, c', todo[0].id, Added(who, todo[0]))
            && c'.workers == c.workers[who := Marking(todo, entry)]
  {
  }

  lemma AddKeeps(c: Config, who: nat, choice: Option<Ref>, c': Config)
    requires Inv(c) && who < |c.workers| && c.workers[who].Adding?
    requires Work(c, who, choice) == Some(c')
    ensures Inv(c')
    ensures var todo := c.workers[who].todo;
            todo != [] && WritesOnly(c, c', todo[0].id, Added(who, todo[0]))
  {
    var w := c.workers[who];
    assert WorkerOk(c.store, w);
    AddWrites(c, who, choice, c');
    PublishedWriteKeeps(c, w.todo[0].id, Added(who, w.todo[0]), c');
    assert WorkerOk(c'.store, Marking(w.todo, w.entry));
  }

  lemma MarkKeeps(c: Config, who: nat, choice: Option<Ref>, c': Config)
    requires Inv(c) && who < |c.workers| && c.workers[who].Marking?
    requires Work(c, who, choice) == Some(c')
    ensures Inv(c')
    ensures var todo := c.workers[who].todo;
            && todo != []
            && if todo[0].isDone then WritesOnly(c, c', todo[0].id, Marked(who, todo[0]))
               else c'.store == c.store && c'.events == c.events
  {
    var w := c.workers[who];
    assert WorkerOk(c.store, w);
    if w.todo[0].isDone {
      PublishedWriteKeeps(c, w.todo[0].id, Marked(who, w.todo[0]), c');
    } else {
      NilRight(c.events);
    }
  }

  lemma ClearKeeps(c: Config, id: string, c': Config)
    requires Inv(c)
    requires ClearDone(c, id) == Some(c')
    ensures Inv(c') && c'.workers == c.workers && WritesOnly(c, c', id, Cleared(id))
  {
    PublishedWriteKeeps(c, id, Cleared(id), c');
  }

  /** A worker first looks the routine up: it goes on with the published entry if there is one, and to the
      pool otherwise. The pool hands out any pooled entry, or a new one. */
  lemma LookUp(c: Config, who: nat, choice: Option<Ref>)
    requires Inv(c) && who < |c.workers|
    ensures c.workers[who].Loading? ==>
              var todo := c.workers[who].todo;
              && todo != []
              && Work(c, who, choice) ==
                 Some(c.(workers := c.workers[who := if todo[0].id in c.store.logMap
                                                     then Adding(todo, c.store.logMap[todo[0].id])
                                                     else Getting(todo)]))
    ensures c.workers[who].Getting? ==> (Work(c, who, choice).Some? <==> choice == None || choice.value in c.store.pool)
  {
    assert WorkerOk(c.store, c.workers[who]);
    NilRight(c.events);
  }

  /** The display clears a window exactly when its routine has an entry that is done and did not fail; an
      entry may leave the pool exactly when it is pooled. */
  lemma ClearsIffCompleted(c: Config, id: string, r: Ref)
    requires Inv(c)
    ensures ClearDone(c, id).Some? <==>
            id in c.store.logMap && c.store.entries[c.store.logMap[id]].isDone &&
            !c.store.entries[c.store.logMap[id]].isFailed
    ensures Drop(c, r).Some? <==> r in c.store.pool
  {
  }

  lemma DropKeeps(c: Config, r: Ref, c': Config)
    requires Inv(c)
    requires Drop(c, r) == Some(c')
    ensures Inv(c')
    ensures c'.workers == c.workers && c'.events == c.events
    ensures c'.store.entries == c.store.entries && c'.store.logMap == c.store.logMap
  {
    forall i | 0 <= i < |c.workers|
      ensures WorkerOk(c'.store, c.workers[i])
    {
      assert WorkerOk(c.store, c.workers[i]);
      WorkerUndisturbed(c.store, c'.store, c.workers[i]);
    }
  }

  /** Every worker action keeps ownership and keeps each entry equal to the replay of the events. */
  lemma WorkKeeps(c: Config, who: nat, choice: Option<Ref>, c': Config)
    requires Inv(c)
    requires Work(c, who, choice) == Some(c')
    ensures Inv(c')
  {
    match c.workers[who]
    case Getting(_) => GetKeeps(c, who, choice, c');
    case Storing(_, _) => StoreKeeps(c, who, choice, c');
    case Returning(_, _, _) => ReturnKeeps(c, who, choice, c');
    case Adding(_, _) => AddKeeps(c, who, choice, c');
    case Marking(_, _) => MarkKeeps(c, who, choice, c');
    case Loading(_) => assert c'.events == c.events;
  }

  /** Once published, an entry stays the one for its routine. */
  lemma WorkKeepsPublished(c: Config, who: nat, choice: Option<Ref>, c': Config)
    requires Work(c, who, choice) == Some(c')
    ensures forall id :: id in c.store.logMap ==> Published(c'.store, id, c.store.logMap[id])
  {
  }
}
