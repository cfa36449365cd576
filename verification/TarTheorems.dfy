/** What holds of the concurrent form over whole runs, and how it relates to the sequential form. */
module TarTheorems {
  import opened Seqs
  import opened Bytes
  import opened BufferPool
  import opened TarArchive
  import opened TarConcurrent
  import opened TarInvariant

  // ---------- safety ----------

  /** Whatever the interleaving, and whatever other users of the pool do, the outcome is the same. */
  lemma OutcomeIsDeterministic(job: Job, s: State)
    requires Reachable(job, s) && s.main.Returned?
    ensures s.main.archive == ConcurrentResult(job.files)
  {
    ReachableInv(job, s);
  }

  /** Semaphore tokens are exactly the workers holding one, never more than the slots, and none is
      left over when the workers are done. */
  lemma TokensAreHeld(job: Job, s: State)
    requires Reachable(job, s)
    ensures s.tokens == Count(s.workers, HasToken) <= job.slots
    ensures (forall i :: 0 <= i < |s.workers| ==> s.workers[i].Done?) ==> s.tokens == 0
  {
    ReachableInv(job, s);
    CountZero(s.workers, HasToken);
  }

  /** A worker takes a slot exactly when one is free, and goes on without one otherwise. */
  lemma EntersWithAFreeSlot(job: Job, s: State, i: nat)
    requires Reachable(job, s) && i < |s.workers| && s.workers[i].Entering?
    ensures Step(job, s, Enter(i)) ==
            Some(s.(workers := s.workers[i := Opening(s.tokens < job.slots)],
                    tokens := if s.tokens < job.slots then s.tokens + 1 else s.tokens))
  {
    ReachableInv(job, s);
  }

  /** The pool hands out any pooled buffer or a new zeroed one of 65536 bytes; a buffer that is returned is
      zeroed and pooled. */
  lemma TakesAndGives(m: Memory, r: Ref)
    requires MemoryOk(m)
    ensures TakeBuffer(m, Some(r)) == if r in m.pool then Some((m.(pool := m.pool - multiset{r}), r)) else None
    ensures TakeBuffer(m, None).Some? && var (m', taken) := TakeBuffer(m, None).value;
            && taken == |m.buffers| && m'.pool == m.pool && m'.foreign == m.foreign && |m'.buffers| == taken + 1
            && m'.buffers[..taken] == m.buffers && |m'.buffers[taken]| == 65536
            && forall k :: 0 <= k < 65536 ==> m'.buffers[taken][k] == 0
    ensures r < |m.buffers| ==> GiveBuffer(m, r).Some? && var m' := GiveBuffer(m, r).value;
            && m'.pool == m.pool + multiset{r} && m'.foreign == m.foreign
            && m'.buffers == m.buffers[r := m'.buffers[r]] && |m'.buffers[r]| == 65536
            && forall k :: 0 <= k < 65536 ==> m'.buffers[r][k] == 0
  {
  }

  /** Pooled buffers are all zero, no buffer is pooled twice or both pooled and in use, and no two
      workers ever hold the same one. */
  lemma BuffersAreDisciplined(job: Job, s: State)
    requires Reachable(job, s)
    ensures MemoryOk(s.memory) && LentOk(s.workers, s.memory)
  {
    ReachableInv(job, s);
  }

  function Indices(sent: seq<Processed>): seq<nat> {
    if sent == [] then [] else Indices(sent[..|sent| - 1]) + [sent[|sent| - 1].index]
  }

  lemma {:induction false} IndicesAt(sent: seq<Processed>)
    ensures |Indices(sent)| == |sent|
    ensures forall k :: 0 <= k < |sent| ==> Indices(sent)[k] == sent[k].index
  {
    if sent != [] {
      IndicesAt(sent[..|sent| - 1]);
    }
  }

  /** At most one result per file, so at least one place is left for every result not yet sent. */
  lemma SentFits(job: Job, s: State)
    requires |s.workers| == |job.files| && SentOk(job, s)
    ensures |s.sent| <= |job.files|
    ensures forall i :: 0 <= i < |s.workers| && !HasSent(s.workers[i]) ==> |s.sent| < |job.files|
  {
    IndicesAt(s.sent);
    Pigeonhole(Indices(s.sent), |job.files|);
    forall i | 0 <= i < |s.workers| && !HasSent(s.workers[i])
      ensures |s.sent| < |job.files|
    {
      var withI := Indices(s.sent) + [i];
      assert forall k :: 0 <= k < |s.sent| ==> HasSent(s.workers[s.sent[k].index]);
      Pigeonhole(withI, |job.files|);
    }
  }

  /** A worker with a result never blocks on the result channel, and never finds it closed. */
  lemma SendNeverBlocks(job: Job, s: State, i: nat)
    requires Reachable(job, s) && i < |s.workers| && s.workers[i].Sending?
    ensures !s.closed && |s.sent| - s.received < |job.files| && Step(job, s, Send(i)).Some?
  {
    ReachableInv(job, s);
    SenderCanStep(job, s, i);
  }

  /** Other users of the pool, at any time: they may get any pooled buffer or a new one, and the runtime may
      drop any pooled one. */
  lemma ForeignUsersGet(job: Job, s: State, r: Ref)
    requires MemoryOk(s.memory)
    ensures var m := s.memory;
            && Step(job, s, DropPooled(r)) ==
               (if r in m.pool then Some(s.(memory := m.(pool := m.pool - multiset{r}))) else None)
            && Step(job, s, ForeignGet(Some(r))) ==
               (if r in m.pool
                then Some(s.(memory := m.(pool := m.pool - multiset{r}, foreign := m.foreign + multiset{r})))
                else None)
    ensures Step(job, s, ForeignGet(None)).Some? &&
            Step(job, s, ForeignGet(None)).value.memory.foreign == s.memory.foreign + multiset{|s.memory.buffers|}
  {
  }

  /** They may write any bytes that fit into a buffer they hold. */
  lemma ForeignUsersWrite(job: Job, s: State, r: Ref, data: seq<byte>)
    requires MemoryOk(s.memory)
    ensures Step(job, s, ForeignWrite(r, data)).Some? <==> r in s.memory.foreign && |data| <= 65536
    ensures Step(job, s, ForeignWrite(r, data)).Some? ==>
              Step(job, s, ForeignWrite(r, data)).value ==
              s.(memory := s.memory.(buffers := s.memory.buffers[r := data + s.memory.buffers[r][|data|..]]))
  {
  }

  /** And they return it cleared. */
  lemma ForeignUsersPut(job: Job, s: State, r: Ref)
    requires MemoryOk(s.memory)
    ensures Step(job, s, ForeignPut(r)).Some? <==> r in s.memory.foreign
    ensures Step(job, s, ForeignPut(r)).Some? ==>
              var m := Step(job, s, ForeignPut(r)).value.memory;
              && m.pool == s.memory.pool + multiset{r} && m.foreign == s.memory.foreign - multiset{r}
              && r < |m.buffers| && forall k :: 0 <= k < |m.buffers[r]| ==> m.buffers[r][k] == 0
  {
  }

  lemma {:induction false} RunOn(job: Job, s: State, trace: seq<Action>, a: Action, t: State)
    requires Run(job, s, trace).Some? && Step(job, Run(job, s, trace).value, a) == Some(t)
    ensures Run(job, s, trace + [a]) == Some(t)
    decreases |trace|
  {
    if trace == [] {
      assert ([a] + [])[1..] == [];
      assert trace + [a] == [a];
    } else {
      assert (trace + [a])[1..] == trace[1..] + [a];
      RunOn(job, Step(job, s, trace[0]).value, trace[1..], a, t);
    }
  }

  /** The states the theorems speak of: the initial ones, whatever cleared buffers the pool holds, and those
      one more step leads to. */
  lemma InitIsReachable(job: Job, memory: Memory)
    requires MemoryOk(memory)
    ensures Reachable(job, Init(job, memory))
  {
    assert Run(job, Init(job, memory), []) == Some(Init(job, memory));
  }

  lemma ReachableByStep(job: Job, s: State, a: Action, t: State)
    requires Reachable(job, s) && Step(job, s, a) == Some(t)
    ensures Reachable(job, t)
  {
    var memory, trace :| MemoryOk(memory) && Run(job, Init(job, memory), trace) == Some(s);
    RunOn(job, Init(job, memory), trace, a, t);
  }

  // ---------- progress and termination ----------

  lemma {:induction false} CountPositive<T>(s: seq<T>, p: T -> bool, i: nat)
    requires i < |s| && p(s[i])
    ensures Count(s, p) > 0
  {
    CountZero(s, p);
  }

  ghost predicate CanStep(job: Job, s: State, a: Action) {
    Step(job, s, a).Some? && !IsForeign(a)
  }

  lemma ReaderCanStep(job: Job, s: State, i: nat) returns (a: Action)
    requires BuffersInv(job, s.workers, s.memory) && i < |s.workers| && s.workers[i].Reading?
    ensures CanStep(job, s, a)
  {
    var f, w := job.files[i], s.workers[i];
    assert WorkerOk(f, i, w, s.memory.buffers);
    assert HeldAlone(s.memory, Lent(w).value);
    assert |s.memory.buffers[w.buffer]| == TAR_BUFFER_SIZE;
    a := if !f.readable then Read(i, 0, Failed)
         else if w.pos == |f.content| then Read(i, 0, Eof)
         else Read(i, 1, More);
  }

  lemma BufferUserCanStep(job: Job, s: State, i: nat) returns (a: Action)
    requires BuffersInv(job, s.workers, s.memory) && i < |s.workers|
    requires s.workers[i].GettingBuffer? || s.workers[i].Appending? || s.workers[i].PuttingBuffer?
    ensures CanStep(job, s, a)
  {
    assert WorkerOk(job.files[i], i, s.workers[i], s.memory.buffers);
    assert Lent(s.workers[i]).Some? ==> HeldAlone(s.memory, Lent(s.workers[i]).value);
    a := if s.workers[i].GettingBuffer? then GetBuffer(i, None)
         else if s.workers[i].Appending? then Append(i)
         else PutBuffer(i);
  }

  lemma SenderCanStep(job: Job, s: State, i: nat)
    requires |s.workers| == |job.files| && SentOk(job, s) && MainOk(job, s)
    requires i < |s.workers| && s.workers[i].Sending?
    ensures !s.closed && CanStep(job, s, Send(i))
  {
    SentFits(job, s);
  }

  lemma LeaverCanStep(job: Job, s: State, i: nat) returns (a: Action)
    requires |s.workers| == |job.files| && Counters(job, s)
    requires i < |s.workers| && (s.workers[i].Releasing? || s.workers[i].Leaving?)
    ensures CanStep(job, s, a)
  {
    if s.workers[i].Leaving? {
      CountPositive(s.workers, Live, i);
      a := Leave(i);
    } else {
      if s.workers[i].token {
        CountPositive(s.workers, HasToken, i);
      }
      a := Release(i);
    }
  }

  lemma WorkerCanStep(job: Job, s: State, i: nat) returns (a: Action)
    requires Inv(job, s) && i < |s.workers| && !s.workers[i].NotSpawned? && !s.workers[i].Done?
    ensures CanStep(job, s, a)
  {
    match s.workers[i] {
      case Entering => a := Enter(i);
      case Opening(_) => a := Open(i);
      case Building(_, _) => a := Build(i);
      case Reading(_, _, _, _) => a := ReaderCanStep(job, s, i);
      case Sending(_, _) =>
        SenderCanStep(job, s, i);
        a := Send(i);
      case Releasing(_) => a := LeaverCanStep(job, s, i);
      case Leaving => a := LeaverCanStep(job, s, i);
      case _ => a := BufferUserCanStep(job, s, i);
    }
  }

  /** Until the main goroutine has returned and every worker is done, somebody can step. */
  lemma NeverDeadlocks(job: Job, s: State) returns (a: Action)
    requires Reachable(job, s)
    requires !(s.main.Returned? && forall i :: 0 <= i < |s.workers| ==> s.workers[i].Done?)
    ensures Step(job, s, a).Some?
    ensures !a.DropPooled? && !a.ForeignGet? && !a.ForeignWrite? && !a.ForeignPut?
  {
    ReachableInv(job, s);
    if s.main.Spawning? {
      a := if s.spawned < |s.workers| then Spawn else BeginCollecting;
    } else if i :| 0 <= i < |s.workers| && !s.workers[i].Done? {
      a := WorkerCanStep(job, s, i);
    } else {
      a := MainCanStep(job, s);
    }
  }

  lemma MainCanStep(job: Job, s: State) returns (a: Action)
    requires |s.workers| == |job.files| && Counters(job, s) && SentOk(job, s) && MainOk(job, s)
    requires s.main.Collecting? && forall i :: 0 <= i < |s.workers| ==> s.workers[i].Done?
    ensures CanStep(job, s, a)
  {
    if !s.closed {
      CountZero(s.workers, Live);
      a := CloseResults;
    } else if s.received < |s.sent| {
      a := Collect;
    } else {
      ResultsAreComplete(job, s);
      a := WriteArchive;
    }
  }

  /** How many steps a worker still has ahead of it, at most. */
  function Rank(f: File, w: Worker): int {
    var c := |f.content|;
    match w
    case NotSpawned => 2 * c + 11
    case Entering => 2 * c + 10
    case Opening(_) => 2 * c + 9
    case GettingBuffer(_) => 2 * c + 8
    case Reading(_, _, pos, _) => 2 * (c - pos) + 7
    case Appending(_, _, pos, _, n, status) => if status == More then 2 * (c - pos - n) + 8 else 6
    case PuttingBuffer(_, _, _) => 5
    case Building(_, _) => 4
    case Sending(_, _) => 3
    case Releasing(_) => 2
    case Leaving => 1
    case Done => 0
  }

  function Ranks(files: seq<File>, ws: seq<Worker>): int
    requires |files| == |ws|
  {
    if ws == [] then 0
    else Ranks(files[..|ws| - 1], ws[..|ws| - 1]) + Rank(files[|ws| - 1], ws[|ws| - 1])
  }

  lemma {:induction false} RanksUpdate(files: seq<File>, ws: seq<Worker>, i: nat, w: Worker)
    requires |files| == |ws| && i < |ws|
    ensures Ranks(files, ws[i := w]) == Ranks(files, ws) - Rank(files[i], ws[i]) + Rank(files[i], w)
  {
    var n := |ws| - 1;
    if i < n {
      assert ws[i := w][..n] == ws[..n][i := w];
      RanksUpdate(files[..n], ws[..n], i, w);
    } else {
      assert ws[i := w][..n] == ws[..n];
    }
  }

  lemma {:induction false} RanksNonNegative(job: Job, ws: seq<Worker>, m: Memory, k: nat)
    requires BuffersInv(job, ws, m) && k <= |ws|
    ensures Ranks(job.files[..k], ws[..k]) >= 0
  {
    if k > 0 {
      assert WorkerOk(job.files[k - 1], k - 1, ws[k - 1], m.buffers);
      assert ws[..k][..k - 1] == ws[..k - 1] && job.files[..k][..k - 1] == job.files[..k - 1];
      RanksNonNegative(job, ws, m, k - 1);
    }
  }

  function Measure(job: Job, s: State): int
    requires |s.workers| == |job.files|
  {
    Ranks(job.files, s.workers) + (|job.files| - s.received)
    + (if s.closed then 0 else 1)
    + (match s.main case Spawning => 2 case Collecting => 1 case Returned(_) => 0)
  }

  lemma MeasureNonNegative(job: Job, s: State)
    requires Inv(job, s)
    ensures Measure(job, s) >= 0
  {
    RanksNonNegative(job, s.workers, s.memory, |s.workers|);
    assert s.workers[..|s.workers|] == s.workers && job.files[..|s.workers|] == job.files;
    SentFits(job, s);
  }

  lemma WorkerRankDrops(job: Job, s: State, a: Action, i: nat, s': State)
    requires |s.workers| == |job.files| && i < |s.workers| && StepWorker(job, s, a, i) == Some(s')
    requires WorkerOk(job.files[i], i, s.workers[i], s.memory.buffers)
    ensures Rank(job.files[i], s'.workers[i]) < Rank(job.files[i], s.workers[i])
    ensures s'.workers == s.workers[i := s'.workers[i]]
    ensures s'.received == s.received && s'.closed == s.closed && s'.main == s.main
  {
  }

  lemma OtherStepDecreases(job: Job, s: State, a: Action, s': State)
    requires |s.workers| == |job.files|
    requires Step(job, s, a) == Some(s') && WorkerOf(a).None?
    requires a.Spawn? ==> s.spawned < |s.workers| && s.workers[s.spawned].NotSpawned?
    ensures |s'.workers| == |job.files|
    ensures if IsForeign(a) then Measure(job, s') == Measure(job, s) else Measure(job, s') < Measure(job, s)
  {
    if a.Spawn? {
      RanksUpdate(job.files, s.workers, s.spawned, Entering);
    } else {
      MainStepFrame(job, s, a, s');
    }
  }

  /** Every step of the program itself uses up measure; other users of the pool do not matter. */
  lemma StepDecreases(job: Job, s: State, a: Action, s': State)
    requires Inv(job, s) && Step(job, s, a) == Some(s')
    ensures |s'.workers| == |job.files|
    ensures if IsForeign(a) then Measure(job, s') == Measure(job, s) else Measure(job, s') < Measure(job, s)
  {
    match WorkerOf(a)
    case Some(i) =>
      assert WorkerOk(job.files[i], i, s.workers[i], s.memory.buffers);
      WorkerRankDrops(job, s, a, i, s');
      RanksUpdate(job.files, s.workers, i, s'.workers[i]);
    case None => OtherStepDecreases(job, s, a, s');
  }

  function OwnSteps(trace: seq<Action>): nat {
    if trace == [] then 0 else (if IsForeign(trace[0]) then 0 else 1) + OwnSteps(trace[1..])
  }

  /** These are the steps that are not other pool users' or the runtime's. */
  lemma OwnStepsAre(trace: seq<Action>)
    ensures OwnSteps(trace) ==
            |set i | 0 <= i < |trace| && !trace[i].DropPooled? && !trace[i].ForeignGet? && !trace[i].ForeignWrite? &&
                     !trace[i].ForeignPut?|
  {
    OwnStepsFrom(trace, 0);
    assert trace[0..] == trace;
    assert OwnFrom(trace, 0) ==
           set i | 0 <= i < |trace| && !trace[i].DropPooled? && !trace[i].ForeignGet? && !trace[i].ForeignWrite? &&
                   !trace[i].ForeignPut?;
  }

  function OwnFrom(trace: seq<Action>, k: nat): set<int> { set i | k <= i < |trace| && !IsForeign(trace[i]) }

  lemma {:induction false} OwnStepsFrom(trace: seq<Action>, k: nat)
    requires k <= |trace|
    ensures OwnSteps(trace[k..]) == |OwnFrom(trace, k)|
    decreases |trace| - k
  {
    if k < |trace| {
      OwnStepsFrom(trace, k + 1);
      assert trace[k..][1..] == trace[k + 1..];
      assert OwnFrom(trace, k) == OwnFrom(trace, k + 1) + if IsForeign(trace[k]) then {} else {k};
    } else {
      assert OwnFrom(trace, k) == {};
    }
  }

  /** So every run is finite: it takes at most `Measure` steps besides those of other pool users.
      With `NeverDeadlocks`, every run that goes on ends with the outcome returned. */
  lemma {:induction false} RunsAreBounded(job: Job, s: State, trace: seq<Action>)
    requires Inv(job, s) && Run(job, s, trace).Some?
    ensures OwnSteps(trace) <= Measure(job, s)
    decreases |trace|
  {
    MeasureNonNegative(job, s);
    if trace != [] {
      var s' := Step(job, s, trace[0]).value;
      StepKeeps(job, s, trace[0], s');
      StepDecreases(job, s, trace[0], s');
      RunsAreBounded(job, s', trace[1..]);
    }
  }

  // ---------- what the outcome is ----------

  predicate EachArchivable(files: seq<File>) {
    forall i :: 0 <= i < |files| ==> Archivable(files[i])
  }

  /** What the concurrent form needs of its files besides. */
  predicate NoneEmpty(files: seq<File>) {
    forall i :: 0 <= i < |files| ==> files[i].content != []
  }

  predicate AllStat(files: seq<File>) {
    forall i :: 0 <= i < |files| ==> files[i].statOk
  }

  lemma AddResultIsAddFile(entries: seq<Entry>, f: File, i: nat)
    requires f.statOk && ProcessedOf(f, i).Good?
    ensures AddResult(entries, ProcessedOf(f, i)) == AddFile(entries, f)
  {
  }

  function AsWalk(files: seq<File>): seq<WalkItem> {
    if files == [] then [] else AsWalk(files[..|files| - 1]) + [Regular(files[|files| - 1])]
  }

  /** Writing the collected results does what the sequential form does with the same files. */
  lemma {:induction false} ResultsAreAddedLikeFiles(files: seq<File>)
    requires AllStat(files) && AllGood(AllProcessed(files))
    ensures AddResults(AllProcessed(files)) == AddItems(AsWalk(files))
  {
    if files != [] {
      var n := |files| - 1;
      var all := AllProcessed(files);
      assert all[..n] == AllProcessed(files[..n]) && all[n] == ProcessedOf(files[n], n) by {
        AllProcessedLength(files[..n]);
      }
      ResultsAreAddedLikeFiles(files[..n]);
      assert AsWalk(files)[..|AsWalk(files)| - 1] == AsWalk(files[..n]);
      if AddResults(all[..n]).Some? {
        AddResultIsAddFile(AddResults(all[..n]).value, files[n], n);
      }
    }
  }

  lemma {:induction false} AsWalkFiles(files: seq<File>)
    ensures Files(AsWalk(files)) == files && AllReadable(AsWalk(files))
  {
    if files != [] {
      var n := |files| - 1;
      AsWalkFiles(files[..n]);
      var w := AsWalk(files[..n]);
      assert AsWalk(files)[..|w|] == w;
      assert forall i :: 0 <= i < |w| ==> AsWalk(files)[i] == w[i];
    }
  }

  lemma {:induction false} GoodResults(files: seq<File>)
    ensures AllGood(AllProcessed(files)) <==> forall i :: 0 <= i < |files| ==> ProcessedOf(files[i], i).Good?
  {
    AllProcessedLength(files);
    forall i | 0 <= i < |files|
      ensures AllProcessed(files)[i] == ProcessedOf(files[i], i)
    {
      AllProcessedAt(files, i);
    }
  }

  /** The concurrent form succeeds exactly when every file can be archived and none is empty, and
      then writes one entry per file in walk order. */
  lemma ConcurrentArchivesNonEmptyFiles(files: seq<File>)
    requires AllStat(files)
    ensures ConcurrentResult(files) ==
            if EachArchivable(files) && NoneEmpty(files) then Some(EntriesOf(files)) else None
  {
    GoodResults(files);
    if AllGood(AllProcessed(files)) {
      assert NoneEmpty(files) by {
        assert forall i :: 0 <= i < |files| ==> ProcessedOf(files[i], i).Good?;
      }
      ResultsAreAddedLikeFiles(files);
      SequentialArchivesEverything(AsWalk(files));
      AsWalkFiles(files);
      ArchivableByFiles(AsWalk(files));
    } else {
      var i :| 0 <= i < |files| && !ProcessedOf(files[i], i).Good?;
      assert !Archivable(files[i]) || files[i].content == [];
    }
  }

  /** The collecting loop and the writing loop, for results arriving in any order: each result goes
      to its index, the first bad one ends the run, and the rest is written in file order. */
  method CollectAndWrite(files: seq<File>, arrivals: seq<Processed>) returns (archive: Option<seq<Entry>>)
    requires forall k :: 0 <= k < |arrivals| ==>
               arrivals[k].index < |files| && arrivals[k] == ProcessedOf(files[arrivals[k].index], arrivals[k].index)
    requires forall i :: 0 <= i < |files| ==> ProcessedOf(files[i], i) in arrivals
    ensures archive == ConcurrentResult(files)
  {
    GoodResults(files);
    var results := new Processed[|files|](_ => Bad(0));
    for k := 0 to |arrivals|
      invariant forall l :: 0 <= l < k ==> arrivals[l].Good? && results[arrivals[l].index] == arrivals[l]
    {
      if arrivals[k].Bad? {
        assert ProcessedOf(files[arrivals[k].index], arrivals[k].index).Bad?;
        return None;
      }
      results[arrivals[k].index] := arrivals[k];
    }
    forall i | 0 <= i < |files|
      ensures results[i] == ProcessedOf(files[i], i) && results[i].Good?
    {
      var l :| 0 <= l < |arrivals| && arrivals[l] == ProcessedOf(files[i], i);
      assert arrivals[l].index == i;
    }
    AllProcessedLength(files);
    assert results[..] == AllProcessed(files) by {
      forall i | 0 <= i < |files| ensures results[i] == AllProcessed(files)[i] {
        AllProcessedAt(files, i);
      }
    }
    archive := WriteAll(results[..]);
  }

  method WriteAll(results: seq<Processed>) returns (archive: Option<seq<Entry>>)
    requires AllGood(results)
    ensures archive == WriteResult(results)
  {
    var tw := new TarWriter();
    var i := 0;
    while i < |results|
      invariant 0 <= i <= |results|
      invariant tw.Valid() && AddResults(results[..i]) == Some(tw.entries)
    {
      assert results[..i + 1][..i] == results[..i];
      var r := results[i];
      ghost var before := tw.entries;
      var ok := tw.WriteHeader(r.header);
      assert [] + r.content == r.content;
      if ok && |r.content| > 0 {
        ok := tw.Write(r.content);
      }
      assert ok ==> tw.entries == before + [Entry(r.header.name, r.header.size, r.content)];
      i := i + 1;
      if !ok {
        AddResultsFails(results, i);
        return None;
      }
    }
    assert results[..i] == results;
    var ok := tw.Close();
    archive := if ok then Some(tw.entries) else None;
  }

  lemma {:induction false} AddResultsFails(results: seq<Processed>, i: nat)
    requires AllGood(results) && i <= |results| && AddResults(results[..i]).None?
    ensures AddResults(results).None?
  {
    if i == |results| {
      assert results[..i] == results;
    } else {
      assert results[..|results| - 1][..i] == results[..i];
      AddResultsFails(results[..|results| - 1], i);
    }
  }

  // ---------- TarDir ----------

  const MANY_FILES: nat := 20
  const LARGE_SIZE: nat := 10 * 1024 * 1024

  function FileCount(walk: seq<WalkItem>): nat { |Files(walk)| }

  function TotalSize(walk: seq<WalkItem>): nat {
    if walk == [] then 0 else
      TotalSize(walk[..|walk| - 1]) +
      (match walk[|walk| - 1] case Regular(f) => (if f.statOk then f.size else 0) case _ => 0)
  }

  /** The total is the sum of the sizes that stat gives for the files: additive over parts of the walk,
      and for one item its file's size if it is a file that can be stat-ed, else nothing. */
  lemma {:induction false} TotalSizeAdds(a: seq<WalkItem>, b: seq<WalkItem>)
    ensures TotalSize(a + b) == TotalSize(a) + TotalSize(b)
  {
    if b == [] {
      NilRight(a);
    } else {
      assert (a + b)[..|a + b| - 1] == a + b[..|b| - 1];
      TotalSizeAdds(a, b[..|b| - 1]);
    }
  }

  lemma TotalSizeOfOne(item: WalkItem)
    ensures TotalSize([item]) == if item.Regular? && item.file.statOk then item.file.size else 0
  {
    assert [item][..0] == [];
  }

  predicate AllReadable(walk: seq<WalkItem>) {
    forall i :: 0 <= i < |walk| ==> !walk[i].Unreadable?
  }

  /** The first walk, which only counts. */
  method CountFiles(walk: seq<WalkItem>) returns (ok: bool, fileCount: nat, totalSize: nat)
    ensures ok == AllReadable(walk)
    ensures ok ==> fileCount == FileCount(walk) && totalSize == TotalSize(walk)
  {
    ok, fileCount, totalSize := true, 0, 0;
    for i := 0 to |walk|
      invariant ok && AllReadable(walk[..i])
      invariant fileCount == FileCount(walk[..i]) && totalSize == TotalSize(walk[..i])
    {
      assert walk[..i + 1][..i] == walk[..i];
      match walk[i] {
        case Unreadable(_) =>
          assert walk[i].Unreadable?;
          return false, 0, 0;
        case Directory(_) =>
        case Regular(f) =>
          fileCount := fileCount + 1;
          if f.statOk {
            totalSize := totalSize + f.size;
          }
      }
    }
    assert walk[..|walk|] == walk;
  }

  predicate Large(walk: seq<WalkItem>) {
    FileCount(walk) > MANY_FILES || TotalSize(walk) > LARGE_SIZE
  }

  /** The dispatch. The concurrent form stats every file during its own walk. */
  function TarDirResult(walk: seq<WalkItem>): Option<seq<Entry>> {
    if !AllReadable(walk) then None
    else if Large(walk) then
      if AllStat(Files(walk)) then ConcurrentResult(Files(walk)) else None
    else SequentialResult(walk)
  }

  lemma ArchivableSnoc(walk: seq<WalkItem>, last: WalkItem)
    ensures AllArchivable(walk + [last]) <==>
            AllArchivable(walk) && !last.Unreadable? && (last.Regular? ==> Archivable(last.file))
    ensures AllReadable(walk + [last]) <==> AllReadable(walk) && !last.Unreadable?
  {
    var all := walk + [last];
    assert all[|walk|] == last;
    assert forall i :: 0 <= i < |walk| ==> all[i] == walk[i];
  }

  lemma EachSnoc(files: seq<File>, f: File)
    ensures EachArchivable(files + [f]) <==> EachArchivable(files) && Archivable(f)
  {
    var all := files + [f];
    assert all[|files|] == f;
    assert forall i :: 0 <= i < |files| ==> all[i] == files[i];
  }

  lemma {:induction false} ArchivableByFiles(walk: seq<WalkItem>)
    ensures AllArchivable(walk) <==> AllReadable(walk) && EachArchivable(Files(walk))
  {
    if walk != [] {
      var prefix, last := walk[..|walk| - 1], walk[|walk| - 1];
      ArchivableByFiles(prefix);
      assert walk == prefix + [last];
      ArchivableSnoc(prefix, last);
      if last.Regular? {
        EachSnoc(Files(prefix), last.file);
      } else {
        NilRight(Files(prefix));
      }
    }
  }

  /** Which form runs is visible in exactly one situation: there are more than twenty files or more than
      ten megabytes, everything can be archived, and some file is empty. Then TarDir fails where archiving
      file by file succeeds. */
  lemma DispatchIsVisibleOnlyForEmptyFiles(walk: seq<WalkItem>)
    ensures TarDirResult(walk) == SequentialResult(walk) <==>
            !((|Files(walk)| > 20 || TotalSize(walk) > 10485760) && AllArchivable(walk) && !NoneEmpty(Files(walk)))
  {
    SequentialArchivesEverything(walk);
    ArchivableByFiles(walk);
    if AllStat(Files(walk)) {
      ConcurrentArchivesNonEmptyFiles(Files(walk));
    } else {
      assert !EachArchivable(Files(walk));
    }
  }

  lemma DispatchFailsOnEmptyFile(walk: seq<WalkItem>)
    requires Large(walk) && AllArchivable(walk) && !NoneEmpty(Files(walk))
    ensures TarDirResult(walk).None?
  {
    ArchivableByFiles(walk);
    ConcurrentArchivesNonEmptyFiles(Files(walk));
  }

  /** One such input: twenty-one readable files, one of them empty. */
  lemma OneEmptyFileAmongMany()
    ensures exists walk :: SequentialResult(walk).Some? && TarDirResult(walk).None?
  {
    var full := File("full", 1, true, true, true, true, true, [7]);
    var empty := File("empty", 0, true, true, true, true, true, []);
    var fs := seq(20, _ => full) + [empty];
    var walk := AsWalk(fs);
    AsWalkFiles(fs);
    ArchivableByFiles(walk);
    SequentialArchivesEverything(walk);
    assert fs[20].content == [];
    assert AllStat(fs) && !NoneEmpty(fs);
    ConcurrentArchivesNonEmptyFiles(fs);
  }

  /** What a finished concurrent run returns, spelled out: an archive of all files in order exactly when
      every file can be processed, is as long as its header says and is not empty. */
  lemma OutcomeSpelledOut(job: Job, s: State)
    requires Reachable(job, s) && s.main.Returned?
    requires forall i :: 0 <= i < |job.files| ==> job.files[i].statOk
    ensures s.main.archive.Some? <==>
            forall i :: 0 <= i < |job.files| ==>
              var f := job.files[i];
              && f.headerOk && f.encodable && f.openable && f.readable
              && |f.content| == f.size && f.content != []
    ensures s.main.archive.Some? ==>
              var entries, files := s.main.archive.value, job.files;
              |entries| == |files| &&
              forall k :: 0 <= k < |files| ==> entries[k] == Entry(files[k].path, files[k].size, files[k].content)
  {
    OutcomeIsDeterministic(job, s);
    ConcurrentArchivesNonEmptyFiles(job.files);
  }

  /** The dispatch, spelled out: up to twenty files of ten megabytes in all are archived file by file,
      anything larger as by the concurrent form, which needs every file to be stat-ed first. */
  lemma DispatchSpelledOut(walk: seq<WalkItem>)
    ensures |Files(walk)| <= 20 && TotalSize(walk) <= 10485760 ==> TarDirResult(walk) == SequentialResult(walk)
    ensures (|Files(walk)| > 20 || TotalSize(walk) > 10485760) ==>
              (TarDirResult(walk).Some? <==>
               && (forall i :: 0 <= i < |walk| ==> !walk[i].Unreadable?)
               && forall i :: 0 <= i < |Files(walk)| ==>
                    var f := Files(walk)[i];
                    && f.statOk && f.headerOk && f.encodable && f.openable && f.readable
                    && |f.content| == f.size && f.content != [])
  {
    var files := Files(walk);
    DispatchIsVisibleOnlyForEmptyFiles(walk);
    if AllStat(files) {
      ConcurrentArchivesNonEmptyFiles(files);
      EachSpelledOut(files);
    } else {
      var i :| 0 <= i < |files| && !files[i].statOk;
    }
  }

  lemma EachSpelledOut(files: seq<File>)
    ensures EachArchivable(files) && NoneEmpty(files) <==>
            forall i :: 0 <= i < |files| ==>
              var f := files[i];
              && f.statOk && f.headerOk && f.encodable && f.openable && f.readable
              && |f.content| == f.size && f.content != []
  {
  }
}
