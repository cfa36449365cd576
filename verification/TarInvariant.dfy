/** Every action of the concurrent form keeps its invariant. */
module TarInvariant {
  import opened Seqs
  import opened Bytes
  import opened BufferPool
  import opened TarArchive
  import opened TarConcurrent

  // ---------- buffers ----------

  /** What a step of one worker may do to memory: other workers' buffers stay theirs, untouched. */
  ghost predicate Local(m: Memory, w: Worker, m': Memory, w': Worker) {
    && MemoryOk(m')
    && (Lent(w').Some? ==> HeldAlone(m', Lent(w').value))
    && forall r: nat :: HeldAlone(m, r) && Lent(w) != Some(r) ==>
         HeldAlone(m', r) && m'.buffers[r] == m.buffers[r] && Lent(w') != Some(r)
  }

  lemma WorkerOkFrame(f: File, i: nat, w: Worker, buffers: seq<seq<byte>>, buffers': seq<seq<byte>>)
    requires WorkerOk(f, i, w, buffers)
    requires Lent(w).Some? ==> Lent(w).value < |buffers| && Lent(w).value < |buffers'|
                               && buffers'[Lent(w).value] == buffers[Lent(w).value]
    ensures WorkerOk(f, i, w, buffers')
  {
  }

  lemma LocalKeeps(job: Job, ws: seq<Worker>, m: Memory, i: nat, w': Worker, m': Memory)
    requires BuffersInv(job, ws, m) && i < |ws|
    requires Local(m, ws[i], m', w')
    requires WorkerOk(job.files[i], i, w', m'.buffers)
    ensures BuffersInv(job, ws[i := w'], m')
  {
    var ws' := ws[i := w'];
    forall j | 0 <= j < |ws| && j != i
      ensures WorkerOk(job.files[j], j, ws'[j], m'.buffers)
      ensures Lent(ws'[j]).Some? ==> HeldAlone(m', Lent(ws'[j]).value) && Lent(w') != Lent(ws'[j])
    {
      assert WorkerOk(job.files[j], j, ws[j], m.buffers);
      if Lent(ws[j]).Some? {
        assert HeldAlone(m, Lent(ws[j]).value);
        assert Lent(ws[i]).Some? ==> Lent(ws[i]) != Lent(ws[j]);
      }
      WorkerOkFrame(job.files[j], j, ws[j], m.buffers, m'.buffers);
    }
  }

  lemma TakeIsLocal(m: Memory, choice: Option<Ref>, w: Worker, m': Memory, r: Ref, w': Worker)
    requires MemoryOk(m) && TakeBuffer(m, choice) == Some((m', r))
    requires Lent(w).None? && Lent(w') == Some(r)
    ensures Local(m, w, m', w')
  {
    if choice.None? {
      assert r !in m.pool && r !in m.foreign;
    } else {
      assert m.pool[r] == 1;
    }
  }

  lemma FillIsLocal(m: Memory, r: Ref, data: seq<byte>, m': Memory, w: Worker, w': Worker)
    requires MemoryOk(m) && FillBuffer(m, r, data) == Some(m')
    requires Lent(w) == Some(r) == Lent(w') && HeldAlone(m, r)
    ensures Local(m, w, m', w')
    ensures m'.buffers[r][..|data|] == data
  {
  }

  lemma GiveIsLocal(m: Memory, r: Ref, m': Memory, w: Worker, w': Worker)
    requires MemoryOk(m) && GiveBuffer(m, r) == Some(m')
    requires Lent(w) == Some(r) && Lent(w').None? && HeldAlone(m, r)
    ensures Local(m, w, m', w')
  {
  }

  /** The reads, in order, build up the file's content. */
  lemma AppendedContent(f: File, pos: nat, n: nat, buffer: seq<byte>, result: seq<byte>)
    requires pos + n <= |f.content| && n <= |buffer|
    requires result == f.content[..pos] && buffer[..n] == f.content[pos..pos + n]
    ensures result + buffer[..n] == f.content[..pos + n]
  {
  }

  lemma AppendKeepsWorker(job: Job, s: State, i: nat, s': State)
    requires BuffersInv(job, s.workers, s.memory) && i < |s.workers| && StepAppend(s, i) == Some(s')
    ensures s'.memory == s.memory && s' == WithWorker(s, i, s'.workers[i])
    ensures WorkerOk(job.files[i], i, s'.workers[i], s.memory.buffers)
    ensures Lent(s'.workers[i]) == Lent(s.workers[i])
  {
    var f, w := job.files[i], s.workers[i];
    assert WorkerOk(f, i, w, s.memory.buffers);
    AppendedContent(f, w.pos, w.n, s.memory.buffers[w.buffer], w.result);
    assert f.content[..|f.content|] == f.content;
  }

  lemma StayIsLocal(m: Memory, w: Worker, w': Worker)
    requires MemoryOk(m)
    requires Lent(w) == Lent(w') && (Lent(w).Some? ==> HeldAlone(m, Lent(w).value))
    ensures Local(m, w, m, w')
  {
  }

  lemma GetBufferIsLocal(job: Job, s: State, i: nat, choice: Option<Ref>, s': State)
    requires BuffersInv(job, s.workers, s.memory) && i < |s.workers| && StepGetBuffer(s, i, choice) == Some(s')
    ensures s'.workers == s.workers[i := s'.workers[i]]
    ensures Local(s.memory, s.workers[i], s'.memory, s'.workers[i])
    ensures WorkerOk(job.files[i], i, s'.workers[i], s'.memory.buffers)
  {
    assert WorkerOk(job.files[i], i, s.workers[i], s.memory.buffers);
    TakeIsLocal(s.memory, choice, s.workers[i], s'.memory, s'.workers[i].buffer, s'.workers[i]);
  }

  lemma ReadIsLocal(job: Job, s: State, i: nat, n: nat, status: ReadStatus, s': State)
    requires BuffersInv(job, s.workers, s.memory) && i < |s.workers| && StepRead(job, s, i, n, status) == Some(s')
    ensures s'.workers == s.workers[i := s'.workers[i]]
    ensures Local(s.memory, s.workers[i], s'.memory, s'.workers[i])
    ensures WorkerOk(job.files[i], i, s'.workers[i], s'.memory.buffers)
  {
    var f, w := job.files[i], s.workers[i];
    assert WorkerOk(f, i, w, s.memory.buffers);
    FillIsLocal(s.memory, w.buffer, f.content[w.pos..w.pos + n], s'.memory, w, s'.workers[i]);
  }

  /** One worker's action touches no buffer but its own and leaves it knowing what it needs. */
  lemma WorkerStepIsLocal(job: Job, s: State, a: Action, i: nat, s': State)
    requires BuffersInv(job, s.workers, s.memory) && i < |s.workers| && StepWorker(job, s, a, i) == Some(s')
    ensures s'.workers == s.workers[i := s'.workers[i]]
    ensures Local(s.memory, s.workers[i], s'.memory, s'.workers[i])
    ensures WorkerOk(job.files[i], i, s'.workers[i], s'.memory.buffers)
  {
    var w, w', m, m' := s.workers[i], s'.workers[i], s.memory, s'.memory;
    assert WorkerOk(job.files[i], i, w, m.buffers);
    match a {
      case GetBuffer(_, choice) => GetBufferIsLocal(job, s, i, choice, s');
      case Read(_, n, status) => ReadIsLocal(job, s, i, n, status, s');
      case PutBuffer(_) => GiveIsLocal(m, w.buffer, m', w, w');
      case Append(_) =>
        AppendKeepsWorker(job, s, i, s');
        StayIsLocal(m, w, w');
      case _ => StayIsLocal(m, w, w');
    }
  }

  /** Every worker action leaves every buffer with at most one holder, and leaves each worker
      knowing what it needs. */
  lemma WorkerStepKeepsBuffers(job: Job, s: State, a: Action, i: nat, s': State)
    requires BuffersInv(job, s.workers, s.memory) && i < |s.workers| && StepWorker(job, s, a, i) == Some(s')
    ensures BuffersInv(job, s'.workers, s'.memory)
  {
    WorkerStepIsLocal(job, s, a, i, s');
    LocalKeeps(job, s.workers, s.memory, i, s'.workers[i], s'.memory);
  }

  /** What other users of the pool may do to memory: every buffer a worker holds stays as it is. */
  ghost predicate Elsewhere(m: Memory, m': Memory) {
    && MemoryOk(m')
    && forall r: nat :: HeldAlone(m, r) ==> HeldAlone(m', r) && m'.buffers[r] == m.buffers[r]
  }

  lemma DropIsElsewhere(m: Memory, r: Ref)
    requires MemoryOk(m) && r in m.pool
    ensures Elsewhere(m, m.(pool := m.pool - multiset{r}))
  {
  }

  lemma ForeignGetIsElsewhere(m: Memory, choice: Option<Ref>, m': Memory, r: Ref)
    requires MemoryOk(m) && TakeBuffer(m, choice) == Some((m', r))
    ensures Elsewhere(m, m'.(foreign := m'.foreign + multiset{r}))
  {
    if choice.None? {
      assert r !in m.pool && r !in m.foreign;
    } else {
      assert m.pool[r] == 1;
    }
  }

  lemma ForeignWriteIsElsewhere(m: Memory, r: Ref, data: seq<byte>, m': Memory)
    requires MemoryOk(m) && r in m.foreign && FillBuffer(m, r, data) == Some(m')
    ensures Elsewhere(m, m')
  {
    assert m.foreign[r] == 1;
    assert r !in m.pool;
  }

  lemma ForeignPutIsElsewhere(m: Memory, r: Ref, m': Memory)
    requires MemoryOk(m) && r in m.foreign
    requires GiveBuffer(m.(foreign := m.foreign - multiset{r}), r) == Some(m')
    ensures Elsewhere(m, m')
  {
    assert m.foreign[r] == 1;
    assert r !in m.pool;
  }

  lemma ForeignStepIsElsewhere(s: State, a: Action, s': State)
    requires MemoryOk(s.memory) && StepForeign(s, a) == Some(s')
    ensures Elsewhere(s.memory, s'.memory)
    ensures s' == s.(memory := s'.memory)
  {
    var m, m' := s.memory, s'.memory;
    match a
    case DropPooled(r) => DropIsElsewhere(m, r);
    case ForeignGet(choice) => 
      var (m0, r) := TakeBuffer(m, choice).value;
      ForeignGetIsElsewhere(m, choice, m0, r);
    case ForeignWrite(r, data) => ForeignWriteIsElsewhere(m, r, data, m');
    case ForeignPut(r) => ForeignPutIsElsewhere(m, r, m');
  }

  lemma ForeignStepKeepsBuffers(job: Job, s: State, a: Action, s': State)
    requires BuffersInv(job, s.workers, s.memory) && StepForeign(s, a) == Some(s')
    ensures BuffersInv(job, s'.workers, s'.memory)
    ensures s' == s.(memory := s'.memory)
  {
    ForeignStepIsElsewhere(s, a, s');
    forall j | 0 <= j < |s.workers|
      ensures WorkerOk(job.files[j], j, s.workers[j], s'.memory.buffers)
      ensures Lent(s.workers[j]).Some? ==> HeldAlone(s'.memory, Lent(s.workers[j]).value)
    {
      assert WorkerOk(job.files[j], j, s.workers[j], s.memory.buffers);
      assert Lent(s.workers[j]).Some? ==> HeldAlone(s.memory, Lent(s.workers[j]).value);
      WorkerOkFrame(job.files[j], j, s.workers[j], s.memory.buffers, s'.memory.buffers);
    }
  }

  // ---------- counters ----------

  lemma CountWorker(s: State, i: nat, w: Worker)
    requires i < |s.workers|
    ensures Count(s.workers[i := w], HasToken) ==
            Count(s.workers, HasToken) - (if HasToken(s.workers[i]) then 1 else 0) + (if HasToken(w) then 1 else 0)
    ensures Count(s.workers[i := w], Live) ==
            Count(s.workers, Live) - (if Live(s.workers[i]) then 1 else 0) + (if Live(w) then 1 else 0)
  {
    CountUpdate(s.workers, HasToken, i, w);
    CountUpdate(s.workers, Live, i, w);
  }

  /** Counters that change by what one worker gained or lost stay exact. */
  lemma CountersFollow(job: Job, s: State, i: nat, w: Worker, s': State)
    requires Counters(job, s) && i < |s.workers| && s'.workers == s.workers[i := w]
    requires !s.workers[i].NotSpawned? && !w.NotSpawned?
    requires s'.tokens == s.tokens - (if HasToken(s.workers[i]) then 1 else 0) + (if HasToken(w) then 1 else 0)
    requires s'.tokens <= job.slots
    requires s'.waitGroup == s.waitGroup - (if Live(s.workers[i]) then 1 else 0) + (if Live(w) then 1 else 0)
    requires s'.spawned == s.spawned && s'.main == s.main
    ensures Counters(job, s')
  {
    CountWorker(s, i, w);
  }

  lemma WorkerStepKeepsCounters(job: Job, s: State, a: Action, i: nat, s': State)
    requires Counters(job, s) && i < |job.files| == |s.workers| && StepWorker(job, s, a, i) == Some(s')
    ensures Counters(job, s')
  {
    CountersFollow(job, s, i, s'.workers[i], s');
  }

  lemma OtherStepKeepsCounters(job: Job, s: State, a: Action, s': State)
    requires Counters(job, s) && Step(job, s, a) == Some(s') && WorkerOf(a).None?
    ensures Counters(job, s')
  {
    if a.Spawn? {
      CountWorker(s, s.spawned, Entering);
    }
  }

  // ---------- the result channel ----------

  lemma SendKeepsSent(job: Job, s: State, i: nat, s': State)
    requires |s.workers| == |job.files| && i < |s.workers|
    requires WorkerOk(job.files[i], i, s.workers[i], s.memory.buffers)
    requires SentOk(job, s) && StepSend(job, s, i) == Some(s')
    ensures SentOk(job, s')
  {
    var p := s.workers[i].processed;
    assert p.index == i && !HasSent(s.workers[i]);
    forall k | 0 <= k < |s.sent|
      ensures s.sent[k].index != i
    {
      assert HasSent(s.workers[s.sent[k].index]);
    }
    assert s'.sent[|s.sent|] == p;
    forall j | 0 <= j < |s'.workers| && HasSent(s'.workers[j])
      ensures ProcessedOf(job.files[j], j) in s'.sent
    {
      if j != i {
        assert HasSent(s.workers[j]);
      }
    }
  }

  lemma QuietWorkerStep(job: Job, s: State, a: Action, i: nat, s': State)
    requires |s.workers| == |job.files| && i < |s.workers| && !a.Send?
    requires WorkerOk(job.files[i], i, s.workers[i], s.memory.buffers)
    requires StepWorker(job, s, a, i) == Some(s')
    ensures s'.sent == s.sent && s'.workers == s.workers[i := s'.workers[i]]
    ensures HasSent(s'.workers[i]) <==> HasSent(s.workers[i])
  {
  }

  lemma WorkerStepKeepsSent(job: Job, s: State, a: Action, i: nat, s': State)
    requires |s.workers| == |job.files| && i < |s.workers|
    requires WorkerOk(job.files[i], i, s.workers[i], s.memory.buffers)
    requires SentOk(job, s) && StepWorker(job, s, a, i) == Some(s')
    ensures SentOk(job, s')
  {
    if a.Send? {
      SendKeepsSent(job, s, i, s');
    } else {
      QuietWorkerStep(job, s, a, i, s');
    }
  }

  lemma SentFrame(job: Job, s: State, s': State)
    requires |s.workers| == |job.files| && SentOk(job, s)
    requires s'.workers == s.workers && s'.sent == s.sent
    ensures SentOk(job, s')
  {
  }

  /** Apart from spawning, the main goroutine touches neither workers nor what was sent. */
  lemma MainStepFrame(job: Job, s: State, a: Action, s': State)
    requires Step(job, s, a) == Some(s') && WorkerOf(a).None? && !a.Spawn?
    ensures s'.workers == s.workers && s'.sent == s.sent
  {
  }

  lemma OtherStepKeepsSent(job: Job, s: State, a: Action, s': State)
    requires |s.workers| == |job.files| && SentOk(job, s)
    requires forall i :: 0 <= i < |s.workers| ==> (s.workers[i].NotSpawned? <==> i >= s.spawned)
    requires Step(job, s, a) == Some(s') && WorkerOf(a).None?
    ensures SentOk(job, s')
  {
    if a.Spawn? {
      SpawnKeepsSent(job, s);
    } else {
      MainStepFrame(job, s, a, s');
      SentFrame(job, s, s');
    }
  }

  lemma SpawnKeepsSent(job: Job, s: State)
    requires |s.workers| == |job.files| && SentOk(job, s)
    requires s.spawned < |s.workers| && s.workers[s.spawned].NotSpawned?
    ensures SentOk(job, WithWorker(s, s.spawned, Entering).(spawned := s.spawned + 1, waitGroup := s.waitGroup + 1))
  {
  }

  // ---------- the main goroutine ----------

  lemma WorkerStepKeepsMain(job: Job, s: State, a: Action, i: nat, s': State)
    requires |s.workers| == |job.files| && i < |s.workers|
    requires MainOk(job, s) && StepWorker(job, s, a, i) == Some(s')
    ensures MainOk(job, s')
  {
    assert s'.main == s.main && s'.results == s.results && s'.closed == s.closed && s'.received == s.received;
    assert s.sent <= s'.sent;
    assert !s.workers[i].Done?;
  }

  lemma {:induction false} AllProcessedAt(files: seq<File>, i: nat)
    requires i < |files|
    ensures |AllProcessed(files)| == |files| && AllProcessed(files)[i] == ProcessedOf(files[i], i)
  {
    var n := |files| - 1;
    if n > 0 {
      AllProcessedAt(files[..n], if i < n then i else 0);
    }
  }

  lemma {:induction false} InOrderIsAll(files: seq<File>, results: map<nat, Processed>)
    requires HasAll(results, |files|)
    requires forall i: nat :: i < |files| ==> results[i] == ProcessedOf(files[i], i)
    ensures InOrder(results, |files|) == AllProcessed(files)
  {
    if files != [] {
      var n := |files| - 1;
      assert forall i: nat :: i < n ==> files[..n][i] == files[i];
      InOrderIsAll(files[..n], results);
    }
  }

  /** A bad result makes the outcome an error, whichever bad result arrives first. */
  lemma CollectKeepsMain(job: Job, s: State, s': State)
    requires |s.workers| == |job.files| && SentOk(job, s) && MainOk(job, s) && StepCollect(s) == Some(s')
    ensures MainOk(job, s')
  {
    var r := s.sent[s.received];
    if r.Bad? {
      AllProcessedAt(job.files, r.index);
      assert !AllGood(AllProcessed(job.files));
    } else {
      forall k | 0 <= k < s'.received
        ensures s'.sent[k].Good? && s'.sent[k].index in s'.results && s'.results[s'.sent[k].index] == s'.sent[k]
      {
        if k < s.received {
          assert s.sent[k].index != r.index;
        }
      }
    }
  }

  lemma ResultsAreComplete(job: Job, s: State)
    requires |s.workers| == |job.files| && SentOk(job, s) && MainOk(job, s)
    requires s.main.Collecting? && s.closed && s.received == |s.sent|
    ensures HasAll(s.results, |job.files|)
    ensures InOrder(s.results, |job.files|) == AllProcessed(job.files)
    ensures AllGood(AllProcessed(job.files))
  {
    forall i: nat | i < |job.files|
      ensures i in s.results && s.results[i] == ProcessedOf(job.files[i], i) && s.results[i].Good?
    {
      assert s.workers[i].Done? && HasSent(s.workers[i]);
      var k :| 0 <= k < |s.sent| && s.sent[k] == ProcessedOf(job.files[i], i);
      assert s.sent[k].index == i;
    }
    InOrderIsAll(job.files, s.results);
    forall i | 0 <= i < |AllProcessed(job.files)|
      ensures AllProcessed(job.files)[i].Good?
    {
      AllProcessedLength(job.files);
      AllProcessedAt(job.files, i);
    }
  }

  lemma {:induction false} AllProcessedLength(files: seq<File>)
    ensures |AllProcessed(files)| == |files|
  {
    if files != [] {
      AllProcessedLength(files[..|files| - 1]);
    }
  }

  lemma CloseKeepsMain(job: Job, s: State)
    requires |s.workers| == |job.files| && MainOk(job, s) && Counters(job, s)
    requires !s.main.Spawning? && s.waitGroup == 0
    ensures MainOk(job, s.(closed := true))
  {
    CountZero(s.workers, Live);
    assert forall i :: 0 <= i < |s.workers| ==> !Live(s.workers[i]);
  }

  lemma WriteKeepsMain(job: Job, s: State, s': State)
    requires |s.workers| == |job.files| && SentOk(job, s) && MainOk(job, s)
    requires StepWrite(job, s) == Some(s')
    ensures MainOk(job, s')
  {
    ResultsAreComplete(job, s);
  }

  lemma SpawnKeepsMain(job: Job, s: State, s': State)
    requires |s.workers| == |job.files| && MainOk(job, s)
    requires StepSpawn(s) == Some(s')
    ensures MainOk(job, s')
  {
  }

  lemma MainStepKeepsMain(job: Job, s: State, a: Action, s': State)
    requires |s.workers| == |job.files| && SentOk(job, s) && MainOk(job, s) && Counters(job, s)
    requires Step(job, s, a) == Some(s') && WorkerOf(a).None? && !IsForeign(a)
    ensures MainOk(job, s')
  {
    match a
    case Collect => CollectKeepsMain(job, s, s');
    case WriteArchive => WriteKeepsMain(job, s, s');
    case CloseResults => CloseKeepsMain(job, s);
    case Spawn => SpawnKeepsMain(job, s, s');
    case _ =>
  }

  // ---------- all of it ----------

  lemma StepKeeps(job: Job, s: State, a: Action, s': State)
    requires Inv(job, s) && Step(job, s, a) == Some(s')
    ensures Inv(job, s')
  {
    match WorkerOf(a) {
      case Some(i) =>
        assert WorkerOk(job.files[i], i, s.workers[i], s.memory.buffers);
        WorkerStepKeepsBuffers(job, s, a, i, s');
        WorkerStepKeepsCounters(job, s, a, i, s');
        WorkerStepKeepsSent(job, s, a, i, s');
        WorkerStepKeepsMain(job, s, a, i, s');
      case None =>
        OtherStepKeepsCounters(job, s, a, s');
        OtherStepKeepsSent(job, s, a, s');
        if IsForeign(a) {
          ForeignStepKeepsBuffers(job, s, a, s');
        } else {
          MainStepKeepsMain(job, s, a, s');
          OtherStepKeepsBuffers(job, s, a, s');
        }
    }
  }

  lemma OtherStepKeepsBuffers(job: Job, s: State, a: Action, s': State)
    requires BuffersInv(job, s.workers, s.memory) && Counters(job, s)
    requires Step(job, s, a) == Some(s') && WorkerOf(a).None? && !IsForeign(a)
    ensures BuffersInv(job, s'.workers, s'.memory)
  {
    if a.Spawn? {
      StayIsLocal(s.memory, s.workers[s.spawned], Entering);
      LocalKeeps(job, s.workers, s.memory, s.spawned, Entering, s.memory);
    }
  }

  lemma InitInv(job: Job, memory: Memory)
    requires MemoryOk(memory)
    ensures Inv(job, Init(job, memory))
  {
    var s := Init(job, memory);
    CountZero(s.workers, HasToken);
    CountZero(s.workers, Live);
  }

  lemma {:induction false} RunKeeps(job: Job, s: State, trace: seq<Action>, end: State)
    requires Inv(job, s) && Run(job, s, trace) == Some(end)
    ensures Inv(job, end)
    decreases |trace|
  {
    if trace != [] {
      var next := Step(job, s, trace[0]).value;
      StepKeeps(job, s, trace[0], next);
      RunKeeps(job, next, trace[1..], end);
    }
  }

  /** `s` is what some interleaving leads to, from a pool in any disciplined state. */
  ghost predicate Reachable(job: Job, s: State) {
    exists memory, trace :: MemoryOk(memory) && Run(job, Init(job, memory), trace) == Some(s)
  }

  lemma ReachableInv(job: Job, s: State)
    requires Reachable(job, s)
    ensures Inv(job, s)
  {
    var memory, trace :| MemoryOk(memory) && Run(job, Init(job, memory), trace) == Some(s);
    InitInv(job, memory);
    RunKeeps(job, Init(job, memory), trace, s);
  }
}
