/** The concurrent form of TarDir as a state machine: the main goroutine that spawns one worker per
    file and collects results, the workers with their semaphore and pooled buffers, the goroutine
    that closes the result channel, and other users of the same buffer pool, all interleaved. */
module TarConcurrent {
  import opened Seqs
  import opened Bytes
  import opened BufferPool
  import opened TarArchive

  /** The identity of a buffer: its position in the heap of buffers. */
  type Ref = nat

  datatype Processed = Bad(index: nat) | Good(index: nat, header: Header, content: seq<byte>)

  /** A worker's program counter and locals. `token` says whether it holds a semaphore slot. */
  datatype Worker =
    | NotSpawned
    | Entering
    | Opening(token: bool)
    | GettingBuffer(token: bool)
    | Reading(token: bool, buffer: Ref, pos: nat, result: seq<byte>)
    | Appending(token: bool, buffer: Ref, pos: nat, result: seq<byte>, n: nat, status: ReadStatus)
    | PuttingBuffer(token: bool, buffer: Ref, content: Option<seq<byte>>)
    | Building(token: bool, content: Option<seq<byte>>)
    | Sending(token: bool, processed: Processed)
    | Releasing(token: bool)
    | Leaving
    | Done

  datatype MainPc = Spawning | Collecting | Returned(archive: Option<seq<Entry>>)

  /** The pool and the buffers lent to other users of it are multisets of buffers. */
  datatype Memory = Memory(buffers: seq<seq<byte>>, pool: multiset<Ref>, foreign: multiset<Ref>)

  /** `sent` is everything ever sent on the result channel; the channel itself holds what follows
      the first `received` of them. */
  datatype State = State(
    workers: seq<Worker>,
    memory: Memory,
    tokens: nat,
    waitGroup: nat,
    spawned: nat,
    sent: seq<Processed>,
    received: nat,
    closed: bool,
    results: map<nat, Processed>,
    main: MainPc)

  /** The run's constants: the files in walk order and the number of semaphore slots. */
  datatype Job = Job(files: seq<File>, slots: nat)

  function Zeros(n: nat): (z: seq<byte>)
    ensures |z| == n && Cleared(z)
  {
    seq(n, _ => 0)
  }

  function Init(job: Job, memory: Memory): State {
    State(seq(|job.files|, _ => NotSpawned), memory, 0, 0, 0, [], 0, false, map[], Spawning)
  }

  datatype Action =
    | Spawn
    | BeginCollecting
    | CloseResults
    | Collect
    | WriteArchive
    | Enter(i: nat)
    | Open(i: nat)
    | GetBuffer(i: nat, choice: Option<Ref>)
    | Read(i: nat, n: nat, how: ReadStatus)
    | Append(i: nat)
    | PutBuffer(i: nat)
    | Build(i: nat)
    | Send(i: nat)
    | Release(i: nat)
    | Leave(i: nat)
    | DropPooled(ref: Ref)
    | ForeignGet(choice: Option<Ref>)
    | ForeignWrite(ref: Ref, data: seq<byte>)
    | ForeignPut(ref: Ref)

  // ---------- what a worker computes for its file ----------

  /** Nil for a failed read and, because nothing is ever appended, for an empty file. */
  function ReadOutcome(f: File): Option<seq<byte>> {
    if f.readable && f.content != [] then Some(f.content) else None
  }

  function ProcessedOf(f: File, i: nat): Processed {
    if f.openable && ReadOutcome(f).Some? && f.headerOk then Good(i, HeaderOf(f), f.content) else Bad(i)
  }

  predicate AllGood(results: seq<Processed>) {
    forall i :: 0 <= i < |results| ==> results[i].Good?
  }

  /** Writing one collected result. */
  function AddResult(entries: seq<Entry>, r: Processed): Option<seq<Entry>>
    requires r.Good?
  {
    if Flushed(entries) && r.header.encodable && |r.content| <= r.header.size
    then Some(entries + [Entry(r.header.name, r.header.size, r.content)])
    else None
  }

  function AddResults(results: seq<Processed>): Option<seq<Entry>>
    requires AllGood(results)
  {
    if results == [] then Some([]) else
      match AddResults(results[..|results| - 1])
      case None => None
      case Some(entries) => AddResult(entries, results[|results| - 1])
  }

  function WriteResult(results: seq<Processed>): Option<seq<Entry>>
    requires AllGood(results)
  {
    match AddResults(results)
    case None => None
    case Some(entries) => if Flushed(entries) then Some(entries) else None
  }

  function AllProcessed(files: seq<File>): seq<Processed> {
    if files == [] then [] else
      AllProcessed(files[..|files| - 1]) + [ProcessedOf(files[|files| - 1], |files| - 1)]
  }

  /** The outcome, whatever the interleaving. */
  function ConcurrentResult(files: seq<File>): Option<seq<Entry>> {
    if AllGood(AllProcessed(files)) then WriteResult(AllProcessed(files)) else None
  }

  // ---------- the buffer pool ----------

  /** A pooled buffer of the runtime's choice, or a new zeroed one. */
  function TakeBuffer(m: Memory, choice: Option<Ref>): Option<(Memory, Ref)> {
    match choice
    case None => Some((m.(buffers := m.buffers + [Zeros(TAR_BUFFER_SIZE)]), |m.buffers|))
    case Some(r) =>
      if r in m.pool && r < |m.buffers| then Some((m.(pool := m.pool - multiset{r}), r)) else None
  }

  /** Clearing a buffer and pooling it. */
  function GiveBuffer(m: Memory, r: Ref): Option<Memory> {
    if r < |m.buffers|
    then Some(m.(buffers := m.buffers[r := Zeros(|m.buffers[r]|)], pool := m.pool + multiset{r}))
    else None
  }

  /** Reading `data` into the front of a buffer. */
  function FillBuffer(m: Memory, r: Ref, data: seq<byte>): Option<Memory> {
    if r < |m.buffers| && |data| <= |m.buffers[r]|
    then Some(m.(buffers := m.buffers[r := data + m.buffers[r][|data|..]]))
    else None
  }

  // ---------- the steps ----------

  function WithWorker(s: State, i: nat, w: Worker): State
    requires i < |s.workers|
  {
    s.(workers := s.workers[i := w])
  }

  /** Taking a slot when one is free; otherwise the file is processed without one. */
  function StepEnter(job: Job, s: State, i: nat): Option<State>
    requires i < |s.workers|
  {
    if !s.workers[i].Entering? then None
    else if s.tokens < job.slots then Some(WithWorker(s, i, Opening(true)).(tokens := s.tokens + 1))
    else Some(WithWorker(s, i, Opening(false)))
  }

  function StepOpen(job: Job, s: State, i: nat): Option<State>
    requires i < |job.files| == |s.workers|
  {
    match s.workers[i]
    case Opening(t) =>
      Some(WithWorker(s, i, if job.files[i].openable then GettingBuffer(t) else Sending(t, Bad(i))))
    case _ => None
  }

  function StepGetBuffer(s: State, i: nat, choice: Option<Ref>): Option<State>
    requires i < |s.workers|
  {
    match s.workers[i]
    case GettingBuffer(t) =>
      (match TakeBuffer(s.memory, choice)
       case None => None
       case Some((m, r)) => Some(WithWorker(s, i, Reading(t, r, 0, [])).(memory := m)))
    case _ => None
  }

  function StepRead(job: Job, s: State, i: nat, n: nat, status: ReadStatus): Option<State>
    requires i < |job.files| == |s.workers|
  {
    match s.workers[i]
    case Reading(t, r, pos, result) =>
      if !ReadMay(job.files[i], pos, TAR_BUFFER_SIZE, n, status) then None else
        (match FillBuffer(s.memory, r, job.files[i].content[pos..pos + n])
         case None => None
         case Some(m) => Some(WithWorker(s, i, Appending(t, r, pos, result, n, status)).(memory := m)))
    case _ => None
  }

  /** Copying the bytes read out of the buffer, then looking at how the read ended. */
  function StepAppend(s: State, i: nat): Option<State>
    requires i < |s.workers|
  {
    match s.workers[i]
    case Appending(t, r, pos, result, n, status) =>
      if r >= |s.memory.buffers| || n > |s.memory.buffers[r]| then None else
        var result' := result + s.memory.buffers[r][..n];
        Some(WithWorker(s, i,
          match status
          case More => Reading(t, r, pos + n, result')
          case Eof => PuttingBuffer(t, r, if result' == [] then None else Some(result'))
          case Failed => PuttingBuffer(t, r, None)))
    case _ => None
  }

  function StepPutBuffer(s: State, i: nat): Option<State>
    requires i < |s.workers|
  {
    match s.workers[i]
    case PuttingBuffer(t, r, content) =>
      (match GiveBuffer(s.memory, r)
       case None => None
       case Some(m) => Some(WithWorker(s, i, Building(t, content)).(memory := m)))
    case _ => None
  }

  function StepBuild(job: Job, s: State, i: nat): Option<State>
    requires i < |job.files| == |s.workers|
  {
    match s.workers[i]
    case Building(t, content) =>
      var f := job.files[i];
      Some(WithWorker(s, i, Sending(t,
        if content.None? || !f.headerOk then Bad(i) else Good(i, HeaderOf(f), content.value))))
    case _ => None
  }

  /** The result channel has room for one result per file; a full channel would block. */
  function StepSend(job: Job, s: State, i: nat): Option<State>
    requires i < |s.workers|
  {
    match s.workers[i]
    case Sending(t, processed) =>
      if !s.closed && |s.sent| - s.received < |job.files|
      then Some(WithWorker(s, i, Releasing(t)).(sent := s.sent + [processed]))
      else None
    case _ => None
  }

  function StepRelease(s: State, i: nat): Option<State>
    requires i < |s.workers|
  {
    match s.workers[i]
    case Releasing(t) =>
      if t && s.tokens == 0 then None
      else Some(WithWorker(s, i, Leaving).(tokens := if t then s.tokens - 1 else s.tokens))
    case _ => None
  }

  function StepLeave(s: State, i: nat): Option<State>
    requires i < |s.workers|
  {
    if s.workers[i].Leaving? && s.waitGroup > 0
    then Some(WithWorker(s, i, Done).(waitGroup := s.waitGroup - 1))
    else None
  }

  function StepSpawn(s: State): Option<State> {
    if s.main.Spawning? && s.spawned < |s.workers|
    then Some(WithWorker(s, s.spawned, Entering).(spawned := s.spawned + 1, waitGroup := s.waitGroup + 1))
    else None
  }

  function StepCollect(s: State): Option<State> {
    if !s.main.Collecting? || s.received >= |s.sent| then None else
      var r := s.sent[s.received];
      if r.Bad? then Some(s.(received := s.received + 1, main := Returned(None)))
      else Some(s.(received := s.received + 1, results := s.results[r.index := r]))
  }

  predicate HasAll(results: map<nat, Processed>, n: nat) {
    forall i: nat :: i < n ==> i in results
  }

  /** The results by file index. */
  function InOrder(results: map<nat, Processed>, n: nat): seq<Processed>
    requires HasAll(results, n)
  {
    if n == 0 then [] else InOrder(results, n - 1) + [results[n - 1]]
  }

  /** The channel is closed and drained: the collected results are written in file order. */
  function StepWrite(job: Job, s: State): Option<State> {
    if s.main.Collecting? && s.closed && s.received == |s.sent| && HasAll(s.results, |job.files|)
       && AllGood(InOrder(s.results, |job.files|))
    then Some(s.(main := Returned(WriteResult(InOrder(s.results, |job.files|)))))
    else None
  }

  function WithMemory(s: State, m: Option<Memory>): Option<State> {
    match m case None => None case Some(m') => Some(s.(memory := m'))
  }

  function StepForeign(s: State, a: Action): Option<State> {
    match a
    case DropPooled(r) =>
      if r in s.memory.pool then Some(s.(memory := s.memory.(pool := s.memory.pool - multiset{r}))) else None
    case ForeignGet(choice) =>
      (match TakeBuffer(s.memory, choice)
       case None => None
       case Some((m, r)) => Some(s.(memory := m.(foreign := m.foreign + multiset{r}))))
    case ForeignWrite(r, data) =>
      if r in s.memory.foreign then WithMemory(s, FillBuffer(s.memory, r, data)) else None
    case ForeignPut(r) =>
      if r in s.memory.foreign
      then WithMemory(s, GiveBuffer(s.memory.(foreign := s.memory.foreign - multiset{r}), r))
      else None
    case _ => None
  }

  predicate IsForeign(a: Action) {
    a.DropPooled? || a.ForeignGet? || a.ForeignWrite? || a.ForeignPut?
  }

  function StepWorker(job: Job, s: State, a: Action, i: nat): Option<State>
    requires i < |job.files| == |s.workers|
  {
    match a
    case Enter(_) => StepEnter(job, s, i)
    case Open(_) => StepOpen(job, s, i)
    case GetBuffer(_, choice) => StepGetBuffer(s, i, choice)
    case Read(_, n, status) => StepRead(job, s, i, n, status)
    case Append(_) => StepAppend(s, i)
    case PutBuffer(_) => StepPutBuffer(s, i)
    case Build(_) => StepBuild(job, s, i)
    case Send(_) => StepSend(job, s, i)
    case Release(_) => StepRelease(s, i)
    case Leave(_) => StepLeave(s, i)
    case _ => None
  }

  function WorkerOf(a: Action): Option<nat> {
    match a
    case Enter(i) => Some(i)
    case Open(i) => Some(i)
    case GetBuffer(i, _) => Some(i)
    case Read(i, _, _) => Some(i)
    case Append(i) => Some(i)
    case PutBuffer(i) => Some(i)
    case Build(i) => Some(i)
    case Send(i) => Some(i)
    case Release(i) => Some(i)
    case Leave(i) => Some(i)
    case _ => None
  }

  function Step(job: Job, s: State, a: Action): Option<State> {
    match WorkerOf(a)
    case Some(i) => if i < |job.files| == |s.workers| then StepWorker(job, s, a, i) else None
    case None =>
      match a
      case Spawn => StepSpawn(s)
      case BeginCollecting =>
        if s.main.Spawning? && s.spawned == |s.workers| then Some(s.(main := Collecting)) else None
      case CloseResults =>
        if !s.main.Spawning? && s.waitGroup == 0 && !s.closed then Some(s.(closed := true)) else None
      case Collect => StepCollect(s)
      case WriteArchive => StepWrite(job, s)
      case _ => StepForeign(s, a)
  }

  function Run(job: Job, s: State, trace: seq<Action>): Option<State>
    decreases |trace|
  {
    if trace == [] then Some(s) else
      match Step(job, s, trace[0])
      case None => None
      case Some(s') => Run(job, s', trace[1..])
  }

  // ---------- the invariant ----------

  /** The buffer a worker holds. */
  function Lent(w: Worker): Option<Ref> {
    match w
    case Reading(_, r, _, _) => Some(r)
    case Appending(_, r, _, _, _, _) => Some(r)
    case PuttingBuffer(_, r, _) => Some(r)
    case _ => None
  }

  function HasToken(w: Worker): bool {
    match w
    case NotSpawned => false
    case Entering => false
    case Leaving => false
    case Done => false
    case _ => w.token
  }

  function Live(w: Worker): bool { !w.NotSpawned? && !w.Done? }

  predicate HasSent(w: Worker) { w.Releasing? || w.Leaving? || w.Done? }

  /** What a worker knows of its file, and that a buffer being read holds what was read. */
  predicate WorkerOk(f: File, i: nat, w: Worker, buffers: seq<seq<byte>>) {
    match w
    case GettingBuffer(_) => f.openable
    case Reading(_, r, pos, result) => f.openable && pos <= |f.content| && result == f.content[..pos]
    case Appending(_, r, pos, result, n, status) =>
      && f.openable && ReadMay(f, pos, TAR_BUFFER_SIZE, n, status) && result == f.content[..pos]
      && r < |buffers| && n <= |buffers[r]| && buffers[r][..n] == f.content[pos..pos + n]
    case PuttingBuffer(_, r, content) => f.openable && content == ReadOutcome(f)
    case Building(_, content) => f.openable && content == ReadOutcome(f)
    case Sending(_, processed) => processed == ProcessedOf(f, i)
    case _ => true
  }

  predicate Cleared(buffer: seq<byte>) {
    forall k :: 0 <= k < |buffer| ==> buffer[k] == 0
  }

  /** Pooled buffers are zero, and no buffer is pooled twice, lent twice, or both. */
  predicate MemoryOk(m: Memory) {
    && (forall r :: 0 <= r < |m.buffers| ==> |m.buffers[r]| == TAR_BUFFER_SIZE)
    && (forall r :: r in m.pool ==> r < |m.buffers| && m.pool[r] == 1 && m.foreign[r] == 0 && Cleared(m.buffers[r]))
    && (forall r :: r in m.foreign ==> r < |m.buffers| && m.foreign[r] == 1)
  }

  predicate HeldAlone(m: Memory, r: Ref) {
    r < |m.buffers| && m.pool[r] == 0 && m.foreign[r] == 0
  }

  predicate LentOk(ws: seq<Worker>, m: Memory) {
    && (forall i :: 0 <= i < |ws| && Lent(ws[i]).Some? ==> HeldAlone(m, Lent(ws[i]).value))
    && (forall i, j :: 0 <= i < j < |ws| && Lent(ws[i]).Some? && Lent(ws[j]).Some? ==> Lent(ws[i]) != Lent(ws[j]))
  }

  predicate Counters(job: Job, s: State) {
    && s.tokens == Count(s.workers, HasToken)
    && s.tokens <= job.slots
    && s.waitGroup == Count(s.workers, Live)
    && s.spawned <= |s.workers|
    && (forall i :: 0 <= i < |s.workers| ==> (s.workers[i].NotSpawned? <==> i >= s.spawned))
    && (!s.main.Spawning? ==> s.spawned == |s.workers|)
  }

  /** Each worker sends the one result of its file, once. */
  predicate SentOk(job: Job, s: State)
    requires |s.workers| == |job.files|
  {
    && (forall k :: 0 <= k < |s.sent| ==>
          && s.sent[k].index < |job.files|
          && s.sent[k] == ProcessedOf(job.files[s.sent[k].index], s.sent[k].index)
          && HasSent(s.workers[s.sent[k].index]))
    && (forall k, l :: 0 <= k < l < |s.sent| ==> s.sent[k].index != s.sent[l].index)
    && (forall i :: 0 <= i < |s.workers| && HasSent(s.workers[i]) ==> ProcessedOf(job.files[i], i) in s.sent)
  }

  predicate MainOk(job: Job, s: State)
    requires |s.workers| == |job.files|
  {
    && s.received <= |s.sent|
    && (s.closed ==> !s.main.Spawning? && forall i :: 0 <= i < |s.workers| ==> s.workers[i].Done?)
    && (!s.main.Returned? ==> forall k :: 0 <= k < s.received ==>
          s.sent[k].Good? && s.sent[k].index in s.results && s.results[s.sent[k].index] == s.sent[k])
    && (forall i :: i in s.results ==> i < |job.files| && s.results[i] == ProcessedOf(job.files[i], i))
    && (s.main.Returned? ==> s.main.archive == ConcurrentResult(job.files))
  }

  predicate BuffersInv(job: Job, ws: seq<Worker>, m: Memory) {
    && |ws| == |job.files|
    && (forall i :: 0 <= i < |ws| ==> WorkerOk(job.files[i], i, ws[i], m.buffers))
    && MemoryOk(m)
    && LentOk(ws, m)
  }

  predicate Inv(job: Job, s: State) {
    && BuffersInv(job, s.workers, s.memory)
    && Counters(job, s)
    && SentOk(job, s)
    && MainOk(job, s)
  }
}
