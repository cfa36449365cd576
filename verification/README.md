# Verification of engine-ci

A Dafny model of the concurrent and stateful parts of engine-ci, the container-based build engine, with proofs of
what they are for:

- **The log pipeline** (`LogBatcher`, `LogStore`, `LogPipeline`, `LogTheorems`, `LogProgress`, `LogOrder`, `LogOutcome`,
  `LogAggregator`). Producers, the batching goroutine, the workers, the display goroutine and a caller of `Flush` are one
  state machine in which any of them may take the next step. `LogAggregator` is the same store as objects updated in place, for batches processed one
  after another with display passes in between.
- **Archives** (`BufferPool`, `TarArchive`, `TarConcurrent`, `TarInvariant`, `TarTheorems`, `Paths`, `TarExtract`,
  `TarRoundTrip`). The sequential archiver, the concurrent one as a state machine over pooled buffers shared with other
  users of the pool, the refinement of one by the other, and extraction as the inverse of archiving.
- **Builds** (`Engine`, `BuildSteps`, `BuildRun`, `BuildOutcomes`). The group loop with its goroutines, barrier, leader
  lock, ID store and process exit; the registry of build steps; one run of the steps that match a build, and all it can
  come to under any schedule.
- **Texts that are printed and read back** (`ImageRef`, `Images`, `ShellQuote`, `Token`, with `Strings` and `Sorting`).
- **Smaller stateful parts** (`ChannelReader`, `Doctor`, `Discovery`, `KvStore`).

`Seqs`, `Bytes`, `Strings` and `Sorting` hold what several of these share. `dafny verify dfyconfig.toml` checks
everything.

How the code's surroundings appear in the model:

- A channel is a bounded sequence with a closed flag; a receive from an empty open channel and a send to a full one are
  steps that are not enabled. Go 1.26 (see `go.mod`) makes timer channels synchronous, so a stopped or reset timer leaves
  no stale tick.
- `sync.Pool` hands out any pooled item or a new one, and may drop items at any time.
- A run is a list of actions; "reachable" means at the end of some run from the initial state. Every theorem about
  reachable states holds for every interleaving.
- The hash behind tokens, the domain test on image registries, the analysis of a project directory and the checks a doctor
  runs are arbitrary functions or values. A sort may return any sorted permutation.
- What a file does when it is opened, stat-ed and read is part of the file's value, so failures are inputs too. A read may
  deliver any number of bytes allowed to it, with or without the end of the file.
- Archives are lists of header and content pairs; a disk is a map from absolute component lists to files and folders.

Findings where the code differs from what it or its documentation suggests, each proved with its exact condition:

- `Flush` is documented to wait for all messages to be processed (`pkg/logger/terminal.go:222`). It waits for the display
  goroutine only, so this holds exactly when nothing was pending at the call: `LogTheorems.FlushWaitsIffNothingPending`;
  an early return is `LogProgress.FlushCanReturnEarly`.
- A leaving batcher may see the shutdown signal before the messages still in the log channel. Under every schedule all
  workers finish with everything added that was accepted before Flush was called exactly when the log channel is empty at
  the call: `LogProgress.FlushLosesNothingIff`; any single line can be lost: `LogProgress.ALineCanBeLost`.
- Lines are added in send order exactly with a single worker, and the code has two: `LogOrder.AddedInSendOrderIff`,
  `LogOrder.TwoWorkersCanReorder`. With more than one, later lines of a routine wait for the earlier ones exactly when none
  of the earlier ones is pending at the time: `LogOrder.SenderKeepsOrderIff`.
- The concurrent archiver reports an error for an empty file, which the sequential one archives. The choice between the
  two forms is visible exactly for large trees that hold an empty file and that the sequential form archives:
  `TarTheorems.DispatchIsVisibleOnlyForEmptyFiles`, `TarTheorems.OneEmptyFileAmongMany`.
- The check in `ExtractTar` is to ensure that a path is within the target directory (`pkg/cri/utils/tar.go:29`). It
  compares strings, so an admitted name leads elsewhere exactly when the target is not the root and the path's component
  in the place of the target's last one properly extends it: `TarExtract.AdmittedOutsideIff`,
  `TarExtract.OneNameAdmittedOutside`.
- `BuildSteps.Add` puts a step of category Build at the very end, which keeps the category order exactly when no later
  category has steps: `BuildSteps.AddKeepsOrderIff`, `BuildSteps.AddAfterPublishBreaksOrder`.
- Printing a parsed image reference and parsing it again is the identity exactly when it has a registry:
  `ImageRef.PrintIsIdempotentIff`.
- `parseImageURI` splits without loss exactly when a slash precedes the last colon: `Images.LosslessIff`,
  `Images.PortIsTakenForATag`.
- A run of the checks in parallel has one possible output exactly when no two different results share category and name:
  `Doctor.ParallelIsDeterministicIff`, `Doctor.TwoReportsOfOneName`.
- Java discovery can keep a directory twice, once for each of its configuration files. It does so exactly when two files
  of one directory can be analysed and no file before the later of them that can be analysed lies in a directory above:
  `Discovery.FoundTwiceIff`, `Discovery.JavaKeepsTheSameDirectoryTwice`. Python discovery never does:
  `Discovery.PythonCoversEveryDirectory`.
- Projects found can nest, exactly when a directory that can be analysed comes after one below it that can be analysed
  too, and no such directory before the inner one contains that one: `Discovery.FoundNestIff`,
  `Discovery.InnerFirstNests`. Python discovery takes the directories in any order, so it can find nested projects exactly
  when one directory that can be analysed lies below another: `Discovery.PythonCanNestIff`.
- What a run of build steps returns depends on the schedule. There is one order of IDs exactly when no selected step
  before the last is asynchronous, one list of IDs exactly when every asynchronous step is followed only by steps with its
  ID, and one error exactly when some synchronous step fails or all asynchronous failures are equal:
  `BuildOutcomes.AlwaysInOrderIff`, `BuildOutcomes.OneListIff`, `BuildOutcomes.OneVerdictIff`.
- The client of the key-value store reads an empty text exactly for a key that was never stored:
  `KvStore.ClientReadsLastPost`.

## Model

| member | source | states |
|---|---|---|
| LogBatcher.Start | pkg/logger/terminal.go:244-291 | the select loop, for any sequence of ready cases, sends the batches, keeps the batch and timer, and closes exactly as the turn-by-turn machine does |
| LogBatcher.TurnAccounted | pkg/logger/terminal.go:250-289 | one turn keeps: batches sent plus current batch are the messages taken, sizes are between 1 and the limit, the timer is pending exactly while a batch waits |
| LogBatcher.BatchesPartitionTheInput | pkg/logger/terminal.go:244-291 | over every run of the loop the batches sent followed by the current batch are the input in order, each of 1 to 10 messages, and nothing is held back on leaving |
| LogBatcher.WhenBatchesAreSent | pkg/logger/terminal.go:250-289 | one more turn after any script: a message sends the batch if and only if it is its tenth, a tick, a close or a shutdown if and only if a batch waits, and only the last two end the loop |
| LogBatcher.MessagesAlone | pkg/logger/terminal.go:257-273 | over n messages alone n / 10 batches are sent, each of ten messages, and n % 10 messages wait |
| LogStore.ReplayIsAWindow | pkg/logger/terminal.go:99-115 | a routine's window is the last five of the lines added since its last clearing |
| LogStore.LinesSinceCleared | pkg/logger/terminal.go:99-115 | those lines by their positions in the history: exactly the lines added for the routine that no clearing of it follows, in order |
| LogStore.ReplayOutcome | pkg/logger/terminal.go:353-359 | a routine is done if and only if a done message of its was marked, and failed exactly if the last such message says so |
| LogStore.LookUp | pkg/logger/terminal.go:330-336 | a worker goes on with the published entry of the routine if there is one and to the pool otherwise, which hands out any pooled entry or a new one |
| LogStore.GetKeeps | pkg/logger/terminal.go:336-341 | taking any pooled or new entry and resetting it keeps ownership of all entries; the entry is blank and private |
| LogStore.StoreKeeps | pkg/logger/terminal.go:343-348 | load-or-store keeps ownership: a lost race leaves the map alone and goes on with the published entry, a won one publishes the private entry |
| LogStore.PublishKeeps | pkg/logger/terminal.go:343-348 | publishing a private entry keeps every entry with one owner and equal to the replay of its events |
| LogStore.ReturnKeeps | pkg/logger/terminal.go:344-345 | the spare entry of a lost race goes back to the pool, which keeps ownership and changes nothing else |
| LogStore.AddKeeps | pkg/logger/terminal.go:351-351 | adding a line writes the published entry of the message's routine and nothing else |
| LogStore.MarkKeeps | pkg/logger/terminal.go:353-359 | marking an outcome writes the published entry of the message's routine and nothing else |
| LogStore.ClearKeeps | pkg/logger/terminal.go:469-473 | the display's clearing of a completed window writes that entry and nothing else, and keeps ownership and the replay |
| LogStore.ClearsIffCompleted | pkg/logger/terminal.go:469-473 | a window is cleared if and only if its routine has an entry that is done and did not fail |
| LogStore.DropKeeps | pkg/logger/terminal.go:131-137 | the runtime dropping a pooled entry keeps ownership and changes no entry, no map entry and no worker |
| LogStore.WorkKeeps | pkg/logger/terminal.go:327-362 | every action of every worker keeps: pooled, private and published entries are disjoint, no two routines share one, and each published entry equals the replay of the events |
| LogStore.WorkKeepsPublished | pkg/logger/terminal.go:330-349 | once published, an entry stays the one for its routine |
| LogPipeline.SendKeepsIntake | pkg/logger/terminal.go:182-185 | a producer's send keeps accepted = emitted batches, current batch and channel, in order |
| LogPipeline.ReceiveKeepsIntake | pkg/logger/terminal.go:251-273 | the batcher's receive keeps that order and the batch bounds |
| LogPipeline.HandOverKeepsIntake | pkg/logger/terminal.go:255-286 | the blocking send of a batch keeps that order and the batch bounds |
| LogPipeline.TakeKeepsIntake | pkg/logger/terminal.go:321-323 | a worker's receive keeps emitted = taken batches followed by queued ones |
| LogPipeline.StepKeepsCloses | pkg/logger/terminal.go:223-238 | every action keeps the relation between flags, program counters, channel closing and panics |
| LogPipeline.TakeKeepsConserved | pkg/logger/terminal.go:321-323 | taking a batch moves its messages into a worker's hands |
| LogPipeline.WorkKeepsConserved | pkg/logger/terminal.go:330-362 | every worker action keeps messages taken = messages added plus messages in hands |
| LogPipeline.WorkKeepsInOrder | pkg/logger/terminal.go:330-362 | each worker adds what it took in the order in which it took it |
| LogPipeline.StepKeeps | pkg/logger/terminal.go:182-400 | every action of any goroutine keeps the whole pipeline invariant |
| LogPipeline.RunKeeps | pkg/logger/terminal.go:182-400 | every run keeps it |
| LogPipeline.ReachableInv | pkg/logger/terminal.go:118-160 | it holds in every reachable state, for any number of workers |
| LogTheorems.NothingLostOrDuplicated | pkg/logger/terminal.go:244-291 | in every reachable state the accepted messages are, as a multiset, those added, in workers' hands, queued, in the current batch and in the log channel |
| LogTheorems.WhatTheWorkersAdded | pkg/logger/terminal.go:244-291 | when the workers are done, what is missing is exactly what was left in the log channel; nothing after an exit by closed channel; all was added if and only if the channel is empty |
| LogTheorems.BatchesFollowTheSendOrder | pkg/logger/terminal.go:244-291 | emitted batches concatenate to a prefix of the send order, each of 1 to 10 messages; the timer is pending exactly while a batch waits, and a batch handed over with it pending is full |
| LogTheorems.SendsBlockIffFull | pkg/logger/terminal.go:121-152 | a send blocks if and only if the open log channel holds a thousand messages, handing a batch over if and only if a hundred are queued |
| LogTheorems.OnlyLateProducersPanic | pkg/logger/terminal.go:223-291 | no send on or second close of the process channel ever happens; the only panic is a producer sending after Flush closed the log channel |
| LogTheorems.ClosedChannelsPanic | pkg/logger/terminal.go:182-291 | sends on closed channels and a second close do panic, in any state |
| LogTheorems.LeavesByItsCause | pkg/logger/terminal.go:250-289 | the batcher can leave by the closed channel if and only if that is closed and empty, by the signal if and only if it is given, and hands over first what waits |
| LogTheorems.FlushWaitsForTheLastPass | pkg/logger/terminal.go:223-238 | the order of the shutdown signal, the close, the last pass of the display and the return of Flush |
| LogTheorems.EntriesAreOwnedAndLinear | pkg/logger/terminal.go:327-362 | in every reachable state entries have one owner, each published window is the last five lines added for its routine since its last clearing, and its outcome is that of the last marked message |
| LogTheorems.RunExtends | pkg/logger/terminal.go:330-349 | along any run the map only gains routines and the history only grows |
| LogTheorems.AddsLandInTheFinalEntry | pkg/logger/terminal.go:343-351 | an entry a worker is about to write stays the map's entry for that routine for ever |
| LogTheorems.ReachableByStep | pkg/logger/terminal.go:118-160 | the initial state is reachable, and whatever one more action of anybody leads to |
| LogTheorems.FlushWaitsIffNothingPending | pkg/logger/terminal.go:222-238 | Flush returns only after everything accepted was added, under every schedule, if and only if nothing was pending at the call |
| LogTheorems.AllProcessedIffAllAdded | pkg/logger/terminal.go:222-238 | nothing is pending if and only if every accepted message was added |
| LogProgress.NeverStuck | pkg/logger/terminal.go:244-400 | after the shutdown signal, and until all workers have finished, somebody can step without a send, a receive or a display pass |
| LogProgress.StepDecreases | pkg/logger/terminal.go:182-400 | every action decreases a measure, but a send to the open channel adds a fixed amount and a display pass nothing |
| LogProgress.MovesAndSends | pkg/logger/terminal.go:182-400 | the moves counted below are the actions that are not display passes, the sends those of producers |
| LogProgress.RunsAreBounded | pkg/logger/terminal.go:182-400 | so the moves of a run are bounded by the measure and the number of sends; by the measure alone once the log channel is closed |
| LogProgress.ReachableRunsAreBounded | pkg/logger/terminal.go:182-400 | the same from every reachable state |
| LogProgress.Drain | pkg/logger/terminal.go:282-324 | after the shutdown signal some schedule finishes all workers without the batcher receiving anything more |
| LogProgress.AddedIsReceived | pkg/logger/terminal.go:244-362 | once the workers are done they have added exactly what the batcher received |
| LogProgress.FlushLosesNothingIff | pkg/logger/terminal.go:223-291 | before Flush is called: under every schedule from here the finished workers have added everything accepted so far, if and only if the log channel is empty |
| LogProgress.LosingRun | pkg/logger/terminal.go:226-289 | calling Flush, some schedule adds only what the batcher has received by then |
| LogProgress.ALineCanBeLost | pkg/logger/terminal.go:282-289 | for any line and any number of workers some run accepts it, finishes all workers and never adds it |
| LogProgress.FlushCanReturnEarly | pkg/logger/terminal.go:222-238 | a run in which Flush returns before the one line accepted is added |
| LogOrder.OneWorkerIsFifo | pkg/logger/terminal.go:318-351 | with a single worker what was added, what is in its hands, queued, being batched and in the channel is the send order |
| LogOrder.Settle | pkg/logger/terminal.go:244-362 | with one worker held back the others can finish everything that reaches them |
| LogOrder.IntoHands | pkg/logger/terminal.go:244-362 | any pending line can be brought into the hands of some worker |
| LogOrder.Overtake | pkg/logger/terminal.go:304-362 | with two workers or more, a line sent now can be added before any line still pending |
| LogOrder.TwoWorkersCanReorder | pkg/logger/terminal.go:124-124 | with two workers or more, any two lines sent one after the other can be added the other way round |
| LogOrder.AddedInSendOrderIff | pkg/logger/terminal.go:304-362 | lines are added in send order in every reachable state if and only if there is a single worker |
| LogOrder.SenderKeepsOrderIff | pkg/logger/terminal.go:182-185 | under every schedule the lines of a routine sent from now on are added after those sent before, if and only if there is one worker or none of the routine's lines is pending |
| LogOutcome.WorkKeepsMarks | pkg/logger/terminal.go:351-359 | every worker action keeps: only done messages that were added are marked, and each of them is unless its worker is about to |
| LogOutcome.OutcomeIsTheMessages | pkg/logger/terminal.go:182-362 | under every schedule, once nothing is on its way, every routine that sent a line has an entry, done if and only if some accepted message of the routine was, with the outcome one of those gives |
| LogAggregator.LogEntry.AddMessage | pkg/logger/terminal.go:99-115 | the in-place shift of a full window leaves the last four lines and the new one |
| LogAggregator.LogAggregator.EntryFor | pkg/logger/terminal.go:333-349 | load or create: the routine gets an entry, all others keep theirs |
| LogAggregator.LogAggregator.Process | pkg/logger/terminal.go:330-362 | one message updates exactly its routine's entry, as replaying its events does |
| LogAggregator.LogAggregator.ProcessMessages | pkg/logger/terminal.go:330-362 | a batch, message by message, appends exactly its events and touches exactly its routines |
| LogAggregator.LogAggregator.ProcessBatch | pkg/logger/terminal.go:327-378 | after a batch the display order is duplicate-free and lists exactly the routines of the map, and earlier ones keep their places |
| LogAggregator.LogAggregator.NoteRoutines | pkg/logger/terminal.go:366-377 | the touched routines join the order in any order, once |
| LogAggregator.LogAggregator.NoteRoutine | pkg/logger/terminal.go:366-376 | a routine not listed yet is appended, a listed one changes nothing |
| LogAggregator.LogAggregator.Listed | pkg/logger/terminal.go:367-373 | the scan finds a routine if and only if it is in the order |
| LogAggregator.LogAggregator.UpdateDisplay | pkg/logger/terminal.go:457-505 | a display pass draws title, finished and running routines and clears exactly the windows of those completed without failure |
| LogAggregator.LogAggregator.DrawAllDone | pkg/logger/terminal.go:460-484 | the first loop draws the finished routines in order and clears as it goes |
| LogAggregator.LogAggregator.DrawRunning | pkg/logger/terminal.go:486-503 | the second loop draws the running routines in order and changes nothing |
| LogAggregator.LogAggregator.DrawDone | pkg/logger/terminal.go:469-481 | one finished routine: cleared and shown as completed, or shown as failed with its last lines |
| LogAggregator.ClearsOnlyDone | pkg/logger/terminal.go:469-473 | a display pass clears exactly the windows of the listed routines that completed without failing and leaves every other window and all flags alone |
| LogAggregator.RunningAfterClears | pkg/logger/terminal.go:486-503 | the clearing of the first loop does not change what the second one draws |
| LogAggregator.EachRoutineOnce | pkg/logger/terminal.go:457-505 | every screen names each routine of the order exactly once, finished ones before running ones, each group in order |
| LogAggregator.ScreenHeader | pkg/logger/terminal.go:469-497 | a screen shows a listed routine as completed, failed or running exactly by its outcome |
| LogAggregator.FailedText | pkg/logger/terminal.go:474-480 | below the header of a failed routine stand exactly the lines of its window, in order |
| LogAggregator.RunningText | pkg/logger/terminal.go:495-501 | likewise for a running one |
| LogAggregator.BatchOutcome | pkg/logger/terminal.go:330-362 | after a batch a routine is done if and only if it was or a message of the batch says so, with the outcome of the last such message |
| BufferPool.BufferPool.Get | pkg/memory/buffers.go:56-65 | under the discipline of returning what one got once: the buffer is zero-filled, of full size, and lent to nobody else; misses never exceed hits |
| BufferPool.BufferPool.Put | pkg/memory/buffers.go:67-81 | a returned buffer is zeroed in place and pooled, and is no longer lent |
| BufferPool.FileReader.Read | pkg/container/container.go:932-941 | any read delivers the next bytes of the file into the front of the buffer |
| BufferPool.ReadPooled | pkg/container/container.go:929-945 | reading through a pooled buffer returns the content, or nil for a failed read and for an empty file, whatever happens to the buffer later |
| TarArchive.TarWriter.WriteHeader | pkg/container/container.go:1041-1043 | a header starts a new entry unless the last one is short of bytes or the header cannot be encoded |
| TarArchive.TarWriter.Write | pkg/container/container.go:990-994 | bytes beyond the announced size fail, others extend the last entry |
| TarArchive.CopyChunk | pkg/container/container.go:1058-1061 | one read and write of the copy loop |
| TarArchive.CopyContent | pkg/container/container.go:1058-1061 | copying through a buffer of any size succeeds if and only if the file is readable and no longer than announced, and copies all of it |
| TarArchive.CopyFile | pkg/container/container.go:1026-1067 | one file of the walk becomes one entry, or the walk stops with an error |
| TarArchive.TarDirSequential | pkg/container/container.go:1006-1082 | the walk with its pooled copy buffer returns the archive of the walk and gives the buffer back |
| TarArchive.SequentialArchivesEverything | pkg/container/container.go:1006-1082 | it succeeds if and only if everything can be processed and every file is as long as its header says, with one entry per file in walk order |
| TarArchive.SequentialSpelledOut | pkg/container/container.go:1006-1082 | the same in terms of what each file does when stat-ed, opened and read, and of name, size and content of each entry |
| TarInvariant.LocalKeeps | pkg/memory/buffers.go:56-81 | a step that touches only its own worker's buffer keeps every other worker's buffer its own and unchanged |
| TarInvariant.WorkerStepIsLocal | pkg/container/container.go:909-966 | every worker action is such a step and leaves the worker with a prefix of its file read so far |
| TarInvariant.WorkerStepKeepsBuffers | pkg/container/container.go:929-945 | every worker action leaves every buffer with at most one holder and pooled buffers zeroed |
| TarInvariant.ForeignStepKeepsBuffers | pkg/memory/buffers.go:56-81 | other users of the pool, in any order, change no buffer a worker holds |
| TarInvariant.WorkerStepKeepsCounters | pkg/container/container.go:908-918 | every worker action keeps semaphore tokens and wait group equal to their holders |
| TarInvariant.SendKeepsSent | pkg/container/container.go:903-966 | a worker sends once, and what it sends is what its file gives |
| TarInvariant.CollectKeepsMain | pkg/container/container.go:975-983 | collecting keeps results at their own index; a bad one makes the outcome an error, whichever arrives first |
| TarInvariant.StepKeeps | pkg/container/container.go:859-1003 | every action of any goroutine keeps the whole invariant |
| TarInvariant.RunKeeps | pkg/container/container.go:859-1003 | every run keeps it |
| TarInvariant.ReachableInv | pkg/container/container.go:859-1003 | it holds in every reachable state |
| TarTheorems.OutcomeIsDeterministic | pkg/container/container.go:859-1003 | whatever the interleaving, a finished run returns the one result determined by the files, an error if and only if some file fails |
| TarTheorems.OutcomeSpelledOut | pkg/container/container.go:859-1003 | whatever the interleaving, a finished run returns one entry per file in order if and only if every file can be processed, is as long as announced and not empty |
| TarTheorems.TokensAreHeld | pkg/container/container.go:912-918 | semaphore tokens equal the workers that hold one, never exceed the slots, and are all back when the workers are done |
| TarTheorems.EntersWithAFreeSlot | pkg/container/container.go:911-919 | a worker takes a slot if and only if one is free and goes on without one otherwise |
| TarTheorems.TakesAndGives | pkg/memory/buffers.go:56-81 | the pool hands out any pooled buffer or a new zeroed one of 65536 bytes, and takes buffers back zeroed |
| TarTheorems.BuffersAreDisciplined | pkg/memory/buffers.go:56-81 | in every reachable state no buffer is lent twice or lent and pooled, and pooled ones are zeroed |
| TarTheorems.SendNeverBlocks | pkg/container/container.go:903-965 | the result channel always has room for a worker's send |
| TarTheorems.ForeignUsersGet | pkg/memory/buffers.go:56-65 | other users of the pool may get any pooled buffer or a new one at any time, and any pooled one may be dropped |
| TarTheorems.ForeignUsersWrite | pkg/memory/buffers.go:56-65 | they may write any bytes that fit into a buffer they hold |
| TarTheorems.ForeignUsersPut | pkg/memory/buffers.go:67-81 | and they return it cleared |
| TarTheorems.ReachableByStep | pkg/container/container.go:859-1003 | what one more action of anybody leads to is reachable too |
| TarTheorems.NeverDeadlocks | pkg/container/container.go:907-983 | until it is over some goroutine of the archiver can step |
| TarTheorems.StepDecreases | pkg/container/container.go:907-983 | every own step decreases a measure, and steps of other pool users leave it alone |
| TarTheorems.OwnStepsAre | pkg/container/container.go:859-1003 | the own steps counted below are those of the archiver, not of other pool users or the runtime |
| TarTheorems.RunsAreBounded | pkg/container/container.go:907-983 | so every run has a bounded number of own steps |
| TarTheorems.ConcurrentArchivesNonEmptyFiles | pkg/container/container.go:929-950 | the concurrent result is the sequential one when no file is empty, and an error otherwise |
| TarTheorems.CollectAndWrite | pkg/container/container.go:975-1002 | the collecting and writing loops return that result for every order of arrival |
| TarTheorems.WriteAll | pkg/container/container.go:985-1002 | writing the results by index yields the archive of the results or fails |
| TarTheorems.CountFiles | pkg/container/container.go:828-847 | the first walk counts files and bytes, and fails if and only if the walk does |
| TarTheorems.TotalSizeAdds | pkg/container/container.go:836-841 | the total size of a walk is additive over its parts |
| TarTheorems.DispatchSpelledOut | pkg/container/container.go:849-855 | up to twenty files of ten megabytes in all are archived file by file, anything larger if and only if every file can be and none is empty |
| TarTheorems.DispatchIsVisibleOnlyForEmptyFiles | pkg/container/container.go:827-856 | the choice of form changes the result if and only if the tree is large, the sequential form archives it, and it holds an empty file |
| TarTheorems.OneEmptyFileAmongMany | pkg/container/container.go:850-852 | twenty-one files of which one is empty: the sequential form archives them, the dispatcher reports an error |
| Paths.SplitJoin | pkg/cri/utils/tar.go:30-31 | splitting undoes joining slash-free pieces |
| Paths.JoinSplit | pkg/cri/utils/tar.go:30-31 | joining undoes splitting |
| Paths.LocateSpelled | pkg/cri/utils/tar.go:30-30 | a clean absolute path leads to the components it spells |
| Paths.JoinLocates | pkg/cri/utils/tar.go:30-30 | joining a directory and a name leads where the name leads from the directory |
| Paths.CleanLeadsTheSame | pkg/cri/utils/tar.go:31-31 | cleaning any path, absolute or relative, does not change where it leads from any directory |
| Paths.ReducedShape | pkg/cri/utils/tar.go:31-31 | what cleaning leaves of a relative path is steps up followed by plain names |
| Paths.JoinLeads | pkg/cri/utils/tar.go:30-30 | joining a name to any directory leads where the name leads from that directory |
| Paths.DirSpelled | pkg/cri/utils/tar.go:43-43 | the directory of a clean absolute path drops the last component |
| Paths.DirOfJoined | pkg/autodiscovery/java.go:45-45 | the directory of a relative path drops its last component |
| Paths.JoinedPrefix | pkg/cri/utils/tar.go:31-31 | one spelled path is a string prefix of another exactly when its components are, but for the last, which need only be a prefix |
| TarExtract.Disk.MakeDirectories | pkg/cri/utils/tar.go:38-45 | creating missing folders top down, failing at the first file in the way |
| TarExtract.Disk.ExtractTar | pkg/cri/utils/tar.go:18-64 | the loop over the archive's entries changes the disk as extracting them one by one does, up to the first failure |
| TarExtract.Disk.WriteFile | pkg/cri/utils/tar.go:48-57 | a file replaces a file and needs its folder |
| TarExtract.WhatTheCheckAdmits | pkg/cri/utils/tar.go:29-33 | exactly which names pass the string prefix check, in terms of path components |
| TarExtract.OutsideIsRefused | pkg/cri/utils/tar.go:30-33 | an entry of any kind whose path does not continue the components of a rooted target, the last of them up to an extension, is refused and leaves the disk alone |
| TarExtract.MkdirExactly | pkg/cri/utils/tar.go:38-45 | making directories succeeds if and only if no file is in the way, and makes exactly the directories up to the first one |
| TarExtract.DirectoryEntry | pkg/cri/utils/tar.go:36-40 | when an admitted directory entry succeeds and what it does to every place on the disk |
| TarExtract.FileEntry | pkg/cri/utils/tar.go:41-57 | when an admitted file entry succeeds and what it does to every place on the disk |
| TarExtract.OtherEntry | pkg/cri/utils/tar.go:58-60 | an admitted entry of another kind is passed over |
| TarExtract.ExtractionStaysNear | pkg/cri/utils/tar.go:18-64 | however an extraction ends, it changes only paths that continue the components of the target, the last up to an extension, and the way there; directories stay directories and files stay files |
| TarExtract.OutsideEntryFails | pkg/cri/utils/tar.go:31-33 | an extraction that meets a name leading elsewhere fails |
| TarExtract.AdmittedOutsideIff | pkg/cri/utils/tar.go:29-33 | an admitted name leads outside the target if and only if the target is not the root and the path's component in the place of the target's last one properly extends it |
| TarExtract.OneNameAdmittedOutside | pkg/cri/utils/tar.go:29-33 | one such name for the target /t |
| TarExtract.NamesWithoutDotDotStayInside | pkg/cri/utils/tar.go:29-33 | names without ".." components pass the check and lead below the target |
| TarExtract.RelativeName | pkg/cri/utils/tar.go:29-33 | a plain relative name passes and leads to that place below the target |
| TarRoundTrip.WalkFindsTheFiles | pkg/container/container.go:1017-1038 | walking a tree finds its files with their slash-separated paths |
| TarRoundTrip.WalkInOrder | pkg/container/container.go:832-843 | a walk goes through the children of a directory in their order |
| TarRoundTrip.UnreadableIsNotArchived | pkg/container/container.go:832-847 | a tree with a directory that cannot be read is not archived |
| TarRoundTrip.SpotsAreApart | pkg/container/container.go:1017-1024 | in a well-formed tree no file's path is another's or runs through it |
| TarRoundTrip.MkdirEffect | pkg/cri/utils/tar.go:43-45 | what creating a chain of folders does to every place on the disk |
| TarRoundTrip.ExtractOne | pkg/cri/utils/tar.go:41-57 | extracting one more file of the tree succeeds and puts it, and only it and its folders, in place |
| TarRoundTrip.ExtractSpots | pkg/cri/utils/tar.go:18-64 | extracting all files of the tree in order succeeds, none rejected by the check |
| TarRoundTrip.ExtractUndoesArchiving | pkg/cri/utils/tar.go:18-62 | extracting the archive of a well-formed tree into an empty absolute target yields exactly the tree's file map and its folders, and changes nothing elsewhere |
| TarRoundTrip.OneFileComesBack | pkg/cri/utils/tar.go:14-65 | for example a directory with one file comes back with that file and nothing else |
| TarRoundTrip.ExtractUndoesTarDir | pkg/container/container.go:827-856 | the dispatching archiver archives such a tree if and only if it has at most twenty files of ten megabytes in all or holds no empty file, and then extraction undoes it |
| TarRoundTrip.ExtractedFiles | pkg/cri/utils/tar.go:41-57 | a file with given content is at a path below the target if and only if the tree has it there |
| Engine.IDStore.Add | pkg/utils/idstore.go:10-14 | appends the given IDs in order |
| Engine.IDStore.Get | pkg/utils/idstore.go:16-18 | returns all IDs in the order they were added |
| Engine.ThreadStepKeeps | cmd/engine.go:106-138 | every action of a build's goroutine keeps the invariant |
| Engine.SpawnKeeps | cmd/engine.go:133-138 | starting a goroutine keeps it |
| Engine.StepKeeps | cmd/engine.go:63-143 | every action of any goroutine keeps it |
| Engine.ReachableInv | cmd/engine.go:94-101 | it holds in every reachable state |
| Engine.GroupBarrier | cmd/engine.go:94-143 | if a build of some group has started, every build of every earlier group ran to its end without error or stop and stored its IDs |
| Engine.ReachableByStep | cmd/engine.go:63-143 | the initial state is reachable, and whatever one more step leads to |
| Engine.StoreHoldsWhatWasStored | pkg/utils/idstore.go:10-14 | the store is the concatenation of the IDs of the builds that have stored theirs, each build's IDs together and in order, earlier groups first |
| Engine.StoreSpelledOut | cmd/engine.go:105-143 | the same as one part for each build that stored, in order of storing, each part the IDs of that build |
| Engine.FinishedMeansAllBuilt | cmd/engine.go:94-101 | when the engine finishes, every build ran to its end and the store holds all their IDs |
| Engine.ExitHasACulprit | cmd/engine.go:115-123 | the process exits early only with status 1 for a build of the current group that has run and failed, or status 0 for one that asked to stop |
| Engine.LeadershipIsExclusive | cmd/engine.go:63-82 | at most one function passed to Leader runs at any time, and in every awake goroutine the functions run and the calls left to complete add up to its calls |
| Engine.LeaderIsTriedThenAwaited | cmd/engine.go:63-82 | trying for the lock can succeed if and only if it is free, and who failed gets it if and only if it is free |
| Engine.NeverDeadlocks | cmd/engine.go:63-143 | until it finishes or exits some goroutine can step |
| Engine.StepDecreases | cmd/engine.go:63-143 | every step decreases a measure |
| Engine.RunsAreBounded | cmd/engine.go:63-143 | so every run is bounded |
| BuildSteps.BuildSteps.FindFirstStepInCategory | pkg/build/build.go:197-204 | the position of the first step of a category, or -1 if and only if there is none |
| BuildSteps.BuildSteps.InsertPosition | pkg/build/build.go:177-187 | the first step of the nearest later category that has steps, or the end of the registry; in an ordered registry, the end of the target category |
| BuildSteps.BuildSteps.CategoryIndex | pkg/build/build.go:161-171 | the place of a category in the order, -1 for an unknown one |
| BuildSteps.BuildSteps.InsertAtCategoryEnd | pkg/build/build.go:160-194 | an unknown category is refused; else one step is inserted at that point, and in an ordered registry this keeps the order, puts the step last in its category and changes no other category |
| BuildSteps.BuildSteps.AddToCategory | pkg/build/build.go:151-153 | the same, for a step entered as synchronous |
| BuildSteps.BuildSteps.InsertRelativeToStep | pkg/build/build.go:132-148 | inserts beside the first step of that name, in its category, or fails if there is none; keeps the order |
| BuildSteps.BuildSteps.Replace | pkg/build/build.go:120-129 | replaces the first step of that name within its category, or fails; keeps the order |
| BuildSteps.FoundBoundary | pkg/build/build.go:177-187 | the position found is the end of the target category |
| BuildSteps.InsertKeepsOrder | pkg/build/build.go:159-194 | inserting there is stable: ordered, last in its category, other categories untouched |
| BuildSteps.AddKeepsOrderIff | pkg/build/build.go:95-97 | appending to Build keeps the order if and only if no later category has a step |
| BuildSteps.AddAfterPublishBreaksOrder | pkg/build/build.go:95-97 | one registry whose order a plain Add breaks |
| BuildSteps.OrderedIffGrouped | pkg/build/build.go:161-171 | steps stand in order if and only if they are those of auth, pre-build, build, post-build, quality, apply, pre-publish and publish, one group after the other |
| BuildRun.AdvanceKeepsLog | pkg/build/build.go:288-300 | every action of an asynchronous step keeps: each step stores once, a synchronous one before all later steps |
| BuildRun.AdvanceKeepsErrors | pkg/build/build.go:294-297 | and errors are sent once, exactly by failed asynchronous steps that are over |
| BuildRun.ErrorChannelHasRoom | pkg/build/build.go:266-267 | the error channel always has room for the next error |
| BuildRun.Wait | pkg/build/build.go:318-318 | waiting for the goroutines ends, whatever order they go in |
| BuildRun.RunAllMatchingBuilds | pkg/build/build.go:260-339 | for any interleaving: every selected step stores once, a synchronous one before all later steps, every asynchronous failure is sent once, and the error is the last synchronous one or else the first asynchronous one sent |
| BuildRun.SelectedAre | pkg/build/build.go:268-277 | the selected steps are, in registry order, exactly those that match the build and have the name asked for, if one is |
| BuildRun.VerdictIs | pkg/build/build.go:307-333 | the error is that of the last synchronous step that failed, or else the first one sent, or else none |
| BuildRun.SucceedsIffNothingFails | pkg/build/build.go:321-338 | a run reports no error if and only if no selected step fails |
| BuildRun.VerdictIsAStepsError | pkg/build/build.go:329-335 | the error is some selected step's own, and a synchronous one whenever there is one |
| BuildOutcomes.OutcomesAreComplete | pkg/build/build.go:260-339 | the outcomes of all schedules of the loop and its goroutines are exactly the complete ones: any order of IDs in which no step comes before an earlier synchronous one, with any order of the asynchronous failures |
| BuildOutcomes.SynchronousRunsAreDeterministic | pkg/build/build.go:304-314 | without asynchronous steps the IDs come out in registry order and no error is sent |
| BuildOutcomes.AlwaysInOrderIff | pkg/build/build.go:279-318 | the steps store their IDs in registry order under every schedule if and only if no selected step before the last is asynchronous |
| BuildOutcomes.OneListIff | pkg/build/build.go:279-334 | the list of IDs is the same under every schedule if and only if every asynchronous step is followed only by steps that yield its ID |
| BuildOutcomes.OneVerdictIff | pkg/build/build.go:321-335 | the reported error is the same under every schedule if and only if some synchronous step fails or all asynchronous failures are equal |
| ImageRef.FindSubmatchIsPreferred | pkg/cri/utils/image.go:22-23 | the scan finds the match with the longest registry, and fails if and only if the expression has no match at all |
| ImageRef.EveryReferenceIsAccepted | pkg/cri/utils/image.go:22-26 | every text of the shape of the expression is accepted, with a registry at least as long |
| ImageRef.AcceptedIsAReference | pkg/cri/utils/image.go:22-58 | and only such texts are, with these parts |
| ImageRef.ParseDockerImage | pkg/cri/utils/image.go:18-61 | the loop over the named groups fills server, registry, image and tag with their defaults |
| ImageRef.ServerAndTag | pkg/cri/utils/image.go:31-58 | the server is the first segment of the registry if that is a domain and docker.io otherwise, and a missing tag is latest |
| ImageRef.ParseUndoesPrint | pkg/cri/utils/image.go:72-74 | parsing a printed reference gives back registry, image and tag |
| ImageRef.PrintIsIdempotentIff | pkg/cri/utils/image.go:18-61 | for every accepted reference, printing and parsing again gives the same record if and only if it has a registry |
| ImageRef.WithoutRegistryGainsASlash | pkg/cri/utils/image.go:72-74 | what happens without one: the image gains a leading slash |
| Sorting.SortSlice | cmd/images.go:106-108 | a sort returns a sorted permutation |
| Sorting.OneSortingIff | pkg/doctor/doctor.go:132-137 | a list can be sorted in only one way if and only if only equal elements tie |
| Sorting.StringLessIff | cmd/images.go:106-108 | strings compare by the first place where they differ, a shorter one before its extensions |
| Images.ParseImageURI | cmd/images.go:114-137 | tag after the last colon, registry before the last slash ahead of it, name between, the Dockerfile's directory as context |
| Images.LosslessIff | cmd/images.go:123-135 | the parts print back to the URI if and only if its last colon is preceded by a slash |
| Images.PortIsTakenForATag | cmd/images.go:123-135 | for a host with a port and no tag the parts do not print back |
| Images.AgreesWithParseDockerImage | cmd/images.go:121-135 | on printed references with plain tags both parsers find the same parts |
| Images.Consider | cmd/images.go:91-101 | one image is kept if and only if it qualifies and its URI was not seen |
| Images.CollectImages | cmd/images.go:76-110 | the nested loops and the sort return a sorting of the first image of every qualifying URI |
| Images.CollectedImages | cmd/images.go:72-110 | that list is strictly sorted by URI, its URIs are exactly the qualifying ones produced by the steps, each described by the first step producing it; there is only one such list |
| Images.HasSubstringIff | cmd/images.go:95-95 | the test for a substring holds if and only if the text stands at some position |
| Images.CollectedIff | cmd/images.go:91-103 | a URI is collected if and only if some step yields it and it contains containifyci/ |
| Images.CollectedFrom | cmd/images.go:91-103 | each image is described by the first step, and its first image, to yield the URI: Dockerfile, context and step name |
| Images.CollectedInOrder | cmd/images.go:105-108 | the URIs stand in strict lexicographic order |
| ShellQuote.ReadEscaped | pkg/github/gh.go:288-290 | inside single quotes, a shell reads the escaped message back as the message |
| ShellQuote.ReadNul | pkg/github/gh.go:288-290 | a message with a NUL is not read back |
| ShellQuote.EscapeSpelled | pkg/github/gh.go:288-290 | escaping goes character by character and changes single quotes only |
| ShellQuote.CommitLineReadsBackIff | pkg/github/gh.go:320-323 | a shell reads the commit line as exactly four words, the last being message and co-author trailer, if and only if the message has no NUL |
| Token.ParsePrintInt | pkg/kv/api.go:201-206 | parsing undoes printing on every 64-bit number |
| Token.SpelledParses | pkg/kv/api.go:203-206 | parsing accepts every number spelled with decimal digits, with or without a sign, unless it is out of the 64-bit range |
| Token.ParsedIsSpelled | pkg/kv/api.go:203-206 | and nothing else |
| Token.PrintIntIsCanonical | pkg/kv/api.go:184-184 | printing gives a minus sign exactly for negative numbers and then digits without a leading zero |
| Token.EncodeInjective | pkg/kv/api.go:189-189 | different signatures of one length are encoded differently |
| Token.EncodeSpells | pkg/kv/api.go:189-189 | the characters of the encoding are the entries of the URL-safe alphabet for six bits each of the bytes, three bytes at a time, filled up with zeros and without padding |
| Token.SplitsIntoIff | pkg/kv/api.go:196-201 | a text splits into three pieces exactly when it is the pieces joined by dots, the first two dot-free |
| Token.AcceptedIff | pkg/kv/api.go:195-222 | a token is accepted if and only if it spells a timestamp young enough, a dot-free nonce and the signature of their canonical form |
| Token.GeneratedValidatesIff | pkg/kv/api.go:182-222 | a generated token is accepted under the same secret exactly while its truncated timestamp is young enough |
| Token.GeneratedUnderOtherSecretIff | pkg/kv/api.go:213-221 | under another secret it is accepted if and only if, besides, the two hashes agree |
| Token.AgeIsElapsed | pkg/kv/api.go:208-212 | within the range of the calendar the age is the time since the truncated second |
| Token.FarFutureIsOld | pkg/kv/api.go:208-212 | beyond that range a timestamp counts as the longest age |
| Token.AcceptedHasCanonicalForm | pkg/kv/api.go:195-222 | an accepted token has exactly two dots, and its form with a canonical timestamp is accepted too |
| ChannelReader.Copy | pkg/cri/utils/io.go:39-39 | as many bytes as fit, the rest of the slice unchanged |
| ChannelReader.ChannelReadCloser.Fill | pkg/cri/utils/io.go:26-33 | the receive loop ends, skips empty messages, and notes a closed channel |
| ChannelReader.ChannelReadCloser.Read | pkg/cri/utils/io.go:21-42 | one read changes buffer, channel and flag as the stream function says and fills the front of the slice with the bytes delivered |
| ChannelReader.ChannelReadCloser.Close | pkg/cri/utils/io.go:45-51 | fails if and only if already closed, by a caller or by the channel's end |
| ChannelReader.ReadConserves | pkg/cri/utils/io.go:21-42 | a read moves bytes from the rest of the stream to the caller in order |
| ChannelReader.ReadFills | pkg/cri/utils/io.go:26-41 | a read delivers no more than the slice holds, and all of the buffer or the next non-empty message if that is less |
| ChannelReader.OutcomesExactly | pkg/cri/utils/io.go:22-37 | before an explicit close, EOF comes if and only if all is delivered and the channel is closed, blocking if and only if all is delivered and it is open; other reads into a non-empty slice deliver something |
| ChannelReader.RunsConserve | pkg/cri/utils/io.go:21-51 | over any run of reads and closes, delivered followed by rest is the concatenation of all messages |
| ChannelReader.EnoughReadsDeliverEverything | pkg/cri/utils/io.go:21-42 | enough reads of any sizes deliver every byte, and then comes EOF or a block |
| ChannelReader.AfterCloseOnlyTheBuffer | pkg/cri/utils/io.go:22-24 | after an explicit close only the buffer is delivered and the channel is left alone |
| ChannelReader.AfterCloseRun | pkg/cri/utils/io.go:21-51 | over any run of calls after a close, what is delivered followed by the rest of the buffer is the buffer at the close |
| Doctor.FilterChecks | pkg/doctor/doctor.go:68-97 | the nested loops keep the applicable checks |
| Doctor.FilteredAreTheApplicable | pkg/doctor/doctor.go:68-97 | in registration order, exactly the checks that apply and are in a wanted category, any when none is named |
| Doctor.RunSequential | pkg/doctor/doctor.go:100-109 | the results in the order of the checks |
| Doctor.SequentialOutcome | pkg/doctor/doctor.go:100-109 | run one by one there is a single outcome, the results in the order of the checks |
| Doctor.RunParallel | pkg/doctor/doctor.go:112-140 | for every order of completion a sorted permutation of the sequential results |
| Doctor.RunChecks | pkg/doctor/doctor.go:56-65 | the mode decides between the two |
| Doctor.ParallelAgreesWithSequential | pkg/doctor/doctor.go:112-140 | any parallel outcome is a permutation of the sequential results, lexicographically by category and then name, with the same summary |
| Doctor.ParallelIsDeterministicIff | pkg/doctor/doctor.go:132-137 | there is one parallel output if and only if no two different results share category and name |
| Doctor.TwoReportsOfOneName | pkg/doctor/doctor.go:132-137 | two checks of one name that report differently, and both outputs |
| Doctor.CalculateSummary | pkg/doctor/result.go:173-193 | the counting loop computes the number of results under each heading |
| Doctor.SummarySpelledOut | pkg/doctor/result.go:173-193 | the summary holds how many results there are and how many of each status, and of the failures how many are critical |
| Doctor.CountsAddUpIff | pkg/doctor/result.go:173-193 | the four counts add up to the total if and only if every status is a known one |
| Doctor.CriticalIffExitFails | cmd/doctor.go:121-127 | the summary shows a critical failure if and only if the command exits with an error |
| Doctor.ExitCheck | cmd/doctor.go:121-127 | the loop fails if and only if some result is a critical failure |
| Discovery.NestedIffBelow | pkg/autodiscovery/java.go:258-262 | the string test on the relative path holds if and only if the directory is strictly below, through a name not starting with two dots |
| Discovery.BelowSpelled | pkg/autodiscovery/java.go:258-262 | for absolute paths in clean form: the directory has further components, the first of which does not start with two dots |
| Discovery.IsSubproject | pkg/autodiscovery/java.go:256-264 | the scan finds a project the directory is below, if there is one |
| Discovery.ConsiderJava | pkg/autodiscovery/java.go:44-60 | one configuration file: nested and failing ones are passed over |
| Discovery.DiscoverJavaProjects | pkg/autodiscovery/java.go:24-63 | the loop over the files of the finders that did not fail, in order |
| Discovery.JavaCoversEveryFile | pkg/autodiscovery/java.go:44-60 | every file's directory is found, failed analysis or lies below a found one; none is below one found earlier |
| Discovery.JavaFindsExactly | pkg/autodiscovery/java.go:44-60 | the projects found are, in the order of the files, exactly those whose directory can be analysed and lies below none of those before that can |
| Discovery.BelowFoundIff | pkg/autodiscovery/java.go:47-50 | a directory is below a project found so far if and only if it is below the directory of an earlier candidate that can be analysed, found or not |
| Discovery.AcceptedIff | pkg/autodiscovery/java.go:47-56 | a candidate is kept if and only if it can be analysed and lies below no earlier candidate that can |
| Discovery.FoundTwiceIff | pkg/autodiscovery/java.go:44-60 | a directory is found twice if and only if two candidates that can be analysed share it and lie below no candidate before the later one that can |
| Discovery.JavaDirectoriesDistinctIff | pkg/autodiscovery/java.go:44-60 | when every file can be analysed and no directory is below another, no directory is found twice if and only if no two files share one |
| Discovery.JavaKeepsTheSameDirectoryTwice | pkg/autodiscovery/java.go:44-60 | two configuration files of one directory that can be analysed: it is found twice |
| Discovery.ConsiderPython | pkg/autodiscovery/python.go:56-70 | one directory: analysed first, then passed over when nested |
| Discovery.GroupByDirectory | pkg/autodiscovery/python.go:50-54 | the map from directories to their configuration files in order |
| Discovery.GroupIs | pkg/autodiscovery/python.go:50-54 | the files of a directory are, in order, exactly those that lie in it |
| Discovery.DiscoverPythonProjects | pkg/autodiscovery/python.go:38-73 | the loop over the map, its keys in any order |
| Discovery.PythonCoversEveryDirectory | pkg/autodiscovery/python.go:50-70 | for every order of the map, every directory is found, failed analysis or lies below a found one, and none is found twice |
| Discovery.NoneBelowEarlier | pkg/autodiscovery/python.go:146-154 | no project is below one found earlier |
| Discovery.FoundNestIff | pkg/autodiscovery/java.go:47-50 | projects found nest if and only if a candidate that can be analysed comes after one below it that can, and that one lies below no earlier candidate that can |
| Discovery.PythonCanNestIff | pkg/autodiscovery/python.go:56-70 | for some order of the map projects found nest if and only if one directory that can be analysed lies below another |
| Discovery.InnerFirstNests | pkg/autodiscovery/java.go:47-50 | a directory and one below it: both found in one order, only the outer one in the other |
| Discovery.ParentsFirstNeverNest | pkg/autodiscovery/java.go:47-50 | when parents come first no two projects found nest |
| Discovery.OutermostAlwaysFound | pkg/autodiscovery/python.go:56-70 | an analysable directory below no other is found in every order |
| KvStore.KeyValueStore.GetVal | pkg/kv/api.go:56-61 | the stored value, and whether there is one |
| KvStore.KeyValueStore.SetVal | pkg/kv/api.go:63-67 | stores the value and changes no other key |
| KvStore.KeyValueStore.Handle | pkg/kv/api.go:70-133 | the middleware and the two handlers: status, body and new store |
| KvStore.RefusedIff | pkg/kv/api.go:118-133 | any request is refused with 401, the store unchanged, if and only if its header is not "Bearer " and a token valid at the time; the two messages tell the reasons apart |
| KvStore.LetIn | pkg/kv/api.go:70-107 | any request let in: a read answers the stored value or 404, a write stores its body or is refused with 400 if that is empty |
| KvStore.ClientReadsLastPost | pkg/kv/client.go:12-42 | over any history of requests a client with a valid token reads the last accepted value, and "" if and only if there was none |
| KvStore.ClientReadFailsIff | pkg/kv/client.go:28-34 | a read gives an error if and only if the token is not valid |
| KvStore.ClientWritesIff | pkg/kv/client.go:45-67 | a client's write succeeds if and only if its value is not empty and its token valid, and only then changes the store |
| KvStore.GeneratedTokenLetsIn | pkg/kv/api.go:118-133 | the generated token is let in exactly while young enough |

## Left out

- LogPipeline.StepKeeps: the display goroutine may clear any completed routine at any time, which includes every pass over the unsynchronised display order; that order itself is modelled in LogAggregator for batches processed one after another, as its own comment asks.
- LogAggregator.LogAggregator.EntryFor: without a race the pool only makes new entries; the pooled case is in LogStore.
- LogAggregator.LogAggregator.UpdateDisplay: which lines are drawn, not their colours, elapsed times or terminal control sequences.
- LogAggregator.LogEntry.AddMessage: the slice is a sequence field updated slot by slot; capacities and sharing of backing arrays are not modelled.
- `ResettableOnce`, the singleton, formats other than "progress", `Copy` and `Write` of the aggregator.
- BufferPool.BufferPool.Get: the other buffer sizes and the usage statistics beyond hits and misses.
- TarArchive.TarDirSequential: archives are header and content lists; the byte encoding of an archive and its padding are not modelled, nor are modes, times and owners.
- TarExtract.Disk.ExtractTar: folders and files only; symbolic links on the disk, permissions, file handles kept open to the end and a content copy that fails half-way are not modelled. An archive that breaks off is an input of the method.
- TarRoundTrip.ExtractUndoesArchiving: file names are plain components, as a walk of a file system yields them; the conversion to slashes is the identity on Unix.
- Engine.LeadershipIsExclusive: a function given to Leader does not call Leader again.
- Engine.ExitHasACulprit: a build's outcome is part of its value; an exit from inside a function run by Leader is not modelled, and how a build runs its steps is BuildRun.
- BuildSteps.BuildSteps.InsertAtCategoryEnd: steps are values, the slice is a sequence field, and category names outside the eight are one case.
- BuildRun.RunAllMatchingBuilds: asynchrony is the step's own property, as the runner asks the step and not the registry entry; panics inside a step, and an empty non-nil list of names, which the code indexes, are not modelled.
- ImageRef.FindSubmatchIsPreferred: the expression is stated as the relation it matches and the preference of leftmost-first matching, not as an automaton; the domain test is any predicate.
- Images.CollectImages: the registration of the build steps and their lists of images are inputs.
- ShellQuote.CommitLineReadsBackIff: the other lines of the script; what an unquoted or double-quoted expansion gives is outside the reader, which stops there.
- Token.GeneratedValidatesIff: the random choice of the nonce, of which only freedom from dots is used, and constant-time comparison beyond its result.
- ChannelReader.ChannelReadCloser.Read: the messages still to come are known in advance, and a receive that would wait for ever is an outcome.
- Doctor.RunParallel: the goroutines' results are values; the mutex makes each append one step. Formatting of results is left out.
- Discovery.DiscoverJavaProjects: what the analysis of a directory looks at; the file search and its cache are inputs.
- KvStore.KeyValueStore.Handle: transport, routing, URL escaping and the health route; a body that cannot be read is the same as an empty one.
- Container managers for Docker, Podman and the host, image pulling and pushing, language build steps, script templates and release tools: calls into other systems and text with little state.
- Platform tables, UUIDs, accessors and flag parsing: easy members only.
