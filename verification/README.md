# Fidespipe: a verified model of its core

Fidespipe is a Go orchestrator of plugin pipelines. This project models its stateful and algorithmic parts in
Dafny 4.11 and proves what they promise. `dafny verify dfyconfig.toml` checks all of it.

Code that changes things step by step is a class or a method here; each such method is proved equal to a function
on values, and the laws are proved about the functions. Concurrent code and code that can crash is a step system
whose runs are all sequences of atomic steps. Inputs from outside (clocks, file contents, whether a write reached the
disk, what a plugin answers) are parameters, and the theorems hold for all of them.

| Files | Part of the program |
|---|---|
| `SlotQueue`, `CronNext`, `CronDaemon`, `CronExactlyOnce`, `CronCatchUp` | the durable slot queue and the scheduler daemon over it: at most once, exactly once with timely ticks, and when catching up breaks both |
| `StepFlow`, `ParallelGroup`, `LinearResume`, `FinishedSteps`, `ForeachRun` | steps, parallel groups, resumption, item loops: a group equals a sequence, a run cancelled, killed and resumed equals an unstopped one, aggregates are the outputs in item order |
| `ExecutionGraph` | the dependency graph: Kahn's sort and layers by longest path |
| `JournalWindow` | the bounded journal reader: ring window, tail reads, paging |
| `GateChannel` | the lock-free mailbox of the approval gate, under every interleaving |
| `PairingSession` | the pairing code, its lockout and the bounded set of sessions |
| `TomlText`, `TomlScanner`, `TomlDocument`, `TomlAccepts` | the TOML subset reader: text functions, the scanner object, the document tree, what is accepted |
| `TomlQuote` | the quoting writer against the reader |
| `TomlSyntax`, `TomlStrings`, `TomlNumbers`, `TomlValues`, `TomlRoundTrip`, `TomlLanguage`, `TomlWritable` | the syntax of the TOML subset written out as trees with their layout, and the proof that the reader accepts exactly its texts and reads them as what they stand for |
| `RequirementText`, `Requirement`, `RequirementLaws`, `RequirementLines`, `RequirementLanguage` | requirement lines: how they may be written, the proof that the parser reads exactly these and as what they say, and manifest lines |
| `Base` | Option, Result, units of time |

## Where the code and its description part

The model follows the code. Named are the members that say when and how:

- A slot claimed farther ahead than a day less a minute, as `CatchUp` may do, is trimmed before its time and started again
  (`CronDaemon.AtMostOnce` for all nearer ones, `CronCatchUp.FarSlotStartsTwice` for every farther one,
  `CronCatchUp.CatchUpStartsTwice` is an instance).
- A pairing code admits 55 wrong guesses, and more if an attempt took its time a whole lockout before the code was made:
  the clock is read before the lock is taken (`PairingSession.GuessBound`, `PairingSession.FiftyFiveGuesses`).
- A head read's `Truncated` may be false with events left (`JournalWindow.HeadTruncatedIff`,
  `JournalWindow.TruncatedCounterexample`): the line that ends the loop is already consumed when the rest is searched.
- A head read whose byte budget binds before its event budget may drop the line it should begin with
  (`JournalWindow.HeadPageIsExact`, `JournalWindow.OverflowCounterexample`).
- A journal that grows while it is read leaves `Truncated` false with events left exactly when the bytes up to the first
  event left out reach the size taken before reading (`JournalWindow.ReadEventWindow`;
  `JournalWindow.GrownFileCounterexample` is an instance, `JournalWindow.SizedReadIsExact` the case without growth).
- A step whose id ends in `_all`, or has a dot, is taken for another step when dependencies are drawn
  (`ExecutionGraph.DepOfNamesTheStep`), and a step named `<id>_all` may stand where the aggregate of `<id>` would
  (`ForeachRun.AggregatesAreTheOutputs` says when, `ForeachRun.NamesakeStandsThere` is an instance).
- A parallel group differs from the same steps in sequence exactly when a step's `on_error: skip` throws away an output
  that was there before the group (`ParallelGroup.GroupEqualsSequence`, `ParallelGroup.GroupKeepsAnOldOutput`): the
  barrier only adds outputs.
- The abort event of a resumed linear run names the step at the number of the action. That is the step that failed if and
  only if no segment before it was skipped (`LinearResume.AbortEventIff`, `LinearResume.AbortEventNamesASkippedStep`).
- A slot that is claimed but was not started, as after a write that was reported lost and yet reached the disk, is not
  started by the ticks that follow; every other matching slot is (`CronExactlyOnce.ExactlyOnce`).
- Normalised names are those of PEP 503 only for short runs of separators, and normalising twice may differ from once
  (`RequirementLaws.NormalIsPep503Iff`, `RequirementLaws.NormalizeTwice`, `RequirementLaws.TwoUnderscoresStay`).
- The quoting writer's `\xNN` escapes are unknown to the TOML reader (`TomlQuote.QuotingRoundTrips`).
- A key may be assigned over a table that only dotted keys made (`TomlAccepts.ReachedIff` says what its
  readers then reach, `TomlAccepts.ValueOverTable` is an instance); TOML v1.0.0, section "Keys", forbids it.
- A duplicate key is reported with the line after its own unless a comment or the end of the file follows
  (`TomlAccepts.EndLine`, `TomlAccepts.DuplicateNamesTheNextLine`).
- The reader takes what TOML v1.0.0 does not: any number of quotes before the closing ones of a multi-line string, a comma
  behind the last item of an inline table, a lone carriage return; and refuses blanks around the dots of a key and inside
  the brackets of a header (`TomlLanguage.ReadableIff` over the trees of `TomlSyntax`).
- `\U` with eight digits wraps at 32 bits, so that `\UFFFFFFFF` is accepted and yields U+FFFD
  (`TomlAccepts.UnicodeEscapeIff`, `TomlAccepts.WideEscapeIsAccepted`).

## Model

Paths are relative to the root of the repository.

| member | source | states |
|---|---|---|
| GateChannel.StepInv | internal/gate/channel.go:53-88 | One atomic operation of any thread keeps the invariant that ties the flag, the slot and the stage of the outstanding signal together. |
| GateChannel.RunInv | internal/gate/channel.go:53-88 | So does every interleaving. |
| GateChannel.MailboxSafety | internal/gate/channel.go:40-88 | In every interleaving of any number of senders, closers and waiters: one carrier of a signal at most, a send never finds the slot full, signals are received in order and never twice, nothing is accepted after an accepted close. |
| GateChannel.HistoryGrows | internal/gate/channel.go:53-88 | What was accepted or received stays so. |
| GateChannel.CloseIsFinal | internal/gate/channel.go:66-88 | Once a close was accepted, nothing more is accepted, whatever follows. |
| GateChannel.RefusedOnlyWhenTaken | internal/gate/channel.go:53-76 | A call is refused at its load iff a signal is outstanding, or a decision is about to be handed over, or the close was delivered. |
| GateChannel.LostSwapMeansProgress | internal/gate/channel.go:53-76 | A compare-and-swap is lost only if another signal was accepted since the load. |
| GateChannel.PendingSignalIsDeliverable | internal/gate/channel.go:53-88 | At every reachable moment the outstanding signal can become the answer of a waiting thread within three steps, and it is the oldest one not received. |
| GateChannel.WaitAnswersItsReceive | internal/gate/channel.go:78-88 | In every interleaving the answer of a wait is the signal that this thread's own last receive took from the slot. |
| GateChannel.CallAnswersItsSwap | internal/gate/channel.go:53-76 | In every interleaving a call of SendDecision or Close is answered with true iff its own compare-and-swap added its signal to what is accepted. |
| GateChannel.DeliveryStaysEnabled | internal/gate/channel.go:53-88 | No step of another thread disables a pending send, store or receive, save the receive itself. |
| GateChannel.OnItsWay | internal/gate/channel.go:53-88 | While a signal is awaited nothing else is accepted, and only its own send and a receive move it on. |
| GateChannel.EveryAcceptedSignalIsReceived | internal/gate/channel.go:53-88 | In every endless run of any number of threads in which no send and no receive stays enabled for ever without a turn, a signal that was accepted is received while a thread waits; which calls are made, and whether any more are, does not matter. |
| PairingSession.WrongGuessBudget | internal/api/session.go:192-219 | The wrong guesses a code still admits, in failures and lockouts so far and the earliest time of an attempt, for attempts handled in any order. |
| PairingSession.OneToken | internal/api/session.go:192-219 | Any sequence of attempts obtains at most one token from one code. |
| PairingSession.UsedCodeIsDead | internal/api/session.go:192-219 | A used code answers neither a guess nor a token. |
| PairingSession.GuessBound | internal/api/session.go:192-219 | Over any attempts in any order, at most five wrong guesses for each lockout period from the earliest of their times to the end of the code's life, and at most one token. |
| PairingSession.FiftyFiveGuesses | internal/api/session.go:127-133 | That is 55 as long as no attempt read its clock a whole lockout before the code was made. |
| PairingSession.GuessBoundIsTight | internal/api/session.go:192-219 | Whatever the earliest time, the bound is reached by some attempts; from the birth of the code it is 55. |
| PairingSession.SessionStepBounded | internal/api/session.go:106-249 | Every operation keeps at most eight sessions, each filed under its own token. |
| PairingSession.SessionsStayBounded | internal/api/session.go:223-249 | However the server is used, it never holds more than eight sessions. |
| PairingSession.MintedBounded | internal/api/session.go:223-249 | Minting after making room stays within eight. |
| PairingSession.Server.SetPairingCode | internal/api/session.go:127-133 | A new code is unused and without failures or lockout; sessions stay. |
| PairingSession.Server.EnableSession | internal/api/session.go:106-111 | A new code, and all sessions dropped. |
| PairingSession.Server.SessionValid | internal/api/session.go:150-165 | A token is valid iff it names a live session; an expired one is forgotten and nothing else changes. |
| PairingSession.EveryAnswer | internal/api/session.go:192-219 | The answer to every attempt on a new code, whatever the others were and in whatever order they are handled: refused while less than a lockout has passed since a fifth wrong guess, dead after the code's life or once a token was given, wrong for another code, and else a token, if there is entropy. |
| PairingSession.AnswersTellNoMore | internal/api/session.go:192-219 | Two codes that no compared guess is are answered alike. |
| PairingSession.GuesserLearnsLittle | internal/api/session.go:192-219 | A guesser who was never right has ruled out at most five codes a lockout period: all others would have been answered the same. |
| PairingSession.MintedLives | internal/api/session.go:223-249 | A new token is valid to the end of its time and no longer, and a live session is dropped only for seven that are no older. |
| PairingSession.Server.ExchangePairingCode | internal/api/session.go:192-219 | Answer and new code state are those of the attempt function; a token comes with exactly one minted session. |
| PairingSession.Server.MintSession | internal/api/session.go:223-249 | Expired sessions go, then the oldest until seven are left, then the new one is added; without entropy nothing changes. |
| PairingSession.Server.ForgetExpired | internal/api/session.go:232-236 | Exactly the live sessions are left. |
| PairingSession.Server.Oldest | internal/api/session.go:238-245 | A session than which none is older. |
| ExecutionGraph.DepOfNamesTheStep | internal/execution/graph.go:36-55 | A path below a step's output names that step iff its id has no dot and does not end in `_all`, and otherwise the step named by what is left; the list of all outputs names a step iff its id has no dot; an input path names none. |
| ExecutionGraph.DepsOf | internal/execution/graph.go:35-55 | The steps a step reads, all and only. |
| ExecutionGraph.CollectNodes | internal/execution/graph.go:19-33 | Each step id once, no edges yet. |
| ExecutionGraph.AddEdgesTo | internal/execution/graph.go:34-62 | One step adds exactly the edges from the steps it reads, itself excepted. |
| ExecutionGraph.BuildGraph | internal/execution/graph.go:19-64 | Distinct nodes, and an edge from u to v iff the step v reads an output of u. |
| ExecutionGraph.InDegrees | internal/execution/graph.go:67-77 | The degree of a node is the number of edge ends at it. |
| ExecutionGraph.InitialQueue | internal/execution/graph.go:78-83 | The queue starts with exactly the nodes without predecessors, each once. |
| ExecutionGraph.Release | internal/execution/graph.go:89-94 | Taking a node frees exactly the nodes whose last edge it was. |
| ExecutionGraph.TopoSort | internal/execution/graph.go:66-100 | Success gives a permutation of the nodes with every edge forward; failure iff there is a cycle or an edge from an unknown node. |
| ExecutionGraph.NotAllSorted | internal/execution/graph.go:96-98 | Nodes left over mean a cycle or a dangling edge. |
| ExecutionGraph.CycleInside | internal/execution/graph.go:96-98 | A non-empty finite set in which every node has a predecessor holds a cycle. |
| ExecutionGraph.TopologicalOrderExcludes | internal/execution/graph.go:66-100 | A topological order exists only without cycle and dangling edge. |
| ExecutionGraph.PathsGoForward | internal/execution/graph.go:66-100 | Whole paths go forward in the order, not only edges. |
| ExecutionGraph.MaxDep | internal/execution/graph.go:109-118 | The largest level among the predecessors, or -1. |
| ExecutionGraph.AssignLevels | internal/execution/graph.go:107-120 | Levels that satisfy the recurrence over predecessors. |
| ExecutionGraph.MaxLevel | internal/execution/graph.go:121-126 | The largest level used. |
| ExecutionGraph.FillBatches | internal/execution/graph.go:127-131 | Batch l lists in node order exactly the nodes of level l. |
| ExecutionGraph.LevelIsLongest | internal/execution/graph.go:107-120 | The level of a node is the length of the longest path into it, and only that. |
| ExecutionGraph.IndependentBatches | internal/execution/graph.go:102-133 | The batches are the layers by longest incoming path, none empty for a non-empty graph; failure exactly as for the sort. |
| ExecutionGraph.BatchesPartition | internal/execution/graph.go:102-133 | Every node is in exactly one batch. |
| ExecutionGraph.PathsClimb | internal/execution/graph.go:102-133 | A path of k edges climbs at least k batches. |
| ExecutionGraph.BatchIsIndependent | internal/execution/graph.go:102-133 | No two nodes of one batch reach each other. |
| JournalWindow.FitIsLongest | internal/journal/reader.go:318-353 | The window's specification: the longest suffix inside both budgets, or the last line alone. |
| JournalWindow.FitAppend | internal/journal/reader.go:344-353 | Pushing onto the window is as good as pushing onto everything ever pushed. |
| JournalWindow.FullIff | internal/journal/reader.go:238-261 | A window that fits is full iff no line of a byte or more can be added without a drop. |
| JournalWindow.LineWindow.IsFull | internal/journal/reader.go:335-340 | Full iff one of the budgets is used up. |
| JournalWindow.LineWindow.DropOldest | internal/journal/reader.go:355-366 | Drops the oldest line and its bytes; compaction changes nothing visible. |
| JournalWindow.LineWindow.Push | internal/journal/reader.go:344-353 | Afterwards the window is the longest fitting suffix of the old one and the new line, and the byte counter is its sum. |
| JournalWindow.Decode | internal/journal/reader.go:370-383 | All lines decoded in order with their byte sum, or the number of the first line that cannot be. |
| JournalWindow.ReadAllEvents | internal/journal/reader.go:109-138 | The unbounded read returns every event from `since`. |
| JournalWindow.FullReadIs | internal/journal/reader.go:109-138 | The unbounded read returns the decoded events from `since` on, with First, Next, Total and bytes, and is never truncated. |
| JournalWindow.MoreEventsAfter | internal/journal/reader.go:301-311 | True iff the bytes counted are fewer than the size and an event is left; for a file that has not grown that is whether one is left. |
| JournalWindow.FillWindow | internal/journal/reader.go:145-175 | What window, index and unread rest are when the reading loop ends, and at which line. |
| JournalWindow.ReadEventWindow | internal/journal/reader.go:145-193 | The bounded read is the tail read of the list of events, or the head read, whose Truncated is kept iff the bytes up to the first event left out are fewer than the size taken before reading; nothing else depends on that size. |
| JournalWindow.SizedReadIsExact | internal/journal/reader.go:301-311 | Of a file that has not grown since its size was taken, the bounded read is the head read. |
| JournalWindow.GrownFileIff | internal/journal/reader.go:301-311 | Of a file that had its first lines when its size was taken and grew since, Truncated is kept iff the first event left out stands before the last of these lines. |
| JournalWindow.GrownFileCounterexample | internal/journal/reader.go:301-311 | With a size of 0, a page of one event out of three is not reported as truncated. |
| JournalWindow.EventsBounded | internal/journal/reader.go:92-105 | Which of the reads is made, with a negative `since` as zero, whatever size was found; for a file that has not grown, the head read. |
| JournalWindow.TailIsASuffixOfTheFullRead | internal/journal/reader.go:145-193 | A tail read returns the longest fitting run of last events, numbered by First, Next and Total, whatever stands before them; Truncated iff First > 0; where the full read succeeds its events are that read's last ones. |
| JournalWindow.HeadReadIs | internal/journal/reader.go:162-193 | A head read returns the window over the events up to where it is full, numbered from First to Next, and nothing past it. |
| JournalWindow.HeadTruncatedIff | internal/journal/reader.go:162-173 | For every journal, cursor and limits: Truncated implies that events remain, and it tells whether they do iff the window is full while two events or more are to come, or takes in all events without being full before the last. |
| JournalWindow.HeadTruncatedMissesTheLast | internal/journal/reader.go:162-173 | Where no page overflows, Truncated is wrong iff the window is full for the first time with the last event but one. |
| JournalWindow.TruncatedCounterexample | internal/journal/reader.go:162-173 | One event left, yet Truncated is false. |
| JournalWindow.HeadPageIsExact | internal/journal/reader.go:162-193 | A head read returns the decoded lines of its page, as many as lie between First and Next; they are exactly the lines there iff a window that is not full always has room for the next event, and otherwise the line at First is missing. |
| JournalWindow.OverflowCounterexample | internal/journal/reader.go:162-165 | Two lines of six bytes under a budget of ten bytes: the page holds the second and is numbered as the first. |
| JournalWindow.PagesAreDecoded | internal/journal/reader.go:145-193 | Whatever the limits, paging returns the decoded lines of its pages in order, or the number of the first that cannot be decoded. |
| JournalWindow.PageLinesAreAll | internal/journal/reader.go:145-193 | The lines of the pages are exactly the lines from `since` on iff no page overflows. |
| JournalWindow.NoPageOverflows | internal/journal/reader.go:162-165 | No page overflows when no stretch of the journal does. |
| JournalWindow.PagesAreTheFullRead | internal/journal/reader.go:107-193 | Paging with since := Next ends, and when no page overflows it returns exactly the events of the full read, or fails on the line on which that fails. |
| JournalWindow.EventBudgetBindsFirst | internal/journal/reader.go:162-165 | No page overflows when any MaxEvents consecutive events fit MaxBytes. |
| SlotQueue.Queue.constructor | internal/cron/queue.go:81-116 | Opening takes the file's content as it is, without fault. |
| SlotQueue.Queue.DoCommit | internal/cron/queue.go:125-157 | A commit leaves the old or the new image; a failed one poisons the queue, a poisoned queue writes nothing. |
| SlotQueue.Queue.DoClaim | internal/cron/queue.go:164-185 | Granted iff the key is new, the arguments are not empty and the commit succeeds; memory, fault and file as specified. |
| SlotQueue.Queue.DoRelease | internal/cron/queue.go:192-209 | Sets status and time of the claim's task and commits; an unknown key or a fault changes nothing. |
| SlotQueue.Queue.DoInterrupt | internal/cron/queue.go:217-239 | Exactly the running tasks become interrupted, in one commit, and none is one if nothing runs. |
| SlotQueue.Queue.TrimClaims | internal/cron/queue.go:255-278 | Exactly the dead claims go with their tasks, in one commit. |
| SlotQueue.ApplySound | internal/cron/queue.go:81-278 | Every operation keeps memory and file sound: keys equal task ids, claims and tasks in step, known statuses. |
| SlotQueue.TrimSound | internal/cron/queue.go:255-278 | A claim survives a trim iff its task is running or young enough, and survives unchanged. |
| SlotQueue.EveryDiskStateOpens | internal/cron/queue.go:81-278 | After any mix of calls, lost writes and restarts the file passes the checks made at opening. |
| SlotQueue.OldOrNewUntilRestart | internal/cron/queue.go:125-278 | Until a restart the queue either agrees with its file or is stuck where one write was lost: the file is what it was before that call or what the call would have written, and no later call has touched it. |
| SlotQueue.PoisonFreezesTheDisk | internal/cron/queue.go:125-185 | After a failed commit nothing changes the file until a restart, and no claim is granted. |
| SlotQueue.RestartInterrupts | internal/cron/queue.go:217-239 | After a restart and Interrupted, whatever becomes of the write, memory shows nothing running, every claim and every finished outcome, and the file is as it was or as memory is; it is as memory is when the write succeeds. |
| SlotQueue.OpenRefuses | internal/cron/queue.go:93-112 | A file is refused iff a task is misfiled, has no key or an unknown status, or a claim has no task. |
| SlotQueue.AnswersAreOnFile | internal/cron/queue.go:164-209 | A granted claim and a confirmed release are on file, and a release of a known slot fails only with its write or a poisoned queue. |
| SlotQueue.EverySlotFollowsItsCalls | internal/cron/queue.go:81-278 | However the calls for different slots are mixed, every slot is claimed, running, done, failed or interrupted, with its times, as its own calls, the trims and the interruptions say. |
| SlotQueue.InterruptedAre | internal/cron/queue.go:217-239 | The slots handed back as interrupted are exactly those that were running. |
| CronNext.SearchIsLeast | internal/cron/cron.go:14-40 | The search finds the least matching minute in its range, or there is none. |
| CronNext.Next | internal/cron/cron.go:14-40 | The search by the loop, whose result is the least matching whole minute after `from` within a year of minutes, or none if no minute there matches. |
| CronNext.NextFromAMinuteBack | internal/cron/daemon.go:226-258 | From one minute back, the result is the least matching minute not before the present one, which is the present one if it matches. |
| CronDaemon.SlotKeyInjective | internal/cron/queue.go:241-249 | Keys of different (pipeline, slot) pairs differ. |
| CronDaemon.PresentedRange | internal/cron/daemon.go:226-274 | A tick presents only a matching whole minute not before its own minute, and without catching up less than five seconds ahead. |
| CronDaemon.TrimAccounts | internal/cron/queue.go:255-278 | What a trim removes is too old to be presented again. |
| CronDaemon.GrantedIsNew | internal/cron/queue.go:164-185 | A granted claim is for a slot that was never started. |
| CronDaemon.StepInv | internal/cron/daemon.go:211-340 | Every step of the daemon (crash, boot, mark, trim, tick, file, finish) keeps the invariant over disk, memory and history. |
| CronDaemon.RunInv | internal/cron/daemon.go:211-340 | So does every run of steps. |
| CronDaemon.RunKeyed | internal/cron/daemon.go:280-310 | Every run begun carries the key of its slot. |
| CronDaemon.AtMostOnce | internal/cron/daemon.go:211-340 | Over every run of ticks, crashes, restarts, lost writes and trims, with a clock that does not go back, no slot of a pipeline is started twice, as long as none is claimed farther ahead than a day less a minute. |
| CronDaemon.NoCatchUpIsNear | internal/cron/daemon.go:258-265 | Without `CatchUp` no slot is claimed that far ahead. |
| CronCatchUp.FarSlotStartsTwice | internal/cron/daemon.go:259-280 | A slot presented farther ahead than its claim outlasts is started twice by some run in which every write succeeds. |
| CronCatchUp.CatchUpStartsTwice | internal/cron/daemon.go:259-280 | An instance: a missed run and a next slot three days ahead. |
| CronCatchUp.Boots | internal/cron/daemon.go:474-500 | A start on a file without running tasks removes the dead claims and nothing else. |
| CronCatchUp.ComesUpHealthy | internal/cron/daemon.go:474-500 | A daemon started on an empty file is in the state that exactly-once execution starts from. |
| CronCatchUp.Ticks | internal/cron/daemon.go:211-340 | A tick that presents an unclaimed slot starts and finishes it. |
| CronExactlyOnce.Daemon.EnsureQueue | internal/cron/daemon.go:281-294 | Opens the queue on first use, or leaves everything as it was. |
| CronExactlyOnce.Daemon.SlotFor | internal/cron/daemon.go:218-274 | The slot that is due for a file, catching up included, or none: disabled, held back by its running lock, or nothing due. |
| CronExactlyOnce.Daemon.Offer | internal/cron/daemon.go:218-306 | Presenting one file is one step of the system. |
| CronExactlyOnce.Daemon.OfferSlot | internal/cron/daemon.go:280-306 | A granted claim starts the run under the slot's key. |
| CronExactlyOnce.Daemon.Conclude | internal/cron/daemon.go:310-331 | The outcome of the run is released under its key. |
| CronExactlyOnce.Daemon.HandleFile | internal/cron/daemon.go:215-338 | One file is offered and, if granted, run and released. |
| CronExactlyOnce.Daemon.DoTick | internal/cron/daemon.go:211-340 | A tick performs exactly the steps of the system for its files in order, with one reading of the clock at its start. |
| CronDaemon.PresentedIff | internal/cron/daemon.go:218-274 | A slot is presented iff the schedule is enabled, the overlap policy does not hold the pipeline back, it is the least matching minute from the present one on, and it is near or a run was missed. |
| CronDaemon.CatchesUpIff | internal/cron/daemon.go:258-265 | A run was missed iff a whole matching minute lies more than a minute behind the saved last run and before now, within the year searched. |
| CronDaemon.StartsAreDue | internal/cron/daemon.go:211-310 | In every run of the daemon each start comes from an offer of a slot that was due, with the schedule enabled and not over a running lock that the policy respects. |
| CronDaemon.TickPresentsItsMinute | internal/cron/daemon.go:226-274 | A tick that begins inside the minute of a matching slot presents exactly that slot, catching up or not. |
| CronExactlyOnce.VisitHealthy | internal/cron/daemon.go:215-338 | A visit whose writes succeed keeps the queue trusted, keeps a claim without a start as it is, and starts the slot that is due unless its claim is spent. |
| CronExactlyOnce.VisitReleases | internal/cron/daemon.go:310-331 | A run that begins at such a visit ends on file as done or failed, as its pipeline ended. |
| CronExactlyOnce.TicksStart | internal/cron/daemon.go:211-340 | Ticks at most a minute apart start a matching minute they cover iff it was started before or its claim is free. |
| CronExactlyOnce.ExactlyOnce | internal/cron/daemon.go:211-340 | From every reachable healthy state, with timely ticks, no lost write, no held lock and no slot claimed farther ahead than a day less a minute, a matching minute in the covered period is started exactly once, over the whole run, iff at the start of these ticks it was started before or its claim is free. |
| StepFlow.FlowFrame | internal/execution/steps.go:16-36 | A step changes no entry of the context but its own, leaves an object or nothing there, and leaves the context alone when it fails or aborts. |
| StepFlow.FlowOutcome | internal/execution/steps.go:16-36 | A step is tried iff its condition holds and its inputs can be assembled, never after an answer that is no retryable failure; the answer of the last attempt decides on the output, the action or error by the policy, and the events. |
| StepFlow.FirstHaltIs | internal/execution/parallel.go:133-141 | The error of a group is that of its first branch in the list that fails or aborts. |
| StepFlow.AttemptsAre | internal/execution/steps.go:224-234 | One attempt unless the step retries; then as many as are set, three when none is, and ten at the most. |
| StepFlow.TriesAre | internal/execution/steps.go:243-274 | All answers before the last are failures that may be retried, the last one counts, every attempt is journalled, and none is left out while it may be made. |
| StepFlow.FailByPolicy | internal/execution/steps.go:292-306 | The error policy: skip drops the output and goes on, otherwise the item is aborted. |
| StepFlow.DoRunStep | internal/execution/steps.go:160-307 | Retries up to the configured and the global limit, then success, skip, abort or error, or the cancellation of an attempt; context, result and events. |
| StepFlow.DoRunFlow | internal/execution/steps.go:16-36 | The condition first: unreadable is an error, false skips, true runs the step. |
| StepFlow.SegmentSteps | internal/execution/parallel.go:24-41 | The segments are the maximal runs of one group, and single steps between. |
| StepFlow.SegmentsPartition | internal/execution/parallel.go:24-41 | Segmentation keeps every step in its place and splits at exactly the borders of the groups. |
| StepFlow.RunBranches | internal/execution/parallel.go:109-132 | Each branch runs on its own copy and hands over its own output and action. |
| StepFlow.MergeOutputs | internal/execution/parallel.go:142-154 | The barrier writes the outputs in list order; an action per step. |
| StepFlow.DoRunGroup | internal/execution/parallel.go:91-157 | The width limit, the first halt with its error, or the merge with its snapshot. |
| StepFlow.DoRunOne | internal/execution/parallel.go:48-84 | One segment, skipped only when all of it is in the skip set. |
| StepFlow.DoRunSegments | internal/execution/parallel.go:48-84 | All segments in order up to the first error or abort, or to the look at the cancellation of the run that finds it. |
| ParallelGroup.FlowAgrees | internal/execution/steps.go:16-36 | A step that does not read some outputs acts alike in contexts that differ only there. |
| ParallelGroup.InterleaveInv | internal/execution/parallel.go:109-132 | In every interleaving each branch works on the context at entry, and its events are in its order. |
| ParallelGroup.GroupIsDeterministic | internal/execution/parallel.go:91-157 | For every interleaving the barrier computes the same context, actions and error. |
| ParallelGroup.BranchesNeverWait | internal/execution/parallel.go:109-132 | Each step of a branch that has not ended brings the barrier one step nearer. |
| ParallelGroup.MergeEntries | internal/execution/parallel.go:142-153 | Which entry the barrier leaves under every id. |
| ParallelGroup.SequenceEntries | internal/execution/parallel.go:48-84 | Run in sequence, independent steps leave what each leaves when run from the start. |
| ParallelGroup.GroupEqualsSequence | internal/execution/parallel.go:91-157 | For branches that do not read each other and do not halt: group and sequence end with the same context iff no step's failure discards an output that was there before. |
| ParallelGroup.GroupKeepsAnOldOutput | internal/execution/parallel.go:142-153 | Two failing steps under `on_error: skip` and an old output: the group keeps it, the sequence does not. |
| LinearResume.ResumeStepCursor | internal/execution/resume_steps.go:26-44 | The steps that the journal shows as ended well. |
| LinearResume.SkipSteps | internal/execution/runner.go:474-491 | Skipped is what ended well and has its output in the restored context. |
| LinearResume.DoRunLinear | internal/execution/runner.go:665-731 | The one item of a linear pipeline, with its abort event, its snapshots, its end, and its end by an error or a cancellation before the item, between segments or in a step. |
| LinearResume.LinearEnd | internal/execution/runner.go:665-731 | A run ends with its verdict after the last snapshot, or with the failure or the cancellation and the snapshot after it. |
| LinearResume.JournalAbort | internal/execution/runner.go:696-702 | The first abort is journalled with the step that stands at the number of the action. |
| LinearResume.ActionsShape | internal/execution/parallel.go:48-84 | There are no more actions than steps, and only the last can be an abort, whatever is skipped. |
| LinearResume.ActionsAligned | internal/execution/parallel.go:48-84 | The actions of a segment, one for each of its steps in their order, stand behind one action for each step of the segments that were not skipped before it; where nothing is skipped, the i-th action is that of the i-th step. |
| LinearResume.AbortEventIff | internal/execution/runner.go:696-702 | When a run ends in the abort of a step, the abort event names that step iff no segment before it was skipped. |
| LinearResume.AbortEventNamesASkippedStep | internal/execution/runner.go:696-702 | Step `a` is skipped, step `b` aborts, and the event names `a`. |
| FinishedSteps.ResumedRunIsTheRest | internal/execution/parallel.go:54-66 | A resumed run is, events included, a fresh run from the snapshot of the segments that are not finished: one whose steps all ended well in the journal and left their outputs is not run again, group or single step. |
| FinishedSteps.FinishedIsNotRun | internal/execution/parallel.go:54-66 | No event of a step of a finished segment is in the journal of the resumed run. |
| LinearResume.SameSingle | internal/execution/parallel.go:60-84 | A resumed single step ends as the fresh one did, skipped or run again. |
| LinearResume.SameGroup | internal/execution/parallel.go:184-194 | So does a resumed group. |
| LinearResume.ResumeSegments | internal/execution/parallel.go:48-84 | From a restored context that agrees with the unstopped run, the rest ends with the same outputs, error and verdict. |
| LinearResume.CutOffFaithful | internal/execution/parallel.go:48-84 | Wherever between its segments a resumed run is cut off, its context holds nothing but outputs of the unstopped run. |
| LinearResume.FlowInterrupted | internal/execution/steps.go:254-271 | A step of which an attempt is cancelled leaves the context as it was; a step of which none is acts as it does otherwise. |
| LinearResume.SnapshotsAreCutOffs | internal/execution/parallel.go:48-84 | Whatever a run saves that is cancelled anywhere, in a step, in branches of a group or between segments, is the context at a cut between segments of the run that is not cancelled. |
| LinearResume.EveryCutIsLeftBehind | internal/execution/runner.go:692-695 | The context at every such cut is what some cancelled run saves. |
| LinearResume.ResumeFromFaithful | internal/execution/runner.go:474-491 | Resuming from any snapshot that agrees with the unstopped run ends like it, whatever the journal shows. |
| LinearResume.LeftBehindIsFaithful | internal/execution/runner.go:474-491 | Every snapshot that any number of runs leave, each resumed from the one before and each cancelled or killed anywhere, agrees with the unstopped run. |
| LinearResume.ResumeEqualsNotStopping | internal/execution/runner.go:474-491 | So the resumed run ends with the outputs, the error and the verdict of the run that is never stopped. |
| ForeachRun.UnactedLeavesNothing | internal/execution/runner.go:691-717 | A step that has no action in an unresumed run, or an abort, left no output. |
| ForeachRun.AbortedAtTheStep | internal/execution/runner.go:696-702 | The step at which an aborted item is journalled is the step that failed. |
| ForeachRun.UntilIsTheItem | internal/execution/parallel.go:50-53 | An item that is not cancelled runs as if no look at the cancellation were made. |
| ForeachRun.ItemStartsAnew | internal/execution/runner.go:672-686 | An item starts with its own value among the inputs, without any output or aggregate of the loop, and with the other inputs and the outputs from before the loop. |
| ForeachRun.CollectCounts | internal/execution/runner.go:696-717 | Every output counts once, and the run fails on the limit iff there is an output beyond it. |
| ForeachRun.CollectAdds | internal/execution/runner.go:696-717 | Collecting an item adds to each step's aggregate its output, if it left one. |
| ForeachRun.WriteEntries | internal/execution/runner.go:220-233 | Writing the aggregates sets exactly the aggregate keys of the steps that have one. |
| ForeachRun.ItemKeepsBase | internal/execution/runner.go:672-720 | An item leaves nothing behind but what the next one clears. |
| ForeachRun.AggregatesAreTheOutputs | internal/execution/runner.go:665-731 | After the loop each step's aggregate is the list of its outputs in item order, each as if its item had run alone; a step without outputs has none, except what a step named `<id>_all` left in the last item; OK plus aborted is the number of items. |
| ForeachRun.NamesakeStandsThere | internal/execution/runner.go:220-233 | Where the aggregate of `a` would stand, which has no outputs, the output of a step `a_all` does. |
| ForeachRun.DoCollect | internal/execution/runner.go:696-717 | The loop over the actions of an item, its abort event and its limit. |
| ForeachRun.DoWriteAggregates | internal/execution/runner.go:220-233 | Writes the aggregates step by step. |
| ForeachRun.DoItem | internal/execution/runner.go:668-731 | One item: look, reset, run, collect, write, snapshot, end; or the end of the run by an error or a cancellation. |
| ForeachRun.DoRunItems | internal/execution/runner.go:665-731 | The item loop with its statistics, up to the first error. |
| ForeachRun.ResumeCursor | internal/execution/runner.go:152-184 | The first item that the journal does not show as ended well. |
| ForeachRun.PrefixShows | internal/execution/runner.go:665-731 | Every prefix of the journal shows the verdicts of the first items, in order, and of no others. |
| ForeachRun.CursorOnEveryPrefix | internal/execution/runner.go:152-184 | On every prefix of a fresh run's journal the cursor is at the first aborted item shown, or behind all of them. |
| TomlText.ReadValue | internal/importer/toml.go:453-485 | A value that is read consumes text, so reading ends. |
| TomlText.ReadStatement | internal/importer/toml.go:229-258 | Every statement that is read consumes text and has a key path. |
| TomlScanner.Scanner.constructor | internal/importer/toml.go:269-273 | Starts at line 1. |
| TomlScanner.Scanner.Advance | internal/importer/toml.go:291-298 | One character; the line counter stays one plus the newlines consumed. |
| TomlScanner.Scanner.SkipWhile | internal/importer/toml.go:300-310 | Exactly the longest qualifying run. |
| TomlScanner.Scanner.SkipSpaces | internal/importer/toml.go:300-304 | Exactly the blanks and tabs. |
| TomlScanner.Scanner.SkipFiller | internal/importer/toml.go:316-327 | Blanks, line ends and comments, between statements and in arrays alike. |
| TomlScanner.Scanner.EndOfStatement | internal/importer/toml.go:332-358 | Only a comment may follow on the line. |
| TomlScanner.Scanner.ReadUnicodeEscape | internal/importer/toml.go:751-770 | The code point of the hex digits, 32-bit wrap-around included. |
| TomlScanner.Scanner.ReadEscape | internal/importer/toml.go:699-749 | One escape; a line continuation only in multi-line strings. |
| TomlScanner.Scanner.CountQuotes | internal/importer/toml.go:663-668 | The length of the run of quotes ahead. |
| TomlScanner.Scanner.ReadString | internal/importer/toml.go:638-656 | Opening quotes and the newline behind three of them. |
| TomlScanner.Scanner.ReadBody | internal/importer/toml.go:656-697 | The body up to the closing quotes, with every kind of failure and its line. Result, consumed text and reported line as specified; the position stays inside the text and the line counter true. |
| TomlScanner.Scanner.ReadKeySegment | internal/importer/toml.go:414-428 | A bare or a quoted key. |
| TomlScanner.Scanner.ReadKeyPath | internal/importer/toml.go:398-412 | A dotted path of keys. |
| TomlScanner.Scanner.ReadBool | internal/importer/toml.go:487-501 | `true` or `false`, ended by a terminator. |
| TomlScanner.Scanner.ReadNumber | internal/importer/toml.go:519-530 | The run of number characters, if it has the form of a number. |
| TomlScanner.Scanner.ReadValue | internal/importer/toml.go:453-485 | A value of any kind; recursion ends by the position. Result, consumed text and reported line as specified; the position stays inside the text and the line counter true. |
| TomlScanner.Scanner.ReadArray | internal/importer/toml.go:534-567 | An array over any number of lines. |
| TomlScanner.Scanner.ReadInlineTable | internal/importer/toml.go:586-634 | An inline table on one line. |
| TomlScanner.Scanner.ReadItem | internal/importer/toml.go:603-618 | One key and value of an inline table. |
| TomlScanner.Scanner.ReadTableHeader | internal/importer/toml.go:372-393 | A table header with the line it begins on. |
| TomlScanner.Scanner.ReadKeyValue | internal/importer/toml.go:430-451 | An assignment, with the line the parser hands on with it. |
| TomlScanner.Scanner.ReadStatement | internal/importer/toml.go:234-253 | The next statement or the end. Result, consumed text and reported line as specified; the position stays inside the text and the line counter true. |
| TomlDocument.WithPathMeans | internal/importer/toml.go:169-198 | An assignment goes through iff no value stands on the way and its place holds no value and is no declared table; it then changes no other node. |
| TomlDocument.WithTableMeans | internal/importer/toml.go:205-227 | A header goes through iff no value stands on the way or at its end and it was not declared; it then changes no other node. |
| TomlDocument.WithPathKeepsTree | internal/importer/toml.go:169-198 | The tree stays closed under parents, each child listed once. |
| TomlDocument.WithTableKeepsTree | internal/importer/toml.go:205-227 | So it does under a header. |
| TomlDocument.FreeMeansNoClash | internal/importer/toml.go:166-227 | The way is free iff no earlier statement clashes. |
| TomlDocument.GrownHolds | internal/importer/toml.go:166-227 | Afterwards the tree says exactly what all statements say. |
| TomlDocument.PerformMeans | internal/importer/toml.go:229-258 | One statement goes through iff it clashes with none before it; otherwise the failure names its line. |
| TomlDocument.BuildMeans | internal/importer/toml.go:229-258 | A list of statements is accepted iff none clashes with an earlier one; otherwise the first that does is reported. |
| TomlDocument.TomlDoc.Child | internal/importer/toml.go:171-178 | Finds or makes a child and lists it once. |
| TomlDocument.TomlDoc.SetPath | internal/importer/toml.go:169-198 | The walk along the path, and its failures. |
| TomlDocument.TomlDoc.AttachTable | internal/importer/toml.go:205-227 | The walk along the header's path, and its failures. |
| TomlDocument.ParseStep | internal/importer/toml.go:229-258 | Reading and building take turns; the first failure of either ends the parse. |
| TomlDocument.ParseToml | internal/importer/toml.go:229-258 | The parser's result, and that a failure names a line of the text. |
| TomlAccepts.AcceptedIff | internal/importer/toml.go:166-258 | A document is accepted iff every statement can be read and none clashes; the tree is then exactly what the statements say. |
| TomlAccepts.NoAssignmentLost | internal/importer/toml.go:166-258 | In an accepted document every assigned path holds exactly its value and every header its declaration, and no path is assigned or declared twice. |
| TomlAccepts.DescendMeans | internal/importer/toml.go:79-88 | The readers' way down succeeds iff no value stands on it. |
| TomlAccepts.ReachedIff | internal/importer/toml.go:79-106 | The readers reach the table of an assignment iff no assignment stands at that table or above it. |
| TomlAccepts.ValueOverTable | internal/importer/toml.go:169-198 | A value laid over the table of an earlier dotted key is accepted, and hides what is below it from the readers. |
| TomlAccepts.EndLine | internal/importer/toml.go:332-358 | The line handed on with an assignment is the next one iff its line end was read with it. |
| TomlAccepts.DuplicateNamesTheNextLine | internal/importer/toml.go:250-256 | A key repeated on line 2 is reported on line 3. |
| TomlAccepts.UnicodeEscapeIff | internal/importer/toml.go:751-770 | A Unicode escape is accepted iff its digits are there and name a scalar value, or a value of 0x80000000 or more, which is written as U+FFFD; otherwise the failure names the line of the backslash. |
| TomlAccepts.WideEscapeIsAccepted | internal/importer/toml.go:751-770 | `FFFFFFFF` after `U` is accepted and read as U+FFFD. |
| TomlQuote.ScrubbedIff | internal/importer/genshell.go:371-372 | Ranging over runes changes a text iff it is not UTF-8. |
| TomlQuote.EscapeDoubleQuoted | internal/importer/genshell.go:369-392 | The escaped text, rune by rune. |
| TomlQuote.EscapedReads | internal/importer/toml.go:656-749 | Up to the closing quote the reader yields the text with stray bytes replaced, or refuses the first hex escape. |
| TomlQuote.QuotingRoundTrips | internal/importer/genshell.go:361-392 | The reader gives the quoted text back and stops right behind the literal iff the text is UTF-8 and has no control character but newline, carriage return and tab, and no DEL. |
| TomlQuote.QuotedValueRoundTrips | internal/importer/toml.go:457-464 | The same at the place of a value, where no further quote follows. |
| TomlQuote.Utf8Decodes | internal/importer/toml.go:751-770 | The bytes written for a code point are one UTF-8 rune, and it is that code point. |
| TomlQuote.RuneIsWritten | internal/importer/toml.go:751-770 | Every UTF-8 rune is what is written for its code point. |
| TomlNumbers.NumberShape | internal/importer/toml.go:503-530 | A text of a known number form is a run of number characters that begins with a sign or a digit, so it is read whole. |
| TomlNumbers.NumberIff | internal/importer/toml.go:487-530 | A text is a number iff it is a sign, groups of digits with single underscores between them, a fraction and an exponent, or a sign, `0x`, `0o` or `0b` and groups of the digits of that base. |
| TomlStrings.PiecesRead | internal/importer/toml.go:656-749 | The body of a string is read up to its closing quotes as what its characters, escapes, code points, continued lines and inner quotes stand for. |
| TomlValues.QuotedReads | internal/importer/toml.go:636-749 | A basic, literal or multi-line string is read as what it stands for. |
| TomlValues.KeyReads | internal/importer/toml.go:395-428 | A bare key over the letters, digits, dash and underscore, or a quoted key, is read as its name. |
| TomlValues.ValueReadsBack | internal/importer/toml.go:453-634 | A value written in any layout, however nested, is read as exactly that value, with nothing more consumed and the line counter moved by the line ends in it. |
| TomlValues.ElementsReadBack | internal/importer/toml.go:534-567 | The elements of an array are read in order, with blanks, line ends and comments around them and a comma behind the last. |
| TomlValues.ItemsReadBack | internal/importer/toml.go:586-634 | The items of an inline table are read in order, with spaces around them. |
| TomlRoundTrip.PathReadsBack | internal/importer/toml.go:395-428 | A dotted path of bare and quoted keys is read as that path. |
| TomlRoundTrip.EndReads | internal/importer/toml.go:332-358 | A line end, a comment or the end of the text ends a statement. |
| TomlRoundTrip.HeaderReadsBack | internal/importer/toml.go:370-393 | A header is read with its path and its own line. |
| TomlRoundTrip.AssignReadsBack | internal/importer/toml.go:430-451 | An assignment is read with its path, its value and the line the parser hands on. |
| TomlRoundTrip.StatementsReadBack | internal/importer/toml.go:234-253 | A document written in any layout is read as its statements, to its end. |
| TomlRoundTrip.DocumentReadsBack | internal/importer/toml.go:229-258 | It is accepted iff no statement clashes with an earlier one, and the tree is then exactly what the statements say. |
| TomlLanguage.PiecesOf | internal/importer/toml.go:656-749 | A string body that is read consists of such pieces. |
| TomlLanguage.KeyOf | internal/importer/toml.go:395-428 | A key that is read is a bare or a quoted one. |
| TomlLanguage.ValOf | internal/importer/toml.go:453-634 | A value that is read is one that can be written. |
| TomlLanguage.ReadableIff | internal/importer/toml.go:229-258 | A text is read to its end without a failure iff it is a document of the syntax. |
| TomlLanguage.ParsesIff | internal/importer/toml.go:166-258 | The documents the parser accepts are exactly the texts of the syntax whose statements do not clash, after a byte order mark if there is one. |
| TomlWritable.ValueWritten | internal/importer/toml.go:453-634 | Every value the reader can yield can be written. |
| TomlWritable.WrittenIsAccepted | internal/importer/toml.go:229-258 | Every list of statements can be written as a document, which is accepted iff none clashes with an earlier one. |
| Requirement.ParseNameExtras | internal/importer/requirement.go:178-205 | Name and extras, or the first thing wrong with them. |
| Requirement.SplitNameAndRest | internal/importer/requirement.go:165-171 | The longest prefix of name characters and the rest. |
| Requirement.IsVcsLink | internal/importer/requirement.go:151-160 | True iff one of the schemes stands at the front, behind an @ or behind a blank. |
| Requirement.ApplyVersion | internal/importer/requirement.go:210-245 | The version clause read, normalised and judged. |
| Requirement.ParseRequirement | internal/importer/requirement.go:70-147 | The whole line: comment, marker, link, name, extras, version. |
| Requirement.ParseBody | internal/importer/requirement.go:104-147 | The line without marker. |
| RequirementText.FindIsFirst | internal/importer/requirement.go:77-81 | The search finds the first place. |
| RequirementLines.NameReads | internal/importer/requirement.go:178-205 | A name with its brackets is read as the normal form of the name and those of the extras, whatever blanks stand around them. |
| RequirementLines.PartsRead | internal/importer/requirement.go:214-242 | The version parts are read as their operators and versions, unless a second one is `==`. |
| RequirementLines.LineReadsBack | internal/importer/requirement.go:70-147 | A requirement line with extras, version parts or a link, marker, comment and blanks in any layout is read as exactly these, or refused when two parts are `==`. |
| RequirementLanguage.LineOf | internal/importer/requirement.go:70-147 | A line that is read can be written so. |
| RequirementLanguage.ReadableIff | internal/importer/requirement.go:70-147 | The lines the parser reads are exactly those that can be written so, with one `==` part at the most. |
| RequirementLines.ManifestSpecIff | internal/importer/requirement.go:247-271 | A requirement has a manifest line iff it is pinned, has no extras, link or marker, and no character in its version that the manifest does not know. |
| RequirementLines.LineIsManifestIff | internal/importer/requirement.go:247-271 | A line of a foreign file can be written to a manifest iff it has exactly one `==` part with a plain version and no extras, link or marker. |
| RequirementLaws.ReadVersionsMeans | internal/importer/requirement.go:214-242 | The clause list is accepted iff all parts can be read and at most one is `==`. |
| RequirementLaws.PinnedIff | internal/importer/requirement.go:210-245 | A requirement is pinned iff one part is `==` with a version that is no wildcard, and that is its version. |
| RequirementLaws.ClauseReadsBack | internal/importer/requirement.go:227-232 | A clause written without blanks is read as it was. |
| RequirementLaws.ConstraintReadsBack | internal/importer/requirement.go:210-245 | Reading the constraint as it is kept gives the same requirement again. |
| RequirementLaws.NormalShape | internal/importer/requirement.go:275-278 | A normalised name is a name of lower-case letters, digits and dashes. |
| RequirementLaws.NormalizeTwice | internal/importer/requirement.go:275-278 | Normalising a normal form changes it iff it has two dashes in a row. |
| RequirementLaws.NormalIsPep503Iff | internal/importer/requirement.go:273-278 | The normal form is the one of PEP 503 iff every run of separators is a single one or a pair of dashes. |
| RequirementLaws.TwoUnderscoresStay | internal/importer/requirement.go:273-278 | `a__b` becomes `a--b`, where PEP 503 has `a-b`. |
| RequirementLaws.ParsedName | internal/importer/requirement.go:178-205 | Every parsed name is a normal form. |
| RequirementLaws.LineReads | internal/importer/requirement.go:70-147 | A manifest line is read as a pin of exactly its version. |
| RequirementLaws.ManifestLineReadsBack | internal/importer/requirement.go:247-271 | The manifest line of a requirement is read back with the same version and nothing else; name and line are the same iff the name has no two dashes in a row. |

## Left out

- CronDaemon.AtMostOnce: does not hold for slots claimed farther ahead than a day less a minute; `CronCatchUp.FarSlotStartsTwice` gives the run that starts such a slot twice.
- RequirementLines.LineReadsBack: asks that none of the four repository schemes stands in the line where the parser looks for it, which refuses such lines (`Requirement.IsVcsLink`).
- SlotQueue.EverySlotFollowsItsCalls: speaks of calls whose writes succeed; `OldOrNewUntilRestart` says what a lost write leaves.
- CronExactlyOnce.ExactlyOnce: speaks of ticks in which every write succeeds, no running lock is held, and every claim outlasts its slot as `CronDaemon.AtMostOnce` asks.
- ExecutionGraph.TopoSort: also fails for an edge from an unknown node, which the source's graphs can have when a path names a step that is not in the pipeline.
- ForeachRun.CursorOnEveryPrefix: speaks of fresh runs only, because a resumed loop in the source restarts at item 0 whatever the cursor says.
- JournalWindow.PagesAreTheFullRead: asks that no page overflows; `PageLinesAreAll` says that the pages are the full read only then.
- ParallelGroup.GroupIsDeterministic: compares the outcome of the barrier; the order of the branches' events in the journal does depend on the interleaving, and the imperative form runs the branches in list order.
- TomlScanner.Scanner.ReadStatement: failures carry a kind and a line, not the source's message text.
- TomlQuote.QuotedValueRoundTrips: asks that no quote follows the literal, since an empty literal with a quote behind it opens a multi-line string.
- Matching a minute against the five cron fields and time zones: the match is an arbitrary predicate on minutes.
- Schedule state files, alerts and the daemon's own lock file; a pipeline's running lock is an input of the tick.
- File format and fsync of the state file: a commit leaves the old or the new image.
- The order and wording of the notices of interrupted slots.
- Step-level foreach, loop steps, human gates and built-in steps, and the length of the delays between retries; a cancellation during an attempt or the delay behind it is an answer of the attempt.
- GateChannel.EveryAcceptedSignalIsReceived: asks that a send or a receive that stays enabled gets its turn, which is what the Go scheduler and its channels give.
- Resumption of foreach runs and the phases before and after the loop.
- LinearResume.DoRunLinear: the limit on collected outputs, which a linear pipeline reaches only with more than 100000 steps.
- Plugins are deterministic functions of the context and the attempt number; validation of inputs is one yes or no.
- HTTP, cookies and the spelling of pairing codes: guesses are compared as already normalised.
- Errors of the line scanner (over-long lines, I/O) and carriage returns at line ends of the journal.
- Nodes of the TOML tree are named by their path, so aliasing of node pointers cannot be expressed; the lines stored in nodes serve only messages and have no theorem.
- The typed readers of TOML fields beyond the way down to a table.
- Lower-casing is modelled for ASCII, which is all that the patterns of names and extras let through.
- Trust lists, signed links, process control, downloads, command line and graphical front ends.
