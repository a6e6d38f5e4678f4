# Rack control: a verified model

A central server shares gantry racks between operators, scheduled scans and capture jobs. It
gives out one timed lock per rack, queues the commands that meet a lock, and sends them to the
rack's Raspberry Pi, which drives an Arduino over one serial line and walks the snake grid when a
scan is on. This project models that core in Dafny and proves what it keeps over every run.

Integer time is passed in. Whatever the code does not decide itself (replies, captures, lost or
repeated messages, the moment of a stop, whether a database session or a publish works) is a
parameter that a theorem quantifies over. Code that updates objects in place is a class whose
methods are proved equal to a specification function of the old state; the theorems are about
those functions and about runs of them. What the small functions at the bottom decide (which line is
an answer, which lock a text takes, who is due, when a position is missed, what a status leaves
behind) is also stated without them, in characters, fields, numbers and inequalities: in `LockKinds`,
`DueSchedules`, `Tolerance`, `ScanEffects`, `CommandTexts`, and beside the functions elsewhere. `dafny verify dfyconfig.toml` checks everything.

| part | files |
|---|---|
| locks, mirror, command queues | `RackProtocol`, `RackServer`, `GantryMirror`, `RackInvariants`, `RackSafety`, `LockTiming`, `QueueOrder`, `TurnOrder`, `EmergencyStops`, `InFlight`, `LockKinds` |
| scans on the Pi | `ScanOrder`, `ScanRun`, `ScanTiming`, `ScanExecutor` |
| serial link | `LineReader`, `SerialHandler`, `SerialProtocol`, `DisturbedWaits` |
| recovery, scheduling, scan records | `Recovery`, `PositionMonitor`, `Tolerance`, `Scheduling`, `FleetRuns`, `StaggerRuns`, `StaggerTimers`, `SecondStarts`, `DueSchedules`, `ScanEngine`, `ScanSessions`, `ScanEffects` |
| identity, command strings, layout cache | `DeviceIds`, `Provisioning`, `CommandHandler`, `CommandTexts`, `LayoutCache` |
| common ground | `Prelude`, `Text` |

## What the proofs found

- First in, first out, over all submitted commands. With submissions and dispatches as single steps it
  is broken by exactly two of them: a submission that finds commands waiting but no lock in force,
  between the expiry of a lock and its sweep or behind no lock, which is published before all of
  them; and a dispatch that publishes the head of a queue with an earlier command behind it
  (`TurnOrder.FirstInFirstOutIff`). With sweeps that fire right after their commit and releases that
  are seen only the first is left (`TurnOrder.FirstInFirstOut`). A queue gets out of order exactly
  when a dispatch meets a lock in force with two or more commands waiting
  (`QueueOrder.OrderKeptExactly`). With threads that interleave inside a submission or dispatch, as
  sessions, enqueuing and publishing are separate, it is broken by exactly the publications that
  come while an earlier command waits or is in another thread's hand
  (`InFlight.FirstInFirstOutInFlightIff`).
- An e-stop discards what waits for good, but a command that another thread has in hand at that moment
  can still go out after the stop; no other can (`InFlight.StopSparesOnlyCommandsInHand`,
  `InFlight.AdmittedFollowsStop`).
- A release fires the queue's dispatch before its transaction commits. If the dispatching session
  cannot see the release, the head of the queue goes to the tail while the old lock still runs,
  and is lost to a failed write once it has expired. Either way the rack is left unlocked with
  commands waiting that no sweep will look at (`QueueOrder.ReleaseDispatchesIffSeen`,
  `QueueOrder.StrandedWithoutLock`).
- At the very instant of expiry the sweep leaves a lock alone that the next caller overwrites
  (`LockTiming.LateStepsTakeLock`). A scan lock lasts 2 * max(motion, capture) seconds, not the
  2 * capture that comments mention.
- The e-stop route is two steps. Its second half leaves the rack unlocked with nothing dispatched iff
  the lock is gone by then, nothing that joined the queue in between still waits, or the dispatch
  cannot lock the rack (`EmergencyStops.EmergencyStopIsSilentIff`); so it does if nobody submits to
  the locked rack in between (`EmergencyStops.UnjoinedStopIsComplete`).
- A snapshot of a row taken before a lock changed does no harm when it is reconciled later iff the
  change is dated later than the snapshot, or changed nothing (`GantryMirror.OldSnapshotHarmlessIff`).
- A resumed scan does not simply continue: it is exact iff a condition on the resume cell holds, and
  loses cells iff another does (`ScanOrder.ResumeIsExactIff`, `ScanOrder.ResumeCoversGridIff`).
- The keepalive thread is stopped before the final G28, not after it as its documentation says; the
  trace grammar of `ScanRun` has it in that order.
- The session row of a completed scan adds up to the grid iff the last progress message arrived, as
  the final status carries the totals but the server does not store them
  (`ScanSessions.CompleteSessionAddsUpIff`). A final status, first or repeated, changes nothing on
  the rack iff the rack has no lock when it arrives; a repeated one frees a lock that was granted
  since the first (`ScanSessions.EndingIsHarmlessIff`, `ScanSessions.RepeatedEndingFreesAnotherLock`).
- "Complete" does not cancel a resume window: after a pause it stands until an abort, and otherwise for
  300 seconds from the last pause that arrived (`ScanEffects.WindowIs`).
- A disabled schedule keeps the job from a rack, but not its old timers, nor a manual start
  (`DueSchedules.DisabledStartsByHandOrOldTimer`).
- An attempt that an e-stop disturbs still returns the first real line after its write iff that line
  was read with the flag up, no drain took it, and it was not left in the queue at the timeout
  (`SerialProtocol.FirstLineReturnedIff`); the drain can swallow the right reply
  (`SerialProtocol.StopStealsReply`).
- An M114 that misses its target with all axes homed starts a recovery and ends it in the same call,
  so two misses flag the rack for maintenance with no re-home between them
  (`Recovery.BreachEndsItsRecovery`, `Recovery.TwoMissesFlagRack`). Attempts are never reset.
- A rack that waits for its stagger timer is not marked, so the next run of the job selects it again, and
  every run before its own sets one more timer for it. Runs of the job and timers race: due are at
  any time just the racks that neither has attempted (`StaggerRuns.DueAreTheUnattempted`), and run j
  takes just group j, for all j, iff no rack's timer fires before the run of its group
  (`StaggerRuns.GroupsStartInTurnIff`), as is sure if every gap between runs is shorter than the delay
  (`StaggerTimers.ShortGapsKeepTurn`), and as a late or missed run can break.
- The timers stay pending after their rack was started (`StaggerTimers.PendingUntilFired`). Within the
  period a rack is started again as often as one of them fires, or it is started by hand, with the
  rack online and its lock gone, as it is once the first scan has ended
  (`SecondStarts.StartedAgainPerOpening`). With a gate shut the timer shortens the interval instead,
  iff the postponement ends first (`SecondStarts.TimerShortensIff`).
- A rack under maintenance is never selected again, but a timer set before and a manual start do start
  it: neither looks at the flag (`FleetRuns.EscalatedStartsIff`,
  `FleetRuns.EscalatedStartsByHandOrOldTimer`).
- A manual scan that is answered "queued" is queued nowhere: taken out of any run it changes nothing
  (`FleetRuns.QueuedManualLeavesNoTrace`).
- "rack-1000" sorts below "rack-999", so from the 1000th device on every new device gets the same
  id. A device keeps its id and credentials iff its number is below 1000 or no new device has come
  since; the next new one takes over its row (`Provisioning.IdentityKeptIff`,
  `Provisioning.ThousandFirstDisplaces`).
- Validation looks at the last of several R or C parameters only, while the text is sent on as it is
  (`CommandHandler.EarlierRowIsNotChecked`).

## Model

| member | source | states |
|---|---|---|
| RackServer.Server.AcquireLock | server/core/locking.py:151-216 | refuses an unknown rack and a lock whose expiry lies ahead; otherwise row, mirror and log show the same new lock; other racks keep row, mirror, queue and log |
| LockKinds.AcquireLocks | server/core/locking.py:182-216 | in fields: no rack, a lock in force, or the row and mirror of a lock of the kind asked with the expiry of that kind |
| RackServer.Server.ExtendLock | server/core/locking.py:260-288 | moves the expiry of whatever lock is held, in row and mirror, and says whether there was one |
| RackServer.Server.ReleaseLock | server/core/locking.py:219-257 | frees the row and the mirror and dispatches one waiting command, in a session that may or may not see the release; does nothing to an unlocked rack |
| RackServer.Server.SubmitCommand | server/core/queue_manager.py:148-210 | a submission is numbered and ends as published, queued, failed or an e-stop, and the caller is told which; other racks are untouched |
| RackServer.Server.Submit | server/core/queue_manager.py:161-210 | the same for a command in hand, with every error path: no token, no session, no rack, blocked write, failed publish |
| LockKinds.LockFollowsText | server/core/queue_manager.py:86-93 | a submission that meets no lock in force locks the rack for its user, "__anonymous__" without one: with a capture lock for the capture timeout iff its first word reads CAPTURE in upper case, a scan lock for twice the longer timeout iff SCAN_START or SCAN_STOP, else a motion lock for the motion timeout |
| LockKinds.DispatchFollowsText | server/core/queue_manager.py:235-257 | so does the head of the queue that a seen release dispatches |
| LockKinds.OtherTextsTakeNoLock | server/core/queue_manager.py:175-195 | a blank text, an e-stop, and a submission without database, without row or against a lock in force leave row and mirror as they are |
| LockKinds.CommandIsAnswered | server/core/queue_manager.py:183-210 | a command waits iff it meets a lock in force, is published iff it meets none and the broker takes it, and fails otherwise; queue, log and answer say which |
| LockKinds.StopIsAnswered | server/core/queue_manager.py:175-233 | an e-stop empties the queue, keeps the lock, and is answered by whether it went out |
| LockKinds.BlankIsRefused | server/core/queue_manager.py:175 | a blank text is refused and changes nothing but the log |
| RackServer.Server.Enqueue | server/core/queue_manager.py:283-293 | a queued command goes to the tail of its own rack's queue |
| RackServer.Server.Pop | server/core/queue_manager.py:295-299 | the head comes off, or nothing happens |
| RackServer.Server.ClearQueue | server/core/queue_manager.py:301-310 | every waiting command is logged as discarded and the queue is empty |
| RackServer.Server.SubmitEmergency | server/core/queue_manager.py:212-233 | the queue is emptied before "!" goes out and also if it does not; the lock stays |
| RackServer.Server.OnLockReleased | server/core/queue_manager.py:235-257 | exactly one waiting command goes through submission again |
| RackServer.Server.EmergencyStop | server/api/routes.py:201-203 | an e-stop, followed by a release of its own iff it went out |
| LockKinds.RefusedStopKeepsLock | server/api/routes.py:201-203 | an e-stop that does not go out empties the queue and keeps the lock |
| RackServer.Server.OnCaptureFinished | server/main.py:239-264 | a release iff the mirror says the lock is a capture lock |
| LockKinds.CaptureFreesCapturesOnly | server/main.py:239-264 | on every run: a command goes out and its lock stays undisturbed until a capture is reported done, failed, or its image arrives; if its first word is CAPTURE the rack is freed, and otherwise nothing changes |
| RackServer.Server.Sweep | server/core/locking.py:316-384 | clears exactly the locks strictly past their expiry, commits, and then dispatches once for each rack cleared, whatever the order of racks |
| RackServer.Server.ClearExpired | server/core/locking.py:337-361 | the committed half of the sweep: returns each cleared rack once, and clears row and mirror together |
| RackServer.Server.FireReleased | server/core/locking.py:363-367 | the other half: one dispatch per rack in the list and none elsewhere |
| GantryMirror.GantryState.Upsert | server/core/state.py:137-168 | creates or updates one entry, keeps the others, derives pi_online and stamps the time |
| GantryMirror.LastGivenShows | server/core/state.py:155-167 | each field shows the last value given for it; updated_at and pi_online follow clock and status, whatever was given |
| GantryMirror.NotGivenStays | server/core/state.py:155-167 | a field that was not given stays as it was |
| GantryMirror.FirstUpsert | server/core/state.py:152-153 | a rack heard of for the first time is offline, idle, unlocked and needs no maintenance |
| GantryMirror.GantryState.ReconcileFromDb | server/core/state.py:177-237 | every entry is what last-write-wins makes of it and the rows |
| GantryMirror.OneRowPerRack | server/core/state.py:177-237 | with one row per rack, an entry is replaced iff it is missing, undated or not newer than its row; entries without a row stay |
| GantryMirror.LastWriteWins | server/core/state.py:177-237 | reconciling is idempotent; two snapshots give the same in either order iff they agree, or are dated differently, or both are older than the entry; otherwise the one applied last wins |
| GantryMirror.OldSnapshotHarmlessIff | server/core/state.py:199-205 | a snapshot taken before lock operations and reconciled after them leaves mirror and row agreeing iff there were none, or the last is dated later, or it set the same lock |
| RackInvariants.StepKeeps | server/core/locking.py:151-384 | every step keeps: mirror equal to row, row equal to the replay of the log, every grant and sweep in the log legal, every accepted command in one place |
| RackInvariants.ReachableIsLawful | server/core/queue_manager.py:148-257 | these hold after every run from the start of the server |
| RackSafety.CommandsConserved | server/core/queue_manager.py:148-257 | after every run each submitted command is, once and unaltered, in exactly one of: queue, published, discarded by an e-stop, failed; and nothing else is |
| RackSafety.EmergencyIsFinal | server/core/queue_manager.py:212-233 | a command waiting when an e-stop comes is discarded and never published, whatever follows |
| RackSafety.EmergencyStopOutcome | server/api/websocket.py:310-316 | undisturbed, a successful e-stop leaves the rack unlocked, the queue empty, and nothing published but the stop |
| RackSafety.EmergencyStopRace | server/api/routes.py:201-203 | the failing case exists: one late submission, dispatched by the second half |
| EmergencyStops.ReleaseIsSilentIff | server/core/locking.py:219-257 | a release leaves the rack unlocked with nothing published iff no lock, nothing waiting, or a dispatch that does not see it or has no database; publishes nothing iff one of these or a refusing broker |
| EmergencyStops.QueueLengthIs | server/core/queue_manager.py:235-310 | how many commands wait after any run: joined, taken, or dropped by an e-stop |
| EmergencyStops.EmergencyStopIsSilentIff | server/api/routes.py:201-203 | for every run between the two halves of an e-stop: its release is silent iff the lock is gone, everything that joined since has left, or the dispatch cannot lock the rack |
| EmergencyStops.EmptyThroughoutIff | server/core/queue_manager.py:183-192 | nothing ever waits in between iff no submission meets a lock in force |
| EmergencyStops.UnjoinedStopIsComplete | server/api/websocket.py:310-316 | then the stop leaves the rack unlocked, nothing dispatched and nothing waiting |
| RackSafety.CaptureMessagesSpareOtherLocks | server/main.py:466-471 | after every run the mirror shows the row's lock, so messages and images of captures release capture locks and change nothing under any other |
| LockTiming.HeldSinceGrant | server/core/locking.py:182-202 | from a grant on, until something frees it, the columns hold a lock that runs to the current expiry |
| LockTiming.MutualExclusion | server/core/locking.py:182-202 | between two grants there is a release, a sweep, or the second is no earlier than the current, possibly extended, expiry; sweeps come strictly after it |
| LockTiming.TimelyRunKeepsLock | server/core/locking.py:260-288 | a motion or scan lock survives every run whose releases are none and whose takers come before the expiry as extended |
| LockTiming.KeepalivesAreTimely | server/main.py:286-304 | with a clock that does not run back it is enough that each keepalive comes before the expiry set by the one before |
| LockTiming.KeepalivesHoldScanLock | server/core/locking.py:117-129 | a scan lock first extended within 2 * max(motion, capture) seconds and then in time is never swept nor granted again and blocks others until the end |
| LockTiming.LateStepsTakeLock | server/core/locking.py:339-348 | a sweep takes a lock iff past the expiry, an acquisition iff at or past it |
| QueueOrder.QueueAfter | server/core/queue_manager.py:235-310 | a step leaves a queue alone, empties it, appends the new command, or takes its head, which goes to the tail iff the lock is in force |
| QueueOrder.OrderKeptExactly | server/core/queue_manager.py:183-192 | waiting commands stay in submission order iff the step is not a dispatch that meets a lock in force with two or more waiting |
| QueueOrder.NoOvertaking | server/core/queue_manager.py:235-257 | of two commands that wait together, on runs without such a step, the later is published only after the earlier is settled |
| QueueOrder.AtomicSweepsUndisturbed | server/core/locking.py:363-367 | runs whose sweeps fire right after their commit and whose releases are seen have no such step |
| QueueOrder.WaitingTogetherKeepOrder | server/core/locking.py:316-367 | from the start of the server, with atomic sweeps and seen releases: commands that wait together stand in order and leave in order |
| TurnOrder.SubmissionOvertakesIff | server/core/locking.py:182-202 | a submission to a rack with commands waiting is published before all of them iff the lock is not in force, and joins them otherwise |
| TurnOrder.FirstInFirstOutIff | server/core/queue_manager.py:148-257 | over every run of submissions and dispatches as single steps: every command is published after all those submitted before it were settled iff no submission cut in and no dispatch skipped an earlier command |
| InFlight.StepKeepsLaw | server/core/queue_manager.py:148-257 | with commands in hand between arrival or pop, lock session and end: every step of every thread keeps mirror, row, log and the accounting of commands |
| InFlight.ConservedInFlight | server/core/queue_manager.py:148-257 | through every such interleaving each submitted command is once in exactly one of: in hand, queue, published, discarded, failed |
| InFlight.FirstInFirstOutInFlightIff | server/core/queue_manager.py:183-203 | through every such interleaving: published in the order of submission, earlier ones settled first, iff nothing is published while an earlier command waits or is in hand |
| InFlight.StopSparesOnlyCommandsInHand | server/core/queue_manager.py:212-233 | what waits when an e-stop clears the queue is discarded and never published; of all submitted before only what was in hand can be published later |
| InFlight.AdmittedFollowsStop | server/core/queue_manager.py:200-203 | it happens: a command that holds its lock is published after the stop |
| InFlight.UninterruptedIsAtomic | server/core/queue_manager.py:148-257 | a submission or dispatch that nothing interrupts is the single step of the protocol |
| TurnOrder.FirstInFirstOut | server/core/locking.py:316-367 | with atomic sweeps and seen releases this holds iff no submission came while commands waited without a lock in force |
| QueueOrder.SweepPublishesHead | server/core/locking.py:337-367 | a sweep past the expiry publishes the head of the queue and locks the rack for it |
| QueueOrder.SweepsDrainInOrder | server/core/locking.py:316-367 | k expiry-then-sweep rounds publish the first k waiting commands in queue order; as many rounds as commands empty the queue |
| QueueOrder.ReleaseDispatchesIffSeen | server/core/locking.py:243-255 | a release publishes the head and locks the rack again iff the dispatch sees it; otherwise what becomes of the head |
| QueueOrder.StrandedWithoutLock | server/core/locking.py:339-348 | commands waiting behind no lock are never swept and are overtaken by the next submission |
| ScanOrder.FreshScanIsBijection | pi/services/scan_executor.py:228-277 | a fresh scan visits every cell of the grid exactly once: places and cells correspond one to one |
| ScanOrder.FreshScanIsSnake | pi/services/scan_executor.py:243-255 | place row * cols + k of a fresh scan is column k in even rows and column cols - 1 - k in odd ones |
| ScanOrder.FreshScanMovesToNeighbours | pi/services/scan_executor.py:243-277 | consecutive cells are grid neighbours, across rows too |
| ScanOrder.ResumePlan | pi/services/scan_executor.py:225-277 | the exact visit list of a resumed scan in terms of the fresh order, for even and odd rows and for the last column |
| ScanOrder.ResumeIsExactIff | pi/services/scan_executor.py:225-236 | resuming continues exactly after the last cell iff one column, or an even row and (not its last cell or the last row) |
| ScanOrder.ResumeCoversGridIff | pi/services/scan_executor.py:225-236 | both runs together cover the grid iff the last cell is not in the last column, or one column, or the end of an even last row |
| ScanRun.LoopOutcome | pi/services/scan_executor.py:243-277 | the loop attempts a prefix of its cells, all of them if nothing ended it, and pauses or aborts only if stop or abort came |
| ScanRun.RunOutcome | pi/services/scan_executor.py:194-293 | for every timing of stop, abort, missing replies and failed captures: the trace grammar, prefix of the plan, one progress message per cell with running totals, one final status, final G28 iff entered and not aborted, "complete" only after all cells |
| ScanRun.TotalsAddUp | pi/services/scan_executor.py:340-350 | completed plus failed is the number of cells attempted, at every message |
| ScanRun.CameraComesOut | pi/services/scan_executor.py:330-338 | each M710 is followed at once by the capture and M711, unless the trace ends in between |
| ScanRun.RunIsSafe | pi/services/scan_executor.py:204-293 | homing comes first, nothing moves unless it was answered, the camera is never left in before a motion |
| ScanTiming.LoopEndsExactly | pi/services/scan_executor.py:243-277 | the loop ends aborted, paused or finished, and after how many cells, as a function of when the flags are set |
| ScanTiming.RunEndsExactly | pi/services/scan_executor.py:204-293 | the status of a run and the cells it moves to, exactly: paused iff stop is found after a planned cell with abort unset, aborted iff abort is found first |
| ScanTiming.NoCellAfterFlag | pi/services/scan_executor.py:256-274 | after a flag is set at most the cell under way is finished, and "complete" means neither was found |
| ScanExecutor.Executor.Start | pi/services/scan_executor.py:121-169 | ignored during a run, otherwise exactly one run over the visit list, fresh or resumed |
| ScanExecutor.Executor.Run | pi/services/scan_executor.py:194-293 | the imperative run equals the specified one, action by action and message by message |
| ScanExecutor.Executor.WalkGrid | pi/services/scan_executor.py:243-277 | the nested loops with skip and break do what a walk over the visit list does |
| ScanExecutor.Executor.RunRow | pi/services/scan_executor.py:246-274 | the inner loop either ends the whole walk or hands the rest of it to the next row |
| ScanExecutor.Executor.CheckAfterCell | pi/services/scan_executor.py:266-274 | stop without abort pauses, abort aborts, neither goes on; how often each flag is read |
| ScanExecutor.Executor.DoCell | pi/services/scan_executor.py:297-352 | a cell counts once, completed iff its move was answered and its capture succeeded |
| ScanExecutor.Executor.DoG28 | pi/services/scan_executor.py:365-392 | homed iff a reply came |
| ScanExecutor.StartOutcome | pi/services/scan_executor.py:163-169 | both results for a whole call, with completed plus failed equal to the cells moved to, and all of them if nothing interferes |
| LineReader.SplitReconstructs | pi/services/serial_handler.py:315-322 | lines and rest put together give the bytes back; neither holds a newline |
| LineReader.SplitIsUnique | pi/services/serial_handler.py:315-322 | no other splitting does |
| LineReader.SplitInTwoSteps | pi/services/serial_handler.py:298-322 | carrying the rest over to the next chunk loses and adds nothing |
| LineReader.LineEndsAtTen | pi/services/serial_handler.py:316-317 | a line ends at the first byte 10 |
| LineReader.RoutedOne | pi/services/serial_handler.py:318-322 | a blank line is dropped; any other goes out without the whitespace at its ends |
| LineReader.Reader.Feed | pi/services/serial_handler.py:312-322 | one chunk routes exactly the lines it completes and leaves a buffer without newline |
| LineReader.Reader.ReadAll | pi/services/serial_handler.py:287-336 | what is routed depends on the bytes only, not on the chunks |
| SerialHandler.Handler.RouteResponse | pi/services/serial_handler.py:338-372 | a line goes to the waiter iff somebody waits, otherwise it is unsolicited |
| SerialHandler.Handler.QueueGet | pi/services/serial_handler.py:456-488 | an item at once, or the first to arrive in time, or nothing at the timeout |
| SerialHandler.Handler.DrainStale | pi/services/serial_handler.py:441-447 | nothing stale is left, after 150 ms |
| SerialHandler.Handler.WriteAndWait | pi/services/serial_handler.py:409-488 | one write; the answer is the first text after it, in time, that is not blank and nowhere reads "on my way" in any letter case, at its arrival; else the attempt ends at write time plus timeout, however many other lines came |
| SerialHandler.Handler.SendCommand | pi/services/serial_handler.py:376-407 | between 1 and retry_count + 1 writes, the i-th 150 ms + i * (timeout + 1150 ms) after the call; no answer means all attempts were made and no such text came in time in any; an answer is the first such text of the last attempt, and none came in those before |
| SerialHandler.Handler.Retry | pi/services/serial_handler.py:394-407 | a pause of one second and one more attempt |
| SerialHandler.NoiseIffNotReal | pi/services/serial_handler.py:94-97 | a line is discarded iff it is blank or, lower-cased, is a + "on my way" + b for some a and b, with or without whitespace at its ends |
| SerialHandler.EchoAndAnswer | pi/services/serial_handler.py:479-484 | "Yo! On my way!" is discarded and "ROWS=12 COLS=7" is not |
| SerialProtocol.InvHolds | pi/services/serial_handler.py:338-544 | over all interleavings of reader, caller and e-stops: queued lines are true and in order, none older than the write, none missed in an undisturbed wait |
| SerialProtocol.SerialFreshness | pi/services/serial_handler.py:376-488 | what a call returns is not blank and no echo, was read after its attempt's own write, and no line read between was such a text unless an e-stop or disconnection came; at most retry_count + 1 writes, exactly so many for nothing |
| SerialProtocol.FirstLineReturnedIff | pi/services/serial_handler.py:338-544 | for every attempt of every call, disturbed or not: the first real line after its write is returned iff the flag was up when it was routed, no drain took it and it was not left at the timeout; undisturbed, nothing returned means no real line was taken in time |
| SerialProtocol.CallIsItsTries | pi/services/serial_handler.py:376-407 | a call made as many attempts as it wrote, only the last may have answered, and its answer is the call's |
| SerialProtocol.StopStealsReply | pi/services/serial_handler.py:492-544 | the failing case exists: a run in which an e-stop drains the right answer |
| DisturbedWaits.DisturbedAttemptEndsInTime | pi/services/serial_handler.py:456-544 | however e-stops disturb a wait, with sentinels, lost and drained lines, it ends by its write time plus the timeout, at the first real line that was not lost, or at the timeout if all were |
| PositionMonitor.Monitors.OnM114 | server/services/position_monitor.py:192-223 | tolerance, stale homing and follow-up in that order, for one rack and no other |
| PositionMonitor.Monitors.CheckTolerance | server/services/position_monitor.py:327-371 | a breach drops the target and triggers recovery |
| Tolerance.MissedIff | server/services/position_monitor.py:347-371 | after a target was stored outside a recovery, an M114 sends "!" and G28 iff x is given and actual x < x - tolerance or > x + tolerance, or the same for y (or a tolerance is negative); the target is used up then, and recovery over at once iff all three axes are homed; otherwise nothing changes |
| Tolerance.AtToleranceIsNoMiss | server/services/position_monitor.py:350 | exactly at the tolerance, or with no target for a coordinate, nothing is sent |
| Tolerance.OneAxisIsEnough | server/services/position_monitor.py:350 | one coordinate outside is a miss whatever the other does |
| PositionMonitor.Monitors.SetCommandedTarget | server/services/position_monitor.py:225-242 | stores a target, or drops it if it has no coordinate |
| PositionMonitor.Monitors.MarkStaleCheckDue | server/services/position_monitor.py:244-250 | the next M114 checks homing |
| PositionMonitor.Monitors.PopStaleCheck | server/services/position_monitor.py:401-441 | the check happens once per mark and alerts iff homing is stale |
| PositionMonitor.Monitors.StartRecovery | server/services/position_monitor.py:445-514 | one "!" and one G28, attempt raised, flag from the second on; nothing during a recovery |
| PositionMonitor.Monitors.EscalateToMaintenance | server/services/position_monitor.py:549-606 | flags the rack, disables its scan schedule and says so |
| PositionMonitor.Monitors.RetryCommand | server/services/position_monitor.py:516-547 | the command goes out iff there is one and the lock holds |
| Tolerance.OriginalIsRetriedIff | server/services/position_monitor.py:206-223 | over runs: a recovery begun for a command ends with the first M114 that finds all three axes homed, whatever comes before it, and that M114 sends the command again iff there is one and the lock holds |
| Recovery.RecoveryAccounts | server/services/position_monitor.py:445-514 | over every run: one "!" then at once one G28 per accepted trigger, at most one retry after each, maintenance and a disabled schedule iff two or more accepted |
| Recovery.SendsExactly | server/services/position_monitor.py:192-223 | what each event sends, in order; never "!" or G28 during a recovery; a retry iff all axes homed, a command is known and the lock valid |
| Recovery.MaintenanceIsForever | server/services/position_monitor.py:549-606 | from the second attempt on the flag stays up and the schedule off whatever follows |
| Recovery.OneRecoveryPerTarget | server/services/position_monitor.py:350-371 | over every run, recoveries by tolerance never outnumber the targets stored |
| Recovery.BreachEndsItsRecovery | server/services/position_monitor.py:192-223 | a breaching M114 leaves the rack in recovery iff some axis is not homed, and retries nothing |
| Recovery.TwoMissesFlagRack | server/services/position_monitor.py:459-514 | so two misses with homed axes flag the rack |
| ScanEngine.Engine.CheckDueScans | server/services/scan_engine.py:129-185 | the batch loop fires the first group in order and gives each other due rack one timer |
| ScanEngine.Engine.QueryDue | server/services/scan_engine.py:138-152 | the due racks in table order |
| DueSchedules.CheckInFields | server/services/scan_engine.py:138-182 | a run of the job takes, in table order, just the racks with an enabled schedule whose next scan is at or before now, with a row and no maintenance; the first group of them is tried at once, rack i gets a timer i / size delays away, and of the tried just those with open gates are started |
| DueSchedules.TakenUpIff | server/services/scan_engine.py:138-182 | a run of the job plans a rack's next scan anew or sets a timer for it iff these hold of its fields |
| DueSchedules.DisabledOverRuns | server/services/scan_engine.py:144 | over runs of the fleet: until its schedule is enabled a rack gets no timer and is started just as often as by hand or by an old timer with open gates |
| DueSchedules.DisabledStartsByHandOrOldTimer | server/services/scan_engine.py:138-182 | every such start goes back to a manual start or a timer that was pending before; no run of the job starts it |
| DueSchedules.EscalationDisables | server/services/position_monitor.py:549-606 | the monitor's second attempt disables the schedule in the database, with these consequences |
| ScanEngine.Engine.TryFireScan | server/services/scan_engine.py:187-283 | both gates, then lock, session, schedule and start message together, or a postponement |
| DueSchedules.AttemptInFields | server/services/scan_engine.py:187-283 | a start writes scan lock, running state, a session for all cells, the active entry and the message, and plans the next scan an interval later, iff the rack is online, known and has no lock in force; otherwise only the postponement |
| ScanEngine.Engine.PostponeScan | server/services/scan_engine.py:702-714 | only the next scan moves |
| ScanEngine.Engine.TriggerManualScan | server/services/scan_engine.py:557-610 | the four answers and what each did |
| DueSchedules.ManualInFields | server/services/scan_engine.py:557-610 | the answer is the first obstacle: offline, unknown, locked; without one the same is written for the user and the schedule stays |
| Scheduling.StaggerPartition | server/services/scan_engine.py:154-182 | index i is in group i / size, groups are consecutive and no larger than the size, and only undelayed racks start at once |
| Scheduling.FireOutcome | server/services/scan_engine.py:187-283 | a start message goes out iff online, known and unlocked, and only with a scan lock and a session; an attempt on a known rack leaves its next scan in the future; no other rack changes |
| FleetRuns.MonitorsFollowMessages | server/services/position_monitor.py:459-514 | in any run of the whole fleet each rack's monitor is the recovery machine run on its own messages |
| FleetRuns.EscalatedRackIsNeverSelected | server/services/scan_engine.py:138-152 | once the monitor's second attempt has escalated a rack it is due in no later run of the job, whatever checks, timers, manual starts, messages, lock, connection and schedule changes come in between |
| FleetRuns.StepIsGated | server/services/scan_engine.py:187-283 | what a step publishes went to racks it attempted that were online, known and unlocked, and now hold a scan lock granted at that step and a new session |
| FleetRuns.EveryStartIsGated | server/services/scan_engine.py:187-283 | every start message of a run goes back to such a step |
| FleetRuns.EscalatedStartsIff | server/services/scan_engine.py:557-610 | a step starts a rack under maintenance iff the gates are open and it is a manual start of it or a timer of it that fires |
| FleetRuns.RunSetsNoTimer | server/services/scan_engine.py:165-182 | under maintenance a rack gets no new timer in any run |
| FleetRuns.EscalatedStartsByHandOrOldTimer | server/services/scan_engine.py:138-182 | so every later start goes back to a manual start or to a timer set before the escalation |
| Scheduling.ManualScanIsNotQueued | server/services/scan_engine.py:581-584 | "queued" changes nothing; "published" iff a start went out under the caller's scan lock |
| FleetRuns.QueuedManualLeavesNoTrace | server/services/scan_engine.py:557-610 | a manual start answered "queued" can be taken out of any run without changing it, so it is the origin of no start message |
| Scheduling.FiringBringsForwardIff | server/services/scan_engine.py:187-283 | a firing brings the next scan forward iff it postpones to, or starts with an interval ending at, an earlier moment than planned |
| Scheduling.SecondFiringShortensIff | server/services/scan_engine.py:187-233 | a second firing, whatever changed since the first started, shortens the interval iff a gate is shut and the postponement ends before the interval |
| Scheduling.SecondFiringMeetsOwnLock | server/services/scan_engine.py:213-233 | the first scan's own lock shuts the gate while it runs |
| SecondStarts.AttemptPlans | server/services/scan_engine.py:187-283 | an attempt by the job or a timer plans the next scan after the interval iff the gates are open, else after the postponement |
| SecondStarts.TimerShortensIff | server/services/scan_engine.py:165-182 | a timer that fires after its rack was started, whatever came in between, shortens the interval that the start set iff a gate is shut and the postponement ends first |
| Scheduling.NextCheckSelectsAgain | server/services/scan_engine.py:138-182 | the next run of the job finds the same racks due without the group just fired |
| StaggerRuns.DueAreTheUnattempted | server/services/scan_engine.py:138-182 | in any run of checks, timers, manual starts, lock and connection changes within a period: due are just the racks of the first list that no check and no timer has attempted |
| StaggerRuns.FireAllExactly | server/services/scan_engine.py:187-283 | firing a list of racks starts exactly the online, unlocked ones in order, plans each one's next scan and touches no other |
| StaggerRuns.GroupsStartInTurnIff | server/services/scan_engine.py:164-182 | in the same race: every run j attempts just group j iff no timer of a rack fires before the run of its group |
| StaggerTimers.ShortGapsKeepTurn | server/services/scan_engine.py:164-182 | which is so if no due rack has an old timer and every gap between runs is shorter than the delay |
| StaggerTimers.CheckSetsTimers | server/services/scan_engine.py:170-176 | each run sets a timer for every rack it leaves, j delays away for the j-th group after its own |
| StaggerTimers.PendingUntilFired | server/services/scan_engine.py:170-177 | a timer is pending until it fires; attempts of its rack do not cancel it |
| SecondStarts.StepPublishes | server/services/scan_engine.py:187-283 | any step of any run starts, of the racks it tries, just those online and unlocked, in order |
| SecondStarts.GroupIsStarted | server/services/scan_engine.py:164-169 | in turn, run j starts just the online, unlocked racks of group j |
| SecondStarts.StartsOnceIffOpened | server/services/scan_engine.py:187-283 | a rack that is not due is started by a step, once and with the message given, iff the step fires a timer of it, or starts it by hand, with the gates open |
| SecondStarts.StartedAgainPerOpening | server/services/scan_engine.py:165-182 | after its first attempt in the period a rack is started again exactly as often as that happens |
| StaggerRuns.InGroup | server/services/scan_engine.py:164-166 | rack i of the due list is in group i / size |
| ScanSessions.Tracker.OnScanProgress | server/services/scan_engine.py:287-345 | totals and last cell go to the named session only, and the rack counts as running |
| ScanSessions.Tracker.OnScanStatus | server/services/scan_engine.py:347-464 | the three statuses with their effects on session, rack, lock, resume window and stale check; nothing for an unknown rack |
| ScanEffects.MarksAndSessions | server/services/scan_engine.py:405-445 | of any messages: the rack is marked for a stale-homing check iff an emergency abort arrives, and its active session is gone iff a status arrives that ends the scan; other racks keep theirs |
| ScanEffects.WindowIs | server/services/scan_engine.py:415-439 | the resume window stands iff the last status other than "complete" was a pause, until 300 s after it arrived |
| ScanEffects.WindowStays | server/services/scan_engine.py:405-413 | "complete" and progress leave the window as it was |
| ScanEffects.StateShown | server/services/scan_engine.py:327-432 | the rack shows running, complete, paused or aborted after the last message |
| ScanEffects.RowInWords | server/services/scan_engine.py:405-434 | the words each message writes into the session row, with the reason of an abort, and what it leaves alone |
| ScanEffects.UnknownRack | server/services/scan_engine.py:391-402 | for a rack that is not in the database a status does nothing and progress writes at most its session |
| ScanEffects.NoSession | server/services/scan_engine.py:317-326 | without a session, with session 0 or an unknown one no row is written |
| ScanEffects.RunLeaves | server/services/scan_engine.py:405-445 | after the messages of a run, some progress lost: state, mark, active session and window for each way the run can end |
| ScanEffects.EmergencyAsksForHoming | server/services/scan_engine.py:440-447 | then the rack's next M114 alerts iff homing is stale and the run was stopped by an emergency, or a check was due before |
| ScanSessions.DeliverWritesOneRow | server/services/scan_engine.py:287-464 | any sequence of messages of a run writes one session row and releases the lock once per ending status that arrives |
| ScanSessions.RowShowsLastArrived | pi/services/scan_executor.py:428-455 | however many progress messages are lost, the row shows the last that arrived |
| ScanSessions.StatusEndsRow | pi/services/scan_executor.py:457-499 | repeating the status changes nothing in the row |
| ScanSessions.SessionFollowsRun | server/services/scan_engine.py:347-446 | whatever the Pi's run was and whatever got lost, the row ends with the run's status and, if paused, its true resume cell; its totals are the run's iff the last progress message arrived |
| ScanSessions.CompleteSessionAddsUpIff | server/services/scan_engine.py:405-413 | a complete fresh session stands for a visit of the whole grid, but adds up to it iff the last progress message arrived |
| ScanSessions.PausedScanResumes | server/services/scan_engine.py:415-428 | a scan paused and resumed from its row covers the grid iff the condition on the resume cell holds |
| ScanSessions.ReleasesAreCarriedOut | server/services/scan_engine.py:411-437 | the book and the rack together: one release per ending status that arrives, and the rack is released by those messages and no others |
| ScanSessions.EndingIsHarmlessIff | server/services/scan_engine.py:411-437 | an ending status, first or repeated, after whatever happened on the rack, changes nothing there iff the rack has no lock then; otherwise it frees that lock |
| ScanSessions.RepeatedEndingFreesAnotherLock | server/services/scan_engine.py:411-437 | the lock that a repeated one frees was granted since the first |
| ScanSessions.RepeatedStatusFreesNextLock | server/services/scan_engine.py:411-437 | the failing case exists: the next user's lock is taken away |
| DeviceIds.NumberAfterId | server/services/provisioning.py:375-390 | reading the number back undoes the printing, for every number |
| DeviceIds.IdText | server/services/provisioning.py:390 | "rack-" and three digits up to 999, all digits from 1000 on |
| DeviceIds.NumberAfterText | server/services/provisioning.py:379-388 | any last id is read by what follows its last dash: digits n give n + 1, anything else 1 |
| DeviceIds.IdOrder | server/services/provisioning.py:375-390 | up to 999 the order of ids is the order of numbers |
| DeviceIds.ThousandSortsBelow | server/services/provisioning.py:375-390 | the id of 1000 sorts below that of 999 |
| DeviceIds.IdInjective | server/services/provisioning.py:375-390 | different numbers print as different ids |
| Provisioning.Registry.ProvisionDevice | server/services/provisioning.py:231-349 | refusal, known serial and new serial, with the new table in each case; serials stay unique |
| Provisioning.Registry.AssignDeviceId | server/services/provisioning.py:356-390 | one more than the number of the last id in string order |
| Provisioning.RowKeptIff | server/services/provisioning.py:164-224 | from any table, through any mix of requests: a device keeps its row iff no new device is given its id |
| Provisioning.AddressAfter | server/services/provisioning.py:267-270 | a known device's row takes the address given, unless none or an empty one is; a new device's row takes what is given |
| Provisioning.LastAddressShows | server/services/provisioning.py:164-270 | over any requests: as long as a device keeps its row it shows the last address that its serial gave |
| Provisioning.ReprovisioningIsIdempotent | server/services/provisioning.py:261-317 | the same serial again, with any requests in between, gets the same id, name and credentials as long as no new device was given its id |
| Provisioning.FleetGrows | server/services/provisioning.py:356-390 | from an empty fleet, with known and refused requests mixed in, the i-th new device gets number min(i, 1000), and the table holds just these ids |
| Provisioning.IdentityKeptIff | server/services/provisioning.py:261-317 | a new device keeps id and credentials through all later requests iff its number is below 1000 or no other new device has come since |
| Provisioning.KeptIdentityIsReturned | server/services/provisioning.py:261-317 | and then asking again returns them |
| Provisioning.IdsCollideFromThousandOn | server/services/provisioning.py:375-390 | two new devices of any run share an id iff neither is among the first 999 |
| Provisioning.ThousandFirstDisplaces | server/services/provisioning.py:164-224 | from the 1000th on, the next new device takes the row of the one before, whose serial is then unknown and gets fresh credentials when it asks next |
| CommandHandler.ParseCommand | server/services/command_handler.py:112-143 | word, parameters and route of the text; an error iff it is blank |
| CommandHandler.ValidateCommand | server/services/command_handler.py:158-203 | the whitelist and range errors in the order of the code, or the parsed command |
| CommandTexts.RouteFollowsWord | server/services/command_handler.py:112-153 | by its first word in upper case a text goes to the emergency topic, the camera, the scan engine or the rack, as typed but for whitespace around it |
| CommandTexts.AnswerFollowsText | server/services/command_handler.py:158-203 | which error a text gets, iff: the word is not on the list, or it moves to a cell and the last R, or else the last C, is out of range |
| CommandTexts.BlankIsAnError | server/services/command_handler.py:125-127 | a blank text is the empty-command error |
| CommandTexts.SpelledParam | server/services/command_handler.py:109-135 | letter, optional minus, zeros and a numeral give the parameter of that letter in upper case with that value |
| CommandTexts.ParamSpells | server/services/command_handler.py:109 | no other token is a parameter |
| CommandTexts.SpelledRowIsChecked | server/services/command_handler.py:180-188 | a row written in any such way is out of range iff its number is |
| CommandHandler.LastTokenWins | server/services/command_handler.py:130-135 | a parameter is present iff some token gives it, with the value of the last such token |
| CommandHandler.StripKeepsTokens | server/services/command_handler.py:125 | stripping first makes no difference to the tokens |
| CommandHandler.MoveRoundTrip | server/services/command_handler.py:173-197 | for all integers r and c, in any letter case and spacing, `M700 R{r} C{c}` parses to exactly R = r, C = c, and is accepted iff the cell is in the grid |
| CommandHandler.ExecutorSpellsMove | pi/services/scan_executor.py:313 | the executor's move command is one of these spellings |
| CommandHandler.AcceptedIffLastInRange | server/services/command_handler.py:173-197 | accepted iff the word is allowed and, for moves, the last R and the last C are in range |
| CommandHandler.EarlierRowIsNotChecked | server/services/command_handler.py:180-188 | with R given twice the first is not looked at, whatever it is |
| LayoutCaches.LayoutCache.Set | server/services/layout_cache.py:57-75 | one entry is written with its expiry, all others stay |
| LayoutCaches.LayoutCache.Get | server/services/layout_cache.py:77-94 | the live value or nothing; an expired entry is evicted, everything else stays |
| LayoutCaches.LayoutCache.Clear | server/services/layout_cache.py:122-125 | every entry of the rack goes, no other |
| LayoutCaches.LayoutCache.EvictExpired | server/services/layout_cache.py:127-137 | exactly the live entries are left, and no rack without one |
| LayoutCaches.GetFollowsHistory | server/services/layout_cache.py:57-135 | after every run `get` answers the last value set since the rack was cleared, as long as its time to live lasts |
| LayoutCaches.SetLivesUntil | server/services/layout_cache.py:57-94 | a value is answered until time set + time to live inclusive and no longer, unless the key is set again or the rack cleared |
| LayoutCaches.NothingUntilSet | server/services/layout_cache.py:77-125 | from the start or a clearing on nothing is answered until the key is set |
| LayoutCaches.GetRemoves | server/services/layout_cache.py:89-93 | a read removes its entry iff it is past its expiry, and nothing else |
| LayoutCaches.EvictingLeaves | server/services/layout_cache.py:127-137 | evicting leaves just the entries not past their expiry and the racks that have one |
| LayoutCaches.EvictionIsInvisible | server/services/layout_cache.py:127-137 | evictions and reads, wherever they come in a run, never change a later answer |

## Left out

- Transactions: apart from the release path and the steps that InFlight takes apart, each server step reads and commits at once; a commit that fails after the mirror was updated is not modelled.
- RackServer.Server.ReleaseLock: what the dispatching session sees is a parameter with two values, the release itself or the old row with writes blocked; a dispatch that waits out the database's busy timeout is not modelled.
- InFlight: publishing a message and noting it are one step, and a release that fires its callbacks before its commit is there through the sessions that its dispatch may be given.
- `trigger_queue=False`, lock information queries and the `is_locked` query, which only read.
- RackServer.Server.ExtendLock: takes the seconds as a parameter; that CAPTURE_STARTED and SCAN_KEEPALIVE pass the capture and the scan timeout is left to the caller.
- The HTTP lock endpoints of routes.py, which have their own code path.
- The escalation ladder for unacknowledged commands and the cache of pending commands.
- Mirror fields that only displays read (positions, homing, pitches, limits); they follow the same two methods.
- Naive and aware datetimes: time is an integer.
- ScanExecutor.Executor.Start: the check-then-set of `_running`, the parsing of the payload and the thread itself are not modelled; a run is one call, and the stop and abort flags may be set between any two reads.
- ScanExecutor.Executor.Run: commands answer or do not; their timeouts are those of `SerialHandler`, and the keepalive thread appears as its start and stop only. An unexpected exception in the loop, reported as aborted with internal_error, is left out.
- SerialHandler.Handler.SendCommand: one caller at a time, writing takes no time, and a line that arrives at the very instant of a timeout comes after it.
- SerialProtocol: reading the flag and queueing the line is one step, so the gap between them in `_route_response` is not modelled; reconnection is left out.
- LineReader: decoding of bytes is an arbitrary function; read errors are left out.
- PositionMonitor.Monitors.OnM114: takes a parsed reading; the text of M114 lines, float formatting, alerts and audit rows are left out, and so are publishing errors inside a recovery, which the source logs and ignores.
- Scheduling: publish errors of the start message, which the source logs and ignores; timers are recorded, and when they fire is `TryFireScan`.
- FleetRuns: no rack is added or deleted during a run, and a monitor's database write does not fail. Nothing in the repository clears the maintenance flag, so no step does.
- ScanEngine: `handle_manual_command_conflict` and `handle_resume_choice`, which nothing calls, and the expiry of the resume window, which forgets the window and the active session, which nothing reads.
- ScanSessions.Tracker.OnScanStatus: other status texts do nothing and are left out; completed_at is not kept; the release is recorded as a call, whose effect is `RackServer.Server.ReleaseLock`.
- Provisioning: the shared secret comparison stands for the library call, generated tokens are parameters; MediaMTX registration and audit rows are left out.
- CommandHandler: dispatch by route in `handle_command`, role checks; letters, digits and whitespace are ASCII.
- LayoutCaches: the polling loop of `wait_for` and thread locking.
- The camera, media streaming, authentication, WebSocket, MQTT and frontend code.
