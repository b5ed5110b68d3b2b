# A verified model of start_server

start_server is a hot-deploy supervisor: it binds listeners, starts a worker process that inherits them, and on a
hangup starts a new worker before it asks the old one to leave. This project models its hardest parts in Dafny and
proves what they promise.

| module | what it models |
|---|---|
| `Lifecycle`, `LifecycleInvariants`, `LifecycleTheorems` | the supervisor goroutine and everything that happens around it, as a step machine; what every step keeps; what every run guarantees |
| `LifecycleDuties` | what the supervisor must do: tell old workers to leave, keep its timer running, record why it ended, count launches, publish |
| `LifecycleRequests`, `LifecycleReuse` | what becomes of every restart request; why the assumption on process ids is needed |
| `RunLoop` | the same goroutine as the program writes it, over the fields it updates, proved to go through the machine's states |
| `Status`, `Control` | the status file, and the external restart command that sees nothing else of the supervisor |
| `PidFile`, `PidFileCalls` | the pid file as an ownership protocol between any number of processes; `acquire` and `Close` as call sequences in the middle of it |
| `Wire`, `WireLoops`, `WireProofs`, `WireGrammar` | `SERVER_STARTER_PORT` and `LSS2_SOCKET_TYPES`: printing, parsing, the loops that do it, and how any text at all is read |
| `Descriptors`, `FileTable`, `Spawn` | which inherited descriptor each listener gets, the file table of one spawn attempt, and the validation that makes later spawns safe |
| `Daemon` | the readiness report of a daemon child |
| `Walk` | the two directory walks in front of the pid file |
| `Text`, `Decimal`, `Basics` | the parts of Go's string and number handling the formats rest on, and what all modules share |

## How runs are modelled

A schedule is any sequence of actions: calls to `Hangup`, cancellations, timer firings, process exits, and the atomic
pieces of the goroutine with their outcomes. An action that is not possible where it stands leaves the state alone, so
"for every schedule" means every interleaving and every outcome. A worker is identified by its generation, since an
operating system may give a process id out again. `RunLoop.RunState` takes its outcomes from such a schedule, called
its script, and its contract says that its fields are those of the machine after the same actions.

What is assumed of the environment:

- a launch reports a positive pid that differs from that of every worker whose exit the loop has not received. This is
  an assumption, not something the system guarantees: a waiter reaps its process before it sends the notification
  (internal/supervisor/worker.go:325-338), so from the reaping to the receive the operating system may hand that pid
  out again, and the loop may be launching a worker in `startWorker` just then. `LifecycleReuse.FreshNeeded` shows what
  goes wrong if it does: the supervisor takes one worker's exit for another's and loses track of a running worker;
- each waiter delivers at most one notification, for its own process;
- timers follow Go 1.23, so `Reset` leaves no stale tick behind;
- no process outside the protocol links or renames the pid file, and an inode number is reused only when nothing names it and nobody has it open;
- during a directory walk the tree does not change;
- `int` and `uintptr` have 64 bits.

Strings are sequences of characters; text that is not valid UTF-8 is not represented, and the size limit of the status
file, which holds ASCII only, is counted in characters.

Where the code and a comment differ, the model follows the code: the comment at internal/supervisor/supervisor.go:270
says that `startWorker` can return no process and no error, which it never does. When cancellation cuts a probe short it
returns the process. `RunLoop` keeps the branch for that case (internal/supervisor/supervisor.go:240-245), in which a run
could end without a recorded error, and proves that no run enters it. "Has passed its probe" therefore reads "has passed
its probe, or the context is cancelled" throughout.

## Model

| member | source | states |
|---|---|---|
| `LifecycleInvariants.NextKept` | internal/supervisor/supervisor.go:258-498 | one invariant, over tracking, phases, exit, signals, hangup accounting and written snapshots together, survives each of the 23 kinds of action |
| `LifecycleInvariants.Reachable` | internal/supervisor/supervisor.go:214-498 | that invariant holds after every schedule |
| `LifecycleInvariants.StatusMapExact` | internal/statefile/status.go:23-32 | in a sound state the status map has exactly one entry per unconsumed worker, that worker's own pid; nothing is overwritten |
| `LifecycleTheorems.Conservation` | internal/supervisor/supervisor.go:258-430 | after every schedule the workers ever returned are the disjoint union of the current one, the old ones and those whose exit was received; at the select there is a current worker and at most one old one |
| `LifecycleTheorems.GenerationsIncrease` | internal/supervisor/worker.go:290-342 | no step alters or forgets a returned worker, and each new one has a generation above all before it |
| `LifecycleTheorems.ShutdownSignals` | internal/supervisor/supervisor.go:258-263 | on every way out after a first worker, the shutdown uses signalOnTERM on exactly the workers whose exit was not received, all of them in oldWorkers |
| `LifecycleTheorems.DeadlineKills` | internal/supervisor/supervisor.go:451-466 | the first deadline is followed by a kill of exactly the survivors |
| `LifecycleTheorems.DrainShrinks` | internal/supervisor/supervisor.go:475-498 | each receive in the wait loop finds its worker in oldWorkers and removes it and no other |
| `LifecycleTheorems.EndOfRun` | internal/supervisor/supervisor.go:214-264 | a finished run has a terminal error, ErrServerClosed only after a cancellation; whoever was not reaped was signalled and killed; no waiter can stay blocked. That the return without an error is never taken is `RunLoop.RunState.First` |
| `LifecycleTheorems.ErrorFinal` | internal/supervisor/controller.go:65-71 | the terminal error is recorded once: whatever happens afterwards, it does not change and the run does not leave its shutdown |
| `LifecycleTheorems.HupOnce` | internal/supervisor/supervisor.go:355-418 | signalOnHUP reaches a worker at most once, and only when one of strictly higher generation has passed its probe or the context is cancelled (that it is reached at all is `LifecycleDuties.OldWorkersTold`) |
| `LifecycleDuties.OldWorkersTold` | internal/supervisor/supervisor.go:396-418 | after every schedule, unless a restart is under way or the run is shutting down, every worker in oldWorkers has been sent signalOnHUP |
| `LifecycleDuties.RestartBegins` | internal/supervisor/supervisor.go:336-360 | a request or a tick received with no old worker begins a restart with the current worker as the one old worker; otherwise a request is held back and a tick sets the timer again |
| `LifecycleDuties.ReplacementBegins` | internal/supervisor/supervisor.go:282-331 | the exit of the current worker is followed by a replacement; that of the old one empties oldWorkers or begins the restart held back |
| `LifecycleDuties.RequestsFolded` | internal/supervisor/supervisor.go:308-313 | a request that comes in while a replacement or a restart is brought up leaves the slot empty at the next loop head; one from the first start is kept |
| `LifecycleDuties.TimerRuns` | internal/supervisor/supervisor.go:248-251 | with auto-restart the loop never waits without a timer that is running or has fired, never both; without it there is none |
| `LifecycleDuties.ErrorTellsCause` | internal/supervisor/supervisor.go:203-206 | a run ends by exactly the actions that have a cause and with that error: whatever the context cuts short ends with ErrServerClosed, and transient launch errors and unchecked early exits end nothing |
| `LifecycleDuties.GenerationCounts` | internal/supervisor/worker.go:290-306 | the generation is the number of launches attempted |
| `LifecycleDuties.PublishedBeforeWaiting` | internal/supervisor/supervisor.go:269-281 | the loop comes to wait, at the select and after each receive of the shutdown, only by publishing; the file then lists exactly the outstanding workers, and nothing else writes it |
| `LifecycleTheorems.HangupLedger` | internal/supervisor/supervisor.go:308-353 | no restart without a cause: restarts begun plus a pending and a buffered request never exceed Hangup calls plus timer firings; a request is pending only while an old worker drains |
| `LifecycleRequests.NothingDropped` | internal/supervisor/supervisor.go:307-331 | a step that empties a full slot receives the request, begins a restart, or leaves a current worker that no status file written so far lists |
| `LifecycleRequests.RequestKept` | internal/supervisor/controller.go:53-63 | no request is lost: after a call to Hangup and any schedule, it is in the slot, held back or being carried out, or a worker has come up that no status file from before the call lists, or the run is shutting down |
| `LifecycleReuse.FreshNeeded` | internal/supervisor/worker.go:321-342 | a schedule in which a pid is launched again while its last exit is undelivered, and conservation fails: a running worker is tracked nowhere |
| `LifecycleTheorems.DrainHolds` | internal/supervisor/supervisor.go:315-353 | while a worker drains, whatever else happens, no restart begins and a request that was received stays pending |
| `LifecycleTheorems.DrainCoalesces` | internal/supervisor/supervisor.go:315-344 | any number of requests received during a drain gives exactly one restart, in the step that receives the drained worker's exit, and a buffered one is folded into it |
| `LifecycleTheorems.CancelStopsSpawning` | internal/supervisor/worker.go:204-207 | after a cancellation at most one more process is launched, and none unless startWorker had already passed its context check |
| `LifecycleTheorems.BoundedShutdown` | internal/supervisor/supervisor.go:437-498 | a cancelled run uses up a bounded budget with each step of the goroutine; only later hangups and timer firings add to it |
| `LifecycleTheorems.ShutdownCompletes` | internal/supervisor/supervisor.go:437-498 | until it has finished a cancelled goroutine can always take a step without waiting for anybody, and it takes boundedly many |
| `LifecycleTheorems.GenerationBound` | internal/supervisor/worker.go:290 | the counter never exceeds the number of actions |
| `RunLoop.BuildStatusMap` | internal/statefile/status.go:23-32 | the loop, in any iteration order, covers exactly the generations given; it computes the one status map whenever no generation occurs twice |
| `RunLoop.RunState.StartWorker` | internal/supervisor/worker.go:195-359 | of the two results, either of which could be nil, exactly one is there, with the context error read from the context at each of the three places; a process without a passed probe only after a cancellation; the retry loop follows the machine |
| `RunLoop.RunState.Launched` | internal/supervisor/worker.go:290-306 | the generation advances whether or not the command starts; terminal errors end the attempt, transient ones are retried |
| `RunLoop.RunState.RetryLater` | internal/supervisor/worker.go:302-305 | the retry wait gives up only with a context error to return |
| `RunLoop.RunState.Probe` | internal/supervisor/worker.go:307-358 | the outcomes of the probe, including a checked initial worker that died |
| `RunLoop.RunState.Concluded` | internal/supervisor/supervisor.go:231-245 | for any pair of results: which error is recorded and whether the run goes on, including a nil process without an error |
| `RunLoop.RunState.First` | internal/supervisor/supervisor.go:231-251 | with the results startWorker can have, a run that ends here has recorded an error; otherwise it enters the loop |
| `RunLoop.RunState.Abort` | internal/supervisor/supervisor.go:295-304 | a later failed start records its error, with the context error translated, and the shutdown uses signalOnTERM |
| `RunLoop.RunState.Bring` | internal/supervisor/supervisor.go:355-428 | replacing a dead worker and bringing up a restarted one, down to the dropped hangup, leaves the fields as the machine has them; when it goes on, every old worker has been sent signalOnHUP |
| `RunLoop.RunState.Turn` | internal/supervisor/supervisor.go:269-429 | one turn of the loop ends at the loop head with every old worker told, in the shutdown, or waiting |
| `RunLoop.RunState.SignalOld` | internal/supervisor/supervisor.go:396-427 | the delay, signalOnHUP to every old worker, and the dropped hangup |
| `RunLoop.RunState.Publish` | internal/supervisor/supervisor.go:269-278 | the file written is the status map of the machine's state, at the loop head and in the wait loop |
| `RunLoop.RunState.Select` | internal/supervisor/supervisor.go:281-360 | each receive of the select leads where the machine goes |
| `RunLoop.RunState.OnOldExit` | internal/supervisor/supervisor.go:315-331 | the exit of an old worker, and the restart held back for the last one |
| `RunLoop.RunState.OnHangup` | internal/supervisor/supervisor.go:336-344 | a hangup restarts at once, or is held back while an old worker drains |
| `RunLoop.RunState.WaitForWorkers` | internal/supervisor/supervisor.go:475-498 | true exactly with nobody left to wait for, false exactly at a deadline with somebody left |
| `RunLoop.RunState.Reaped` | internal/supervisor/supervisor.go:482-486 | a receive in the wait loop always makes oldWorkers smaller by one |
| `RunLoop.RunState.ShutdownWorkers` | internal/supervisor/supervisor.go:437-473 | signal, wait, kill, wait; done is closed at the end |
| `RunLoop.RunState.Loop` | internal/supervisor/supervisor.go:214-430 | for every script the whole goroutine goes through exactly the machine's states and stops only when done is closed; the end-of-run guarantees hold of its own fields, and at the select every old worker has been told and an auto-restart timer is set |
| `Status.WriteStatus` | internal/statefile/status.go:41-64 | the loop writes the lines of the keys in sorted order |
| `Status.WrittenLines` | internal/statefile/status.go:46-64 | the file is one "generation:pid" line per worker in ascending order of generation, each ended by a newline |
| `Status.ReadStatus` | internal/statefile/status.go:104-129 | the loop computes the parsed map or the error |
| `Status.StatusOfExact` | internal/statefile/status.go:104-129 | reading fails exactly for a file that is too large or has a malformed line; otherwise the map has exactly the generations named, each with the pid of the last line that names it |
| `Status.LineExact` | internal/statefile/status.go:114-125 | a line of two parts around one colon is read as those two integers, or not at all |
| `Status.TextDeterminedByMap` | internal/statefile/status.go:46-64 | the text depends on the map alone, not on the order in which it is ranged over |
| `Status.StatusRoundTrip` | internal/statefile/status.go:104-129 | for every map of ints whose text is within 64 KiB, reading what was written gives the map |
| `Status.TextFits` | internal/statefile/status.go:15-16 | maps of up to 1560 workers always fit the reader's limit |
| `Control.CheckGenerationAdvanced` | internal/control/control.go:136-143 | true exactly if some generation is new |
| `Control.CheckOldWorkersGone` | internal/control/control.go:145-152 | true exactly if no earlier entry is still there unchanged |
| `Control.Restart` | internal/control/control.go:106-134 | for every sequence of readings it ends with success in the first turn that satisfies both conditions, with a timeout or error in the first turn that is cut off or unreadable, and otherwise goes on |
| `Control.EndsOnce` | internal/control/control.go:113-133 | the readings leave it no other outcome |
| `Control.ShownReadsBack` | internal/statefile/status.go:104-129 | every status file a run writes fits the limit and reads back as the map that was written |
| `Control.SnapshotsTell` | internal/control/control.go:126-152 | for any two status files of a run in order: oldWorkersGone exactly if every exit of the first's workers was received before the second, generationAdvanced exactly if the second lists a later worker |
| `Control.RestartTellsTheTruth` | internal/control/control.go:93-134 | if the restart command reports success, every worker it saw at first has ended and been received, and a newer one was up |
| `Control.RequestAnswered` | internal/control/control.go:106-134 | when the supervisor next comes to rest after a request, however the request was coalesced, the status file it writes satisfies generationAdvanced and oldWorkersGone against every file from before the request |
| `Control.RestartSucceeds` | internal/control/control.go:113-133 | and the restart command, if each turn up to the one that reads that file reads a well-formed file, has reported success by then |
| `PidFile.Reachable` | internal/statefile/pidfile.go:51-88 | link counts, locks and owners agree after every interleaving of any number of processes, crashes included |
| `PidFile.Exclusion` | internal/statefile/pidfile.go:51-88 | at most one process is between the second link check and the unlink, and the path names its inode |
| `PidFile.UnlinksOwnInode` | internal/statefile/pidfile_unix.go:417-427 | although Close looks and removes in two steps, every unlink hits the closer's own inode |
| `PidFile.PathTellsOwner` | internal/statefile/pidfile.go:71-88 | while the file is held, the path leads to the holder's pid and lock |
| `PidFile.AcquireAlone` | internal/statefile/pidfile.go:37-49 | no residue of any interleaving blocks a newcomer that runs alone: it succeeds unless a live process holds the lock |
| `PidFile.RecheckNeeded` | internal/statefile/pidfile.go:67-70 | an interleaving of three processes in which, without the second link check, two of them hold the pid file |
| `PidFileCalls.PIDFile.Open` | internal/statefile/pidfile_unix.go:16-52 | create or reopen, then the link check; nothing stays open on an error. With nobody else acting a path that exists is always opened, and otherwise one is created unless no inode is left |
| `PidFileCalls.PIDFile.Acquire` | internal/statefile/pidfile.go:51-88 | with others acting between any two calls: success means that the path, its contents and its lock are this process's and nobody else owns it; an error leaves nothing open. With nobody else acting it succeeds exactly if no call fails and the file at the path, if there is one, is not locked, and then takes over that very file |
| `PidFileCalls.PIDFile.Close` | internal/statefile/pidfile_unix.go:417-427 | whatever others do meanwhile it unlinks its own file: afterwards the path does not name it, its lock is free, and no unlink has hit another's file; the handle is empty and a second Close does nothing |
| `Wire.HostPortIsLastColon` | ports.go:15-16 | the lazy expression matches exactly by splitting at the last colon |
| `WireProofs.CanonicalIdempotent` | ports.go:86-97 | canonicalUnixPath changes nothing the second time |
| `WireProofs.NetworkTargetExact` | listener.go:107-112 | a printed TCP or UDP address parses back as that address exactly if it is in the stated set, and never as UDP |
| `WireProofs.UnixTargetExact` | ports.go:144-181 | every canonical Unix path parses back as itself |
| `WireProofs.EntryExact` | ports.go:120-185 | the same for a whole entry with its descriptor |
| `WireProofs.FormatPortsExact` | ports.go:216-301 | FormatPorts accepts a list exactly if each listener is in a set described without the parser; then parsing gives the list back with UDP erased to TCP |
| `WireProofs.RoundTrip` | ports.go:337-409 | whenever both variables can be printed for a non-empty list, reading both returns that list exactly |
| `WireGrammar.ClassifyExact` | ports.go:20-84 | which text is UDP, which is a network address at all, and what remains without the marker, by the shape of the text |
| `WireGrammar.CanonicalExact` | ports.go:86-97 | "./" is put in front of exactly the paths that would be read as a network address |
| `WireGrammar.ParseTargetExact` | ports.go:133-181 | how any target is read, by its shape: a slash, "host:uPORT", "uPORT", "host:PORT", "PORT", or else a Unix path |
| `WireGrammar.UdpEntry` | ports.go:151-162 | for every address the wire format carries, "addr:uPORT=fd" is read as exactly that UDP listener |
| `WireGrammar.UdpBracketEntry` | ports.go:151-162 | so is "[addr]:uPORT=fd", for an address with a colon |
| `WireGrammar.UdpPortEntry` | ports.go:165-176 | "uPORT=fd" is read as UDP on the wildcard address |
| `WireGrammar.UnmarkedIsNotUdp` | ports.go:58-69 | a target without a marker is never UDP |
| `WireGrammar.ParsedInRange` | ports.go:128-158 | whatever the text, a listener that is read has a descriptor of at least 3 and a port in range |
| `WireGrammar.ParsePortsExact` | ports.go:120-185 | a list is read entry by entry, and one bad entry spoils it |
| `WireGrammar.ApplyExact` | ports.go:337-386 | by the text: succeeds exactly if the entries are well formed with distinct descriptors, are exactly those of the list, and each type fits; then a listener is UDP exactly if its entry says so |
| `WireGrammar.PrintedEntries` | ports.go:216-301 | what is printed, spelt out: addresses, brackets, descriptors and separators |
| `WireGrammar.PrintedTypes` | ports.go:307-335 | the types variable, spelt out |
| `WireLoops.ParsePortsLoop` | ports.go:120-185 | the loop computes the specified parse |
| `WireLoops.FormatPortsLoop` | ports.go:216-301 | the loops compute the specified text or rejection |
| `WireLoops.FormatSocketTypesLoop` | ports.go:307-335 | the loop with its set of seen descriptors computes the specified text or rejection |
| `WireLoops.ApplySocketTypesLoop` | ports.go:337-386 | the loops that fill and empty the map compute the specified list or rejection |
| `Descriptors.EnterExplicit` | internal/supervisor/portspec.go:213-228 | succeeds exactly if every explicit request is in range and none is repeated |
| `Descriptors.NextFree` | internal/supervisor/portspec.go:244-252 | the search ends, at the least unused descriptor |
| `Descriptors.Assign` | internal/supervisor/portspec.go:209-255 | succeeds exactly on the acceptable requests; explicit requests are kept and each automatic one is the least descriptor not taken |
| `Descriptors.FirstFitDistinct` | internal/supervisor/portspec.go:239-254 | all descriptors are distinct and at least 3 |
| `Descriptors.FirstFitUnique` | internal/supervisor/portspec.go:239-254 | first fit leaves no choice: a request has exactly one layout |
| `Descriptors.PaddingExact` | internal/supervisor/portspec.go:230-237 | the number of unfilled slots in the final layout is what the check computed beforehand, or zero, and at most 256 |
| `FileTable.CloseWorkerFiles` | internal/supervisor/worker.go:361-369 | every file still in the table is closed once |
| `FileTable.Attempt` | internal/supervisor/worker.go:231-296 | in every spawn attempt, wherever it fails, each file opened is closed exactly once; a launch gets listener i at its own descriptor and padding elsewhere, all of it open |
| `Spawn.ValidateListenerWireFormat` | internal/supervisor/portspec.go:171-194 | passes exactly if the listeners known so far can be printed |
| `Spawn.ValidatedExact` | internal/supervisor/portspec.go:171-194 | a validation passes exactly if each argument fits the wire format on its own |
| `Spawn.ValidatedOnce` | internal/supervisor/supervisor.go:85-175 | once both validations have passed, the socket types can always be printed, the ports exactly if no bound Unix address is empty; the list is, argument by argument, UDP or TCP as asked for, with that host or the wildcard, port and descriptor, then the bound paths, and the worker reads exactly it |
| `Spawn.Prepare` | internal/supervisor/supervisor.go:70-175 | `run` from its arguments to the loop: it fails exactly if the descriptors cannot be assigned or an argument does not fit the wire format with its descriptor in their one layout; otherwise every spawn can print its variables, up to an empty bound address, and its worker reads what was asked for |
| `Spawn.AssignedFit` | internal/supervisor/portspec.go:209-255 | assigned descriptors fit a uintptr |
| `Daemon.WriteBytes` | internal/cli/daemon.go:142-154 | whatever the pattern of short and failing writes, a prefix is sent, all of it on success, and it gives up only for a write that failed, one that took nothing, or none left |
| `Daemon.WriteStatus` | internal/cli/daemon.go:131-140 | the same for header and body together; as many taking writes as there are bytes are enough |
| `Daemon.BigEndianAt` | internal/cli/daemon.go:134-135 | each byte of the length is the digit of its weight, the most significant first |
| `Daemon.ReadExact` | internal/cli/daemon.go:156-213 | ready is read exactly from the nine-byte ready frame, a failure with a body exactly from that body's frame, and an early exit exactly from an empty stream |
| `Daemon.NoPartialReport` | internal/cli/daemon.go:156-213 | every proper prefix and every extension of a frame is rejected |
| `Daemon.ReportDelivered` | internal/cli/daemon.go:131-213 | whatever was written, a report that is read is the one that was made |
| `Walk.FilterInPlace` | internal/statefile/pidfile_unix.go:290-299 | overwriting the slice while reading it gives the filtered list |
| `Walk.FilterExact` | internal/statefile/pidfile_unix.go:290-299 | the components are the pieces of the path that are neither empty nor a dot |
| `Walk.WalksAgree` | internal/statefile/pidfile_unix.go:119-288 | on a fixed tree both walks accept the same paths, whatever the use of "..", denote the same directory and fail for the same reason |
| `Walk.OpenExact` | internal/statefile/pidfile_unix.go:205-288 | a path is accepted exactly if every name on the way is a real directory that nobody but root and the user can replace and the last belongs to them alone; what is opened is the directory of the path with each ".." carried out |
| `Walk.OpenDirectoryPath` | internal/statefile/pidfile_unix.go:205-288 | the loop with its stack of descriptors computes that walk, and on every way out closes every descriptor it opened exactly once, except the one it returns |

## Left out

- Control.ShownReadsBack: runs of more than 2^63 - 1 actions, in which the generation counter could wrap, are not covered; the same bound stands in Control.RestartTellsTheTruth and Control.RestartSucceeds.
- PidFile.Exclusion: covers the pid file only; listeners and the status file are torn down after it is released, so exclusion does not extend to them.
- RunLoop.RunState.Select: which of several ready channels a select takes is any choice the script makes; Go's uniform choice is not modelled.
- Control.RequestAnswered: says what the supervisor writes when it comes to rest, not that it ever does; a worker that ignores signalOnHUP keeps it from resting.
- Control.RestartTellsTheTruth: is about the status files of one supervisor run; a file left behind by an earlier run is not covered.
- LifecycleTheorems.ShutdownCompletes: steps are counted, not time; grace periods, delays and intervals are events that may happen at any moment.
- Descriptor tables and wire formats inside a spawn are outcomes of the lifecycle machine (setup fails or not) and are modelled by themselves in `FileTable` and `Spawn`.
- The startup channel by which a checked run hands its first result to its caller; only its effect on retries is modelled.
- Teardown of listeners and Unix socket files, and the setup-failure path of `run`: straight-line calls into the operating system.
- `parsePortTarget` and the command-line, option, signal-name and envdir handling: thin or one-branch code; reloading the environment directory is an outcome.
- Binding, `Listen`, `ListenPacket`, exec and the classification of launch errors: outcomes of actions.
- The fcntl record lock, `/proc/locks`, `OpenRunningPID` and the polling in `Stop`: platform calls beside the flock that carries exclusion.
- Ownership, mode and symbolic-link checks on the pid file itself; an attempt that fails one of them is a crash step.
- All Windows variants, the text of diagnostics and error messages, log files, samples.
