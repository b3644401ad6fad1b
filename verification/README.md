# nstl in Dafny

A model of the stateful core of nstl, a C++ library with a process supervisor built on it, and proofs of
what that code is for. Each part of the library is one module or a small group of modules.

| modules | what they model |
|---|---|
| `Supervisor`, `SupervisorSafety`, `SupervisorDeaths`, `SupervisorProgress`, `SupervisorMasked`, `SupervisorLoop` | `multi_runner` on Linux: forked children, coalescing SIGCHLD, a signalfd, edge-triggered pipes, the reap loop |
| `TailLinux`, `TailLinuxLoop` | the inotify file trigger |
| `TailWindows` | the overlapped-read file trigger |
| `AsyncLog`, `AsyncLogTerminate`, `AsyncLogLoop` | the asynchronous stream logger: producers, one queue, one worker, a sentinel; what becomes of a Terminate-level line |
| `LogStack` | the stack of `Logger` objects and the globals it keeps |
| `DnsWire`, `DnsWireProofs` | SVCB/HTTPS parameters (RFC 9460) and TXT records (RFC 1035) on the wire |
| `Csv`, `CsvReader` | the CSV writer, the tokenizer and the dictionary reader |
| `IpPrefix`, `IpText` | prefix masks, range membership, ordering, and the text of ranges |
| `Vector` | the `realloc`-backed vector |
| `ArgsEditor` | `is_arg_set` |
| `Options` | a value that may be missing, for the others |

The concurrent parts are transition systems. A run is any interleaving of the program's steps, one for
each system call or atomic operation, with steps of its environment: children that write and exit, signals
that coalesce, appends whose inotify event comes later, other threads. Safety is an invariant kept by every
step of every run. Progress is a rank that every step of the program lowers. Beside each transition system
stands the code in its own imperative form, a class with the source's fields and loops. It lets the
environment act between any two of its steps, and each method is proved to leave behind a run of the
transition system, so the theorems about runs are theorems about the code.

The sequential parts are the source's loops and classes, each proved equal to a function on values, and laws
about those functions: round trips, exact if-and-only-if conditions, refinement of arithmetic.

Where the repository's own documentation and its code differ, the code is modelled:

- The repository's README (lines 92-93) says that a child's non-zero exit code is propagated. The code does so
  only if no SIGINT, SIGTERM or SIGQUIT was forwarded before the failure was reaped.
  `SupervisorSafety.PropagatedExactly` is the exact condition, and `SupervisorMasked.FailureMasked` a run in
  which a child fails with any given code and the runner returns 0.
- The repository's README (line 81) says that `NSTL_TERMINATE` logs, flushes and aborts. The code has two guards
  in the way. Over the throttle, `push` returns before it looks at the level, and nothing is logged, flushed or
  aborted. And if another `stop` has won the exchange, the thread aborts without waiting for its line.
  `AsyncLogTerminate.CheckDecides` and `AsyncLogTerminate.FlushedIff` are the exact conditions,
  `AsyncLogTerminate.NeverWrittenIff` says which lines are lost for good, and `AsyncLogTerminate.TerminateDropped`
  and `AsyncLogTerminate.TerminateLost` are runs in which the promise fails.
- The factory of the Windows trigger rejects only an empty buffer, but a read asks for the buffer's size cut to 32
  bits. `TailWindows.DeliversIff`: everything is delivered if and only if that size is not a multiple of 2^32.
- The repository's README (line 71) says the Windows trigger uses `ReadDirectoryChangesW`. The code polls with `ReadFile`.
- The parent keeps its own copy of every pipe's write end, so the branch that closes a pipe at end of file is
  never taken (`SupervisorSafety.OutputForwarded`).
- RFC 9460 wants an empty value for no-default-alpn. The parser takes any (`DnsWireProofs.ValueExact`).

## Model

| member | source | states |
|---|---|---|
| `SupervisorSafety.RunInv` | bin/main_linux.cpp:149-354 | In every state of every interleaving: a dead child not yet reaped implies that SIGCHLD is pending or the reap loop has not yet seen an empty `waitpid`; unread pipe data implies an edge, an event in the current batch or a drain still to come; the record of forks, reaps and kills agrees with the runner's variables |
| `SupervisorSafety.NoLostWakeup` | bin/main_linux.cpp:149-229 | Whenever the runner is blocked in `epoll_wait`, every child not yet reaped is still running, there is at least one, and all output written so far has been forwarded |
| `SupervisorSafety.OutputForwarded` | bin/main_linux.cpp:231-256 | Per child, forwarded output is always a prefix of what it wrote, and all of it on return; end of file is never seen |
| `SupervisorSafety.ExitCodeExact` | bin/main_linux.cpp:189-205 | The exit code is always the code of the first non-zero child reaped before any forwarded signal, else 0, and once written never changes |
| `SupervisorSafety.PropagatedIff` | bin/main_linux.cpp:189-205 | For every history, the first counted failure is non-zero if and only if some failure has no forwarded signal before it |
| `SupervisorSafety.PropagatedExactly` | bin/main_linux.cpp:161-205 | Over every run the exit code is non-zero if and only if some child failed before the first forwarded signal |
| `SupervisorSafety.KillsExact` | bin/main_linux.cpp:163-205 | Every kill goes to exactly the children started and not yet reaped; the failure broadcast happens at most once, directly after the first counted failure and only then |
| `SupervisorMasked.FailureMasked` | bin/main_linux.cpp:163-205 | For every exit code there is a run in which a signal is forwarded, a child then exits with that code and is reaped, and the runner returns 0 |
| `SupervisorDeaths.DeathRecorded` | bin/main_linux.cpp:178-205 | Over every run, a child that leaves the process table was dead, and it is recorded with its own exit code, or with 128 + n if signal n killed it; a process the runner did not start leaves no trace |
| `SupervisorDeaths.DeathDecides` | bin/main_linux.cpp:189-205 | A child killed by signal n, if it is the first thing to go wrong, makes the exit code 128 + n in every later state and the others are told to end; a non-zero exit likewise with its code; any other death is only recorded |
| `SupervisorDeaths.RecordedDeath` | bin/main_linux.cpp:178-205 | And back: every recorded reap is the death of that child, in that place of the record and with that code |
| `SupervisorDeaths.SignalPassedOn` | bin/main_linux.cpp:155-224 | A signal that is read is passed on as it came to exactly the children started and not yet reaped, SIGCHLD starts the reap loop instead, and no other pending signal is lost |
| `SupervisorDeaths.RecordedSignal` | bin/main_linux.cpp:163-174 | And back: every signal passed on is one that was pending and has been read, never SIGCHLD |
| `SupervisorProgress.RunnerLowers` | bin/main_linux.cpp:323-354 | Every runner step after start-up lowers a lexicographic rank |
| `SupervisorProgress.EnabledUnlessBlocked` | bin/main_linux.cpp:323-349 | The runner always has a next step unless it has returned or is blocked in `epoll_wait` with nothing ready |
| `SupervisorProgress.DeadNeverBlocks` | bin/main_linux.cpp:323-349 | Once no remaining child is running, the runner is not blocked |
| `SupervisorProgress.QuietRunBounded` | bin/main_linux.cpp:323-354 | Without environment steps the runner takes at most an explicitly given number of steps |
| `SupervisorProgress.MaximalQuietRunReturns` | bin/main_linux.cpp:323-354 | If the remaining children are dead, every way of going on ends in a return with exit code, reaping and output complete |
| `SupervisorProgress.RunnerReturns` | bin/main_linux.cpp:323-354 | From every such state a run to that return exists |
| `SupervisorProgress.DoneIsComplete` | bin/main_linux.cpp:351-354 | On return every child has been reaped, the exit code is the first counted failure and all output has been forwarded |
| `SupervisorLoop.Runner.constructor` | bin/main_linux.cpp:284-286 | The start state: any number of processes, none started, any strays and signals already there |
| `SupervisorLoop.Runner.KillAll` | bin/main_linux.cpp:166-172 | The kill loop signals exactly the entries that are still positive |
| `SupervisorLoop.Runner.Find` | bin/main_linux.cpp:183-188 | The entry with a reaped pid, or none |
| `SupervisorLoop.Runner.Reaped` | bin/main_linux.cpp:183-205 | Clearing the entry, the exit code, the broadcast and `raised` are the transition system's reap step, whose code `SupervisorDeaths.DeathRecorded` gives: the exit status, or 128 + n for a death by signal n |
| `SupervisorLoop.Runner.ReapOne` | bin/main_linux.cpp:178-223 | One `waitpid`: a reap step, or the end of the loop when there is nothing to wait for |
| `SupervisorLoop.Runner.ReapChildren` | bin/main_linux.cpp:176-224 | The reap loop is a run, ends for every schedule, and ends with no child waitable |
| `SupervisorLoop.Runner.Forward` | bin/main_linux.cpp:163-174 | Forwarding one signal record is the transition system's step |
| `SupervisorLoop.Runner.ReapAfterSignal` | bin/main_linux.cpp:175-224 | A SIGCHLD record leads through the whole reap loop and back |
| `SupervisorLoop.Runner.HandleOne` | bin/main_linux.cpp:156-228 | One signal record is forwarded or leads through the reap loop |
| `SupervisorLoop.Runner.ReadSignals` | bin/main_linux.cpp:149-229 | `read_signal` is a run and ends for every schedule |
| `SupervisorLoop.Runner.CopyOut` | bin/main_linux.cpp:235-240 | A read of k bytes and its write to stdout are the transition system's step |
| `SupervisorLoop.Runner.CloseRead` | bin/main_linux.cpp:76-89 | Closing at end of file is the transition system's step |
| `SupervisorLoop.Runner.ReadOne` | bin/main_linux.cpp:235-254 | One read of a pipe: some bytes to stdout, or nothing left |
| `SupervisorLoop.Runner.ReadPipe` | bin/main_linux.cpp:231-256 | `read_pipe` is a run and ends with the pipe drained |
| `SupervisorLoop.Runner.EpollWait` | bin/main_linux.cpp:325-333 | What `epoll_wait` may report: only ready descriptors, nothing only if interrupted or nothing is ready |
| `SupervisorLoop.Runner.HandleEvents` | bin/main_linux.cpp:334-348 | The loop over one batch is a run that handles every event |
| `SupervisorLoop.Runner.HandleEvent` | bin/main_linux.cpp:336-347 | One event goes to `read_signal` or to the pipe it names |
| `SupervisorLoop.Runner.Turn` | bin/main_linux.cpp:323-349 | One turn of the event loop is a run and leaves less to do, or the runner is blocked |
| `SupervisorLoop.Runner.StartProcesses` | bin/main_linux.cpp:99-147 | Forking every child in order is a run, with children already writing and dying meanwhile; it succeeds exactly if every fork does, and then the entries are the pids the forks returned |
| `SupervisorLoop.Runner.RegisterPipes` | bin/main_linux.cpp:305-313 | Registering every pipe in order is a run |
| `SupervisorLoop.Runner.FinalDrains` | bin/main_linux.cpp:351-352 | The last drain of every pipe is a run to the return |
| `SupervisorLoop.Runner.Finish` | bin/main_linux.cpp:351-354 | After the last reap the runner returns with everything complete |
| `SupervisorLoop.Runner.Run` | bin/main_linux.cpp:284-354 | For every schedule `main` ends: a fork fails exactly if one of the results of `fork` is negative; otherwise it returns with everything complete, or waits for a child that is still running |
| `TailLinux.RunInv` | nstl/nstl/file_trigger_linux.cpp:56-157 | In every state of every interleaving: delivered bytes are the file from the start point to the offset, and bytes beyond the offset are announced by a queued event, an append in progress or a read still to come |
| `TailLinux.DeliversExactly` | nstl/nstl/file_trigger_linux.cpp:56-157 | Every byte exactly once and in order; when the worker is blocked with no event pending and no append in progress, every appended byte has been delivered |
| `TailLinux.StartPoint` | nstl/nstl/file_trigger_linux.cpp:160-179 | The start point is the handle's offset with `sow`, otherwise where the initial read ended, and never moves; delivered data is never taken back |
| `TailLinux.WorkerLowers` | nstl/nstl/file_trigger_linux.cpp:106-157 | Every worker step lowers a rank |
| `TailLinux.WorkerRests` | nstl/nstl/file_trigger_linux.cpp:106-157 | The worker has a next step unless its thread has ended or it waits with nothing ready |
| `TailLinux.QuietRunSettles` | nstl/nstl/file_trigger_linux.cpp:106-193 | Once the environment is quiet the worker takes at most an explicitly given number of steps, and then its thread has ended exactly if `stop` was called, otherwise it is idle with everything from the start point on delivered |
| `TailLinux.WakeupDelivers` | nstl/nstl/file_trigger_linux.cpp:127-157 | Once `epoll_wait` has reported the inotify descriptor, everything in the file at that moment has been delivered by the time the worker waits again or ends, also if the exit pipe was reported before it |
| `TailLinux.StopLosesNothing` | nstl/nstl/file_trigger_linux.cpp:127-157 | If a wake-up reports what is ready and no append is in progress, then whether the worker goes on or ends, everything in the file at the wake-up has been delivered |
| `TailLinuxLoop.FileTrigger.constructor` | nstl/nstl/file_trigger_linux.cpp:160-179 | The start state: any file, any handle offset, any buffer size |
| `TailLinuxLoop.FileTrigger.Stop` | nstl/nstl/file_trigger_linux.cpp:183-193 | Only the first call writes to the exit pipe |
| `TailLinuxLoop.FileTrigger.FillBuffer` | nstl/nstl/file_trigger_linux.cpp:61-61 | The front of the reused buffer is the next bytes of the file |
| `TailLinuxLoop.FileTrigger.ReadSome` | nstl/nstl/file_trigger_linux.cpp:61-81 | One read into the reused buffer and one callback with exactly those bytes is the transition system's step |
| `TailLinuxLoop.FileTrigger.ReadOnce` | nstl/nstl/file_trigger_linux.cpp:56-84 | One read: some bytes that fit the buffer, or none exactly at the end of the file |
| `TailLinuxLoop.FileTrigger.ReadAll` | nstl/nstl/file_trigger_linux.cpp:56-84 | `_read_data` is a run and ends at the end of the file, for every growth of the file meanwhile |
| `TailLinuxLoop.FileTrigger.TakeOnce` | nstl/nstl/file_trigger_linux.cpp:86-92 | One read of the inotify descriptor takes some events, or none |
| `TailLinuxLoop.FileTrigger.Drain` | nstl/nstl/file_trigger_linux.cpp:86-92 | `_drain_inotify` is a run and ends when a read takes no event |
| `TailLinuxLoop.FileTrigger.EpollWait` | nstl/nstl/file_trigger_linux.cpp:129-137 | What `epoll_wait` may report: only ready descriptors, in any order, the inotify one among them if events are queued; nothing at the end only if nothing is ready |
| `TailLinuxLoop.FileTrigger.HandleEvents` | nstl/nstl/file_trigger_linux.cpp:138-155 | The loop over one batch is a run; an exit is requested at its end exactly if the exit pipe was reported anywhere in the batch |
| `TailLinuxLoop.FileTrigger.HandleEvent` | nstl/nstl/file_trigger_linux.cpp:141-150 | An inotify event is drained before the file is read to its end, whether or not an exit is asked for; an exit event is remembered and nothing else makes one |
| `TailLinuxLoop.FileTrigger.Turn` | nstl/nstl/file_trigger_linux.cpp:127-156 | One turn of the loop is a run; the thread ends exactly if the exit pipe was reported, and then everything in the file at the wake-up has been delivered if an event was queued or no append was in progress; otherwise less is left to do |
| `TailLinuxLoop.FileTrigger.Run` | nstl/nstl/file_trigger_linux.cpp:106-179 | For every schedule the thread ends, after a `stop`, with everything delivered that was in the file at its last wait (if an event was queued or no append in progress there); or is left waiting with no event pending and, if no append is in progress, with everything from the start point on delivered |
| `TailWindows.SetOverlappedOffset` | nstl/nstl/file_trigger_win32.cpp:27-31 | Both halves are 32-bit and recombine to the 64-bit offset |
| `TailWindows.Worker.constructor` | nstl/nstl/file_trigger_win32.cpp:66-77 | The worker starts at offset 0 with nothing delivered |
| `TailWindows.Worker.ReadFile` | nstl/nstl/file_trigger_win32.cpp:80-91 | A read asks for the buffer's size cut to 32 bits and fills the buffer from the recombined offset with as many bytes as the system gives |
| `TailWindows.Worker.Deliver` | nstl/nstl/file_trigger_win32.cpp:132-146 | The span given to the callback is the part of the chunk behind the boundary, or all of it |
| `TailWindows.Worker.TakeTurn` | nstl/nstl/file_trigger_win32.cpp:78-171 | One turn of the loop is one step on values: chunk, end of file, exit while pending, exit while polling (`TailWindows.StopsIff` says which turns stop the worker) |
| `TailWindows.Worker.Work` | nstl/nstl/file_trigger_win32.cpp:66-172 | For every script of system behaviour the loop computes the run on values |
| `TailWindows.CallsExact` | nstl/nstl/file_trigger_win32.cpp:127-147 | For every sequence of chunk sizes and every growth, the concatenated callbacks are the file from the start point to the offset (0 with `sow`, otherwise the boundary), and no callback gets an empty or oversized span |
| `TailWindows.StopsIff` | nstl/nstl/file_trigger_win32.cpp:93-171 | The worker has stopped if and only if some turn met the exit event: signalled while a read was pending, or while polling at the end of the file; the end of the file alone never stops it |
| `TailWindows.NeverStops` | nstl/nstl/file_trigger_win32.cpp:159-171 | Without an exit event it runs on, however often it meets the end of the file |
| `TailWindows.FileIs` | nstl/nstl/file_trigger_win32.cpp:76-171 | While it runs, the file is what it was with everything appended |
| `TailWindows.CatchesUp` | nstl/nstl/file_trigger_win32.cpp:76-171 | Once appends stop, and unless the request is cut to 0, at most one turn per missing byte brings the offset to the end of the file |
| `TailWindows.EverythingDelivered` | nstl/nstl/file_trigger_win32.cpp:76-171 | And then every byte of the file from the start point on has been delivered |
| `TailWindows.NothingRead` | nstl/nstl/file_trigger_win32.cpp:80-91 | With a request cut to 0 no run ever reads or delivers anything |
| `TailWindows.DeliversIff` | nstl/nstl/file_trigger_win32.cpp:76-171 | After any turns without an exit event and enough quiet ones, the file with all that was appended is delivered from the start point on, in every run, if and only if the buffer's size is not a multiple of 2^32 |
| `AsyncLog.RunInv` | nstl/nstl/logger.cpp:23-81 | In every state of every interleaving: one winner of the exchange, at most one sentinel, put there by the winner; the worker has written exactly what it popped and stops at the sentinel |
| `AsyncLog.WrittenInOrder` | nstl/nstl/logger.cpp:23-69 | Written lines are always the first so many enqueued items in queue order; nothing behind the sentinel is ever written |
| `AsyncLog.StopFlushes` | nstl/nstl/logger.cpp:63-81 | When a `stop` returns true the output is exactly the lines enqueued ahead of the sentinel; a Terminate-level push whose own `stop` did that finds its line among them |
| `AsyncLog.ThrottleBound` | nstl/nstl/logger.cpp:55-83 | From the state in which the throttle has become T with at most T lines queued, and for as long as it stays T with at most P producers between check and enqueue, the queue never holds more than T + P lines |
| `AsyncLog.ThrottleTight` | nstl/nstl/logger.cpp:55-83 | For every T and P some run of a new logger sets the throttle to T and then fills the queue to exactly T + P |
| `AsyncLog.WorkerReturns` | nstl/nstl/logger.cpp:23-38 | Once the sentinel is queued the worker can always move until it returns, and each step brings it closer |
| `AsyncLogTerminate.CheckDecides` | nstl/nstl/logger.cpp:55-69 | A Terminate-level line goes on to the queue, and its thread to `stop`, exactly if the queue is not longer than the throttle at the check; otherwise the call changes nothing |
| `AsyncLogTerminate.ExchangeDecides` | nstl/nstl/logger.cpp:63-81 | The thread comes to abort with exactly the value `running` had at its exchange, and if that is true its line is in the output |
| `AsyncLogTerminate.FlushedIff` | nstl/nstl/logger.cpp:63-81 | However the run goes on, the line is in the output when its thread aborts if and only if the logger was running at the exchange or the line had been written before it |
| `AsyncLogTerminate.NeverWrittenIff` | nstl/nstl/logger.cpp:23-81 | However the run goes on, an enqueued line is never written if and only if the sentinel is ahead of it |
| `AsyncLogTerminate.TerminateDropped` | nstl/nstl/logger.cpp:57-60 | For every T: a Terminate-level push that finds T + 1 lines queued leaves its thread free, the logger running and the line nowhere |
| `AsyncLogTerminate.TerminateLost` | nstl/nstl/logger.cpp:63-81 | A thread aborts with its Terminate-level line behind the sentinel of another `stop`, never to be written |
| `AsyncLogLoop.OstreamLog.constructor` | nstl/nstl/logger.cpp:16-52 | The started logger: running, not throttled, nothing queued, nothing written |
| `AsyncLogLoop.OstreamLog.Check` | nstl/nstl/logger.cpp:57-60 | The line is dropped exactly when the queue is longer than the throttle |
| `AsyncLogLoop.OstreamLog.Exchange` | nstl/nstl/logger.cpp:73-73 | Wins exactly if the logger was still running |
| `AsyncLogLoop.OstreamLog.Enqueue` | nstl/nstl/logger.cpp:62-68 | The line goes to the end of the queue; a Terminate-level thread goes on to stop the logger |
| `AsyncLogLoop.OstreamLog.Sentinel` | nstl/nstl/logger.cpp:75-75 | The winner's empty item goes to the end of the queue |
| `AsyncLogLoop.OstreamLog.Pop` | nstl/nstl/logger.cpp:28-36 | The oldest item is taken: a line to write, or the end of the thread |
| `AsyncLogLoop.OstreamLog.Write` | nstl/nstl/logger.cpp:31-31 | The line taken is appended to the output |
| `AsyncLogLoop.OstreamLog.Work` | nstl/nstl/logger.cpp:23-38 | For every schedule the worker returns with exactly the lines ahead of the sentinel written, or is left waiting with every enqueued line written |
| `AsyncLogLoop.OstreamLog.AwaitWorker` | nstl/nstl/logger.cpp:76-76 | The winner's `join` ends, whatever the other threads do |
| `AsyncLogLoop.OstreamLog.Stop` | nstl/nstl/logger.cpp:71-81 | `stop` ends for every schedule with the value `running` had at its exchange, and if that is true the worker has returned with everything ahead of the sentinel written |
| `AsyncLogLoop.OstreamLog.FinishStop` | nstl/nstl/logger.cpp:75-78 | The winner's part: sentinel, join, and everything ahead of the sentinel written |
| `AsyncLogLoop.OstreamLog.StopAfter` | nstl/nstl/logger.cpp:64-68 | After a Terminate-level line is enqueued: it is flushed by this thread exactly if the logger was running at the exchange, and can never be written exactly if the sentinel is ahead of it |
| `AsyncLogLoop.OstreamLog.Push` | nstl/nstl/logger.cpp:55-69 | `push` ends for every schedule; the line is dropped, with nothing else done, exactly if the queue was longer than the throttle at the check; otherwise it is in the queue, and a Terminate-level one is flushed exactly if the logger was running at the exchange |
| `AsyncLogLoop.OstreamLog.PushPassed` | nstl/nstl/logger.cpp:62-68 | The part of `push` behind the check |
| `LogStack.Stack.InstallFunctor` | nstl/nstl/logger.cpp:129-147 | The top of the stack gets the log calls and its level becomes the global one; an empty stack changes nothing |
| `LogStack.Stack.PushBack` | nstl/nstl/logger.cpp:160-165 | The new sink is on top and installed |
| `LogStack.Stack.Erase` | nstl/nstl/logger.cpp:167-180 | The top entry goes and the one below is installed; otherwise every equal entry goes |
| `LogStack.Logger.Make` | nstl/nstl/logger.cpp:186-192 | Throws exactly for a null sink, and for a console sink while a console logger is active, and then changes nothing; otherwise the sink is on top, installed and its level the global one |
| `LogStack.Logger.Reset` | nstl/nstl/logger.cpp:220-233 | Releases the sink once; the second time nothing happens |
| `LogStack.LiveAt` | nstl/nstl/logger.cpp:160-180 | A live logger's entry is behind those of the live loggers constructed before it, and resetting it removes that entry |
| `LogStack.EraseExact` | nstl/nstl/logger.cpp:167-180 | Without shared sinks an erase takes out exactly the one entry |
| `LogStack.ResetKeeps` | nstl/nstl/logger.cpp:220-233 | A reset, of any logger, keeps stack, functor, level and console flag in agreement with the live loggers |
| `LogStack.ConstructKeeps` | nstl/nstl/logger.cpp:186-192 | So does a construction, also one that throws |
| `LogStack.ConstructExactly` | nstl/nstl/logger.cpp:186-192 | A construction is refused, with nothing changed, if and only if it is of a console logger while one is alive; otherwise the sink is the newest live one, on top and installed |
| `LogStack.ResetExactly` | nstl/nstl/logger.cpp:220-233 | A reset of a live logger takes exactly its entry out and the others keep their order; of any other it changes nothing |
| `LogStack.StackFollowsLoggers` | nstl/nstl/logger.cpp:122-233 | After any sequence of constructions and resets over distinct sinks the stack is the live sinks in construction order, its last one is installed with its level, and the console flag is set exactly when the one console logger is alive |
| `LogStack.ThrowsIff` | nstl/nstl/logger.cpp:186-192 | After any sequence of constructions and resets over distinct sinks, a construction throws if and only if it is of a console logger while another one is alive |
| `LogStack.InnermostRestoresIff` | nstl/nstl/logger.cpp:129-180 | Constructing a logger that is not refused and resetting it restores everything if and only if there was a logger below it (or the same one was still installed) |
| `LogStack.EraseExactIff` | nstl/nstl/logger.cpp:167-180 | With a sink shared between loggers, a reset takes out exactly its own entry if and only if the sink is nowhere else or fills the stack from that entry up |
| `DnsWire.ReadAlpns` | nstl/nstl/dns_tools_posix.cpp:50-74 | Accepts exactly the lists of length-prefixed strings and returns them |
| `DnsWire.ReadKeys` | nstl/nstl/dns_tools_posix.cpp:82-94 | The 16-bit keys of an even-length value; the 16-bit index does not wrap |
| `DnsWire.ReadAddresses` | nstl/nstl/dns_tools_posix.cpp:95-123 | The addresses of a value of whole length; the 16-bit index does not wrap |
| `DnsWire.AddParam` | nstl/nstl/dns_tools_posix.cpp:46-135 | One complete parameter adds what its value decodes to, at most one entry |
| `DnsWire.ResolveParams` | nstl/nstl/dns_tools_posix.cpp:34-140 | For every byte string the loop stays inside it, ends, and returns the parameters up to the first incomplete one |
| `DnsWire.ReadTxt` | nstl/nstl/dns_tools_posix.cpp:269-297 | Valid exactly for lists of character-strings, and then their concatenation |
| `DnsWireProofs.ValueExact` | nstl/nstl/dns_tools_posix.cpp:46-135 | A complete parameter yields p if and only if its key is p's and its value is p's RFC 9460 encoding (any value for no-default-alpn), and never more than one |
| `DnsWireProofs.OnTheWire` | nstl/nstl/dns_tools_posix.cpp:22-135 | Each parameter is on the wire as RFC 9460 numbers it: two bytes of key (0 to 4, 6, 7), two of length, the value, all big-endian; and those bytes decode to it |
| `DnsWireProofs.KeysExact` | nstl/nstl/dns_tools_posix.cpp:22-137 | Some value of a key yields a parameter if and only if the key is one of these seven |
| `DnsWireProofs.BlocksFirst` | nstl/nstl/dns_tools_posix.cpp:34-140 | Parsing distributes over concatenation after any block of complete parameters |
| `DnsWireProofs.ParamsRoundTrip` | nstl/nstl/dns_tools_posix.cpp:34-140 | Any encodable list of known parameters comes back unchanged and in order, with a truncated tail or without |
| `DnsWireProofs.DroppedAlone` | nstl/nstl/dns_tools_posix.cpp:50-137 | An ECH, unknown or malformed parameter can stand anywhere and changes nothing else |
| `DnsWireProofs.SplitExact` | nstl/nstl/dns_tools_posix.cpp:37-46 | Every byte string is complete parameters followed by a truncated tail |
| `DnsWireProofs.TruncatedTail` | nstl/nstl/dns_tools_posix.cpp:37-46 | That split is unique, and the result is exactly that of the complete parameters |
| `DnsWireProofs.TxtExact` | nstl/nstl/dns_tools_posix.cpp:269-297 | However text is split into character-strings, it decodes to their concatenation; nothing else is valid |
| `DnsWireProofs.TextRoundTrip` | nstl/nstl/dns_tools_posix.cpp:269-297 | Text cut into pieces of at most 255 bytes decodes to the same text |
| `Csv.WriteField` | nstl/nstl/csv_dict_reader.cpp:185-212 | Appends the encoded field: quoted exactly if it has a special character |
| `Csv.WriteEscaped` | nstl/nstl/csv_dict_reader.cpp:194-210 | Appends the field with escape, quote and newline escaped |
| `Csv.WriteRow` | nstl/nstl/csv_dict_reader.cpp:214-228 | Appends the encoded fields with separators between them |
| `Csv.RowRoundTrip` | nstl/nstl/csv_dict_reader.cpp:173-228 | Under a good configuration a row is written on one line and tokenizes to itself if and only if it is not the single empty field |
| `Csv.BadConfigLoses` | nstl/nstl/csv_dict_reader.cpp:185-228 | Every other configuration loses a row, given explicitly |
| `Csv.GoodExactly` | nstl/nstl/csv_dict_reader.cpp:173-228 | So a configuration is good if and only if every other row survives |
| `Csv.DefaultGood` | nstl/nstl/csv_dict_reader.hpp:30-39 | The default configuration is good, so with it every row but the single empty field survives |
| `Csv.FieldSpelling` | nstl/nstl/csv_dict_reader.cpp:185-212 | Under a good configuration a field is written as it is if it has no escape, separator, quote or newline, and otherwise between quotes with one more character for each that is escaped, no more |
| `Csv.BareRoundTrip` | nstl/nstl/csv_dict_reader.cpp:173-183 | Escapes without quotes, which the writer never uses, spell every row for the reader too, the separator included |
| `Csv.StrayEscape` | nstl/nstl/csv_dict_reader.cpp:173-183 | An escape before any other character or at the end of the line is an error, and the fields before it have been read |
| `CsvReader.ReadTokens` | nstl/nstl/csv_dict_reader.cpp:173-183 | The loop over the tokenizer collects exactly the tokens of the line, up to an escape error |
| `CsvReader.CsvDictReader.ParseColumns` | nstl/nstl/csv_dict_reader.cpp:17-42 | Reads one line and maps its names to positions; the three errors occur exactly in their cases |
| `CsvReader.CsvDictReader.Next` | nstl/nstl/csv_dict_reader.cpp:51-88 | Skips comments and empty lines and returns the next row, the end or the error; `CsvReader.CommentLine`, `EmptyLine`, `OtherLine` and `UnendedLine` say of every line which it is |
| `CsvReader.CommentLine` | nstl/nstl/csv_dict_reader.cpp:60-64 | A line that begins with the comment character, whatever it says, might as well not be there |
| `CsvReader.EmptyLine` | nstl/nstl/csv_dict_reader.cpp:53-84 | An empty line is skipped exactly if the configuration says so; otherwise it is a row of no fields, or a column mismatch |
| `CsvReader.OtherLine` | nstl/nstl/csv_dict_reader.cpp:53-84 | Any other line is a row of the fields it tokenizes to, or an error exactly for a bad escape or a wrong number of fields; nothing else is skipped |
| `CsvReader.UnendedLine` | nstl/nstl/csv_dict_reader.cpp:53-84 | The last line needs no newline |
| `CsvReader.CsvDictReader.GetField` | nstl/nstl/csv_dict_reader.cpp:110-136 | The field under a column's name, if there is a row that long |
| `CsvReader.CsvDictReader.GetData` | nstl/nstl/csv_dict_reader.cpp:138-171 | The next row as a mapping from column names |
| `CsvReader.ReadBack` | nstl/nstl/csv_dict_reader.cpp:51-88 | Reading written rows yields exactly those not taken for a comment or an empty line, then the end |
| `CsvReader.KeptExactly` | nstl/nstl/csv_dict_reader.cpp:53-64 | That is all rows if and only if none is written with the comment character first, or empty with empty lines skipped |
| `CsvReader.NotesChangeNothing` | nstl/nstl/csv_dict_reader.cpp:51-88 | Comments, and empty lines if they are skipped, anywhere in any document change nothing of what is read from it, rows or error |
| `CsvReader.AnnotatedReadBack` | nstl/nstl/csv_dict_reader.cpp:51-228 | Written rows with such lines put anywhere between them read back as those rows |
| `CsvReader.ColumnsExactly` | nstl/nstl/csv_dict_reader.cpp:17-42 | The header mapping exists if and only if the names are distinct, and sends each to its position and back |
| `CsvReader.DocumentRoundTrip` | nstl/nstl/csv_dict_reader.cpp:17-228 | A written header and rows read back as exactly those rows in order, then the end, with `get_field` and `get_data` giving row[i] for header[i] |
| `IpPrefix.AndArrays` | nstl/nstl/ip_tools.hpp:25-32 | The byte-wise and, also when the destination is an operand |
| `IpPrefix.CreateMask` | nstl/nstl/ip_tools.hpp:34-46 | Throws exactly for too many bits; otherwise byte i holds the mask's bits for it |
| `IpPrefix.RangeContains` | nstl/nstl/ip_tools.hpp:67-73 | True exactly if address and base agree under the mask |
| `IpPrefix.NumIsNat` | nstl/nstl/ip_tools.hpp:17-23 | The number given to a byte by its bits, which addresses are read with, is its value |
| `IpPrefix.MaskValue` | nstl/nstl/ip_tools.hpp:34-46 | Read big-endian, the mask of n bits in s bytes is 2^(8s) - 2^(8s-n) |
| `IpPrefix.ContainsExactly` | nstl/nstl/ip_tools.hpp:34-73 | For every size and prefix length, an address is contained if and only if it and the base agree after division by 2^(8s-n) |
| `IpPrefix.NestedOrDisjoint` | nstl/nstl/ip_tools.hpp:58-73 | Any two prefix ranges of one family are disjoint, or the one with the longer prefix lies in the other |
| `IpPrefix.LexIsNumeric` | nstl/nstl/ip_tools.hpp:113-189 | The byte-wise order of addresses is their order as numbers |
| `IpPrefix.OrderIsNumeric` | nstl/nstl/ip_tools.hpp:113-189 | `ip_range_less` over any mix of addresses and ranges orders by family and then by number, and masks play no part |
| `IpPrefix.StrictWeakOrder` | nstl/nstl/ip_tools.hpp:113-189 | It is a strict weak order |
| `IpPrefix.TieIsNumeric` | nstl/nstl/ip_tools.cpp:219-237 | `operator<` on ranges orders by base and mask as one number, so exactly one of <, ==, > holds |
| `IpPrefix.ContainsAny` | nstl/nstl/ip_tools.cpp:239-292 | True exactly if some range of the address's own family contains it |
| `IpPrefix.MappedExactly` | nstl/nstl/ip_tools.cpp:197-217 | Exactly the plain and the IPv4-mapped form of an IPv4 address give it back |
| `IpPrefix.Ipv4Outcomes` | nstl/nstl/ip_tools.cpp:197-217 | Throws exactly for a size that is neither 4 nor 16; none exactly for 16 bytes whose upper 96 bits are not 0xFFFF |
| `IpText.FillBuffer` | nstl/nstl/ip_tools.cpp:34-36 | The local buffer holds the text up to its first NUL, terminated |
| `IpText.DottedExactly` | nstl/nstl/ip_tools.cpp:104-117 | The dotted-decimal scanner accepts exactly the texts the printer prints |
| `IpText.UsualDigits` | nstl/nstl/ip_tools.cpp:27-45 | Digits are the usual ones, read and printed |
| `IpText.DottedValue` | nstl/nstl/ip_tools.cpp:27-45 | Four decimal numbers with dots are the address whose number has them as its bytes, the first one highest |
| `IpText.V4Exactly` | nstl/nstl/ip_tools.cpp:27-45 | A text is read as an IPv4 address if and only if it is short and, up to its first NUL, is what that address prints as |
| `IpText.RangeRoundTrip` | nstl/nstl/ip_tools.cpp:61-134 | For every address and every mask, prefix-shaped or not, parsing the printed range gives it back |
| `IpText.LengthIsMask` | nstl/nstl/ip_tools.cpp:47-92 | `a/n` means the same as `a/` and the printed n-bit mask, whatever a is and however n is spelled |
| `IpText.BareAddress` | nstl/nstl/ip_tools.cpp:72-76 | An address without a slash is the range of that address alone |
| `IpText.V4Good` | nstl/nstl/ip_tools.cpp:104-117 | IPv4 text meets all the conditions the range theorems ask for |
| `IpText.V4RoundTrip` | nstl/nstl/ip_tools.cpp:61-134 | So the IPv4 round trip needs no assumption |
| `IpText.V4RangeExactly` | nstl/nstl/ip_tools.cpp:61-92 | A text is the IPv4 range r if and only if it is r's address alone with the full mask, or the address, a slash, and a decimal or dotted spelling of the mask |
| `IpText.EitherRoundTrip` | nstl/nstl/ip_tools.cpp:146-157 | A printed address of either family parses to itself |
| `Vector.RoomIsSized` | nstl/nstl/vector.hpp:27-58 | Making room keeps size at most capacity, capacity 0 or at least 16 and capacity times element size at most SIZE_MAX, even if doubling wraps |
| `Vector.RunSized` | nstl/nstl/vector.hpp:27-58 | So every run of pushes, removals, reserves and resets does |
| `Vector.TooLongIff` | nstl/nstl/vector.hpp:27-34 | A capacity is refused if and only if its bytes cannot be counted in a machine word |
| `Vector.PushRefusedIff` | nstl/nstl/vector.hpp:44-58 | With elements of more than one byte, a push is refused for its length exactly when the vector is full and the doubled capacity (16 from nothing) is too long, also if one more element would have fitted |
| `Vector.Amortized` | nstl/nstl/vector.hpp:44-58 | Over any run of pushes, removals, reserves and resets from empty, reallocation carries at most twice as many elements as were pushed or asked room for; only single-byte elements need that doubling has not wrapped |
| `Vector.PushesPay` | nstl/nstl/vector.hpp:44-58 | With pushes and removals alone it is at most twice the pushes, as long as the final capacity has not passed half of the address space |
| `Vector.Vector.MemReserve` | nstl/nstl/vector.hpp:27-42 | The contents survive; a length error or a failed allocation changes nothing |
| `Vector.Vector.AutoCapacity` | nstl/nstl/vector.hpp:44-58 | Room for what is needed, or the exact error with nothing changed |
| `Vector.Vector.Reserve` | nstl/nstl/vector.hpp:196-196 | Room for what is asked with the contents unchanged, or refused with nothing changed |
| `Vector.Vector.PushBack` | nstl/nstl/vector.hpp:120-134 | Appends the value, or throws exactly when room is refused and changes nothing; at SIZE_MAX elements the new size wraps and the write would be outside the buffer |
| `Vector.Vector.MakeRoom` | nstl/nstl/vector.hpp:122-123 | Room for one more element with the contents unchanged; refused, or the size wraps, with nothing changed |
| `Vector.Vector.Place` | nstl/nstl/vector.hpp:124-125 | With room made, the value is put behind the last element |
| `Vector.Vector.PopBack` | nstl/nstl/vector.hpp:136-144 | Drops the last element; throws on an empty vector |
| `Vector.Vector.Clear` | nstl/nstl/vector.hpp:111-118 | Empty, with the capacity kept |
| `Vector.Vector.Reset` | nstl/nstl/vector.hpp:146-152 | Empty, with the buffer gone |
| `Vector.Vector.MoveDown` | nstl/nstl/vector.hpp:163-191 | An overlapping move towards the front reads the old elements |
| `Vector.Vector.Erase` | nstl/nstl/vector.hpp:154-168 | Removes exactly the element at the iterator and returns its position; rejects exactly the iterators outside the elements |
| `Vector.Vector.EraseRange` | nstl/nstl/vector.hpp:170-194 | Removes exactly the range and returns its start; an empty range is not checked, the others rejected exactly if outside or reversed |
| `Vector.Vector.CloseGap` | nstl/nstl/vector.hpp:183-193 | The elements behind the range move down to its start |
| `Vector.Vector.At` | nstl/nstl/vector.hpp:198-214 | The element, or an error exactly behind the end |
| `Vector.Vector.Swap` | nstl/nstl/vector.hpp:104-109 | Exchanges everything, also of a vector with itself |
| `Vector.Vector.Copy` | nstl/nstl/vector.hpp:73-82 | Equal contents in a buffer of its own, sized for the contents |
| `Vector.Vector.Assign` | nstl/nstl/vector.hpp:83-91 | Equal contents with the other vector unchanged, or an error with both unchanged; self-assignment is harmless |
| `Vector.Vector.MoveAssign` | nstl/nstl/vector.hpp:94-102 | The buffer moves over and the source is left empty; self-move is harmless |
| `Vector.Vector.Release` | nstl/nstl/vector.hpp:236-239 | Hands out buffer, size and capacity and leaves an empty vector |
| `ArgsEditor.IsArgSet` | nstl/nstl/args_editor.cpp:10-39 | The arguments that do not match in order, then the matching ones in reverse; the count of those that stay; found exactly if one matched; entries behind the count untouched; the three errors |
| `ArgsEditor.TakeOut` | nstl/nstl/args_editor.cpp:16-38 | The loop that does so in place, with argc - idx as its measure |
| `ArgsEditor.MoveToEnd` | nstl/nstl/args_editor.cpp:26-32 | One entry moves to the end and those behind it close up |
| `ArgsEditor.SameArguments` | nstl/nstl/args_editor.cpp:16-38 | No argument is lost or made up |
| `ArgsEditor.TakenMatch` | nstl/nstl/args_editor.cpp:20-25 | An entry is taken exactly if it is not null and its text is the flag, and stays exactly otherwise |
| `ArgsEditor.TakenConcat` | nstl/nstl/args_editor.cpp:16-38 | What stays keeps its order, what is taken comes out in reverse, for arguments cut in two anywhere |
| `ArgsEditor.AskAgain` | nstl/nstl/args_editor.cpp:16-38 | Asking again for the same flag finds and changes nothing |
| `ArgsEditor.AnyOrder` | nstl/nstl/args_editor.cpp:16-38 | Flags can be asked for in any order |

## Left out

- System calls that fail and make the code throw (`pipe2`, `fork`, `epoll_ctl`, `signalfd`, `inotify_add_watch`, `ReadFile` with an unexpected error): runs end there. What `fork` returns is an input of `Runner.Run`, and a failing one is an outcome.
- Grandchildren that keep a supervised child's stdout open and write after it is reaped.
- Partial reads of a signalfd record, which Linux does not produce.
- The child's side of `start_processes`: its environment variables, `dup2` and `execve`.
- The supervisors for macOS and Windows (`bin/main_macos.cpp`, `bin/main_win32.cpp`): the same policy over other system calls.
- The macOS file trigger, which registers its watch after the initial read.
- File truncation and callbacks that throw, in both file triggers.
- `stop` of the Windows trigger; the exit event is an input of each turn.
- The TBB queue's own algorithm: it is a FIFO whose size is its length. TBB may report -1 while the worker waits, which only a negative throttle could tell from 0, and `Logger::throttleSize` rejects those.
- `FileLog`, log levels, formatting and time stamps, and direct writes to the global log level or function.
- Boost's tokenizer is modelled from its documented behaviour, not from its source.
- The CSV reader's line counter, which is used only in an error message.
- DNS queries, `dn_expand` and the records other than SVCB, HTTPS and TXT.
- IPv6 text: `inet_ntop` and `inet_pton` for IPv6 are assumed to be inverse on addresses, with text that fits its buffer, has a colon, and has no slash and no NUL. IPv4 text is modelled in full.
- Vector.Vector.PushBack: takes the pushed value by value, so a reference into the buffer is not modelled; what a write outside the buffer does is left open, the call just ends there.
- Vector element destructors, which do nothing for trivially copyable types; unchecked access by `operator[]`, `front` and `back`.
- HTTP client, hashing, base64, time zones, floating-point helpers, backtraces, global initialisation, SPF.
- Small helpers (trim, split, scope guards, observer pointers, environment variables, number parsing, dead-lock detection): they keep no state across calls or only wrap one library call, so there is no law to prove beyond their own text.
