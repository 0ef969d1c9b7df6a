# Verified model of lawd

lawd is a C server library: one accept thread hands tasks to worker threads, each of which
runs many tasks as coroutines over an epoll set and a timer; on top of it are buffered
connections, an HTTP server, WebSocket framing and URI grammars. This project models its
scheduler, its coroutine switch, its buffered I/O, its framing and its address grammar in
Dafny 4.11 and proves what they promise. `dafny verify dfyconfig.toml` checks all of it.

## How the model is laid out

- Scheduler. `Worker` has the state one worker owns and its atomic steps; `StaleTimers` the
  bookkeeping of versions and lives; `Tick` and `NoLostWakeup` the loops of a tick and what a
  tick amounts to; `WorkerThread` the tick and the task pool as classes updated in place,
  proved equal to those loops. `Server` puts the accept thread and all workers into one state
  machine whose steps interleave freely, `ServerTheorems` says what holds in every reachable
  state, and `TickRuns` and `IdleWorkers` show that every tick of an idle worker is a run of
  that machine. `Deliveries` says what a delivered timeout or I/O event tells about its
  addressee, and `Admission` how full a table gets. `Unlinked` says what a dispatched task looks
  like, `QueueOrder` that queues are first in, first out, and `Shutdown` who leaves when.
  `Spawn` places tasks on queues. `Slots` packs ids into epoll words.
- Coroutines. `Coroutine` has registers, word memory and the two assembly routines as
  methods, and worlds of disjoint stacks in which runs of calls, switches and returns are
  followed.
- Connections. `Streams` has the resumable operations as functions on positions in a stream
  and what any number of retries amounts to; `Connection` the ring buffer and the operations
  in place; `Sync` the waiting form of an operation.
- Framing. `WebSocket` has heads, `Masking` the streaming mask.
- Tables and pools. `Table` is the id table against a plain map; `HttpPools` has
  the four pools of a worker by themselves, `ServerPools` and `PoolRuns` tie them to the runs
  of the server, and `HttpEntry` has them as objects, with the cleanup of an entry.
- Grammar. `Peg` has grammars read with ordered choice and greedy repetition against the
  language they generate; `Ipv6`, `Ipv6Address` and `Ipv6Theorems` the address rules, and
  `Ipv6Spelling` what they generate in characters, without the grammar.
- `Modular`, `Pigeonhole` and `Sequences` hold arithmetic, counting and sequences.

A run of a coroutine is one nondeterministic step: it ends in `law_ewait` or by returning a
value. System calls, the clock, random versions and TLS are inputs of the steps: every result
they can give is allowed. Fields named as history (a task's life, runs and deadline, an
entry's life and wait, a system's loc) are written but never read by a step.

## Where the code departs from its evident intent

Each of these is modelled as written, and the exact condition is proved.

- A callback that returns 6 is taken for a yield. No timer entry wakes its task, and any other
  event for it resumes a coroutine that has returned (`StaleTimers.OnlySignalSixLosesATask`,
  `StaleTimers.FinishedTaskIsResumed`; source/lawd/server.c:1179).
- `law_spawn` loses the popped task when every queue is full (`Spawn.Dispatcher.SpawnTask`;
  source/lawd/server.c:1075).
- `law_task_pool_pop` keeps the lock when the pool is empty (`WorkerThread.TaskPool.Pop`;
  source/lawd/server.c:381-384).
- Admission compares with `<=`, so a worker holds up to worker_tasks + 1 tasks, and with two
  workers or more, and only then, it does, and its pools run dry
  (`Admission.AdmissionPassesLimitExactly`, `ServerPools.PoolsRunDryExactly`;
  source/lawd/server.c:1306).
- The table tells ids apart by 32 of their bits (`Table.TableRefinesMapExactly`,
  `ServerTheorems.InsertFailsExactlyOnCongruentLives`; source/lawd/table.c:96-104).
- A write of zero bytes makes `law_htc_ensure_output` and `law_htc_flush` report success
  without room, and a WebSocket head can then be written in part (`Connection.Output.Ensure`,
  `Connection.Output.Flush`, `WebSocket.WriteHead`; source/lawd/http_conn.c:135-138).
- A retry of `law_htc_ensure_input` can fail as out of bounds although the request fits,
  because it counts the bytes already buffered once more (`Streams.ChunkingCanFail`;
  source/lawd/http_conn.c:54-56).
- `law_ws_read_head_large` drops the length it decodes (`WebSocket.HeadsRoundTrip`;
  source/lawd/web_sockets.c:197-202).
- `law_sync` measures its deadline on the real-time clock, so a wait exceeds the timeout if
  that clock is set back (`Sync.Call`; source/lawd/time.c:21-26).

## Model

| member | source | states |
|---|---|---|
| `Worker.ReadyPushKeepsInv` | source/lawd/server.c:480-492 | pushing on the ready list keeps the worker invariant: the list is chained by next, a mark of 1 exactly on its members, every resident task ready or suspended with a live timer entry |
| `Worker.NotifyKeepsInv` | source/lawd/server.c:1268-1271 | storing an event and pushing the task keeps the worker invariant |
| `Worker.NotifyIdKeepsInv` | source/lawd/server.c:1256-1275 | an event for an id the table does not know changes nothing; any other keeps the invariant |
| `Worker.TimerPopKeepsInv` | source/lawd/server.c:1228-1254 | popping a timer entry leaves no task without an entry to wake it: an entry of the current wait readies its task, any other readies none |
| `Worker.InsertKeepsInv` | source/lawd/server.c:1306-1320 | admitting a task whose key is free keeps the invariant and makes it ready |
| `Worker.DispatchKeepsInv` | source/lawd/server.c:1145-1190 | one run of a ready task that ends in a wait or in a return other than 6 keeps the invariant: a waiting task has an entry with its new version, a returned one has left the table; what it leaves in the task's record is Unlinked.DispatchedTask |
| `Worker.GiveKeepsInv` | source/lawd/server.c:358-372 | giving a finished task back keeps the worker invariant |
| `Worker.LinkedPush` | source/lawd/server.c:480-492 | pushing a task that is on no list in front keeps the chain of next fields |
| `Worker.LinkedPop` | source/lawd/server.c:495-508 | popping the first task leaves a chain of the rest, ended by the null link |
| `StaleTimers.TimerPopKeepsDated` | source/lawd/server.c:1228-1254 | versions keep counting dispatches, modulo 2^32, for every pending entry |
| `StaleTimers.InsertKeepsDated` | source/lawd/server.c:1306-1320 | admission keeps the version bookkeeping of every pending entry |
| `StaleTimers.DispatchKeepsDated` | source/lawd/server.c:1145-1190 | a dispatch keeps the version bookkeeping of every pending entry |
| `StaleTimers.RegistrationReaches` | source/lawd/server.c:1258-1266 | a registration finds a task exactly when that task is resident and its life is congruent to the registering one modulo 2^32; within 2^32 spawns only its own life |
| `StaleTimers.TimerReachesOnlyItsWait` | source/lawd/server.c:1228-1254 | a popped entry of the task's own life fires exactly when the dispatches since are a multiple of 2^32; with fewer than that, only the entry of the current wait fires |
| `StaleTimers.OnlySignalSixLosesATask` | source/lawd/server.c:1145-1190 | a dispatch keeps every task awakable if and only if the callback did not return 6, which cannot be told from a yield |
| `StaleTimers.FinishedTaskIsResumed` | source/lawd/server.c:1145-1190 | after a return of 6 no timer entry of its life fires for the task, and any other event for its id is dropped but makes it ready to be resumed |
| `StaleTimers.KeyOfLife` | source/lawd/server.c:729-740 | the table key of the n-th id is n modulo 2^32, across wraps of the id |
| `Slots.Encode` | source/lawd/server.c:119-136 | the bytes are the user data and the seven digits of the id from the lowest up, and unpack to the slot |
| `Slots.Decode` | source/lawd/server.c:141-157 | the id is the seven bytes after the first, weighed by powers of 256 from the lowest up, and the user data the first byte as a signed one |
| `Slots.SlotBijection` | source/lawd/server.c:119-157 | slots and 64-bit words correspond one to one, and only slot (0, 0) is the zero word |
| `Slots.Generator.Next` | source/lawd/server.c:729-740 | the n-th id handed out is n modulo 2^56 |
| `Slots.IdsAreFresh` | source/lawd/server.c:729-740 | two ids are equal exactly when their ordinals are congruent; before the first wrap all are distinct and nonzero, and no task's word is the zero word of the worker's own pipes |
| `Tick.FireAllDelivers` | source/lawd/server.c:1228-1254 | after the timer loop a task holds the first max of the timeouts addressed to it, and is ready exactly if there was one |
| `Tick.NotifyAllDelivers` | source/lawd/server.c:1256-1304 | after the event or message loop a task holds the first max of what it held and what was addressed to it, in order |
| `Tick.AdmitAllKeeps` | source/lawd/server.c:1306-1320 | admitting tasks in the order of the queue changes no other task and keeps the invariant |
| `Tick.AdmitAllResidents` | source/lawd/server.c:1306-1320 | exactly the admitted tasks are added to the table and to the ready list |
| `Tick.AdmitAllReady` | source/lawd/server.c:1306-1320 | the admitted tasks are in front of the ready list, the last one first |
| `NoLostWakeup.EventsDelivered` | source/lawd/server.c:1228-1304 | in a tick a resident task receives the first max_events of its timer, I/O and wakeup events, in that order, and becomes ready exactly if there is one |
| `NoLostWakeup.ReachingIs` | source/lawd/server.c:1228-1304 | what is addressed to a task, read off the fired entries, polled words and messages: a timeout for each entry of its id and version, the bits and user data of each nonzero word for its id in order, a wakeup for each message to it |
| `NoLostWakeup.GatheredReady` | source/lawd/server.c:1228-1320 | who is on the ready list when dispatching starts, and with which events |
| `NoLostWakeup.EndsAtRest` | source/lawd/server.c:1192-1325 | a tick that starts with nothing ready ends with nothing ready, every task in the table suspended, unmarked and with an entry of its id and version in the timer |
| `NoLostWakeup.RunsOnceIfReached` | source/lawd/server.c:1192-1325 | in a tick each resident task runs exactly once if an event is addressed to it and else keeps its record; one whose deadline has passed runs |
| `NoLostWakeup.RunAllRuns` | source/lawd/server.c:1145-1190 | the dispatch loop runs the k-th ready task exactly once; a wait leaves it suspended, unlinked, with its own room and deadline, a return leaves it out of the table with no room |
| `NoLostWakeup.RunAllSkips` | source/lawd/server.c:1145-1190 | the dispatch loop leaves a task that is not ready as it was |
| `NoLostWakeup.RunAllPool` | source/lawd/server.c:1145-1190 | the tasks that returned are, in reverse order, in front of the pool's list |
| `NoLostWakeup.RunAllTimer` | source/lawd/server.c:1145-1190 | after the dispatch loop the timer is, as a multiset, what it was plus one entry for each wait its runs ended in |
| `WorkerThread.TaskPool.constructor` | source/lawd/server.c:400-434 | all tasks are created into the pool, chained in the reverse order of the array, and the pool is full |
| `WorkerThread.TaskPool.Push` | source/lawd/server.c:358-372 | the task becomes the head of the list, linked to the old head, and no other record changes |
| `WorkerThread.TaskPool.Pop` | source/lawd/server.c:375-397 | the head of the list, or nothing from an empty pool, in which case the lock is kept |
| `WorkerThread.TaskPool.IsFull` | source/lawd/server.c:462-468 | the size equals the capacity exactly when every task is on the list |
| `WorkerThread.Thread.PollTimeout` | source/lawd/server.c:1201-1220 | the wait is never past the earliest deadline nor the worker's timeout, and is shorter than the latter only to meet a deadline |
| `WorkerThread.Thread.PushReady` | source/lawd/server.c:480-492 | in place: a marked task changes nothing, any other becomes the marked head of the list, linked to the old head |
| `WorkerThread.Thread.NotifyTask` | source/lawd/server.c:1268-1271 | the in-place delivery has the effect of the delivery step |
| `WorkerThread.Thread.PopTimer` | source/lawd/server.c:1228-1254 | one round of the timer loop has the effect of the timer step |
| `WorkerThread.Thread.FireTimers` | source/lawd/server.c:1228-1254 | the timer loop pops every entry that is due and no other, in the order of expiry |
| `WorkerThread.Thread.DrainPolls` | source/lawd/server.c:1256-1275 | the event loop delivers each polled event with a nonzero id, in order |
| `WorkerThread.Thread.DrainMessages` | source/lawd/server.c:1277-1304 | the message loop delivers each wakeup in order and reports whether no SHUTDOWN was among the messages |
| `WorkerThread.Thread.AdmitIncoming` | source/lawd/server.c:1306-1320 | tasks are admitted from the queue in order until it is empty or the table exceeds worker_tasks, so it may grow to worker_tasks + 1 |
| `WorkerThread.Thread.RunTask` | source/lawd/server.c:1145-1190 | one round of the dispatch loop, in place, has the effect of the dispatch step, which Unlinked.DispatchedTask spells out |
| `WorkerThread.Thread.DispatchReady` | source/lawd/server.c:1145-1190 | the dispatch loop empties the ready list with the effect of all its rounds |
| `WorkerThread.Thread.Tick` | source/lawd/server.c:1192-1325 | the whole tick, in place, ends at rest in exactly the state of the tick specification |
| `Server.StepKeepsInv` | source/lawd/server.c:1192-1434 | every atomic step of the accept thread or a worker keeps the system invariant |
| `Server.InitInv` | source/lawd/server.c:639-699 | a created server satisfies the system invariant |
| `Server.ReachableInv` | source/lawd/server.c:1192-1434 | every state of every interleaving satisfies the system invariant |
| `Server.StoppedIsFull` | source/lawd/server.c:1408-1434 | once the pool was seen full after the accept loop, every task is in it for good |
| `ServerTheorems.TasksAreConserved` | source/lawd/server.c:1344-1434 | in every reachable state each task is in exactly one of the pool, the accept thread's hand, a queue, a worker's hand, a worker's table |
| `ServerTheorems.ListsShareNext` | source/lawd/server.c:358-397 | the pool and all ready lists are chained by the one next field, disjoint, and a task is marked exactly when it is on a ready list |
| `ServerTheorems.PopAfterCheckSucceeds` | source/lawd/server.c:1346-1390 | the accept thread's pop after the emptiness check always finds a task |
| `ServerTheorems.ShutdownOwnsNothing` | source/lawd/server.c:1408-1434 | when SHUTDOWN messages are sent, every table, ready list, queue and hand is empty |
| `ServerTheorems.InsertFailsExactlyOnCongruentLives` | source/lawd/server.c:1306-1320 | the worker's insert-success check fails exactly when a resident task's ordinal is congruent to the new one modulo 2^32 |
| `ServerTheorems.InsertSucceedsInWindow` | source/lawd/server.c:1306-1320 | the check holds while fewer than 2^32 spawns lie between the new task and each resident of the worker |
| `ServerTheorems.RemoveFindsTheTask` | source/lawd/server.c:1149-1187 | the table holds the running task under its id, so removing it returns that task |
| `ServerTheorems.IdleWorkersAreArmed` | source/lawd/server.c:966-994 | a worker with nothing ready has a current timer entry for each of its tasks |
| `ServerTheorems.TimersAreInert` | source/lawd/server.c:1228-1254 | in every reachable state an entry that fires is the one of the current wait, unless 2^32 spawns lie between the lives or 2^32 dispatches between the waits of one life |
| `ServerTheorems.ResidentsAreBounded` | source/lawd/server.c:1306-1320 | a table holds at most worker_tasks + 1 tasks and never more than there are |
| `ServerTheorems.OneWorkerStaysInLimit` | source/lawd/server.c:400-434 | the only worker of a server never holds more than worker_tasks tasks |
| `ServerTheorems.StepsAreDefined` | source/lawd/server.c:1192-1406 | in every reachable state the index ranges that the steps ask for hold, so they leave out nothing the code would do |
| `Unlinked.DispatchedTask` | source/lawd/server.c:1145-1190 | every round of the dispatch loop leaves its task unlinked, unmarked, without events and one version on, either suspended with a timer entry of that version or out of the table and in the worker's hand |
| `Unlinked.TasksOffListsAreUnlinked` | source/lawd/server.c:1149-1153 | in every reachable state a task neither in the pool nor on a ready list has the null link and no mark, as the assertion before a run says |
| `Unlinked.OnlyWaitsTakeEvents` | source/lawd/server.c:966-994 | in every reachable state only a suspended task has room for events or holds any |
| `Unlinked.SetUpTask` | source/lawd/server.c:341-356 | in every reachable state the task that is set up gets the next id and the given version, is on no list, holds no event and has room for none, and no other task changes |
| `Shutdown.OnlyToldWorkersExit` | source/lawd/server.c:1408-1434 | in every reachable state each worker that left its loop was sent SHUTDOWN, none is sent it twice or before every task is back in the pool |
| `Shutdown.ServerCanShutDown` | source/lawd/server.c:1408-1434 | from every reachable state with every task in the pool, a run leaves the accept loop, sends every worker SHUTDOWN and ends with all of them gone |
| `Shutdown.DrainingIsFinal` | source/lawd/server.c:1408-1434 | in no run does the accept thread come back from draining: nothing is spawned any more and the next state of it is the stopped one |
| `Shutdown.RefusalIsUndone` | source/lawd/server.c:1346-1374 | an accept that fails leaves the server as it was before the pool was looked at |
| `QueueOrder.OldestIsTaken` | source/lawd/server.c:272-284 | in every reachable state the task a worker takes from its queue was spawned before every other task in it |
| `Admission.TableOverflows` | source/lawd/server.c:1306-1320 | every server with two workers or more reaches a state in which table 0 holds worker_tasks + 1 tasks, all but one waiting and that one ready for its first run, by a run in which every queue is empty whenever a task is put on one |
| `Admission.AdmissionPassesLimitExactly` | source/lawd/server.c:1306-1320 | some run lets some table hold more than worker_tasks tasks if and only if there are two workers or more |
| `Deliveries.TimeoutsAreDue` | source/lawd/server.c:1228-1254 | a task gets a timeout only when its own deadline has passed, unless a popped entry has been overtaken by 2^32 spawns, or by 2^32 dispatches of its own life |
| `Deliveries.TimeoutMeansDeadline` | source/lawd/server.c:1226-1254 | in every reachable state a tick of an idle worker gives a task in its table a timeout if and only if its own deadline has passed and it has room for an event, with the same exception |
| `IdleWorkers.IdleIsAtRest` | source/lawd/server.c:1192-1325 | in every reachable state a worker with nothing ready and nothing in hand is at rest: no task in its table holds an event |
| `IdleWorkers.QueueArrives` | source/lawd/server.c:1306-1320 | in every reachable state the first tasks of a worker's queue can all be inserted, unless 2^32 spawns lie between them or the residents |
| `IdleWorkers.IdleWorkersTick` | source/lawd/server.c:1192-1330 | from every reachable state in which a worker is idle, whatever a tick of it meets, the tick is a run of steps to a reachable state in which it is idle and at rest again, unless 2^32 spawns lie between the tasks it admits and holds |
| `Deliveries.RegisteredWord` | source/lawd/server.c:934-964 | the word registered for a task comes back as an event for its id with its user data, unless it is the zero word |
| `Deliveries.IoReachesOnlyItsLife` | source/lawd/server.c:1256-1275 | in every reachable state an I/O event finds a task exactly when that is resident and its ordinal is congruent to the registering one modulo 2^32; within 2^32 spawns, never a later life |
| `TickRuns.TickIsARun` | source/lawd/server.c:1192-1325 | a worker's tick is a run of the state machine's steps that ends in the state of the tick specification |
| `Spawn.ProbeIsAPermutation` | source/lawd/server.c:1001-1011 | the probe order (x + id) mod n visits every queue exactly once |
| `Spawn.ProbeAscends` | source/lawd/server.c:1001-1002 | the probe starts at id mod n and goes up by one, from the last queue to the first |
| `Spawn.AssignedIs` | source/lawd/server.c:996-1047 | among ids 1 to m, m / n have queue i first in their probe order, and one more exactly if 1 <= i <= m mod n |
| `Spawn.RoundRobinIsFair` | source/lawd/server.c:996-1047 | before ids wrap, two queues' shares of first tries differ by at most one |
| `Spawn.Dispatcher.SharesAreReceived` | source/lawd/server.c:996-1047 | successful dispatches of ids 1 to m with room in every queue put on each queue exactly its share, whatever is taken in between |
| `Spawn.Dispatcher.QueuesShareFairly` | source/lawd/server.c:996-1047 | before ids wrap, the numbers of tasks any two queues received differ by at most one |
| `Spawn.Dispatcher.DispatchOnce` | source/lawd/server.c:996-1042 | the task is appended to the first queue in probe order that has room; when none has, no queue changes and there is one wait for room |
| `Spawn.Dispatcher.AwaitRoom` | source/lawd/server.c:1013-1041 | the wait is on the write ends of all queues and nothing else, and the registrations are as before after it |
| `Spawn.Dispatcher.SpawnTask` | source/lawd/server.c:1049-1076 | law_spawn puts a task with the next id and the given version on the first queue with room; it conserves tasks if and only if the pool is empty or some queue has room, otherwise the popped task is lost |
| `Coroutine.Machine.RunSwap` | source/lawd/cor_x86_64.s:83-108 | the instructions of the swap leave the state of the swap specification |
| `Coroutine.Machine.RunCallEnter` | source/lawd/cor_x86_64.s:34-50 | the instructions up to the call leave the state of its specification |
| `Coroutine.Machine.RunCallExit` | source/lawd/cor_x86_64.s:54-67 | the instructions after the call leave the state of their specification |
| `Coroutine.Machine.CorCall` | source/lawd/cor_x86_64.c:28-41 | both words of the new environment are the top of its stack, then the call |
| `Coroutine.Machine.CorResume` | source/lawd/cor_x86_64.c:43-49 | a swap from the initial environment to the coroutine's |
| `Coroutine.Machine.CorYield` | source/lawd/cor_x86_64.c:51-57 | a swap from the coroutine's environment to the initial one |
| `Coroutine.SwitchStep` | source/lawd/cor_x86_64.s:83-108 | a swap saves the running context in its source, puts the destination's on the processor and returns the signal |
| `Coroutine.StartStep` | source/lawd/cor_x86_64.s:34-50 | a call saves the caller's context in the initial environment and enters the function on the new stack, with rsp below its top, rbp at it and the arguments in their registers |
| `Coroutine.FinishStep` | source/lawd/cor_x86_64.s:54-67 | the function's return puts the context of the environment its call was given on the processor and keeps its value in rax |
| `Coroutine.MoveKeepsInv` | source/lawd/cor_x86_64.s:34-108 | every call, switch, return or step of running code leaves each suspended environment leading to its context |
| `Coroutine.StaysAsleep` | source/lawd/cor_x86_64.s:34-108 | over any run that does not wake it, an environment keeps its context |
| `Coroutine.ResumesWhereItLeft` | source/lawd/cor_x86_64.s:34-108 | over any run on disjoint stacks, an environment resumes with the callee-saved registers, rbp, rsp and return address it switched away with; its call returns the waking signal, or the function's value |
| `Coroutine.ReturnGoesToTheLatestResumer` | source/lawd/cor_x86_64.s:50-67 | the function's return continues at the latest switch away through the environment its call was given, with its value as the result there |
| `Streams.EnsureAllWorks` | source/lawd/http_conn.c:46-70 | repeated calls: OK means nbytes are buffered, nothing is consumed, and OOB needs a request too large from the start or 2 * nbytes - 1 > max |
| `Streams.EnsureInputAnswers` | source/lawd/http_conn.c:46-70 | one call: OOB exactly if nbytes more than is buffered would not fit, OK exactly if it fits and nbytes are now buffered, else WANTR after a read and the read's code without one |
| `Streams.EnsuringEnds` | source/lawd/http_conn.c:46-91 | with reads that never fail for good and deliver at least as often as bytes are missing, the calls end in OK if 2 * nbytes - 1 fits |
| `Streams.ChunkingCanFail` | source/lawd/http_conn.c:46-70 | that bound is exact: a chunking of nbytes - 1 bytes makes the retry fail exactly when 2 * nbytes - 1 > max |
| `Streams.ReadScanStep` | source/lawd/http_conn.c:214-262 | one call passes over no delimiter and, when it asks for a retry, none ends in the bytes received |
| `Streams.ReadScanAnswers` | source/lawd/http_conn.c:214-262 | one call: a read that failed for good is reported and moves nothing; else OK exactly if the first delimiter ends in the bytes received, just past it, and if not OOB on a full window, WANTR after a read, or the read's code |
| `Streams.ScanAllWorks` | source/lawd/http_conn.c:214-262 | any number of calls from any state earlier calls left: OK is just past the first delimiter, OOB means none ends within max bytes of base |
| `Streams.ScanningIsChunkIndependent` | source/lawd/http_conn.c:214-262 | whatever the chunking, the calls end in OK just past the first delimiter if that end lies within max bytes of base, and in OOB otherwise |
| `Streams.ScanningEnds` | source/lawd/http_conn.c:214-262 | however they mix with WANTR and WANTW, reads that deliver are fewer than the bytes of the window while a retry is asked for |
| `Streams.ScanningNeverFails` | source/lawd/http_conn.c:214-262 | if no read fails for good, neither do the calls: they end in OK or OOB or ask for a retry |
| `Streams.ScanningSucceeds` | source/lawd/http_conn.c:214-262 | with reads that deliver as often as the window has free bytes, the calls end in OK just past the first delimiter if that lies in the window, and in OOB if not |
| `Streams.ParseAllIsJudged` | source/lawd/http_server.c:40-103 | repeated calls amount to one scan and one judgement of the bytes it found |
| `Streams.ParsingIsChunkIndependent` | source/lawd/http_server.c:40-103 | whatever the chunking, OK, SYN and OOM are the parser's verdict on the bytes from base to the end of the first delimiter, with the offset after them or back at base; OOB means no delimiter ends within max bytes of base |
| `Streams.ParsingSucceeds` | source/lawd/http_server.c:40-103 | with such reads the calls end in the parser's verdict on the bytes to the end of the first delimiter, and in OOB exactly if none ends in the window |
| `Connection.Ring.BytesAreStream` | source/lawd/http_server.c:79-82 | the bytes stored for positions the ring still reaches are the stream's |
| `Connection.Ring.Append` | source/lawd/http_conn.c:24-44 | appending overwrites only what the ring no longer reaches |
| `Connection.Ring.ScanFor` | source/lawd/http_conn.c:252-253 | a scan ends past the first delimiter in the buffer, or before the last len - 1 bytes |
| `Connection.Ring.Get` | source/lawd/web_sockets.c:154 | the next n bytes of the stream, or nothing |
| `Connection.Input.ReadFrom` | source/lawd/http_conn.c:24-44 | the in-place read takes as many bytes as the response and the room allow, or reports a full window or the response's code, and keeps the window intact |
| `Connection.Input.Ensure` | source/lawd/http_conn.c:46-70 | the in-place operation has the result and positions of its specification and keeps the window intact |
| `Connection.Input.ReadAndScan` | source/lawd/http_conn.c:214-262 | seek to base, read, seek back and scan have the result and positions of the specification, and seeking back never fails |
| `Connection.Input.ReadScanParse` | source/lawd/http_server.c:40-103 | the parser sees exactly the stream's bytes from base to the end of the first delimiter; OK exactly consumes them, a syntax error is at base |
| `Connection.Output.Put` | source/lawd/web_sockets.c:279-291 | all the bytes are appended, or none |
| `Connection.Output.WriteTo` | source/lawd/http_conn.c:93-111 | what is written is the front of what is pending, and nothing when nothing is |
| `Connection.Output.Conserved` | source/lawd/http_conn.c:93-194 | bytes delivered followed by bytes pending are the bytes put, in order |
| `Connection.Output.Ensure` | source/lawd/http_conn.c:113-150 | OOB exactly for a request beyond the buffer, OK exactly if there is now room or the write wrote zero bytes, else WANTW after a write and the write's code without one |
| `Connection.Output.Flush` | source/lawd/http_conn.c:173-194 | OK exactly if nothing is pending any more or the write wrote zero bytes, else WANTW after a write and the write's code without one |
| `Sync.Call` | source/lawd/server.c:1097-1133 | every round but the last asked for a retry in time and was registered; the last is OK, or TIME at or after the deadline, or a code of its own, or SYS for a retry that could not be registered; every wait is positive, exactly the time left, in the direction asked for, and longer than the timeout exactly if the clock was set back |
| `Sync.EnsureInputLifted` | source/lawd/http_conn.c:78-91 | waiting for input: OK means nbytes are buffered, nothing is consumed, OOB after a short start needs 2 * nbytes - 1 > max, and reads that never fail for good leave only OK, the deadline and a failed registration |
| `Sync.ReadParseLifted` | source/lawd/http_server.c:145-203 | waiting for a request line or headers: OK means the parser took exactly the bytes up to the end of the first delimiter, SYN or OOM that it was given those and did not, OOB that no delimiter ends within max bytes of base; reads that never fail for good leave only these, the deadline and a failed registration |
| `WebSocket.WriteSmall` | source/lawd/web_sockets.c:279-291 | the 6 bytes of the head, field by field, when OK; the result is OK exactly if there is room after the write that may be needed, and only after a write of zero bytes with room for 2 to 5 is part of it appended |
| `WebSocket.WriteMedium` | source/lawd/web_sockets.c:293-307 | the same for 8 bytes, where bytes 2 and 3 are length / 256 and length mod 256 |
| `WebSocket.WriteLarge` | source/lawd/web_sockets.c:309-322 | the same for 14 bytes, where byte 2 + i is length / 256^(7 - i) mod 256 |
| `WebSocket.WriteHead` | source/lawd/web_sockets.c:324-331 | the head's bytes, field by field, when OK; part of a head is left behind exactly when the write inside wrote nothing and there was room for two bytes but not for all |
| `WebSocket.ReadStart` | source/lawd/web_sockets.c:147-160 | the two bytes' fields, or an error that has consumed them when the mask bit is clear; a retry consumes and stores nothing |
| `WebSocket.ReadSmall` | source/lawd/web_sockets.c:162-171 | the four mask bytes, or nothing consumed |
| `WebSocket.ReadMedium` | source/lawd/web_sockets.c:173-187 | a length of 256 times its first byte plus its second, and the mask, or nothing consumed |
| `WebSocket.ReadLarge` | source/lawd/web_sockets.c:189-203 | twelve bytes are consumed and the mask stored, but not the length |
| `WebSocket.ReadRest` | source/lawd/web_sockets.c:226-240 | the reader the start selects consumes its bytes and stores what they say, or consumes nothing |
| `WebSocket.DecodeInSteps` | source/lawd/web_sockets.c:147-203 | the start and the reader it selects, one after the other, are the decoder of whole heads |
| `WebSocket.HeadBytesAreLaidOut` | source/lawd/web_sockets.c:279-331 | the bytes of a head by index: fin and opcode, the mask bit with the length or 126 or 127, the length in network byte order, the mask (section 5.2 of RFC 6455) |
| `WebSocket.DecodeIs` | source/lawd/web_sockets.c:147-203 | what the decoder takes whole, by index and weight: which bytes make fin, opcode, a 7-, 16- or 64-bit length and the mask |
| `WebSocket.ReadHead` | source/lawd/web_sockets.c:205-251 | the result is that of the first reader that does not succeed; reading in two steps gives the head the decoder finds; of a written head it consumes exactly the bytes, and gives the head back exactly for fin <= 1, opcode < 16 and length <= 65535 |
| `WebSocket.ReadBack` | source/lawd/web_sockets.c:147-331 | what reading any written head gives, whatever follows it |
| `WebSocket.HeadsRoundTrip` | source/lawd/web_sockets.c:147-331 | the round trip holds exactly for fin <= 1, opcode < 16 and length <= 65535; for all 64-bit lengths once the large reader keeps its length |
| `WebSocket.HeadsArePrefixFree` | source/lawd/web_sockets.c:279-331 | no head is a proper prefix of another, and equal bytes are equal heads |
| `WebSocket.HeadsAreShortest` | source/lawd/web_sockets.c:324-331 | any bytes that read as a head are at least as many as are written for it (section 5.2 of RFC 6455) |
| `Masking.Xor.constructor` | source/lawd/web_sockets.c:253-260 | the key with offset zero |
| `Masking.Xor.Apply` | source/lawd/web_sockets.c:269-277 | byte i of the first len is masked in place with key byte (offset + i) mod 4, the rest is untouched, and the offset advances modulo 2^64 |
| `Masking.MaskingIsStreamable` | source/lawd/web_sockets.c:269-277 | masking in any chunking with the carried offset, wraps included, is masking the concatenation once |
| `Masking.UnmaskingRestores` | source/lawd/web_sockets.c:269-277 | unmasking in any other chunking from an offset equal modulo 4 restores the data |
| `Table.EqualsAgreesWithHash` | source/lawd/table.c:96-104 | equality compares the low 32 bits, and equal ids have equal hashes |
| `Table.IdTable.Put` | source/lawd/table.c:180-195 | refused exactly if an id with the same low 32 bits is in the table, else the pointer is bound to those bits |
| `Table.IdTable.Get` | source/lawd/table.c:197-203 | the pointer bound to the id's low 32 bits |
| `Table.IdTable.Take` | source/lawd/table.c:205-215 | the pointer bound to the id's low 32 bits is returned, and they are unbound |
| `Table.PlainResults` | source/lawd/table.c:180-215 | each result of each history on a plain map is fixed by its own id's history: bound to the first pointer inserted since it was last removed |
| `Table.TableRefinesMapExactly` | source/lawd/table.c:96-215 | all histories over a set of ids have the results of a plain map if and only if no two of the ids share their low 32 bits |
| `Table.WindowsDoNotClash` | source/lawd/table.c:96-104 | ids in a window of 2^32 consecutive values never do |
| `Table.Clashing` | source/lawd/table.c:96-104 | two ids that do: inserting one makes the other found |
| `Table.CapacityIsAdequate` | source/lawd/server.c:540 | the capacity 4w / 3 + 2 is the least whose maximum size, three quarters of it less one, is at least w, and that is exactly w |
| `HttpPools.PoolsAreConserved` | source/lawd/http_server.c:817-853 | over all interleavings of suspended entries, free and held items of each of the four pools add up to w, and each item is in one place once |
| `HttpPools.AssertionHoldsExactly` | source/lawd/http_server.c:830-835 | the non-null assertion fails exactly when w entries are under way |
| `HttpPools.PoolsAreAdequateExactly` | source/lawd/http_server.c:435-466 | some interleaving fails the assertion if and only if there are more than w tasks and admission lets the table grow past w |
| `HttpPools.OneWorkerIsAdequate` | source/lawd/http_server.c:435-466 | as configured and with the admission test as written, the assertion is safe exactly for a single worker |
| `ServerPools.PoolsRunDryExactly` | source/lawd/http_server.c:817-853 | a worker comes to enter with worker_tasks entries under way, so that the assertion fails, if and only if the server has two workers or more, even in runs in which every queue is empty whenever a task is put on one |
| `PoolRuns.StepMirrored` | source/lawd/http_server.c:817-853 | each step of the server is a sequence of moves of a worker's pools that keeps them those of its residents and entries under way |
| `PoolRuns.RunsAreMirrored` | source/lawd/http_server.c:817-853 | in every run of the server each worker's pools go through a run of their own, up to a failed assertion |
| `PoolRuns.AssertionFailsExactlyWhenDry` | source/lawd/http_server.c:830-835 | the assertion fails at a first dispatch exactly when worker_tasks entries are under way |
| `HttpEntry.ItemPool.constructor` | source/lawd/http_server.c:348-369 | the list of all items, the last made first |
| `HttpEntry.ItemPool.Pop` | source/lawd/http_server.c:371-376 | the first item, or none |
| `HttpEntry.ItemPool.Push` | source/lawd/http_server.c:378-384 | the item goes to the front |
| `HttpEntry.PoolGroup.Take` | source/lawd/http_server.c:828-835 | one item of each pool, or a failed assertion exactly if one is empty |
| `HttpEntry.PoolGroup.Return` | source/lawd/http_server.c:847-850 | each item goes back to its own pool |
| `HttpEntry.Session.Setup` | source/lawd/http_server.c:715-815 | on every path the socket is closed once, a live SSL object is freed once, and what was registered is deleted |
| `Peg.ParseIsSound` | grammar/uri.g:32-98 | whatever a parse takes, the grammar generates |
| `Peg.RotationKeepsLanguage` | grammar/uri.g:60-88 | for every n and all rules a and b, *n(a b) a and a *n(b a) generate the same strings |
| `Ipv6.OctetTakesLongest` | grammar/uri.g:38-42 | dec_octet takes the longest prefix that is a number up to 255 without leading zeros, and fails only if there is none |
| `Ipv6.OctetLanguage` | grammar/uri.g:32-42 | the octets generated are exactly those numbers |
| `Ipv6.IPv4addressIsExact` | grammar/uri.g:46 | IPv4address takes a whole string exactly when it is four octets with dots between them |
| `Ipv6.Ls32Exact` | grammar/uri.g:57-58 | whatever ls32 derives, a parse takes whole |
| `Ipv6Address.AlternativesAreApart` | grammar/uri.g:90-98 | no alternative derives a prefix of what a later alternative derives |
| `Ipv6Theorems.AlternativeExact` | grammar/uri.g:90-98 | each alternative takes whole whatever it derives |
| `Ipv6Theorems.AlternativeRewrite` | grammar/uri.g:60-98 | each rewritten alternative generates what RFC 3986's does |
| `Ipv6Theorems.IPv6addressIsExact` | grammar/uri.g:86-98 | IPv6address takes a whole string exactly when section 3.2.2 of RFC 3986 derives it, and any shorter prefix it takes is an address |
| `Ipv6Theorems.RfcRuleFailsExactly` | grammar/uri.g:60-84 | read with ordered choice, RFC 3986's own rule takes an address with groups before the double colon exactly when its alternative has no room for more groups, and refuses it otherwise |
| `Ipv6Spelling.GroupLanguage` | grammar/uri.g:54-57 | h16 generates exactly the strings of one to four of the characters 0 to 9, a to f and A to F |
| `Ipv6Spelling.ByteLanguage` | grammar/uri.g:38-42 | dec_octet generates exactly the decimal numerals of 0 to 255 |
| `Ipv6Spelling.QuadLanguage` | grammar/uri.g:46 | IPv4address generates exactly four such numerals with dots between them |
| `Ipv6Spelling.LowElim` | grammar/uri.g:57-58 | n groups with a colon each and ls32 generate only parts joined by colons that stand for n + 2 groups, the last of which may be a dotted quad for two |
| `Ipv6Spelling.LowIntro` | grammar/uri.g:57-58 | and all of those |
| `Ipv6Spelling.AddressLanguage` | grammar/uri.g:86-98 | what RFC 3986 derives and what IPv6address takes whole are exactly eight groups, or a double colon for at least one of them, with a dotted quad for the last two allowed |
| `Ipv6Theorems.OldRuleExample` | grammar/uri.g:60-61 | 2001:db8:: is taken by the rewritten rule and refused by the old one |

## Left out

- The timer heap and the hash map's buckets, growth and allocation failures (source/lawd/time.c, source/lawd/table.c): a multiset with extract-min and a map; their library is not part of this model.
- The buffer, parser and grammar generator libraries: `pgc_buf` is the ring that source/lawd/http_conn.c and its tests describe, including that a seek fails outside the stored window; the repetition, choice and sequence of the generator are those its tests in tests/lawd/uri.c show.
- source/lawd/http.c: an older duplicate of the connection and server code, written against a header that is not part of this model.
- source/lawd/buffer.c, source/lawd/event.c, source/lawd/safemem.c: system-call and OpenSSL wrappers, reduced to the results they can give; an end of file is its own result, not a count of zero.
- Sockets, binding, TLS handshakes and shutdowns, pipes and the clock are inputs; one pipe read or write moves a whole message.
- Fatal assertions about system calls (`SEL_TEST`, `SEL_ASSERT`) end the process; what is proved is that the assertions about the program's own state hold.
- `law_ewait` failing to insert its timer: it then returns at once without yielding, which `law_sync` takes for an ended wait; the scheduler model has every wait insert its entry.
- The range of error codes: `LAW_ERR_OK` is zero and every other code is negative, as the callers' tests for positive results take for granted.
- Tasks spawned from inside a worker by `law_spawn` are modelled beside the server's state machine, not in it: conservation and shutdown are stated for servers whose tasks come from the accept thread.
- A NULL event array is allowed with room for no event, as `law_sync_wait` passes one; the assertion in `law_task_push_event` that would refuse it (source/lawd/server.c:512) is not.
- Instruction encodings and the byte layout of words: memory holds one word per address, and running code is trusted to leave suspended stacks and environments alone.
- Connection.Input.Ensure: does not model the wrap of size_t when end - offset + nbytes exceeds 2^64, because no caller in the repository passes such a request.
- Server.StepKeepsInv: assumes callbacks do not return 6, because StaleTimers.OnlySignalSixLosesATask shows that such a return breaks the invariant at once.
- Sync.Call: assumes some reading of the clock reaches the deadline, because without it the loop need not end.
- PoolRuns.RunsAreMirrored: takes every task for an HTTP entry, and follows the pools up to a failed assertion, where the process would end; the server's machine goes on.
- Which queues are full is not part of the server's machine, so a Push there may choose any queue; the probe order is that of `Spawn`, and `Admission` and `ServerPools` state their results also for runs in which every task goes to the first queue tried and all queues are empty then, so that no capacity matters.
- Admission.AdmissionPassesLimitExactly: assumes fewer than 2^31 tasks, because their number is a C int (source/lawd/server.c:408).
- `law_ws_accept` and `law_ws_gen_accept`, and the waits and log messages of `law_ws_read_head`: an await interface, logging and SHA-1 that are not part of this model.
- URI printing, status strings, header lookup, logging and error stacks: easy members with no hard property.
