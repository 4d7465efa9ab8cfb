# Round-robin process scheduler simulator: a Dafny model

`signal/Scheduling.c` is a parent process that schedules ten child processes
round-robin. A one-second `SIGALRM` drives the scheduling epoch. `SIGUSR1`
grants one unit of CPU to a child. A real-time signal carries a child's I/O
request, and `SIGCHLD` reports a child's exit.

The parent keeps one shared state:
- a PCB table (pid, remaining quantum, state READY/RUNNING/SLEEP/DONE,
  accumulated wait);
- `running_idx`, the base quantum `baseTQ` and the live count `alive`;
- a circular READY queue of PCB indices;
- a SLEEP list of (index, wake time) pairs kept in parallel arrays.

This project models that state as one immutable record, `Controller.Sched`.
Each signal handler is one atomic event, a method from state to state.
Every handler has two levels of contract:
- it needs only `WF`: the arrays have their fixed size, the indices are in
  range, and the READY queue's live entries are distinct (`ReadyQueue.Valid`).
  `Notify.IoRequest` also needs a free SLEEP slot when the pid is known, and
  `Notify.SleepSlotFree` shows that one always exists under `Inv`;
- it keeps the reachable-state invariant `Controller.Inv`, stated as
  `Inv(s) ==> Inv(s')`.

`Inv` says all of the following:
- the pids are distinct;
- every quantum lies in `0..baseTQ`;
- at most one PCB is RUNNING, and it is `pcb[running_idx]` with quantum left;
- every READY PCB is in the READY queue;
- the SLEEP list holds exactly the SLEEP PCBs, once each;
- `alive` counts the PCBs that are not DONE.

`Startup.StartInv` shows the start-up state satisfies `Inv` when the pids
are distinct. `Simulation.Handle` shows every deliverable event keeps it,
but its exits go through the corrected `Notify.ReapChild`. So every state
reached from start-up through `Simulation.Handle` satisfies `Inv`. This is
not true of the program as written. With `child_exit` as written, reaping
a sleeping child leaves `Inv` at once: the PCB is DONE but still on the
SLEEP list (`Simulation.ExitLeavesInv`; see Findings). In the contracts
below, "in a reachable state" is short for "in any state satisfying
`Inv`", which is the form in which it is proved.

Under the same hypotheses as its `Inv` clause, every handler also keeps
every DONE PCB unchanged (`DoneFrozen`). For the notifications those
hypotheses include where the event came from: an I/O request comes from a
READY or RUNNING child (`FromActive`), and a reap names a child not yet
reaped (`NotReaped`). Without them the promise fails: the exit handler as
written lets the next expiry change a DONE PCB (see Findings).

Modules:
- `Types`: `NPROC`, the default quantum, `State`, `Pcb`, `Option`, and
  distinctness with its pigeonhole bound.
- `ReadyQueue`: `rq_push` and `rq_pop` on the concrete circular buffer.
  `Live` is the abstraction to the sequence of live entries, and `Enqueue`
  and `FirstReady` are reference definitions.
- `SleepList`: `sleep_insert`'s append, the shifting removal, and
  `Pending`/`DueIds`, the reference split of the list at time `now`.
- `Controller`: the shared state, its invariant and counting lemmas.
- `Epoch`: `timer_tick` and its steps, in order: expiry (`sleep_update`),
  wait accrual, the stale-RUNNING guard, selection, then dispatch with
  quantum exhaustion.
- `Notify`: `io_request` and the state part of `child_exit`, as written and
  corrected (see Findings).
- `Startup`: the choice of `baseTQ` and the PCB initialisation in `main`.
- `Child`: the burst counter of `child_main` as a state machine.
- `Simulation`: one dispatcher over the three parent events. It shows that
  the dispatcher's handlers can be called in every reachable state and keep
  the invariant. Exits go through the corrected `Notify.ReapChild`. The
  exit handler as written, `Notify.ChildExit`, does not keep the invariant
  for a sleeping child. The module also reaches, from start-up, the state
  that exhibits the finding below.

Clock and random values are inputs:
- `now` is the virtual time of `time(NULL)`.
- `roll` is a `rand()` value: the I/O duration is `roll % 5 + 1` and the
  initial burst is `roll % 10 + 1`.
- `coin` is the `rand()` value that chooses between exit (even) and I/O
  (odd).

## Notes on the code

- The comments at signal/Scheduling.c:35 and :51 say that only READY
  processes are put in the READY queue and only READY entries are taken out
  of it. The code keeps "READY implies queued", but not the converse. Selection is not the
  cause: `rq_pop` removes the selected entry together with every entry in
  front of it. A stale entry is left only when a queued READY task stops
  being READY outside selection: it goes to SLEEP on an I/O request, or to
  DONE on exit. That entry is not removed, and a later `rq_pop` skips and
  drops it. The model follows the code, so `Inv` has only the one
  direction. `ReadyQueue.Pop` states how such entries are skipped and
  dropped.
- Two guards never fire when handlers run atomically: the stale-RUNNING
  guard (`Epoch.ClearStale` gives `Inv(s) ==> s' == s`) and the clamp of the
  quantum at 0 (`Epoch.Dispatch` gives an exact decrement by one under
  `Inv`). Both are modelled as written.
- When the quantum runs out, the all-spent refresh scans the READY PCBs
  while the exhausted task is still RUNNING. That task is therefore not
  refreshed and is queued again with quantum 0. Selection later resets it
  to `baseTQ`, so nothing observable changes. `Epoch.Dispatched` states it.

## Model

| member | source | states |
|---|---|---|
| ReadyQueue.Contains | signal/Scheduling.c:39-43 | the duplicate scan answers true exactly when the index is among the live entries from the given offset on |
| ReadyQueue.Push | signal/Scheduling.c:36-49 | the index is appended at the tail iff the queue has room, the task is READY and the index is not yet live; otherwise the queue is unchanged; the result is a valid queue of distinct indices and holds at most `NPROC` entries |
| ReadyQueue.PushReadyAbsent | signal/Scheduling.c:37 | the capacity test never rejects a READY task that is not already queued |
| ReadyQueue.PushIdempotent | signal/Scheduling.c:36-49 | pushing the same index twice gives the same queue as pushing it once |
| ReadyQueue.EnqueueFacts | signal/Scheduling.c:84 | a series of pushes keeps the earlier entries at the front in order, adds exactly the pushed indices and creates no duplicate |
| ReadyQueue.FirstReady | signal/Scheduling.c:54-62 | the reference position for a pop: every entry in front of it is not READY and the entry at it is READY |
| ReadyQueue.DropHead | signal/Scheduling.c:55-58 | taking the head slot leaves the remaining live entries in order |
| ReadyQueue.Pop | signal/Scheduling.c:52-65 | the result is -1 or a READY index; it is the first READY live entry; that entry and everything in front of it leave the queue while the rest keep their FIFO order; with no READY entry the result is -1 and the queue ends empty |
| SleepList.Insert | signal/Scheduling.c:70-71 | the new (index, wake) pair is appended after the existing entries |
| SleepList.ExpirySplit | signal/Scheduling.c:76-95 | every kept entry still lies in the future; an index is woken iff one of its entries has arrived; kept plus woken account for every entry |
| SleepList.Partition | signal/Scheduling.c:76-95 | when no task sleeps twice, each sleeping index is woken or kept and never both, and the kept list stays duplicate-free |
| SleepList.WokenIffArrived | signal/Scheduling.c:79 | with each task listed once, an entry's task is woken exactly when its own wake time is at most `now` |
| SleepList.Purge | signal/Scheduling.c:130-137 | the corrected exit handler's purge: the SLEEP list keeps exactly the entries whose task does not carry the reaped pid, in their original order |
| SleepList.SurvivorsFacts | signal/Scheduling.c:130-137 | after the purge a sleeping index stays listed iff it was listed and its task does not carry the reaped pid; no index is listed twice |
| SleepList.RemoveAt | signal/Scheduling.c:86-89 | shifting the later slots down deletes exactly one entry and keeps the others in order |
| Controller.CountAliveExit | signal/Scheduling.c:130-137 | marking every PCB with the reaped pid DONE lowers the number of live PCBs by the number of live PCBs carrying that pid |
| Controller.MatchesOne | signal/Scheduling.c:130-137 | with distinct pids the exit loop matches exactly one PCB |
| Controller.MatchesNone | signal/Scheduling.c:130-137 | an unknown pid matches no PCB |
| Controller.AllDoneIffNoneAlive | signal/Scheduling.c:140 | the live count is zero iff every PCB is DONE |
| Epoch.WakeOne | signal/Scheduling.c:80-84 | a due task becomes READY with a full quantum and joins the queue tail unless it is already queued |
| Epoch.ExpiryStep | signal/Scheduling.c:78-93 | one pass of the expiry loop either wakes and removes the inspected entry or keeps it, and keeps the loop's progress invariant |
| Epoch.ExpiryTracked | signal/Scheduling.c:85-89 | after expiry the SLEEP list still holds exactly the SLEEP tasks, once each |
| Epoch.ExpiryKeepsInv | signal/Scheduling.c:76-95 | expiry keeps the scheduler invariant and leaves DONE PCBs unchanged |
| Epoch.SleepUpdate | signal/Scheduling.c:76-95 | the woken tasks are exactly the due entries in list order; they become READY with a full quantum and are pushed in that order; the list keeps exactly the future entries in their original order; nothing else changes; the invariant is kept |
| Epoch.AccrueWait | signal/Scheduling.c:159-163 | every READY PCB's wait grows by one and every other field and PCB is unchanged |
| Epoch.ClearStale | signal/Scheduling.c:166-169 | the running index is forgotten only when its task is DONE or SLEEP, and afterwards it never names such a task; in a reachable state the guard changes nothing |
| Epoch.Select | signal/Scheduling.c:172-180 | with a task already running nothing changes; otherwise the first READY queued task becomes RUNNING with a full quantum and leaves the queue, or none runs and the queue is emptied |
| Epoch.SelectKeepsInv | signal/Scheduling.c:172-180 | selection keeps the scheduler invariant |
| Epoch.RefreshQuanta | signal/Scheduling.c:196-206 | the refresh happens iff no READY PCB has quantum left, and then exactly the READY PCBs get a full quantum |
| Epoch.Exhaust | signal/Scheduling.c:194-213 | the exhausted task becomes READY and is queued at the tail unless already queued; the others are refreshed iff every READY task was spent |
| Epoch.DispatchKeepsInv | signal/Scheduling.c:182-213 | dispatch keeps the invariant; in a reachable state the quantum drops by exactly one and the clamp at 0 never fires |
| Epoch.Dispatch | signal/Scheduling.c:182-213 | only a RUNNING task is granted; its quantum drops by one but not below 0; with quantum left it keeps running; at 0 it is READY and queued, the CPU is freed, and the other READY PCBs are refreshed iff all were spent |
| Epoch.Schedule | signal/Scheduling.c:165-214 | the running task keeps the CPU; otherwise the first READY queued task is granted, or none; the granted task is still running afterwards or was re-queued at the tail; the queue is the old one minus the popped prefix, plus the exhausted task; waits, the SLEEP list and the live count are unchanged; the invariant is kept |
| Epoch.TickProgress | signal/Scheduling.c:172-183 | in a reachable state an epoch grants permission iff a task was running or some task is READY after expiry |
| Epoch.TimerTick | signal/Scheduling.c:153-215 | the woken tasks and the kept sleepers are as for expiry; each PCB's wait grows by one exactly when it is READY after expiry; the granted task is the running one, else the first READY task of the queue extended by the woken tasks, else none; the queue afterwards is that queue minus the popped prefix, with the granted task back at the tail when its quantum ran out; the invariant and DONE PCBs are kept; the CPU is never left idle while a task is READY |
| Notify.FindPid | signal/Scheduling.c:104-110 | the lookup returns the last PCB carrying the pid, or -1 exactly when no PCB carries it |
| Notify.IoDuration | signal/Scheduling.c:116 | the I/O duration lies in 1..5 |
| Notify.SleepInsert | signal/Scheduling.c:68-73 | the task becomes SLEEP and its (index, now + sec) pair is appended; nothing else changes |
| Notify.SleepSlotFree | signal/Scheduling.c:70 | in a reachable state a task that is not asleep always finds a free SLEEP slot |
| Notify.IoRequest | signal/Scheduling.c:103-124 | an unknown pid changes nothing; otherwise the task sleeps until `now` plus 1 to 5 and stops being the running task if it was; a request from a READY or RUNNING task keeps the invariant |
| Notify.IoKeepsInv | signal/Scheduling.c:118-123 | sending a READY or RUNNING task to sleep keeps the scheduler invariant and leaves DONE PCBs unchanged |
| Notify.SumWaits | signal/Scheduling.c:142-145 | the report loop yields the sum of every PCB's wait time |
| Notify.MarkDone | signal/Scheduling.c:130-139 | every PCB with the reaped pid becomes DONE and nothing else of it changes; the live count drops by the number matched; the running index is cleared if it matched |
| Notify.ExitKeepsInv | signal/Scheduling.c:130-140 | the exit of a READY or RUNNING child keeps the invariant, and afterwards the live count is zero iff every PCB is DONE |
| Notify.ChildExit | signal/Scheduling.c:127-150 | the exit handler as written: the reaped child's PCB becomes DONE and stops running; with distinct pids `alive` drops by exactly one for a known pid and not at all for an unknown one; the total wait is reported exactly when nothing is left alive, which in a reachable state, for any child not yet reaped (a sleeping one included), is exactly when every PCB is DONE; the invariant and DONE PCBs are kept for a READY or RUNNING child |
| Notify.ReapChild | signal/Scheduling.c:127-150 | the corrected exit handler: as `ChildExit`, and the reaped child's SLEEP entries are purged; for any child not yet reaped, including one asleep, the invariant is kept, DONE PCBs stay unchanged and the report comes exactly when every PCB is DONE |
| Notify.ReapKeepsInv | signal/Scheduling.c:130-140 | reaping any not-yet-reaped child with the purge keeps the invariant, and afterwards the live count is zero iff every PCB is DONE |
| Startup.BaseQuantum | signal/Scheduling.c:256-261 | a positive argument is the base quantum as given; otherwise it is 3; either way it is at least 1 |
| Startup.Blank | signal/Scheduling.c:28-33 | the initial globals: no running task, empty queue and SLEEP list, all ten children counted alive |
| Startup.Start | signal/Scheduling.c:274-287 | every child is READY with a full quantum and no wait, the queue holds 0..9 in order, nothing sleeps or runs, and with distinct pids the invariant holds |
| Startup.StartInv | signal/Scheduling.c:280-284 | the freshly initialised table satisfies the scheduler invariant |
| Child.Spawn | signal/Scheduling.c:221-222 | the initial burst lies in 1..10 and the child waits for permission |
| Child.OnSignal | signal/Scheduling.c:226-250 | a permission lowers a positive burst by exactly one, never below 0; one at burst 0 is a no-op; the child notifies the parent iff the burst reaches 0, exiting iff the coin is even and otherwise blocking on I/O; the wake restores the initial burst |
| Child.BurstTakesItsLength | signal/Scheduling.c:232-247 | a burst of b units takes exactly b permissions: the first b - 1 send nothing and the last sends the exit or the I/O request |
| Child.WakeRestartsBurst | signal/Scheduling.c:242-245 | after the I/O wake the burst is the initial one again and a further full burst of permissions ends it |
| Simulation.Handle | signal/Scheduling.c:267-271 | each event the operating system can deliver in a reachable state can be handled: a tick, an I/O request from a READY or RUNNING child, or the exit of any child not yet reaped, including a sleeping one killed from outside (through the corrected exit handler); each keeps the invariant, never revives a DONE PCB, and reports only on the last exit, when every PCB is DONE |
| Simulation.ExitThenExpire | signal/Scheduling.c:79-84 | with the exit handler as written, a child reaped while its SLEEP entry is due is DONE after the exit and READY, refilled and queued after the next expiry |
| Simulation.ReapThenExpire | signal/Scheduling.c:130-137 | with the corrected exit handler the reaped child stays DONE through the next expiry and the invariant holds |
| Simulation.Started | signal/Scheduling.c:274-287 | start-up with pids 100..109 and base quantum 3: every child READY with a full quantum and no wait, queued as 0..9, nothing asleep or running, the invariant holding |
| Simulation.Granted | signal/Scheduling.c:153-215 | the first epoch after start-up grants child 0, which is still running afterwards, with the SLEEP list empty and the pids unchanged |
| Simulation.Reached | signal/Scheduling.c:103-124 | after that epoch, child 0 (pid 100) asking for I/O at time 0 with `roll` 4 sleeps with an entry due at time 5, in a state satisfying the invariant where pid 100 is not yet reaped |
| Simulation.ExitLeavesInv | signal/Scheduling.c:130-137 | on the reached state, the exit handler as written leaves the invariant at once: PCB 0 is DONE but its index is still on the SLEEP list |
| Simulation.Revival | signal/Scheduling.c:79-84 | on the reached state, reaping pid 100 and expiring at time 5 leaves the PCB READY as written and DONE as corrected |

## Left out

- `fork`, `kill`, `pause`, `alarm`, `sigaction`/`signal` and `waitpid` are
  left out. Each handler is one atomic event on the shared state. The pid
  that `fork` returned and the pid reaped by `waitpid` are inputs. The
  signals `sleep_update` and `timer_tick` send appear only as outputs:
  `woken` and `granted`.
- Signal re-entrancy, lost or coalesced signals, and races between handlers
  are concurrency and are not modelled.
- `time(NULL)` and `rand()` become the parameters `now`, `roll` and `coin`.
  `srand` seeding is left out.
- All `printf` logging is left out.
- The floating-point mean wait of line 146 is left out. Only the integer
  sum is modelled (`Notify.SumWaits`), and `exit(0)` is modelled as the
  returned report.
- `atoi` is left out. `Startup.BaseQuantum` takes the parsed value.
- `lect05/taylor_multiprocess.c` is left out. It is a floating-point Taylor
  series with `fork`/pipe I/O and is not part of the scheduler.
- The `waitpid` loop at signal/Scheduling.c:129 reaps every finished child
  in one handler. The model handles one reaped pid per call. Several
  reaps are successive calls.
- The coupling between a child's `Child.Proc` state machine and the parent's PCB
  for it is not modelled. The two sides are stated separately.
- Notify.IoRequest: its invariant clause requires the sender to be READY or
  RUNNING. A SLEEP child is suspended in `pause` and a DONE child is gone, so
  neither can raise the I/O signal.
- Simulation.Handle: an I/O request is deliverable only from a READY or
  RUNNING child, for the reason above. Every exit of a child not yet reaped
  is deliverable, and it is handled by the corrected `Notify.ReapChild`
  rather than the handler as written.
- Notify.ChildExit: this is the handler as written. Its invariant and
  `DoneFrozen` clause (through Notify.ExitKeepsInv) requires the reaped
  child to be READY or RUNNING. For a SLEEP child the invariant is lost at
  once, because the SLEEP entry outlives the DONE PCB
  (`Simulation.ExitLeavesInv`), and the next expiry revives the PCB (see
  Findings). Its report clause does not depend on this and holds for every
  child not yet reaped.
- Notify.IoRequest: requires a free SLEEP slot for a known pid. The C code
  writes past its arrays otherwise. Notify.SleepSlotFree proves the slot is
  always free in a reachable state.
- Startup.Start: the invariant is promised only when the pids are distinct.
  That holds only when every `fork` succeeds.
- A failed `fork` is not modelled. It returns -1, and signal/Scheduling.c:275
  and :280 store that value unchecked.
- Integer overflow of the wait counters and of `now + sec` is not modelled.
  The model's integers are unbounded.

## Findings

| source | as written | input that shows it | evidently intended | confidence | as-written member | corrected member |
|---|---|---|---|---|---|---|
| signal/Scheduling.c:130-136 with :79-84 | `child_exit` marks the reaped PCB DONE but leaves its SLEEP entry; at the wake time `sleep_update` sets that PCB READY with a full quantum and queues it | `Simulation.Reached`: start with pids 100..109 and base quantum 3; the epoch at time 0 grants child 0; child 0 (pid 100) asks for I/O at time 0 with `roll` 4, so it sleeps until 5; it is killed from outside and reaped; then the timer fires at time 5 | a DONE PCB stays DONE: reaping also drops the child's SLEEP entry | not executed | Simulation.ExitThenExpire, Simulation.Revival | Notify.ReapChild, Simulation.ReapThenExpire |
